/**
 What the matcher's tests on an argument mean, said of the letters of the argument and of what is
 declared, for every command and argument.
 */
module ArgWords {
  import opened Options
  import opened ArgCommand
  import opened ArgMatcher

  // ---------------------------------------------------------------------------- names

  /** `d` is a name declared for the parameter, and `name` is it with `rest` after it. */
  ghost predicate WrittenAs(p: FlagOption, name: string, d: string, rest: string) {
    && (d == p.longName || p.short == Some(d))
    && name == d + rest && (p.prefixed || rest == "")
  }

  /** A name is the parameter's id, or a declared name; after one of a prefixed parameter more may follow. */
  lemma MatchedExactly(p: FlagOption, name: string)
    ensures IsMatch(p, name) <==> name == p.id || exists d, rest :: WrittenAs(p, name, d, rest)
  {
    if IsMatch(p, name) && name != p.id {
      var d := if NameFits(p, p.longName, name) then p.longName else p.short.value;
      assert WrittenAs(p, name, d, name[|d|..]);
    }
    forall d, rest | WrittenAs(p, name, d, rest) ensures IsMatch(p, name) {
      assert d <= name;
      assert rest == "" ==> name == d;
    }
  }

  // ----------------------------------------------------------------------------- flags

  /** The argument starts with exactly `n` signs. */
  ghost predicate Signs(arg: string, sign: char, n: nat) {
    && n <= |arg| && (forall i :: 0 <= i < n ==> arg[i] == sign)
    && (n < |arg| ==> arg[n] != sign)
  }

  /** Some name is declared with a plus in front. */
  ghost predicate PlusDeclared(c: Command) {
    exists p, name :: p in c.flagOptions && (p.longPrefix == "+" + name || p.short == Some("+" + name))
  }

  /** A space stands before the first equals sign, or anywhere if there is none. */
  ghost predicate Spaced(arg: string) {
    exists i :: 0 <= i < |arg| && IsWhitespace(arg[i]) && '=' !in arg[..i]
  }

  lemma UsesPlusExactly(c: Command)
    ensures UsesPlus(c) <==> PlusDeclared(c)
  {
    if UsesPlus(c) {
      var i :| 0 <= i < |c.flagOptions| &&
        (|| HasSign(c.flagOptions[i].longPrefix, '+')
         || (c.flagOptions[i].short.Some? && HasSign(c.flagOptions[i].short.value, '+')));
      var p := c.flagOptions[i];
      var text := if HasSign(p.longPrefix, '+') then p.longPrefix else p.short.value;
      assert text == "+" + text[1..];
    }
    if PlusDeclared(c) {
      var p, name :| p in c.flagOptions && (p.longPrefix == "+" + name || p.short == Some("+" + name));
      var i :| 0 <= i < |c.flagOptions| && c.flagOptions[i] == p;
      assert ("+" + name)[0] == '+';
    }
  }

  /** No space before the equals sign is no space in the key. */
  lemma KeyIsUnspaced(arg: string)
    ensures var key := match SplitOnce(arg) case Some((k, _)) => k case None => arg;
      Unspaced(key) <==> !Spaced(arg)
  {
    hide IsWhitespace;
    var key := match SplitOnce(arg) case Some((k, _)) => k case None => arg;
    assert key <= arg && '=' !in key && (key == arg || arg[|key|] == '=');
    forall i | |key| < i <= |arg| ensures '=' in arg[..i] {
      assert arg[..i][|key|] == '=';
    }
    forall i | 0 <= i < |arg| && IsWhitespace(arg[i]) && '=' !in arg[..i] ensures i < |key| {
      EqualsIsNoSpace();
    }
    forall i | 0 <= i < |key| && IsWhitespace(key[i]) ensures Spaced(arg) {
      assert arg[i] == key[i] && arg[..i] == key[..i];
      assert forall x :: x in key[..i] ==> x in key;
    }
  }

  lemma EqualsIsNoSpace()
    ensures !IsWhitespace('=')
  {
  }

  /** One or two dashes, or one plus where it is in use. */
  ghost predicate Marked(arg: string, plus: bool) {
    Signs(arg, '-', 1) || Signs(arg, '-', 2) || (plus && Signs(arg, '+', 1))
  }

  lemma MarkedExactly(arg: string, plus: bool)
    ensures Marked(arg, plus) <==>
      if plus && HasSign(arg, '+') then !StartsWith(arg, "++")
      else if HasSign(arg, '-') then |arg| < 3 || !StartsWith(arg, "---")
      else false
  {
    assert StartsWith(arg, "++") <==> |arg| >= 2 && arg[0] == '+' && arg[1] == '+';
    assert StartsWith(arg, "---") <==> |arg| >= 3 && arg[0] == '-' && arg[1] == '-' && arg[2] == '-';
  }

  lemma MaybeExactly(arg: string, plus: bool)
    ensures MaybeFlagOption(arg, plus) <==> Marked(arg, plus) && !Spaced(arg)
  {
    hide Spaced, Marked, Unspaced, SplitOnce;
    KeyIsUnspaced(arg);
    MarkedExactly(arg, plus);
  }

  /** An argument is taken for a flag exactly when it has a sign with something after it and no space in its key. */
  lemma FlagLikeExactly(c: Command, arg: string)
    ensures FlagLike(c, arg) <==> |arg| > 1 && Marked(arg, PlusDeclared(c)) && !Spaced(arg)
  {
    hide MaybeFlagOption, UsesPlus, PlusDeclared, Marked, Spaced;
    MaybeExactly(arg, UsesPlus(c));
    UsesPlusExactly(c);
  }

  /** A run of values ends at what is taken for a flag, and at a bare sign that is being completed. */
  lemma ValuesEndExactly(c: Command, args: seq<string>, i: nat, compgen: bool)
    requires i < |args|
    ensures EndsValues(args, i, UsesPlus(c), compgen) <==>
      || FlagLike(c, args[i])
      || (compgen && i == |args| - 1 && (args[i] == "-" || (args[i] == "+" && PlusDeclared(c))))
  {
    hide MaybeFlagOption, UsesPlus, PlusDeclared;
    MaybeExactly(args[i], UsesPlus(c));
    UsesPlusExactly(c);
    EqualsIsNoSpace();
    if |args[i]| == 1 {
      BareSign(args[i]);
    }
  }

  lemma BareSign(arg: string)
    requires |arg| == 1
    ensures arg == "-" || arg == "+" ==> !Spaced(arg)
    ensures Signs(arg, '-', 1) <==> arg == "-"
    ensures Signs(arg, '+', 1) <==> arg == "+"
    ensures !Signs(arg, '-', 2)
  {
  }

  // ---------------------------------------------------------------------------- clusters

  /** A letter, written with a dash, is a name of the parameter at `k` and of none before it. */
  ghost predicate StandsFor(c: Command, letter: char, k: int) {
    FirstMatchAt(c.flagOptions, "-" + [letter], k)
  }

  ghost predicate IsLetter(c: Command, letter: char) {
    exists k :: StandsFor(c, letter, k)
  }

  ghost predicate LettersFrom(c: Command, arg: string, i: nat) {
    forall j :: i <= j < |arg| ==> IsLetter(c, arg[j])
  }

  /** A letter is looked up as if it were written alone, with a dash. */
  lemma LetterExactly(c: Command, arg: string, j: nat, p: FlagOption)
    requires j < |arg|
    ensures Letter(c, arg, j) == Some(p) <==> exists k :: StandsFor(c, arg[j], k) && c.flagOptions[k] == p
  {
    assert ['-', arg[j]] == "-" + [arg[j]];
  }

  lemma AllLettersExactly(c: Command, arg: string, i: nat)
    ensures AllLetters(c, arg, i) <==> LettersFrom(c, arg, i)
  {
    hide StandsFor, Letter;
    forall j | i <= j < |arg| ensures Letter(c, arg, j).Some? <==> IsLetter(c, arg[j]) {
      if Letter(c, arg, j).Some? {
        LetterExactly(c, arg, j, Letter(c, arg, j).value);
      }
      if IsLetter(c, arg[j]) {
        var k :| StandsFor(c, arg[j], k);
        InRange(c, arg[j], k);
        LetterExactly(c, arg, j, c.flagOptions[k]);
      }
    }
  }

  lemma InRange(c: Command, letter: char, k: int)
    requires StandsFor(c, letter, k)
    ensures 0 <= k < |c.flagOptions|
  {
  }

  /** The first subcommand that the first letter of a cluster names, written with a dash. */
  ghost predicate NamedFirst(c: Command, arg: string, k: int) {
    |arg| >= 2 && FirstNamedAt(c.subcommands, "-" + [arg[1]], k)
  }

  /**
   A cluster is not two dashes with more. If the first letter names a subcommand, the letters after it
   are that subcommand's; otherwise all of them are the command's own.
   */
  lemma ClusterExactly(c: Command, arg: string, combine: bool)
    requires |arg| >= 2
    ensures MatchCombineShorts(c, arg, combine).Some? ==>
      combine && !(arg[0] == '-' && arg[1] == '-')
    ensures forall k :: NamedFirst(c, arg, k) && combine && !(arg[0] == '-' && arg[1] == '-') ==>
      (MatchCombineShorts(c, arg, combine).Some? <==> LettersFrom(c.subcommands[k], arg, 2))
    ensures (forall k :: !NamedFirst(c, arg, k)) && combine && !(arg[0] == '-' && arg[1] == '-') ==>
      (MatchCombineShorts(c, arg, combine).Some? <==> LettersFrom(c, arg, 1))
  {
    hide AllLetters, LettersFrom, IsCluster, MatchCombineShorts;
    assert ['-', arg[1]] == "-" + [arg[1]];
    assert StartsWith(arg, "--") <==> arg[0] == '-' && arg[1] == '-';
    AllLettersExactly(ClusterOf(c, arg).0, arg, ClusterOf(c, arg).1);
    if FirstLetterNames(c, arg).Some? {
      var k :| FirstNamedAt(c.subcommands, ['-', arg[1]], k) && c.subcommands[k] == FirstLetterNames(c, arg).value;
      assert NamedFirst(c, arg, k);
    }
  }

  // ------------------------------------------------------------------------- the others

  /** An argument names a symbol exactly when it is one of the command's signs with anything after it. */
  lemma SymbolExactly(c: Command, arg: string)
    ensures HasSymbol(c, arg) <==> exists s, name :: s in c.symbols && arg == [s] + name
  {
    if HasSymbol(c, arg) {
      assert arg == [arg[0]] + arg[1..];
    }
    forall s, name | s in c.symbols && arg == [s] + name ensures HasSymbol(c, arg) {
      var i :| 0 <= i < |c.symbols| && c.symbols[i] == s;
    }
  }

  /** A command declares nothing but positionals. */
  ghost predicate OnlyPositionals(c: Command) {
    (forall p :: p !in c.flagOptions) && (forall s :: s !in c.subcommands)
  }

  lemma OnlyPositionalsExactly(c: Command)
    ensures OnlyPositionals(c) <==> c.flagOptions == [] && c.subcommands == []
  {
    if c.flagOptions != [] {
      assert c.flagOptions[0] in c.flagOptions;
    } else if c.subcommands != [] {
      assert c.subcommands[0] in c.subcommands;
    }
  }

  lemma BareExactly(c: Command, arg: string)
    ensures Bare(c, arg) <==> OnlyPositionals(c) && arg !in c.helpFlags + c.versionFlags
  {
    OnlyPositionalsExactly(c);
  }

  /** A delegated command declares one thing, a positional that takes the rest of the line. */
  lemma DelegatedExactly(c: Command)
    ensures Delegated(c) <==> OnlyPositionals(c) && exists p :: c.positionals == [p] && p.terminated
  {
    OnlyPositionalsExactly(c);
    if |c.positionals| == 1 {
      assert c.positionals == [c.positionals[0]];
    }
  }

  /** Once only the last positional can be left, it takes the rest of the line if it was declared to. */
  lemma TakesRestExactly(c: Command, n: nat)
    ensures TakesRest(c, n) <==>
      exists before, p :: c.positionals == before + [p] && p.terminated && |before| <= n
  {
    if TakesRest(c, n) {
      var k := |c.positionals| - 1;
      assert c.positionals == c.positionals[..k] + [c.positionals[k]];
    }
  }
}
