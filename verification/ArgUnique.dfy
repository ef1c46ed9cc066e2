/**
 The accounting leaves nothing open: what a command line comes to is determined by the declarations and
 the arguments, and it is what the matcher returns.
 */
module ArgUnique {
  import opened Options
  import opened ArgCommand
  import opened ArgMatcher
  import opened ArgAccounts
  import opened ArgValues
  import opened ArgRuns

  // ----------------------------------------------------------------- one token after another

  function EndOf(toks: seq<Token>): nat {
    if toks == [] then 1 else toks[|toks| - 1].at + toks[|toks| - 1].size
  }

  /** Each token begins where the ones before it end. */
  lemma {:induction false} BeginsAtEnd(toks: seq<Token>, end: nat, n: nat)
    requires Tiles(toks, end) && n < |toks|
    ensures toks[n].at == EndOf(toks[..n]) && end == EndOf(toks)
    decreases |toks|
  {
    var last := |toks| - 1;
    if n < last {
      BeginsAtEnd(toks[..last], toks[last].at, n);
      assert toks[..last][..n] == toks[..n];
    } else if last > 0 {
      BeginsAtEnd(toks[..last], toks[last].at, last - 1);
    }
  }

  /** Levels only rise. */
  lemma {:induction false} LevelsRise(ln: Line, cmds: seq<Command>, starts: seq<nat>, toks: seq<Token>, n: nat)
    requires AllOk(ln, cmds, starts, toks) && n <= |toks|
    ensures Below(toks[..n], LevelAfter(toks[..n]) + 1)
  {
    hide TokenOk;
    if n > 0 {
      LevelsRise(ln, cmds, starts, toks, n - 1);
      LevelRises(ln, cmds, starts, toks[..n - 1], toks[n - 1]);
      assert toks[..n] == toks[..n - 1] + [toks[n - 1]];
    }
  }

  lemma LevelRises(ln: Line, cmds: seq<Command>, starts: seq<nat>, before: seq<Token>, tok: Token)
    requires TokenOk(ln, cmds, starts, before, tok)
    ensures LevelAfter(before) <= tok.level <= LevelOf(tok) < |cmds| == |starts|
    ensures 1 <= tok.size && tok.at + tok.size <= |ln.args|
  {
    hide Meant, Content, PlaceAt, HandedAt, EnteredBy;
  }

  // ----------------------------------------------------------------- two accounts of one line

  /** Two paths with the places where they were entered. */
  ghost predicate Same(a: seq<Command>, sa: seq<nat>, b: seq<Command>, sb: seq<nat>, n: nat) {
    Agree(a, b, n) && Agree(sa, sb, n)
  }

  lemma SameNext(a: seq<Command>, sa: seq<nat>, b: seq<Command>, sb: seq<nat>, n: nat)
    requires Same(a, sa, b, sb, n) && n < |a| && n < |b| && n < |sa| && n < |sb| && a[n] == b[n] && sa[n] == sb[n]
    ensures Same(a, sa, b, sb, n + 1)
  {
    assert a[..n + 1] == a[..n] + [a[n]] && b[..n + 1] == b[..n] + [b[n]];
    assert sa[..n + 1] == sa[..n] + [sa[n]] && sb[..n + 1] == sb[..n] + [sb[n]];
  }

  lemma SameAt(a: seq<Command>, sa: seq<nat>, b: seq<Command>, sb: seq<nat>, n: nat, l: nat)
    requires Same(a, sa, b, sb, n) && l < n
    ensures a[l] == b[l]
  {
    assert a[l] == a[..n][l] && b[l] == b[..n][l];
  }

  /** The commands that hand an argument on are the same. */
  lemma {:induction false} SameHanded(ln: Line, a: seq<Command>, sa: seq<nat>, b: seq<Command>, sb: seq<nat>,
                                      before: seq<Token>, at: nat, deep: nat)
    requires Handed(ln, a, sa, before, at, deep) && Handed(ln, b, sb, before, at, deep)
    requires Same(a, sa, b, sb, LevelAfter(before) + 1)
    ensures Same(a, sa, b, sb, deep + 1)
    decreases deep
  {
    hide HandsOn, PlaceAt, FindDefaultSubcommand, LevelAfter, Same;
    if LevelAfter(before) < deep {
      assert HandedAt(ln, a, sa, before, at, deep - 1) && HandedAt(ln, b, sb, before, at, deep - 1);
      SameHanded(ln, a, sa, b, sb, before, at, deep - 1);
      SameAt(a, sa, b, sb, deep, deep - 1);
      SameNext(a, sa, b, sb, deep);
    }
  }

  lemma HandedUpTo(ln: Line, cmds: seq<Command>, starts: seq<nat>, before: seq<Token>, at: nat, deep: nat, l: nat)
    requires Handed(ln, cmds, starts, before, at, deep) && LevelAfter(before) <= l <= deep
    ensures Handed(ln, cmds, starts, before, at, l)
    ensures l < deep ==> HandedAt(ln, cmds, starts, before, at, l)
  {
    hide HandedAt, LevelAfter;
  }

  /** After the same tokens the next one is looked at in the same command. */
  lemma NoDeeper(ln: Line, a: seq<Command>, sa: seq<nat>, b: seq<Command>, sb: seq<nat>, before: seq<Token>,
                 s: Token, t: Token)
    requires TokenOk(ln, a, sa, before, s) && TokenOk(ln, b, sb, before, t) && s.at == t.at
    requires Same(a, sa, b, sb, LevelAfter(before) + 1) && Below(before, LevelAfter(before) + 1)
    ensures t.level <= s.level
  {
    hide Meant, HandsOn, Content, PlaceAt, EnteredBy, HandedAt, LevelAfter, Same;
    LevelRises(ln, a, sa, before, s);
    if s.level < t.level {
      HandedUpTo(ln, b, sb, before, t.at, t.level, s.level);
      SameHanded(ln, a, sa, b, sb, before, s.at, s.level);
      HandsOnThere(ln, b, sb, before, s.at, s.level);
      SamePlace(ln, a, sa, b, sb, before, s.at, s.level);
      MeantOnce(PlaceAt(ln, a, before, s.at, s.level), s.kind, s.entered, s.kind, s.entered);
    }
  }

  lemma HandsOnThere(ln: Line, cmds: seq<Command>, starts: seq<nat>, before: seq<Token>, at: nat, l: nat)
    requires HandedAt(ln, cmds, starts, before, at, l)
    ensures at < |ln.args| && l < |cmds| && HandsOn(PlaceAt(ln, cmds, before, at, l))
  {
  }

  lemma SamePlace(ln: Line, a: seq<Command>, sa: seq<nat>, b: seq<Command>, sb: seq<nat>, before: seq<Token>,
                  at: nat, l: nat)
    requires Same(a, sa, b, sb, l + 1) && LevelAfter(before) <= l && Below(before, LevelAfter(before) + 1)
    requires at < |ln.args|
    ensures l < |a| && l < |b| && PlaceAt(ln, a, before, at, l) == PlaceAt(ln, b, before, at, l)
  {
    hide PlaceAt, LevelAfter;
    PlaceAgrees(ln, a, b, l + 1, before, at, l);
  }

  lemma OccurrenceOnce(args: seq<string>, compgen: bool, c: Command, at: nat, m: nat, n: nat, e: Entry, f: Entry)
    requires at < |args| && OccurrenceOk(args, compgen, c, at, m, e) && OccurrenceOk(args, compgen, c, at, n, f)
    ensures m == n && e == f
  {
    hide FindFlagOption, ValuesOk, Divided, UsesPlus, SplitOnce;
    var split := SplitOnce(args[at]);
    var p := FindFlagOption(c, if split.Some? then split.value.0 else args[at]);
    if p.Some? && split.Some? {
      DividedOnce(p.value.delimiter, [split.value.1], e.values, f.values);
    } else if p.Some? {
      ValuesOnce(args, at, m - 1, n - 1, p.value, UsesPlus(c), compgen, e.values, f.values);
    }
  }

  lemma LastOnce(args: seq<string>, compgen: bool, c: Command, d: Command, at: nat, m: nat, n: nat, e: Entry, f: Entry)
    requires at < |args| && |args[at]| >= 2 && Letter(d, args[at], |args[at]| - 1).Some?
    requires LastOk(args, compgen, c, d, at, m, e) && LastOk(args, compgen, c, d, at, n, f)
    ensures m == n && e == f
  {
    hide FindFlagOption, ValuesOk, UsesPlus;
    var p := FindFlagOption(d, Letter(d, args[at], |args[at]| - 1).value.id);
    ValuesOnce(args, at, m - 1, n - 1, p.value, UsesPlus(c), compgen, e.values, f.values);
  }

  lemma ClusterOnce(args: seq<string>, compgen: bool, c: Command, at: nat, m: nat, n: nat, es: seq<Entry>,
                    fs: seq<Entry>)
    requires at < |args| && |args[at]| >= 2
    requires ClusterOk(args, compgen, c, at, m, es) && ClusterOk(args, compgen, c, at, n, fs)
    ensures m == n && es == fs
  {
    hide LastOk, ClusterOf, Letter;
    assert forall k :: 0 <= k < |es| - 1 ==> es[k] == fs[k];
    if es != [] {
      LastOnce(args, compgen, c, ClusterOf(c, args[at]).0, at, m, n, es[|es| - 1], fs[|fs| - 1]);
    }
  }

  /** What a token is fixes its size and entries. */
  lemma ContentOnce(ln: Line, c: Command, s: Token, t: Token)
    requires s.at == t.at < |ln.args| && s.kind == t.kind && Content(ln, c, s) && Content(ln, c, t)
    ensures s.size == t.size && s.entries == t.entries
  {
    hide OccurrenceOk, ClusterOk;
    if s.kind == Occurrence {
      OccurrenceOnce(ln.args, ln.compgen, c, s.at, s.size, t.size, s.entries[0], t.entries[0]);
    } else if s.kind == Combined {
      ClusterOnce(ln.args, ln.compgen, c, s.at, s.size, t.size, s.entries, t.entries);
    }
  }

  /** After the same tokens the next one is the same, and so is the path with it. */
  lemma SameToken(ln: Line, a: seq<Command>, sa: seq<nat>, b: seq<Command>, sb: seq<nat>, before: seq<Token>,
                  s: Token, t: Token)
    requires TokenOk(ln, a, sa, before, s) && TokenOk(ln, b, sb, before, t) && s.at == t.at
    requires Same(a, sa, b, sb, LevelAfter(before) + 1) && Below(before, LevelAfter(before) + 1)
    ensures s == t && Same(a, sa, b, sb, LevelOf(s) + 1)
  {
    hide Meant, Content, PlaceAt, EnteredBy, Handed, LevelAfter, Same;
    NoDeeper(ln, a, sa, b, sb, before, s, t);
    NoDeeper(ln, b, sb, a, sa, before, t, s) by { SameTurned(a, sa, b, sb, LevelAfter(before) + 1); }
    LevelRises(ln, a, sa, before, s);
    SameHanded(ln, a, sa, b, sb, before, s.at, s.level);
    SamePlace(ln, a, sa, b, sb, before, s.at, s.level);
    MeantOnce(PlaceAt(ln, a, before, s.at, s.level), s.kind, s.entered, t.kind, t.entered);
    SameAt(a, sa, b, sb, s.level + 1, s.level);
    ContentOnce(ln, a[s.level], s, t);
    if s.entered {
      SameNext(a, sa, b, sb, s.level + 1);
    }
  }

  lemma SameTurned(a: seq<Command>, sa: seq<nat>, b: seq<Command>, sb: seq<nat>, n: nat)
    requires Same(a, sa, b, sb, n)
    ensures Same(b, sb, a, sa, n)
  {
  }

  lemma AccountsOk(root: Command, ln: Line, st: State, toks: seq<Token>)
    requires Accounted(root, ln, st, toks)
    ensures AllOk(ln, st.cmds, st.starts, toks) && Tiles(toks, |ln.args|)
    ensures |st.cmds| == |st.starts| == |st.entries| >= 1 && st.cmds[0] == root && st.starts[0] == 0
  {
    hide AllOk, Tiles, Remembers, Ends;
  }

  /** Two accounts of a line agree as far as both go. */
  lemma {:induction false} SamePrefix(root: Command, ln: Line, x: State, xs: seq<Token>, y: State, ys: seq<Token>,
                                      n: nat)
    requires Accounted(root, ln, x, xs) && Accounted(root, ln, y, ys) && n <= |xs| && n <= |ys|
    ensures xs[..n] == ys[..n] && Same(x.cmds, x.starts, y.cmds, y.starts, LevelAfter(xs[..n]) + 1)
  {
    hide Accounted, TokenOk, Same;
    AccountsOk(root, ln, x, xs);
    AccountsOk(root, ln, y, ys);
    if n == 0 {
      SameStart(x.cmds, x.starts, y.cmds, y.starts);
    } else {
      SamePrefix(root, ln, x, xs, y, ys, n - 1);
      LevelsRise(ln, x.cmds, x.starts, xs, n - 1);
      BeginsAtEnd(xs, |ln.args|, n - 1);
      BeginsAtEnd(ys, |ln.args|, n - 1);
      SameToken(ln, x.cmds, x.starts, y.cmds, y.starts, xs[..n - 1], xs[n - 1], ys[n - 1]);
      assert xs[..n] == xs[..n - 1] + [xs[n - 1]] && ys[..n] == ys[..n - 1] + [ys[n - 1]];
    }
  }

  lemma SameStart(a: seq<Command>, sa: seq<nat>, b: seq<Command>, sb: seq<nat>)
    requires |a| >= 1 && |sa| >= 1 && |b| >= 1 && |sb| >= 1 && a[0] == b[0] && sa[0] == sb[0]
    ensures Same(a, sa, b, sb, 1)
  {
  }

  /** No account has more tokens than another. */
  lemma NoLonger(root: Command, ln: Line, x: State, xs: seq<Token>, y: State, ys: seq<Token>)
    requires Accounted(root, ln, x, xs) && Accounted(root, ln, y, ys)
    ensures |ys| <= |xs|
  {
    hide Accounted, TokenOk, Same;
    if |xs| < |ys| {
      var n := |xs|;
      AccountsOk(root, ln, x, xs);
      AccountsOk(root, ln, y, ys);
      SamePrefix(root, ln, x, xs, y, ys, n);
      assert xs[..n] == xs;
      BeginsAtEnd(ys, |ln.args|, n);
      if n > 0 {
        BeginsAtEnd(xs, |ln.args|, 0);
      }
      LevelRises(ln, y.cmds, y.starts, ys[..n], ys[n]);
      assert false;
    }
  }

  /** The path ends at the same command. */
  lemma SameEnd(ln: Line, a: seq<Command>, sa: seq<nat>, b: seq<Command>, sb: seq<nat>, toks: seq<Token>)
    requires Ends(ln, a, sa, toks) && Ends(ln, b, sb, toks) && Same(a, sa, b, sb, LevelAfter(toks) + 1)
    ensures a == b && sa == sb
  {
    hide Unused, FindDefaultSubcommand, LevelAfter, Same;
    var l := LevelAfter(toks);
    SameAt(a, sa, b, sb, l + 1, l);
    if Unused(ln, a[l], toks) {
      SameNext(a, sa, b, sb, l + 1);
    }
    SameWhole(a, sa, b, sb);
  }

  lemma SameWhole(a: seq<Command>, sa: seq<nat>, b: seq<Command>, sb: seq<nat>)
    requires |a| == |b| == |sa| == |sb| && Same(a, sa, b, sb, |a|)
    ensures a == b && sa == sb
  {
    assert a[..|a|] == a && b[..|b|] == b && sa[..|a|] == sa && sb[..|b|] == sb;
  }

  /** A line has one account: nothing else says what its declarations say. */
  lemma OnlyAccount(root: Command, ln: Line, x: State, xs: seq<Token>, y: State, ys: seq<Token>)
    requires Accounted(root, ln, x, xs) && Accounted(root, ln, y, ys)
    ensures x == y && xs == ys
  {
    hide AllOk, Tiles, Ends, Same, FreeArgs, SymbolArgs, LevelEntries, DashOf, Claimed, Delegated, LevelAfter;
    var n := |xs|;
    NoLonger(root, ln, x, xs, y, ys);
    NoLonger(root, ln, y, ys, x, xs);
    SamePrefix(root, ln, x, xs, y, ys, n);
    assert xs[..n] == xs && ys[..n] == ys;
    SameEnd(ln, x.cmds, x.starts, y.cmds, y.starts, xs);
    assert x.entries == y.entries;
  }

  /** A result accounts for a line exactly when it is the matcher's. */
  lemma AccountedExactlyWhenMatched(root: Command, ln: Line, st: State, toks: seq<Token>)
    requires |ln.args| >= 1
    ensures Accounted(root, ln, st, toks) <==> Matched(root, ln.args, ln.combine, ln.compgen) == Outcome(st, toks)
  {
    hide Accounted, Matched;
    MatchedAccounts(root, ln);
    if Accounted(root, ln, st, toks) {
      var r := Matched(root, ln.args, ln.combine, ln.compgen);
      OnlyAccount(root, ln, st, toks, r.st, r.tokens);
    }
  }

  // ----------------------------------------------------------------- what follows from it

  /** The token names the command at level `l`. */
  predicate Names(tok: Token, l: nat) {
    tok.entered && tok.kind != Free && tok.level + 1 == l
  }

  /** Every command on the path was named by a token, or is the default of the one before it. */
  lemma {:induction false} PathExplained(ln: Line, cmds: seq<Command>, starts: seq<nat>, toks: seq<Token>, l: nat)
    requires AllOk(ln, cmds, starts, toks) && 1 <= l <= LevelAfter(toks)
    ensures l < |cmds|
    ensures FindDefaultSubcommand(cmds[l - 1]) == Some(cmds[l]) || exists j :: 0 <= j < |toks| && Names(toks[j], l)
    decreases |toks|
  {
    hide Meant, Content, PlaceAt, HandsOn, FindDefaultSubcommand;
    var front, last := toks[..|toks| - 1], toks[|toks| - 1];
    assert TokenOk(ln, cmds, starts, toks[..|toks| - 1], toks[|toks| - 1]);
    if l <= LevelAfter(front) {
      FrontOk(ln, cmds, starts, toks);
      PathExplained(ln, cmds, starts, front, l);
      if j :| 0 <= j < |front| && Names(front[j], l) {
        assert Names(toks[j], l);
      }
    } else if l <= last.level {
      assert HandedAt(ln, cmds, starts, front, last.at, l - 1);
    } else {
      assert last.kind == Free || Names(last, l);
    }
  }

  /** The rest of a line stays claimed. */
  lemma {:induction false} StaysClaimed(ln: Line, cmds: seq<Command>, starts: seq<nat>, toks: seq<Token>, j: nat,
                                        k: nat)
    requires AllOk(ln, cmds, starts, toks) && j < k < |toks|
    requires TakesOver(ln.args, cmds, toks[..j], toks[j])
    ensures TakenOver(ln.args, cmds, toks[..k])
    decreases k
  {
    hide TakesOver, TokenOk;
    assert toks[..k][..k - 1] == toks[..k - 1];
    if j < k - 1 {
      StaysClaimed(ln, cmds, starts, toks, j, k - 1);
    }
  }

  /** After a separator with arguments behind it, or a positional that takes over, all arguments are positionals. */
  lemma OnlyPositionalsFollow(ln: Line, cmds: seq<Command>, starts: seq<nat>, toks: seq<Token>, j: nat, k: nat)
    requires AllOk(ln, cmds, starts, toks) && j < k < |toks|
    requires TakesOver(ln.args, cmds, toks[..j], toks[j])
    ensures toks[k].kind == Free && !toks[k].entered
  {
    hide TakesOver, TakenOver, Handed, Content, FreeArgs, IsOption, IsName, IsLetters, IsSymbol, HasDefault, FlagLike,
      Bare;
    StaysClaimed(ln, cmds, starts, toks, j, k);
    assert TokenOk(ln, cmds, starts, toks[..k], toks[k]);
  }

  lemma {:induction false} SeenStays(args: seq<string>, toks: seq<Token>, j: nat)
    requires j < |toks| && toks[j].kind == Free && toks[j].at < |args|
    ensures FreeArgs(args, toks) != []
    decreases |toks|
  {
    if j < |toks| - 1 {
      SeenStays(args, toks[..|toks| - 1], j);
    }
  }

  /** No subcommand is named after a positional. */
  lemma NothingNamedAfter(ln: Line, cmds: seq<Command>, starts: seq<nat>, toks: seq<Token>, j: nat, k: nat)
    requires AllOk(ln, cmds, starts, toks) && j < k < |toks| && toks[j].kind == Free
    ensures toks[k].kind != Subcommand
  {
    hide Handed, Content, FreeArgs, Claimed, FlagLike, Bare, IsOption, Assigns, FindSubcommand;
    assert TokenOk(ln, cmds, starts, toks[..j], toks[j]) && TokenOk(ln, cmds, starts, toks[..k], toks[k]);
    SeenStays(ln.args, toks[..k], j);
  }

  lemma {:induction false} TilesIncrease(toks: seq<Token>, end: nat, j: nat)
    requires Tiles(toks, end) && j < |toks|
    ensures 1 <= toks[j].at && toks[j].at + toks[j].size <= end && 1 <= toks[j].size
    ensures forall k :: j < k < |toks| ==> toks[j].at + toks[j].size <= toks[k].at
    decreases |toks|
  {
    var n := |toks| - 1;
    if j < n {
      TilesIncrease(toks[..n], toks[n].at, j);
    } else if n > 0 {
      TilesIncrease(toks[..n], toks[n].at, n - 1);
    }
  }

  predicate Covers(tok: Token, i: nat) {
    tok.at <= i < tok.at + tok.size
  }

  /** Every argument after the program name belongs to a token, and to one only. */
  lemma {:induction false} CoveredOnce(toks: seq<Token>, end: nat, i: nat)
    requires Tiles(toks, end) && 1 <= i < end
    ensures exists j :: 0 <= j < |toks| && Covers(toks[j], i)
    ensures forall j, k :: 0 <= j < |toks| && 0 <= k < |toks| && Covers(toks[j], i) && Covers(toks[k], i) ==> j == k
    decreases |toks|
  {
    var n := |toks| - 1;
    if i < toks[n].at {
      CoveredOnce(toks[..n], toks[n].at, i);
      var j :| 0 <= j < n && Covers(toks[..n][j], i);
      assert Covers(toks[j], i);
    } else {
      assert Covers(toks[n], i);
    }
    forall j, k | 0 <= j < |toks| && 0 <= k < |toks| && Covers(toks[j], i) && Covers(toks[k], i) ensures j == k {
      TilesIncrease(toks, end, j);
      TilesIncrease(toks, end, k);
    }
  }

  /** No command on the path is named twice. */
  lemma NamedOnce(ln: Line, cmds: seq<Command>, starts: seq<nat>, toks: seq<Token>, end: nat, l: nat, j: nat, k: nat)
    requires AllOk(ln, cmds, starts, toks) && Tiles(toks, end)
    requires j < |toks| && k < |toks| && Names(toks[j], l) && Names(toks[k], l)
    ensures j == k
  {
    hide Handed, Meant, Content, PlaceAt, EnteredBy, Tiles;
    assert TokenOk(ln, cmds, starts, toks[..j], toks[j]) && TokenOk(ln, cmds, starts, toks[..k], toks[k]);
    TilesIncrease(toks, end, j);
    TilesIncrease(toks, end, k);
  }
}
