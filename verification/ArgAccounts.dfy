/**
 What the matcher's result means: every argument is accounted for by exactly one token, each token
 says what the declarations say about its arguments, and the collected flags, options, symbols and
 positionals are those of the tokens.
 */
module ArgAccounts {
  import opened Options
  import opened ArgCommand
  import opened ArgMatcher
  import opened ArgValues

  /** A command line, whether short flags may be combined in it, and whether it is being completed. */
  datatype Line = Line(args: seq<string>, combine: bool, compgen: bool)

  // ------------------------------------------------------- what an argument is in a command

  /**
   An argument looked at in a command: whether no positional came before, whether it is the one being
   completed, and whether the rest of the line was claimed for positionals.
   */
  datatype Place = Place(c: Command, arg: string, combine: bool, first: bool, last: bool, claimed: bool)

  /** The argument, or what stands before its equals sign. */
  function Key(arg: string): string {
    if SplitOnce(arg).Some? then SplitOnce(arg).value.0 else arg
  }

  /** It matters what the command declares. */
  predicate Open(p: Place) {
    !p.claimed && p.arg != "--" && !Bare(p.c, p.arg)
  }

  predicate Assigns(p: Place) {
    FlagLike(p.c, p.arg) && SplitOnce(p.arg).Some?
  }

  /** One of the command's flags and options. */
  predicate IsOption(p: Place) {
    FlagLike(p.c, p.arg) && FindFlagOption(p.c, Key(p.arg)).Some?
  }

  /** The name of a subcommand, where one may be named. */
  predicate IsName(p: Place) {
    !Assigns(p) && p.first && !p.last && FindSubcommand(p.c, p.arg).Some?
  }

  /** Letters that all stand for flags and options. */
  ghost predicate IsLetters(p: Place) {
    && FlagLike(p.c, p.arg) && !Assigns(p) && |p.arg| >= 2 && p.combine && !StartsWith(p.arg, "--")
    && AllLetters(ClusterOf(p.c, p.arg).0, p.arg, ClusterOf(p.c, p.arg).1)
  }

  predicate IsSymbol(p: Place) {
    !Assigns(p) && HasSymbol(p.c, p.arg)
  }

  /** A default subcommand to try it on: a flag but those for help and version, or a word not being completed. */
  predicate HasDefault(p: Place) {
    && p.first && FindDefaultSubcommand(p.c).Some?
    && if FlagLike(p.c, p.arg) then Key(p.arg) !in p.c.helpFlags && Key(p.arg) !in p.c.versionFlags else !p.last
  }

  /** A flag that the command does not know and its default subcommand might. */
  ghost predicate HandsOn(p: Place) {
    && Open(p) && FlagLike(p.c, p.arg)
    && !IsOption(p) && !IsName(p) && !IsLetters(p) && !IsSymbol(p) && HasDefault(p)
  }

  /** What the argument is there, and whether a subcommand is entered with it. */
  ghost predicate Meant(p: Place, kind: Kind, entered: bool) {
    match kind
    case Separator => !p.claimed && p.arg == "--" && !entered
    case Occurrence =>
      && Open(p) && FlagLike(p.c, p.arg) && !entered
      && (IsOption(p) || (!IsName(p) && !IsLetters(p) && !IsSymbol(p) && !HasDefault(p)))
    case Subcommand => Open(p) && !IsOption(p) && IsName(p) && entered
    case Combined =>
      && Open(p) && !IsOption(p) && !IsName(p) && IsLetters(p)
      && (entered <==> FirstLetterNames(p.c, p.arg).Some?)
    case Symbol => Open(p) && !IsOption(p) && !IsName(p) && !IsLetters(p) && IsSymbol(p) && !entered
    case Free =>
      if Open(p) then !FlagLike(p.c, p.arg) && !IsName(p) && !IsSymbol(p) && (entered <==> HasDefault(p))
      else (p.claimed || p.arg != "--") && !entered
  }

  /** An argument means one thing: one kind, or to be handed on to the default subcommand. */
  lemma MeantOnce(p: Place, kind: Kind, entered: bool, kind': Kind, entered': bool)
    requires Meant(p, kind, entered)
    ensures !HandsOn(p)
    ensures Meant(p, kind', entered') ==> kind == kind' && entered == entered'
  {
    hide Open, IsOption, IsName, IsSymbol, HasDefault;
    WordsAreNoFlags(p);
  }

  lemma WordsAreNoFlags(p: Place)
    ensures IsOption(p) || IsLetters(p) ==> FlagLike(p.c, p.arg)
    ensures Open(p) ==> !p.claimed && p.arg != "--"
  {
    hide FlagLike, FindFlagOption, AllLetters, Bare;
  }

  /** An argument always means something. */
  lemma MeantSomething(p: Place)
    ensures HandsOn(p) || exists kind, entered :: Meant(p, kind, entered)
  {
    hide IsOption, IsName, IsLetters, IsSymbol, HasDefault, FlagLike, Bare;
    if !p.claimed && p.arg == "--" {
      assert Meant(p, Separator, false);
    } else if !Open(p) {
      assert Meant(p, Free, false);
    } else if IsOption(p) {
      assert Meant(p, Occurrence, false) by { WordsAreNoFlags(p); }
    } else if IsName(p) {
      assert Meant(p, Subcommand, true);
    } else if IsLetters(p) {
      LettersAreTwo(p);
      assert Meant(p, Combined, FirstLetterNames(p.c, p.arg).Some?);
    } else if IsSymbol(p) {
      assert Meant(p, Symbol, false);
    } else if !FlagLike(p.c, p.arg) {
      assert Meant(p, Free, HasDefault(p));
    } else if !HasDefault(p) {
      assert Meant(p, Occurrence, false);
    }
  }

  lemma LettersAreTwo(p: Place)
    ensures IsLetters(p) ==> |p.arg| >= 2
  {
    hide FlagLike, AllLetters;
  }

  // ------------------------------------------------------------- size and entries of a token

  /** `key=value`: the key's parameter and the value divided at its delimiter; an unknown key has no parameter. */
  ghost predicate AssignedOk(c: Command, key: string, v: string, e: Entry) {
    var p := FindFlagOption(c, key);
    && e.key == key
    && e.param == (if p.Some? then Some(p.value.id) else None)
    && if p.Some? then Divided(p.value.delimiter, [v], e.values) else e.values == [v]
  }

  /** The argument itself, with the values its parameter takes from the arguments after it. */
  ghost predicate TakingOk(args: seq<string>, compgen: bool, c: Command, at: nat, size: nat, e: Entry)
    requires at < |args|
  {
    var p := FindFlagOption(c, args[at]);
    && e.key == args[at]
    && e.param == (if p.Some? then Some(p.value.id) else None)
    && if p.Some? then ValuesOk(args, at, size - 1, p.value, UsesPlus(c), compgen, e.values)
       else e.values == [] && size == 1
  }

  /** An occurrence of a flag or option in command `c`. */
  ghost predicate OccurrenceOk(args: seq<string>, compgen: bool, c: Command, at: nat, size: nat, e: Entry)
    requires at < |args|
  {
    var split := SplitOnce(args[at]);
    if split.Some? then size == 1 && AssignedOk(c, split.value.0, split.value.1, e)
    else TakingOk(args, compgen, c, at, size, e)
  }

  /**
   A cluster looked at in command `c`: its letters after the one that names a subcommand, if any, are
   flags and options one by one, and the last of them takes values.
   */
  ghost predicate ClusterOk(args: seq<string>, compgen: bool, c: Command, at: nat, size: nat, es: seq<Entry>)
    requires at < |args| && |args[at]| >= 2
  {
    var d := ClusterOf(c, args[at]).0;
    && LettersOk(d, args[at], ClusterOf(c, args[at]).1, es)
    && (es == [] ==> size == 1)
    && (es != [] ==> LastOk(args, compgen, c, d, at, size, es[|es| - 1]))
  }

  /** An entry for each letter from `i` on, those before the last without values. */
  ghost predicate LettersOk(d: Command, arg: string, i: nat, es: seq<Entry>) {
    && AllLetters(d, arg, i) && i <= |arg| && |es| == |arg| - i
    && (forall k :: 0 <= k < |es| - 1 ==> es[k] == Entry(arg, [], Some(Letter(d, arg, i + k).value.id)))
  }

  /** The last letter's parameter, looked up by the id of what the letter stands for, with its values. */
  ghost predicate LastOk(args: seq<string>, compgen: bool, c: Command, d: Command, at: nat, size: nat, e: Entry)
    requires at < |args| && |args[at]| >= 2 && Letter(d, args[at], |args[at]| - 1).Some?
  {
    var p := FindFlagOption(d, Letter(d, args[at], |args[at]| - 1).value.id);
    && p.Some? && e.key == args[at] && e.param == Some(p.value.id)
    && ValuesOk(args, at, size - 1, p.value, UsesPlus(c), compgen, e.values)
  }

  /** The size of the token and its entries are those of what it is in command `c`. */
  ghost predicate Content(ln: Line, c: Command, tok: Token)
    requires tok.at < |ln.args|
  {
    match tok.kind
    case Occurrence =>
      |tok.entries| == 1 && OccurrenceOk(ln.args, ln.compgen, c, tok.at, tok.size, tok.entries[0])
    case Combined =>
      |ln.args[tok.at]| >= 2 && ClusterOk(ln.args, ln.compgen, c, tok.at, tok.size, tok.entries)
    case _ => tok.size == 1 && tok.entries == []
  }

  /** The subcommand entered with an argument of that kind. */
  function EnteredBy(c: Command, arg: string, kind: Kind): (r: Option<Command>)
    ensures r.Some? ==> r.value in c.subcommands
  {
    match kind
    case Subcommand => FindSubcommand(c, arg)
    case Combined => if |arg| >= 2 then FirstLetterNames(c, arg) else None
    case Free => FindDefaultSubcommand(c)
    case _ => None
  }

  // ------------------------------------------------------------- what the tokens collect

  /** The tokens cover the arguments [1, end) in order, without gap or overlap. */
  ghost predicate Tiles(toks: seq<Token>, end: nat) {
    if toks == [] then end == 1
    else
      var last := toks[|toks| - 1];
      1 <= last.size && end == last.at + last.size && Tiles(toks[..|toks| - 1], last.at)
  }

  ghost function FreeArgs(args: seq<string>, toks: seq<Token>): seq<string> {
    if toks == [] then []
    else
      var last := toks[|toks| - 1];
      FreeArgs(args, toks[..|toks| - 1]) + if last.kind == Free && last.at < |args| then [args[last.at]] else []
  }

  ghost function SymbolArgs(args: seq<string>, toks: seq<Token>): seq<string> {
    if toks == [] then []
    else
      var last := toks[|toks| - 1];
      SymbolArgs(args, toks[..|toks| - 1]) +
      if last.kind == Symbol && last.at < |args| && args[last.at] != "" then [args[last.at][1..]] else []
  }

  /** The level after a token, to which its entries belong. */
  function LevelOf(tok: Token): nat {
    if tok.entered then tok.level + 1 else tok.level
  }

  function LevelAfter(toks: seq<Token>): nat {
    if toks == [] then 0 else LevelOf(toks[|toks| - 1])
  }

  ghost function LevelEntries(toks: seq<Token>, l: nat): seq<Entry> {
    if toks == [] then []
    else
      var last := toks[|toks| - 1];
      LevelEntries(toks[..|toks| - 1], l) + if LevelOf(last) == l then last.entries else []
  }

  /** Each level holds the entries of its tokens, in order. */
  ghost predicate Collected(entries: seq<seq<Entry>>, toks: seq<Token>) {
    forall l :: 0 <= l < |entries| ==> entries[l] == LevelEntries(toks, l)
  }

  /** The number of positionals at the first `--`, and with it if it is one of them. */
  ghost function DashOf(args: seq<string>, toks: seq<Token>): Option<nat> {
    if toks == [] then None
    else
      var front, last := toks[..|toks| - 1], toks[|toks| - 1];
      if DashOf(args, front).Some? then DashOf(args, front)
      else if last.at < |args| && args[last.at] == "--" then Some(|FreeArgs(args, toks)|)
      else None
  }

  // ------------------------------------------------------------- who claims the rest of the line

  /**
   After the token the rest of the line is positional: it is a separator with arguments after it, or a
   positional after which its command's last one takes the rest.
   */
  ghost predicate TakesOver(args: seq<string>, cmds: seq<Command>, before: seq<Token>, tok: Token) {
    || (tok.kind == Separator && tok.at != |args| - 1)
    || (tok.kind == Free && LevelOf(tok) < |cmds| && TakesRest(cmds[LevelOf(tok)], |FreeArgs(args, before)| + 1))
  }

  ghost predicate TakenOver(args: seq<string>, cmds: seq<Command>, toks: seq<Token>) {
    && toks != []
    && (|| TakenOver(args, cmds, toks[..|toks| - 1])
        || TakesOver(args, cmds, toks[..|toks| - 1], toks[|toks| - 1]))
  }

  ghost predicate SomeDelegated(cmds: seq<Command>, l: nat) {
    exists k :: 0 <= k <= l && k < |cmds| && Delegated(cmds[k])
  }

  /** The rest of the line is positional at level `l`: a token before took it over, or a command down to there does. */
  ghost predicate Claimed(args: seq<string>, cmds: seq<Command>, before: seq<Token>, l: nat) {
    TakenOver(args, cmds, before) || SomeDelegated(cmds, l)
  }

  // ------------------------------------------------------------------------- the accounting

  ghost function PlaceAt(ln: Line, cmds: seq<Command>, before: seq<Token>, at: nat, l: nat): Place
    requires at < |ln.args| && l < |cmds|
  {
    Place(cmds[l], ln.args[at], ln.combine, FreeArgs(ln.args, before) == [], ln.compgen && at == |ln.args| - 1,
          Claimed(ln.args, cmds, before, l))
  }

  /** The command at level `l` hands the argument on to its default subcommand, which is the next on the path. */
  ghost predicate HandedAt(ln: Line, cmds: seq<Command>, starts: seq<nat>, before: seq<Token>, at: nat, l: nat) {
    && at < |ln.args| && l + 1 < |cmds| == |starts| && starts[l + 1] == at
    && HandsOn(PlaceAt(ln, cmds, before, at, l)) && FindDefaultSubcommand(cmds[l]) == Some(cmds[l + 1])
  }

  /** From the level after the tokens before, every command hands the argument on down to level `to`. */
  ghost predicate Handed(ln: Line, cmds: seq<Command>, starts: seq<nat>, before: seq<Token>, at: nat, to: nat) {
    && LevelAfter(before) <= to
    && forall l :: LevelAfter(before) <= l < to ==> HandedAt(ln, cmds, starts, before, at, l)
  }

  /** The token is what the command it was looked at in says after the tokens before, and the path goes on with it. */
  ghost predicate TokenOk(ln: Line, cmds: seq<Command>, starts: seq<nat>, before: seq<Token>, tok: Token) {
    && 1 <= tok.size && tok.at + tok.size <= |ln.args| && LevelOf(tok) < |cmds| == |starts|
    && Handed(ln, cmds, starts, before, tok.at, tok.level)
    && Meant(PlaceAt(ln, cmds, before, tok.at, tok.level), tok.kind, tok.entered)
    && Content(ln, cmds[tok.level], tok)
    && (tok.entered ==>
          && starts[tok.level + 1] == tok.at
          && EnteredBy(cmds[tok.level], ln.args[tok.at], tok.kind) == Some(cmds[tok.level + 1]))
  }

  ghost predicate AllOk(ln: Line, cmds: seq<Command>, starts: seq<nat>, toks: seq<Token>) {
    forall j :: 0 <= j < |toks| ==> TokenOk(ln, cmds, starts, toks[..j], toks[j])
  }

  /** The commands are a path down the tree, entered at arguments in order. */
  ghost predicate Descends(args: seq<string>, st: State) {
    && |st.cmds| == |st.starts| == |st.entries| >= 1
    && st.starts[0] == 0
    && (forall l :: 1 <= l < |st.cmds| ==> st.cmds[l] in st.cmds[l - 1].subcommands)
    && (forall l :: 1 <= l < |st.cmds| ==> st.starts[l - 1] <= st.starts[l] <= st.index && st.starts[l] < |args|)
  }

  ghost predicate Accounts(ln: Line, st: State, toks: seq<Token>) {
    && Tiles(toks, st.index)
    && AllOk(ln, st.cmds, st.starts, toks)
    && st.positionals == FreeArgs(ln.args, toks)
    && st.symbols == SymbolArgs(ln.args, toks)
    && Collected(st.entries, toks)
  }

  /** What is kept for the arguments to come: who claims them, and where the first `--` was. */
  ghost predicate Remembers(ln: Line, st: State, toks: seq<Token>) {
    && st.cmds != []
    && (st.rest <==> Claimed(ln.args, st.cmds, toks, Level(st)))
    && st.dash == if Delegated(st.cmds[0]) then None else DashOf(ln.args, toks)
  }

  /** Between two steps the deepest level is where the tokens led, or the argument was handed on to it. */
  ghost predicate Inv(ln: Line, st: State, toks: seq<Token>) {
    && Descends(ln.args, st) && Accounts(ln, st, toks) && Remembers(ln, st, toks)
    && Handed(ln, st.cmds, st.starts, toks, st.index, Level(st))
  }

  /** Nothing was given to a command whose default subcommand has a function. */
  ghost predicate Unused(ln: Line, c: Command, toks: seq<Token>) {
    && FreeArgs(ln.args, toks) == [] && LevelEntries(toks, LevelAfter(toks)) == []
    && FindDefaultSubcommand(c).Some? && FindDefaultSubcommand(c).value.hasFunction
  }

  /** The path ends where the tokens led, or at the default subcommand of an unused command there. */
  ghost predicate Ends(ln: Line, cmds: seq<Command>, starts: seq<nat>, toks: seq<Token>) {
    var l := LevelAfter(toks);
    && l < |cmds| == |starts| && |ln.args| >= 1
    && if Unused(ln, cmds[l], toks)
       then |cmds| == l + 2 && FindDefaultSubcommand(cmds[l]) == Some(cmds[l + 1]) && starts[l + 1] == |ln.args| - 1
       else |cmds| == l + 1
  }

  /** The result accounts for the whole line. */
  ghost predicate Accounted(root: Command, ln: Line, st: State, toks: seq<Token>) {
    && Descends(ln.args, st) && st.cmds[0] == root && st.index == |ln.args|
    && Accounts(ln, st, toks) && Remembers(ln, st, toks) && Ends(ln, st.cmds, st.starts, toks)
  }

  // ------------------------------------------------- the accounting depends on the path so far

  ghost predicate Agree<T>(a: seq<T>, b: seq<T>, n: nat) {
    n <= |a| && n <= |b| && a[..n] == b[..n]
  }

  ghost predicate Below(toks: seq<Token>, n: nat) {
    forall j :: 0 <= j < |toks| ==> LevelOf(toks[j]) < n
  }

  lemma AllBelow(ln: Line, cmds: seq<Command>, starts: seq<nat>, toks: seq<Token>)
    requires AllOk(ln, cmds, starts, toks)
    ensures Below(toks, |cmds|)
  {
    hide Handed, Meant, Content;
    forall j | 0 <= j < |toks| ensures LevelOf(toks[j]) < |cmds| {
      assert TokenOk(ln, cmds, starts, toks[..j], toks[j]);
    }
  }

  lemma {:induction false} TakenOverAgrees(args: seq<string>, a: seq<Command>, b: seq<Command>, n: nat,
                                           toks: seq<Token>)
    requires Agree(a, b, n) && Below(toks, n)
    ensures TakenOver(args, a, toks) <==> TakenOver(args, b, toks)
  {
    if toks != [] {
      var front, last := toks[..|toks| - 1], toks[|toks| - 1];
      TakenOverAgrees(args, a, b, n, front);
      assert a[LevelOf(last)] == a[..n][LevelOf(last)] == b[LevelOf(last)];
    }
  }

  lemma DelegatedAgrees(a: seq<Command>, b: seq<Command>, n: nat, l: nat)
    requires Agree(a, b, n) && l < n
    ensures SomeDelegated(a, l) <==> SomeDelegated(b, l)
  {
    hide Delegated;
    assert forall k :: 0 <= k < n ==> a[k] == a[..n][k] == b[k];
  }

  lemma PlaceAgrees(ln: Line, a: seq<Command>, b: seq<Command>, n: nat, before: seq<Token>, at: nat, l: nat)
    requires Agree(a, b, n) && Below(before, n) && at < |ln.args| && l < n
    ensures PlaceAt(ln, a, before, at, l) == PlaceAt(ln, b, before, at, l)
  {
    hide FreeArgs, SomeDelegated, TakenOver;
    TakenOverAgrees(ln.args, a, b, n, before);
    DelegatedAgrees(a, b, n, l);
    assert a[l] == a[..n][l] == b[l];
  }

  lemma HandedAgrees(ln: Line, a: seq<Command>, sa: seq<nat>, b: seq<Command>, sb: seq<nat>, n: nat,
                     before: seq<Token>, at: nat, to: nat)
    requires Handed(ln, a, sa, before, at, to) && to < n && Below(before, n)
    requires Agree(a, b, n) && Agree(sa, sb, n) && |b| == |sb|
    ensures Handed(ln, b, sb, before, at, to)
  {
    hide HandsOn, PlaceAt, FindDefaultSubcommand, LevelAfter;
    forall l | LevelAfter(before) <= l < to ensures HandedAt(ln, b, sb, before, at, l) {
      assert HandedAt(ln, a, sa, before, at, l);
      PlaceAgrees(ln, a, b, n, before, at, l);
      assert a[l] == a[..n][l] == b[l] && a[l + 1] == a[..n][l + 1] == b[l + 1];
      assert sa[l + 1] == sa[..n][l + 1] == sb[l + 1];
    }
  }

  lemma TokenOkAgrees(ln: Line, a: seq<Command>, sa: seq<nat>, b: seq<Command>, sb: seq<nat>, n: nat,
                      before: seq<Token>, tok: Token)
    requires TokenOk(ln, a, sa, before, tok) && LevelOf(tok) < n && Below(before, n)
    requires Agree(a, b, n) && Agree(sa, sb, n) && |b| == |sb|
    ensures TokenOk(ln, b, sb, before, tok)
  {
    hide Handed, Meant, Content, PlaceAt, EnteredBy;
    HandedAgrees(ln, a, sa, b, sb, n, before, tok.at, tok.level);
    PlaceAgrees(ln, a, b, n, before, tok.at, tok.level);
    var l := LevelOf(tok);
    assert a[tok.level] == a[..n][tok.level] == b[tok.level];
    assert a[l] == a[..n][l] == b[l] && sa[l] == sa[..n][l] == sb[l];
  }

  lemma AllOkAgrees(ln: Line, a: seq<Command>, sa: seq<nat>, b: seq<Command>, sb: seq<nat>, n: nat, toks: seq<Token>)
    requires AllOk(ln, a, sa, toks) && Below(toks, n)
    requires Agree(a, b, n) && Agree(sa, sb, n) && |b| == |sb|
    ensures AllOk(ln, b, sb, toks)
  {
    hide TokenOk, Agree;
    forall j | 0 <= j < |toks| ensures TokenOk(ln, b, sb, toks[..j], toks[j]) {
      TokenOkAgrees(ln, a, sa, b, sb, n, toks[..j], toks[j]);
    }
  }

  lemma AllOkOneMore(ln: Line, cmds: seq<Command>, starts: seq<nat>, toks: seq<Token>, tok: Token)
    requires AllOk(ln, cmds, starts, toks) && TokenOk(ln, cmds, starts, toks, tok)
    ensures AllOk(ln, cmds, starts, toks + [tok])
  {
    hide TokenOk;
    var all := toks + [tok];
    forall j | 0 <= j < |all| ensures TokenOk(ln, cmds, starts, all[..j], all[j]) {
      assert all[..j] == toks[..j];
      assert toks[..|toks|] == toks;
    }
  }
}
