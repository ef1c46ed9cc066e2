/**
 The matcher's loop: every pass keeps the accounting of the arguments before it, so that at the end the
 whole line is accounted for.
 */
module ArgRuns {
  import opened Options
  import opened ArgCommand
  import opened ArgMatcher
  import opened ArgAccounts
  import opened ArgValues

  // ---------------------------------------------------------------- one token more

  lemma TilesGrow(toks: seq<Token>, tok: Token, end: nat)
    requires Tiles(toks, end) && tok.at == end && 1 <= tok.size
    ensures Tiles(toks + [tok], end + tok.size)
  {
    var all := toks + [tok];
    assert all[..|all| - 1] == toks;
  }

  lemma ArgsGrow(args: seq<string>, toks: seq<Token>, tok: Token)
    requires tok.at < |args|
    ensures FreeArgs(args, toks + [tok]) == FreeArgs(args, toks) + (if tok.kind == Free then [args[tok.at]] else [])
    ensures SymbolArgs(args, toks + [tok]) == SymbolArgs(args, toks)
      + (if tok.kind == Symbol && args[tok.at] != "" then [args[tok.at][1..]] else [])
  {
    var all := toks + [tok];
    assert all[..|all| - 1] == toks;
  }

  lemma LevelEntriesGrow(toks: seq<Token>, tok: Token, l: nat)
    ensures LevelEntries(toks + [tok], l) == LevelEntries(toks, l) + if LevelOf(tok) == l then tok.entries else []
  {
    var all := toks + [tok];
    assert all[..|all| - 1] == toks;
  }

  /** Levels not reached yet have no entries. */
  lemma {:induction false} NoEntriesAbove(toks: seq<Token>, l: nat)
    requires Below(toks, l)
    ensures LevelEntries(toks, l) == []
  {
    if toks != [] {
      NoEntriesAbove(toks[..|toks| - 1], l);
    }
  }

  lemma CollectedPush(st1: State, es: seq<Entry>, toks: seq<Token>, tok: Token)
    requires st1.entries != [] && Collected(st1.entries, toks) && tok.entries == es
    requires LevelOf(tok) == |st1.entries| - 1
    ensures Collected(Push(st1, es).entries, toks + [tok])
  {
    var now := Push(st1, es).entries;
    forall l | 0 <= l < |now| ensures now[l] == LevelEntries(toks + [tok], l) {
      LevelEntriesGrow(toks, tok, l);
    }
  }

  lemma TakenOverGrows(args: seq<string>, cmds: seq<Command>, toks: seq<Token>, tok: Token)
    ensures TakenOver(args, cmds, toks + [tok]) <==> TakenOver(args, cmds, toks) || TakesOver(args, cmds, toks, tok)
  {
    hide TakesOver;
    var all := toks + [tok];
    assert all[..|all| - 1] == toks;
  }

  lemma DelegatedGrows(cmds: seq<Command>, sub: Command)
    requires cmds != []
    ensures SomeDelegated(cmds + [sub], |cmds|) <==> SomeDelegated(cmds, |cmds| - 1) || Delegated(sub)
  {
    hide Delegated;
    var more := cmds + [sub];
    assert more[|cmds|] == sub;
    if SomeDelegated(cmds, |cmds| - 1) {
      var k :| 0 <= k <= |cmds| - 1 && k < |cmds| && Delegated(cmds[k]);
      assert Delegated(more[k]);
    }
  }

  lemma DashGrows(args: seq<string>, toks: seq<Token>, tok: Token)
    requires tok.at < |args|
    ensures DashOf(args, toks + [tok]) == if DashOf(args, toks).Some? then DashOf(args, toks)
      else if args[tok.at] == "--" then Some(|FreeArgs(args, toks + [tok])|) else None
  {
    var all := toks + [tok];
    assert all[..|all| - 1] == toks;
  }

  // ---------------------------------------------------------------- a token is finished

  /** The argument to be dealt with next, as the command reached looks at it. */
  ghost function Here(ln: Line, st: State): Place
    requires st.cmds != [] && st.index < |ln.args|
  {
    Place(Current(st), ln.args[st.index], ln.combine, st.positionals == [],
          ln.compgen && st.index == |ln.args| - 1, st.rest)
  }

  lemma HereIsPlace(ln: Line, st: State, toks: seq<Token>)
    requires st.index < |ln.args| && Inv(ln, st, toks)
    ensures PlaceAt(ln, st.cmds, toks, st.index, Level(st)) == Here(ln, st)
  {
    hide AllOk, Tiles, Collected, Handed, Claimed, FreeArgs, SymbolArgs, DashOf, Descends;
  }

  /** `st1` is `st` with the argument's effect on positionals and symbols, after entering `sub` if given. */
  ghost predicate Took(args: seq<string>, st: State, st1: State, sub: Option<Command>, kind: Kind)
    requires st.index < |args|
  {
    && st1.index == st.index
    && st1.cmds == st.cmds + (if sub.Some? then [sub.value] else [])
    && st1.starts == st.starts + (if sub.Some? then [st.index] else [])
    && st1.entries == st.entries + (if sub.Some? then [[]] else [])
    && st1.positionals == st.positionals + (if kind == Free then [args[st.index]] else [])
    && (kind == Symbol ==> args[st.index] != "")
    && st1.symbols == st.symbols + (if kind == Symbol && args[st.index] != "" then [args[st.index][1..]] else [])
  }

  /** What the step remembers for the arguments to come. */
  ghost predicate Noted(ln: Line, st: State, toks: seq<Token>, st1: State, sub: Option<Command>, tok: Token)
    requires st.index < |ln.args| && st.cmds != []
  {
    && (st1.rest <==> st.rest || (sub.Some? && Delegated(sub.value)) || TakesOver(ln.args, st1.cmds, toks, tok))
    && st1.dash == if Delegated(st.cmds[0]) then None
                   else if st.dash.Some? then st.dash
                   else if ln.args[st.index] == "--" then Some(|st1.positionals|) else None
  }

  /** All a finished token needs: `st1` is where it leads from `st`, and it means what it says there. */
  ghost predicate Finishes(ln: Line, st: State, toks: seq<Token>, st1: State, sub: Option<Command>, tok: Token)
    requires st.index < |ln.args| && st.cmds != []
  {
    && Took(ln.args, st, st1, sub, tok.kind) && Noted(ln, st, toks, st1, sub, tok)
    && tok.at == st.index && tok.level == Level(st) && tok.entered == sub.Some?
    && 1 <= tok.size && tok.at + tok.size <= |ln.args|
    && Meant(Here(ln, st), tok.kind, tok.entered) && Content(ln, Current(st), tok)
    && (sub.Some? ==> EnteredBy(Current(st), ln.args[st.index], tok.kind) == sub)
  }

  /** The state after the token. */
  function Next(st1: State, tok: Token): State
    requires st1.entries != []
  {
    Push(st1, tok.entries).(index := tok.at + tok.size)
  }

  lemma FinishedDescends(ln: Line, st: State, toks: seq<Token>, st1: State, sub: Option<Command>, tok: Token)
    requires st.index < |ln.args| && Descends(ln.args, st) && Finishes(ln, st, toks, st1, sub, tok)
    ensures st1.entries != [] && Descends(ln.args, Next(st1, tok)) && LevelOf(tok) == Level(st1)
  {
    hide Meant, Content, Noted;
  }

  lemma FinishedTokenOk(ln: Line, st: State, toks: seq<Token>, st1: State, sub: Option<Command>, tok: Token)
    requires st.index < |ln.args| && Inv(ln, st, toks) && Finishes(ln, st, toks, st1, sub, tok)
    ensures AllOk(ln, st1.cmds, st1.starts, toks + [tok])
  {
    hide Meant, Content, Noted, Handed, PlaceAt, EnteredBy, Tiles, Collected, FreeArgs, SymbolArgs, Remembers, AllOk;
    var n := |st.cmds|;
    HereIsPlace(ln, st, toks);
    AllBelow(ln, st.cmds, st.starts, toks);
    assert Agree(st.cmds, st1.cmds, n) && Agree(st.starts, st1.starts, n);
    HandedAgrees(ln, st.cmds, st.starts, st1.cmds, st1.starts, n, toks, st.index, Level(st));
    PlaceAgrees(ln, st.cmds, st1.cmds, n, toks, st.index, Level(st));
    AllOkAgrees(ln, st.cmds, st.starts, st1.cmds, st1.starts, n, toks);
    assert TokenOk(ln, st1.cmds, st1.starts, toks, tok);
    AllOkOneMore(ln, st1.cmds, st1.starts, toks, tok);
  }

  lemma FinishedAccounts(ln: Line, st: State, toks: seq<Token>, st1: State, sub: Option<Command>, tok: Token)
    requires st.index < |ln.args| && Inv(ln, st, toks) && Finishes(ln, st, toks, st1, sub, tok)
    ensures st1.entries != [] && Accounts(ln, Next(st1, tok), toks + [tok])
  {
    hide Meant, Content, Noted, Handed, EnteredBy, Tiles, FreeArgs, SymbolArgs, Remembers, AllOk, LevelEntries;
    FinishedDescends(ln, st, toks, st1, sub, tok);
    FinishedTokenOk(ln, st, toks, st1, sub, tok);
    TilesGrow(toks, tok, st.index);
    ArgsGrow(ln.args, toks, tok);
    AllBelow(ln, st.cmds, st.starts, toks);
    NoEntriesAbove(toks, |st.cmds|);
    CollectedPush(st1, tok.entries, toks, tok);
  }

  lemma FinishedRemembers(ln: Line, st: State, toks: seq<Token>, st1: State, sub: Option<Command>, tok: Token)
    requires st.index < |ln.args| && Inv(ln, st, toks) && Finishes(ln, st, toks, st1, sub, tok)
    ensures st1.entries != [] && Remembers(ln, Next(st1, tok), toks + [tok])
  {
    hide Meant, Content, Handed, EnteredBy, Tiles, FreeArgs, SymbolArgs, AllOk, Collected, TakenOver, TakesOver,
      SomeDelegated, Delegated, DashOf;
    FinishedDescends(ln, st, toks, st1, sub, tok);
    AllBelow(ln, st.cmds, st.starts, toks);
    assert Agree(st.cmds, st1.cmds, |st.cmds|);
    TakenOverAgrees(ln.args, st.cmds, st1.cmds, |st.cmds|, toks);
    TakenOverGrows(ln.args, st1.cmds, toks, tok);
    DashGrows(ln.args, toks, tok);
    ArgsGrow(ln.args, toks, tok);
    if sub.Some? {
      DelegatedGrows(st.cmds, sub.value);
    } else {
      assert st1.cmds == st.cmds;
    }
  }

  /** A finished token keeps the accounting. */
  lemma FinishedKeeps(ln: Line, st: State, toks: seq<Token>, st1: State, sub: Option<Command>, tok: Token)
    requires st.index < |ln.args| && Inv(ln, st, toks) && Finishes(ln, st, toks, st1, sub, tok)
    ensures st1.entries != [] && Inv(ln, Next(st1, tok), toks + [tok])
  {
    hide Finishes, Accounts, Remembers;
    FinishedAccounts(ln, st, toks, st1, sub, tok);
    FinishedRemembers(ln, st, toks, st1, sub, tok);
    FinishedDescends(ln, st, toks, st1, sub, tok);
  }

  // ------------------------------------------------------------------ each kind of step

  ghost predicate Keeps(ln: Line, toks: seq<Token>, o: Outcome) {
    Inv(ln, o.st, toks + o.tokens)
  }

  lemma DoneKeeps(ln: Line, st: State, toks: seq<Token>, st1: State, sub: Option<Command>, kind: Kind, size: nat,
                  es: seq<Entry>)
    requires st.index < |ln.args| && Inv(ln, st, toks)
    requires Finishes(ln, st, toks, st1, sub, Token(kind, st.index, size, Level(st), sub.Some?, es))
    ensures st1.entries != [] && Keeps(ln, toks, Done(st1, kind, size, es, st.index, Level(st)))
  {
    hide Inv, Noted, Meant, Content;
    FinishedKeeps(ln, st, toks, st1, sub, Token(kind, st.index, size, Level(st), sub.Some?, es));
  }

  /** The accounting with a level more, which no token has reached. */
  lemma DeeperKeeps(ln: Line, st: State, toks: seq<Token>, e: State, sub: Command)
    requires st.cmds != [] && |st.starts| == |st.entries| == |st.cmds|
    requires Accounts(ln, st, toks) && Remembers(ln, st, toks)
    requires exists s :: e == st.(cmds := st.cmds + [sub], starts := st.starts + [s], entries := st.entries + [[]],
                                  rest := st.rest || Delegated(sub))
    ensures Accounts(ln, e, toks) && Remembers(ln, e, toks)
  {
    hide Tiles, AllOk, FreeArgs, SymbolArgs, LevelEntries, DashOf, Delegated, TakenOver, SomeDelegated;
    var n := |st.cmds|;
    AllBelow(ln, st.cmds, st.starts, toks);
    NoEntriesAbove(toks, n);
    assert Agree(st.cmds, e.cmds, n) && Agree(st.starts, e.starts, n);
    AllOkAgrees(ln, st.cmds, st.starts, e.cmds, e.starts, n, toks);
    TakenOverAgrees(ln.args, st.cmds, e.cmds, n, toks);
    DelegatedGrows(st.cmds, sub);
  }

  /** Handing the argument on to the default subcommand. */
  lemma EnterKeeps(ln: Line, st: State, toks: seq<Token>, sub: Command)
    requires st.index < |ln.args| && Inv(ln, st, toks) && HandsOn(Here(ln, st))
    requires FindDefaultSubcommand(Current(st)) == Some(sub)
    ensures Keeps(ln, toks, Outcome(Enter(st, sub), []))
  {
    hide HandsOn, PlaceAt, Accounts, Remembers, Delegated, FindDefaultSubcommand, LevelAfter;
    var e, n := Enter(st, sub), |st.cmds|;
    assert toks + [] == toks;
    HereIsPlace(ln, st, toks);
    AccountedBelow(ln, st, toks);
    assert Agree(st.cmds, e.cmds, n) && Agree(st.starts, e.starts, n);
    HandedAgrees(ln, st.cmds, st.starts, e.cmds, e.starts, n, toks, st.index, Level(st));
    PlaceAgrees(ln, st.cmds, e.cmds, n, toks, st.index, Level(st));
    DeeperKeeps(ln, st, toks, e, sub);
  }

  lemma AccountedBelow(ln: Line, st: State, toks: seq<Token>)
    requires Accounts(ln, st, toks)
    ensures Below(toks, |st.cmds|)
  {
    AllBelow(ln, st.cmds, st.starts, toks);
  }

  /** After a `--` the rest of the line is claimed. */
  lemma {:induction false} DashClaims(ln: Line, cmds: seq<Command>, starts: seq<nat>, toks: seq<Token>, end: nat)
    requires AllOk(ln, cmds, starts, toks) && Tiles(toks, end) && end < |ln.args| && DashOf(ln.args, toks).Some?
    ensures Claimed(ln.args, cmds, toks, LevelAfter(toks))
    decreases |toks|
  {
    var front, last := toks[..|toks| - 1], toks[|toks| - 1];
    assert TokenOk(ln, cmds, starts, toks[..|toks| - 1], toks[|toks| - 1]);
    if DashOf(ln.args, front).Some? {
      FrontOk(ln, cmds, starts, toks);
      DashClaims(ln, cmds, starts, front, last.at);
    }
  }

  lemma FrontOk(ln: Line, cmds: seq<Command>, starts: seq<nat>, toks: seq<Token>)
    requires AllOk(ln, cmds, starts, toks) && toks != []
    ensures AllOk(ln, cmds, starts, toks[..|toks| - 1])
  {
    hide TokenOk;
    var front := toks[..|toks| - 1];
    forall j | 0 <= j < |front| ensures TokenOk(ln, cmds, starts, front[..j], front[j]) {
      assert front[..j] == toks[..j];
    }
  }

  /** The loop runs at a state that accounts for the arguments before it; a delegated root never gets there. */
  ghost predicate Stands(ln: Line, st: State, toks: seq<Token>) {
    Ready(ln.args, st) && Inv(ln, st, toks) && !Delegated(st.cmds[0])
  }

  lemma DashIsRest(ln: Line, st: State, toks: seq<Token>)
    requires Stands(ln, st, toks) && st.dash.Some?
    ensures st.rest
  {
    hide AllOk, Tiles, FreeArgs, SymbolArgs, Collected, DashOf, TakenOver, HandedAt, Delegated;
    DashClaims(ln, st.cmds, st.starts, toks, st.index);
  }

  lemma SeparatorKeeps(ln: Line, st: State, toks: seq<Token>)
    requires Stands(ln, st, toks) && ln.args[st.index] == "--"
    ensures Keeps(ln, toks, StepSeparator(ln.args, st))
  {
    hide Inv, Keeps, Done, FreeArgs, Delegated;
    if st.dash.Some? {
      DashIsRest(ln, st, toks);
    }
    var st1 := if st.rest then AddPositional(st, ln.args[st.index], Current(st)) else st;
    var st2 := if st1.dash.None?
               then st1.(dash := Some(|st1.positionals|), rest := st1.rest || st.index != |ln.args| - 1) else st1;
    DoneKeeps(ln, st, toks, st2, None, if st.rest then Free else Separator, 1, []);
  }

  /** A positional, possibly the first one of a default subcommand. */
  lemma FreeKeeps(ln: Line, st: State, toks: seq<Token>, sub: Option<Command>, c: Command)
    requires Ready(ln.args, st) && Inv(ln, st, toks) && (ln.args[st.index] == "--" ==> Delegated(st.cmds[0]))
    requires Meant(Here(ln, st), Free, sub.Some?) && (sub.Some? ==> FindDefaultSubcommand(Current(st)) == sub)
    requires c == if sub.Some? then sub.value else Current(st)
    ensures var st0 := if sub.Some? then Enter(st, sub.value) else st;
      Keeps(ln, toks, Done(AddPositional(st0, ln.args[st.index], c), Free, 1, [], st.index, Level(st)))
  {
    hide Descends, Tiles, AllOk, SymbolArgs, FreeArgs, Collected, Claimed, DashOf, Handed, Meant, Keeps, Done,
      Delegated,
      TakesRest, FindDefaultSubcommand;
    var st0 := if sub.Some? then Enter(st, sub.value) else st;
    DoneKeeps(ln, st, toks, AddPositional(st0, ln.args[st.index], c), sub, Free, 1, []);
  }

  lemma SymbolKeeps(ln: Line, st: State, toks: seq<Token>)
    requires Stands(ln, st, toks) && Meant(Here(ln, st), Symbol, false)
    ensures ln.args[st.index] != "" && Keeps(ln, toks, StepSymbol(ln.args, st))
  {
    hide Descends, Accounts, Claimed, DashOf, Handed, Keeps, Done, Delegated, IsOption, IsName, IsLetters, FlagLike;
    DoneKeeps(ln, st, toks, st.(symbols := st.symbols + [ln.args[st.index][1..]]), None, Symbol, 1, []);
  }

  lemma NamedKeeps(ln: Line, st: State, toks: seq<Token>, sub: Command)
    requires Stands(ln, st, toks) && Meant(Here(ln, st), Subcommand, true)
    requires FindSubcommand(Current(st), ln.args[st.index]) == Some(sub)
    ensures Keeps(ln, toks, StepNamed(st, sub))
  {
    hide Descends, Accounts, Claimed, DashOf, Handed, Keeps, Done, Delegated, IsOption, IsName, FlagLike,
      FindSubcommand,
      Bare;
    DoneKeeps(ln, st, toks, Enter(st, sub), Some(sub), Subcommand, 1, []);
  }

  lemma OneKeeps(ln: Line, st: State, toks: seq<Token>, size: nat, e: Entry)
    requires Stands(ln, st, toks) && 1 <= size && st.index + size <= |ln.args| && Meant(Here(ln, st), Occurrence, false)
    requires OccurrenceOk(ln.args, ln.compgen, Current(st), st.index, size, e)
    ensures Keeps(ln, toks, Done(st, Occurrence, size, [e], st.index, Level(st)))
  {
    hide Descends, Accounts, Claimed, DashOf, Handed, Keeps, Done, Delegated, IsOption, IsName, IsLetters, IsSymbol,
      HasDefault, FlagLike, OccurrenceOk, Bare;
    DoneKeeps(ln, st, toks, st, None, Occurrence, size, [e]);
  }

  lemma ClusterKeeps(ln: Line, st: State, toks: seq<Token>, size: nat, es: seq<Entry>)
    requires Stands(ln, st, toks) && 1 <= size && st.index + size <= |ln.args| && |ln.args[st.index]| >= 2
    requires Meant(Here(ln, st), Combined, FirstLetterNames(Current(st), ln.args[st.index]).Some?)
    requires ClusterOk(ln.args, ln.compgen, Current(st), st.index, size, es)
    ensures var sub := FirstLetterNames(Current(st), ln.args[st.index]);
      var st1 := if sub.Some? then Enter(st, sub.value) else st;
      Keeps(ln, toks, Done(st1, Combined, size, es, st.index, Level(st)))
  {
    hide Descends, Accounts, Claimed, DashOf, Handed, Keeps, Done, Delegated, IsOption, IsName, IsLetters, FlagLike,
      FirstLetterNames, ClusterOk, Bare;
    var sub := FirstLetterNames(Current(st), ln.args[st.index]);
    var st1 := if sub.Some? then Enter(st, sub.value) else st;
    DoneKeeps(ln, st, toks, st1, sub, Combined, size, es);
  }

  lemma AssignedKeeps(ln: Line, st: State, toks: seq<Token>, key: string, v: string)
    requires Stands(ln, st, toks) && Open(Here(ln, st)) && FlagLike(Current(st), ln.args[st.index])
    requires SplitOnce(ln.args[st.index]) == Some((key, v))
    ensures Keeps(ln, toks, StepAssigned(ln.args, st, key, v))
  {
    hide Inv, Keeps, Done, FindFlagOption, Delimit, Divided, FlagLike, SplitOnce, Bare, Delegated, AllLetters,
      HasSymbol, FindDefaultSubcommand, FindSubcommand;
    var c := Current(st);
    match FindFlagOption(c, key) {
      case Some(p) =>
        DelimitDivides(p.delimiter, [v]);
        OneKeeps(ln, st, toks, 1, Entry(key, Delimit(p.delimiter, [v]), Some(p.id)));
      case None =>
        if Fallback(st, c, key).Some? {
          EnterKeeps(ln, st, toks, Fallback(st, c, key).value);
        } else {
          OneKeeps(ln, st, toks, 1, Entry(key, [v], None));
        }
    }
  }

  lemma TakingKeeps(ln: Line, st: State, toks: seq<Token>, p: FlagOption)
    requires Stands(ln, st, toks) && Open(Here(ln, st)) && FlagLike(Current(st), ln.args[st.index])
    requires SplitOnce(ln.args[st.index]).None? && FindFlagOption(Current(st), ln.args[st.index]) == Some(p)
    ensures Keeps(ln, toks,
                  StepOccurrence(ln.args, st, p, UsesPlus(Current(st)), ln.compgen, [], Occurrence, Level(st)))
  {
    hide Inv, Keeps, Done, FindFlagOption, OptionValues, ValuesOk, UsesPlus, SplitOnce, FlagLike, Bare, Delegated,
      IsName, IsLetters, IsSymbol, HasDefault;
    var (values, n) := OptionValues(ln.args, st.index, p, UsesPlus(Current(st)), ln.compgen);
    var e := Entry(ln.args[st.index], values, Some(p.id));
    OptionValuesOk(ln.args, st.index, p, UsesPlus(Current(st)), ln.compgen);
    assert [] + [e] == [e];
    OneKeeps(ln, st, toks, 1 + n, e);
  }

  lemma CombinedKeeps(ln: Line, st: State, toks: seq<Token>, es: seq<Entry>)
    requires Stands(ln, st, toks) && |ln.args[st.index]| >= 2
    requires Meant(Here(ln, st), Combined, FirstLetterNames(Current(st), ln.args[st.index]).Some?)
    requires IsCluster(ClusterOf(Current(st), ln.args[st.index]).0, ln.args[st.index],
                       ClusterOf(Current(st), ln.args[st.index]).1, es)
    ensures Keeps(ln, toks, StepCombined(ln.args, st, UsesPlus(Current(st)), ln.compgen, es,
                                         FirstLetterNames(Current(st), ln.args[st.index])))
  {
    hide Inv, Delegated, Keeps, Done, FindFlagOption, OptionValues, ValuesOk, UsesPlus, Meant;
    var c, arg := Current(st), ln.args[st.index];
    var sub, d, i := FirstLetterNames(c, arg), ClusterOf(c, arg).0, ClusterOf(c, arg).1;
    if es == [] {
      ClusterKeeps(ln, st, toks, 1, []);
    } else {
      LastLetter(d, arg, i, es);
      var p := FindFlagOption(d, es[|es| - 1].param.value).value;
      var (values, n) := OptionValues(ln.args, st.index, p, UsesPlus(c), ln.compgen);
      OptionValuesOk(ln.args, st.index, p, UsesPlus(c), ln.compgen);
      var all := es[..|es| - 1] + [Entry(arg, values, Some(p.id))];
      ClusterKeeps(ln, st, toks, 1 + n, all);
    }
  }

  lemma FlagKeeps(ln: Line, st: State, toks: seq<Token>)
    requires Stands(ln, st, toks) && Open(Here(ln, st)) && FlagLike(Current(st), ln.args[st.index])
    ensures |ln.args[st.index]| > 1 && Keeps(ln, toks, StepFlag(ln.args, ln.combine, ln.compgen, st))
  {
    hide Inv, UsesPlus, SplitOnce, FindFlagOption, FindSubcommand, FindDefaultSubcommand, HasSymbol, MatchCombineShorts,
      IsCluster, ClusterOf, AllLetters, FirstLetterNames, StepAssigned, StepOccurrence, StepCombined, StepSymbol,
      StepNamed, Enter, Done, Keeps, FlagLike, Bare, Delegated;
    var c, arg := Current(st), ln.args[st.index];
    FlagLikeLong(c, arg);
    var split, cluster := SplitOnce(arg), MatchCombineShorts(c, arg, ln.combine);
    var named := NamedSubcommand(st, c, arg, ln.compgen && st.index == |ln.args| - 1);
    if split.Some? {
      AssignedKeeps(ln, st, toks, split.value.0, split.value.1);
    } else if FindFlagOption(c, arg).Some? {
      TakingKeeps(ln, st, toks, FindFlagOption(c, arg).value);
    } else if named.Some? {
      NamedKeeps(ln, st, toks, named.value);
    } else if cluster.Some? {
      CombinedKeeps(ln, st, toks, cluster.value.0);
    } else if HasSymbol(c, arg) {
      SymbolKeeps(ln, st, toks);
    } else if Fallback(st, c, arg).Some? {
      EnterKeeps(ln, st, toks, Fallback(st, c, arg).value);
    } else {
      OneKeeps(ln, st, toks, 1, Entry(arg, [], None));
    }
  }

  lemma WordKeeps(ln: Line, st: State, toks: seq<Token>)
    requires Stands(ln, st, toks) && Open(Here(ln, st)) && !FlagLike(Current(st), ln.args[st.index])
    ensures Keeps(ln, toks, StepWord(ln.args, ln.compgen, st))
  {
    hide Inv, FindSubcommand, FindDefaultSubcommand, HasSymbol, StepSymbol, StepNamed, Enter, Done, Keeps, FlagLike,
      Bare,
      Delegated, AllLetters;
    var c, arg, lastInCompgen := Current(st), ln.args[st.index], ln.compgen && st.index == |ln.args| - 1;
    var named := NamedSubcommand(st, c, arg, lastInCompgen);
    if named.Some? {
      NamedKeeps(ln, st, toks, named.value);
    } else if HasSymbol(c, arg) {
      SymbolKeeps(ln, st, toks);
    } else if st.positionals == [] && !lastInCompgen && FindDefaultSubcommand(c).Some? {
      FreeKeeps(ln, st, toks, FindDefaultSubcommand(c), FindDefaultSubcommand(c).value);
    } else {
      FreeKeeps(ln, st, toks, None, c);
    }
  }

  /** Every pass of the loop keeps the accounting. */
  lemma StepKeeps(ln: Line, st: State, toks: seq<Token>)
    requires Stands(ln, st, toks)
    ensures Keeps(ln, toks, Step(ln.args, ln.combine, ln.compgen, st))
  {
    hide Inv, Keeps, StepSeparator, StepFlag, StepWord, Done, FlagLike, Bare, Delegated;
    var c, arg := Current(st), ln.args[st.index];
    if arg == "--" {
      SeparatorKeeps(ln, st, toks);
    } else if st.rest || Bare(c, arg) {
      FreeKeeps(ln, st, toks, None, c);
    } else if FlagLike(c, arg) {
      FlagKeeps(ln, st, toks);
    } else {
      WordKeeps(ln, st, toks);
    }
  }

  // ------------------------------------------------------------------------ whole runs

  lemma StartHolds(ln: Line, root: Command)
    requires !Delegated(root)
    ensures Inv(ln, Start(root), [])
  {
    hide Delegated;
  }

  /** Tokens never reach past the last argument. */
  lemma IndexInside(ln: Line, st: State, toks: seq<Token>)
    requires Accounts(ln, st, toks) && |ln.args| >= 1
    ensures 1 <= st.index <= |ln.args|
  {
    hide Handed, Meant, Content, PlaceAt;
    if toks != [] {
      assert TokenOk(ln, st.cmds, st.starts, toks[..|toks| - 1], toks[|toks| - 1]);
    }
  }

  /** After the last argument nothing is left to hand on. */
  lemma LevelAtEnd(ln: Line, st: State, toks: seq<Token>)
    requires Inv(ln, st, toks) && st.index == |ln.args|
    ensures LevelAfter(toks) == Level(st)
  {
    hide Accounts, Remembers, HandsOn, PlaceAt, LevelAfter, FindDefaultSubcommand;
    assert LevelAfter(toks) < Level(st) ==> HandedAt(ln, st.cmds, st.starts, toks, st.index, LevelAfter(toks));
  }

  lemma FinishedPath(ln: Line, st: State, toks: seq<Token>)
    requires |ln.args| >= 1 && st.index == |ln.args| && Inv(ln, st, toks)
    ensures Descends(ln.args, Finish(st)) && Finish(st).cmds[0] == st.cmds[0]
    ensures Ends(ln, Finish(st).cmds, Finish(st).starts, toks)
  {
    hide Tiles, AllOk, FreeArgs, SymbolArgs, LevelEntries, Delegated, Remembers, Handed, FindDefaultSubcommand,
      LevelAfter;
    LevelAtEnd(ln, st, toks);
  }

  /** Entering the default subcommand of an unused command ends the path. */
  lemma FinishHolds(ln: Line, st: State, toks: seq<Token>)
    requires |ln.args| >= 1 && st.index == |ln.args| && Inv(ln, st, toks)
    ensures Accounted(st.cmds[0], ln, Finish(st), toks)
  {
    hide Accounts, Remembers, Delegated, Ends, FindDefaultSubcommand, Handed;
    FinishedPath(ln, st, toks);
    if Finish(st) != st {
      var e, sub := Finish(st), FindDefaultSubcommand(Current(st)).value;
      assert e == st.(cmds := st.cmds + [sub], starts := st.starts + [st.index - 1], entries := st.entries + [[]],
                      rest := st.rest || Delegated(sub));
      DeeperKeeps(ln, st, toks, e, sub);
    }
  }

  /** The tokens of a command line whose every argument is positional. */
  function AllFree(n: nat): (toks: seq<Token>)
    requires 1 <= n
    ensures |toks| == n - 1 && forall j :: 0 <= j < |toks| ==> toks[j].kind == Free
  {
    if n == 1 then [] else AllFree(n - 1) + [Token(Free, n - 1, 1, 0, false, [])]
  }

  /** A delegated command's line up to `n`: everything is positional. */
  function Passed(root: Command, args: seq<string>, n: nat): State
    requires 1 <= n <= |args|
  {
    Start(root).(positionals := args[1..n], index := n, rest := true)
  }

  lemma NonePassed(ln: Line, root: Command)
    requires 1 <= |ln.args| && Delegated(root)
    ensures Inv(ln, Passed(root, ln.args, 1), AllFree(1))
  {
    hide Delegated;
    assert Delegated([root][0]);
  }

  lemma {:induction false} PassedHolds(ln: Line, root: Command, n: nat)
    requires 1 <= n <= |ln.args| && Delegated(root)
    ensures Inv(ln, Passed(root, ln.args, n), AllFree(n))
  {
    hide Inv, Delegated, Bare, FlagLike, IsName, IsSymbol, HasDefault;
    if n == 1 {
      NonePassed(ln, root);
    } else {
      PassedHolds(ln, root, n - 1);
      FreeKeeps(ln, Passed(root, ln.args, n - 1), AllFree(n - 1), None, root);
      PassedNext(root, ln.args, n);
    }
  }

  lemma PassedNext(root: Command, args: seq<string>, n: nat)
    requires 1 < n <= |args|
    ensures var st := Passed(root, args, n - 1);
      Done(AddPositional(st, args[n - 1], root), Free, 1, [], n - 1, 0)
      == Outcome(Passed(root, args, n), [Token(Free, n - 1, 1, 0, false, [])])
  {
    var st := Passed(root, args, n - 1);
    assert args[1..n] == args[1..n - 1] + [args[n - 1]];
    assert st.entries[0] + [] == st.entries[0];
    assert st.entries == st.entries[..0] + [st.entries[0]];
  }

  /** What the matcher makes of a command line. */
  function Matched(root: Command, args: seq<string>, combine: bool, compgen: bool): Outcome
    requires |args| >= 1
  {
    if Delegated(root) then Outcome(Passed(root, args, |args|), AllFree(|args|))
    else
      var r := Iterate(args, combine, compgen, Start(root));
      IterateEnds(args, combine, compgen, Start(root));
      Outcome(Finish(r.st), r.tokens)
  }

  lemma {:induction false} IterateEnds(args: seq<string>, combine: bool, compgen: bool, st: State)
    requires st.cmds != [] && |st.entries| == |st.cmds| && st.index <= |args|
    ensures var r := Iterate(args, combine, compgen, st).st;
      r.cmds != [] && |r.entries| == |r.cmds| && r.index == |args|
    decreases |args| - st.index, Current(st)
  {
    hide Step;
    if st.index < |args| {
      StepProgresses(args, combine, compgen, st);
      IterateEnds(args, combine, compgen, Step(args, combine, compgen, st).st);
    }
  }

  /** A delegated root's line is accounted for. */
  lemma PassedAccounted(ln: Line, root: Command)
    requires 1 <= |ln.args| && Delegated(root)
    ensures Accounted(root, ln, Passed(root, ln.args, |ln.args|), AllFree(|ln.args|))
  {
    hide Accounts, Remembers;
    var st, toks := Passed(root, ln.args, |ln.args|), AllFree(|ln.args|);
    PassedHolds(ln, root, |ln.args|);
    LevelAtEnd(ln, st, toks);
  }

  lemma InvInside(ln: Line, st: State, toks: seq<Token>)
    requires Inv(ln, st, toks) && |ln.args| >= 1
    ensures 1 <= st.index <= |ln.args|
  {
    hide Accounts, Remembers, Handed;
    IndexInside(ln, st, toks);
  }

  /** All passes keep the accounting. */
  lemma {:induction false} IterateKeeps(ln: Line, st: State, toks: seq<Token>)
    requires st.cmds != [] && |st.entries| == |st.cmds| && st.index <= |ln.args| && Inv(ln, st, toks)
    requires |ln.args| >= 1 && !Delegated(st.cmds[0])
    ensures var r := Iterate(ln.args, ln.combine, ln.compgen, st);
      Inv(ln, r.st, toks + r.tokens) && r.st.cmds != [] && r.st.cmds[0] == st.cmds[0]
    decreases |ln.args| - st.index, Current(st)
  {
    hide Inv, Step, Delegated;
    if st.index == |ln.args| {
      assert toks + [] == toks;
    } else {
      var o := Step(ln.args, ln.combine, ln.compgen, st);
      StepKeeps(ln, st, toks);
      StepProgresses(ln.args, ln.combine, ln.compgen, st);
      InvInside(ln, o.st, toks + o.tokens);
      IterateKeeps(ln, o.st, toks + o.tokens);
      var r := Iterate(ln.args, ln.combine, ln.compgen, o.st);
      assert toks + o.tokens + r.tokens == toks + (o.tokens + r.tokens);
    }
  }

  /** What the matcher makes of a command line accounts for it. */
  lemma MatchedAccounts(root: Command, ln: Line)
    requires |ln.args| >= 1
    ensures var r := Matched(root, ln.args, ln.combine, ln.compgen); Accounted(root, ln, r.st, r.tokens)
  {
    hide Inv, Accounted, Iterate, Delegated, Finish;
    if Delegated(root) {
      PassedAccounted(ln, root);
    } else {
      StartHolds(ln, root);
      IterateKeeps(ln, Start(root), []);
      var r := Iterate(ln.args, ln.combine, ln.compgen, Start(root));
      assert [] + r.tokens == r.tokens;
      IterateEnds(ln.args, ln.combine, ln.compgen, Start(root));
      FinishHolds(ln, r.st, r.tokens);
    }
  }

  lemma {:induction false} DashAmongFree(args: seq<string>, toks: seq<Token>)
    ensures DashOf(args, toks).Some? ==> DashOf(args, toks).value <= |FreeArgs(args, toks)|
  {
    if toks != [] {
      DashAmongFree(args, toks[..|toks| - 1]);
    }
  }

  /** The positionals are those of the tokens, and the first `--` was somewhere among them. */
  lemma DashInside(root: Command, ln: Line, st: State, toks: seq<Token>)
    requires Accounted(root, ln, st, toks)
    ensures st.cmds != [] && st.positionals == FreeArgs(ln.args, toks)
    ensures st.dash.Some? ==> st.dash.value <= |st.positionals|
  {
    hide AllOk, Tiles, Collected, SymbolArgs, FreeArgs, DashOf, Claimed, Ends;
    DashAmongFree(ln.args, toks);
  }

  /**
   Matches a command line. The tokens cover every argument after the program name exactly once
   and in order, each meaning what the command it was looked at in says; positionals, symbols and
   each level's flags and options are those of the tokens; the commands are a path down the tree
   that goes on exactly where a token enters a subcommand or an argument is handed on.
   */
  method Match(root: Command, args: seq<string>, combine: bool, compgen: bool)
    returns (st: State, ghost toks: seq<Token>)
    requires |args| >= 1
    ensures st == Matched(root, args, combine, compgen).st && toks == Matched(root, args, combine, compgen).tokens
    ensures Accounted(root, Line(args, combine, compgen), st, toks)
  {
    hide Accounted, Step, Delegated;
    MatchedAccounts(root, Line(args, combine, compgen));
    if Delegated(root) {
      st, toks := Passed(root, args, |args|), AllFree(|args|);
      return;
    }
    st, toks := Start(root), [];
    ghost var all := Iterate(args, combine, compgen, st);
    while st.index < |args|
      invariant 1 <= st.index <= |args| && st.cmds != [] && |st.entries| == |st.cmds|
      invariant var r := Iterate(args, combine, compgen, st); all == Outcome(r.st, toks + r.tokens)
      decreases |args| - st.index, Current(st)
    {
      StepProgresses(args, combine, compgen, st);
      var o := Step(args, combine, compgen, st);
      toks := toks + o.tokens;
      st := o.st;
    }
    st := Finish(st);
  }
}
