/**
 The matcher: one pass over the arguments that descends the command tree, collects flags,
 options, symbols and positionals, and may look at the same argument again after stepping
 into a default subcommand.
 */
module ArgMatcher {
  import opened Options
  import opened ArgCommand

  /** One occurrence of a flag or option: the key as written, its values, the parameter's id. */
  datatype Entry = Entry(key: string, values: seq<string>, param: Option<string>)

  datatype Kind = Subcommand | Occurrence | Combined | Symbol | Separator | Free

  /**
   What the matcher made of the arguments [at, at + size), looked at in the command at `level`;
   `entered` if with them the subcommand one level deeper is entered, to which the entries then belong.
   */
  datatype Token = Token(kind: Kind, at: nat, size: nat, level: nat, entered: bool, entries: seq<Entry>)

  /** The matcher's variables. */
  datatype State = State(
    cmds: seq<Command>,
    starts: seq<nat>,
    entries: seq<seq<Entry>>,
    positionals: seq<string>,
    symbols: seq<string>,
    dash: Option<nat>,
    rest: bool,
    index: nat)

  // --------------------------------------------------------------------- pieces of a step

  /** The command at the deepest level reached. */
  function Current(st: State): Command
    requires st.cmds != []
  {
    st.cmds[|st.cmds| - 1]
  }

  /** Steps into a subcommand. */
  function Enter(st: State, c: Command): State {
    st.(cmds := st.cmds + [c], starts := st.starts + [st.index], entries := st.entries + [[]],
        rest := st.rest || Delegated(c))
  }

  /** Adds entries at the deepest level. */
  function Push(st: State, es: seq<Entry>): State
    requires st.entries != []
  {
    st.(entries := st.entries[..|st.entries| - 1] + [st.entries[|st.entries| - 1] + es])
  }

  /** With `n` positionals given, the next would be the command's last one, which takes the rest of the line. */
  predicate TakesRest(c: Command, n: nat) {
    |c.positionals| > 0 && c.positionals[|c.positionals| - 1].terminated && n >= |c.positionals| - 1
  }

  /** Adds a positional; a final positional that takes the rest of the line claims it from then on. */
  function AddPositional(st: State, arg: string, c: Command): State {
    st.(positionals := st.positionals + [arg], rest := st.rest || TakesRest(c, |st.positionals| + 1))
  }

  /** The argument at `i` ends a run of values: it looks like a flag and is more than a bare sign. */
  predicate EndsValues(args: seq<string>, i: nat, plus: bool, compgen: bool)
    requires i < |args|
  {
    MaybeFlagOption(args[i], plus) && (|args[i]| > 1 || (compgen && i == |args| - 1))
  }

  /** The length of the longest run of values from `start`, up to `len`, before the next flag. */
  function ValueCount(args: seq<string>, start: nat, len: nat, plus: bool, assign: bool, compgen: bool): (n: nat)
    ensures n <= len && (n == 0 || start + n <= |args|)
    decreases len
  {
    if assign || len == 0 || start >= |args| then 0
    else if EndsValues(args, start, plus, compgen) then 0
    else 1 + ValueCount(args, start + 1, len - 1, plus, assign, compgen)
  }

  /** The arguments taken as values. */
  function TakeValues(args: seq<string>, start: nat, len: nat, plus: bool, assign: bool,
                      compgen: bool): (r: seq<string>)
    requires start <= |args|
  {
    args[start..start + ValueCount(args, start, len, plus, assign, compgen)]
  }

  /** No value in the run looks like a flag, and the run stops only at a flag, the limit or the end. */
  lemma {:induction false} TakesLongestRun(args: seq<string>, start: nat, len: nat, plus: bool, compgen: bool)
    ensures var n := ValueCount(args, start, len, plus, false, compgen);
      && (forall i :: start <= i < start + n && i < |args| ==> !EndsValues(args, i, plus, compgen))
      && (n < len && start + n < |args| ==> EndsValues(args, start + n, plus, compgen))
    decreases len
  {
    hide EndsValues;
    if len > 0 && start < |args| && !EndsValues(args, start, plus, compgen) {
      TakesLongestRun(args, start + 1, len - 1, plus, compgen);
    }
  }

  /** The same run, collected by the loop. */
  method TakeValueArgs(args: seq<string>, start: nat, len: nat, plus: bool, assign: bool, compgen: bool)
    returns (output: seq<string>)
    requires start <= |args|
    ensures output == TakeValues(args, start, len, plus, assign, compgen)
  {
    hide EndsValues;
    output := [];
    if assign || len == 0 {
      return;
    }
    var end := if start + len < |args| then start + len else |args|;
    var i := start;
    while i < end
      invariant start <= i <= end && output == args[start..i]
      invariant forall k :: start <= k < i ==> !EndsValues(args, k, plus, compgen)
    {
      if EndsValues(args, i, plus, compgen) {
        break;
      }
      output := output + [args[i]];
      i := i + 1;
    }
    LongestRun(args, start, len, plus, compgen, i);
  }

  /** The longest run before a flag, the limit or the end is the only one there is. */
  lemma {:induction false} LongestRun(args: seq<string>, start: nat, len: nat, plus: bool, compgen: bool, end: nat)
    requires start <= end <= |args| && end <= start + len
    requires forall k :: start <= k < end ==> !EndsValues(args, k, plus, compgen)
    requires end == |args| || end == start + len || EndsValues(args, end, plus, compgen)
    ensures ValueCount(args, start, len, plus, false, compgen) == end - start
    decreases len
  {
    hide EndsValues;
    if start < end {
      LongestRun(args, start + 1, len - 1, plus, compgen, end);
    }
  }

  /** The values of an occurrence of `p` at `at`, and how many arguments they come from. */
  function OptionValues(args: seq<string>, at: nat, p: FlagOption, plus: bool, compgen: bool): (r: (seq<string>, nat))
    requires at < |args|
    ensures at + 1 + r.1 <= |args|
  {
    if p.terminated then (args[at + 1..], |args| - at - 1)
    else if MatchPrefix(p, args[at]).Some? then
      var vs := TakeValues(args, at + 1, 1, plus, p.assign, compgen);
      (if vs == [] then ["1"] else vs, |vs|)
    else
      var vs := TakeValues(args, at + 1, p.maxValues, plus, p.assign, compgen);
      (Delimit(p.delimiter, vs), |vs|)
  }

  /** The flag or option that letter `i` of a cluster such as `-abc` stands for. */
  function Letter(c: Command, arg: string, i: nat): Option<FlagOption>
    requires i < |arg|
  {
    FindFlagOption(c, ['-', arg[i]])
  }

  /** Every letter from `i` on stands for a flag or option. */
  ghost predicate AllLetters(c: Command, arg: string, i: nat) {
    forall k :: i <= k < |arg| ==> Letter(c, arg, k).Some?
  }

  /** One entry without values for each letter from `i` on, with the id of what the letter stands for. */
  ghost predicate IsCluster(c: Command, arg: string, i: nat, es: seq<Entry>) {
    && i <= |arg| && |es| == |arg| - i && AllLetters(c, arg, i)
    && forall k :: 0 <= k < |es| ==> es[k] == Entry(arg, [], Some(Letter(c, arg, i + k).value.id))
  }

  /** The flags a cluster stands for, from position `i` on. */
  function Cluster(c: Command, arg: string, i: nat): (r: Option<seq<Entry>>)
    requires i <= |arg|
    ensures r.Some? <==> AllLetters(c, arg, i)
    ensures r.Some? ==> IsCluster(c, arg, i, r.value)
    decreases |arg| - i
  {
    if i == |arg| then Some([])
    else if Letter(c, arg, i).None? then None
    else
      match Cluster(c, arg, i + 1)
      case None => None
      case Some(es) =>
        ClusterGrows(c, arg, i, es);
        Some([Entry(arg, [], Some(Letter(c, arg, i).value.id))] + es)
  }

  lemma ClusterGrows(c: Command, arg: string, i: nat, es: seq<Entry>)
    requires i < |arg| && Letter(c, arg, i).Some? && IsCluster(c, arg, i + 1, es)
    ensures IsCluster(c, arg, i, [Entry(arg, [], Some(Letter(c, arg, i).value.id))] + es)
  {
    hide Letter;
  }

  /** The subcommand the first letter of a cluster names. */
  function FirstLetterNames(c: Command, arg: string): Option<Command>
    requires |arg| >= 2
  {
    FindSubcommand(c, ['-', arg[1]])
  }

  /** The command whose letters a cluster has, and the first of them. */
  function ClusterOf(c: Command, arg: string): (Command, nat)
    requires |arg| >= 2
  {
    var sub := FirstLetterNames(c, arg);
    if sub.Some? then (sub.value, 2) else (c, 1)
  }

  /** Splits a cluster, whose first letter may name a subcommand of `c`. */
  function MatchCombineShorts(c: Command, arg: string, combine: bool): (r: Option<(seq<Entry>, Option<Command>)>)
    requires |arg| >= 2
    ensures r.Some? <==> combine && !StartsWith(arg, "--") && AllLetters(ClusterOf(c, arg).0, arg, ClusterOf(c, arg).1)
    ensures r.Some? ==> r.value.1 == FirstLetterNames(c, arg)
    ensures r.Some? ==> IsCluster(ClusterOf(c, arg).0, arg, ClusterOf(c, arg).1, r.value.0)
  {
    if !combine || StartsWith(arg, "--") || arg == "-" then None
    else
      var (d, i) := ClusterOf(c, arg);
      match Cluster(d, arg, i)
      case None => None
      case Some(es) => Some((es, FirstLetterNames(c, arg)))
  }

  predicate HasSymbol(c: Command, arg: string) {
    exists i :: 0 <= i < |c.symbols| && arg != "" && arg[0] == c.symbols[i]
  }

  // ------------------------------------------------------------------------- one step

  /** The state can take a step: the per-level lists line up and an argument is left. */
  predicate Ready(args: seq<string>, st: State) {
    st.cmds != [] && |st.entries| == |st.cmds| && st.index < |args|
  }

  datatype Outcome = Outcome(st: State, tokens: seq<Token>)

  /** The argument is dealt with as one token of `size` arguments, looked at in the command at `level`. */
  function Done(st: State, kind: Kind, size: nat, es: seq<Entry>, at: nat, level: nat): Outcome
    requires st.entries != []
  {
    Outcome(Push(st, es).(index := at + size), [Token(kind, at, size, level, |st.cmds| > level + 1, es)])
  }

  function Level(st: State): nat
    requires st.cmds != []
  {
    |st.cmds| - 1
  }

  /** The default subcommand to try an unknown flag on, while no positional has been seen. */
  function Fallback(st: State, c: Command, key: string): (r: Option<Command>)
    ensures r.Some? ==> FindDefaultSubcommand(c) == r
  {
    if st.positionals == [] && key !in c.helpFlags && key !in c.versionFlags then FindDefaultSubcommand(c) else None
  }

  /** A subcommand named by the argument, if one may still be named. */
  function NamedSubcommand(st: State, c: Command, arg: string, lastInCompgen: bool): (r: Option<Command>)
    ensures r.Some? ==> r.value in c.subcommands && arg in r.value.names && st.positionals == []
  {
    if st.positionals == [] && !lastInCompgen then FindSubcommand(c, arg) else None
  }

  function StepSeparator(args: seq<string>, st: State): Outcome
    requires Ready(args, st)
  {
    var st1 := if st.rest then AddPositional(st, args[st.index], Current(st)) else st;
    var st2 := if st1.dash.None?
               then st1.(dash := Some(|st1.positionals|), rest := st1.rest || st.index != |args| - 1) else st1;
    Done(st2, if st.rest then Free else Separator, 1, [], st.index, Level(st))
  }

  function StepAssigned(args: seq<string>, st: State, key: string, v: string): Outcome
    requires Ready(args, st)
  {
    var c := Current(st);
    match FindFlagOption(c, key)
    case Some(p) => Done(st, Occurrence, 1, [Entry(key, Delimit(p.delimiter, [v]), Some(p.id))], st.index, Level(st))
    case None =>
      match Fallback(st, c, key)
      case Some(sub) => Outcome(Enter(st, sub), [])
      case None => Done(st, Occurrence, 1, [Entry(key, [v], None)], st.index, Level(st))
  }

  function StepOccurrence(args: seq<string>, st: State, p: FlagOption, plus: bool, compgen: bool,
                          before: seq<Entry>, kind: Kind, level: nat): Outcome
    requires Ready(args, st)
  {
    var (values, n) := OptionValues(args, st.index, p, plus, compgen);
    Done(st, kind, 1 + n, before + [Entry(args[st.index], values, Some(p.id))], st.index, level)
  }

  /** The last letter of a cluster may take values; its parameter is looked up again by its id. */
  function StepCombined(args: seq<string>, st: State, plus: bool, compgen: bool, es: seq<Entry>,
                        sub: Option<Command>): Outcome
    requires Ready(args, st) && |args[st.index]| >= 2 && sub == FirstLetterNames(Current(st), args[st.index])
    requires IsCluster(ClusterOf(Current(st), args[st.index]).0, args[st.index],
                       ClusterOf(Current(st), args[st.index]).1, es)
  {
    var st1 := if sub.Some? then Enter(st, sub.value) else st;
    if es == [] then Done(st1, Combined, 1, [], st.index, Level(st))
    else
      LastLetter(ClusterOf(Current(st), args[st.index]).0, args[st.index],
                 ClusterOf(Current(st), args[st.index]).1, es);
      var p := FindFlagOption(Current(st1), es[|es| - 1].param.value).value;
      StepOccurrence(args, st1, p, plus, compgen, es[..|es| - 1], Combined, Level(st))
  }

  /** The id of a letter's parameter finds a parameter of the same command. */
  lemma LastLetter(c: Command, arg: string, i: nat, es: seq<Entry>)
    requires IsCluster(c, arg, i, es) && es != []
    ensures es[|es| - 1].param == Some(Letter(c, arg, |arg| - 1).value.id)
    ensures FindFlagOption(c, Letter(c, arg, |arg| - 1).value.id).Some?
  {
    hide FindFlagOption;
    var p := Letter(c, arg, |arg| - 1).value;
    assert p in c.flagOptions && IsMatch(p, p.id);
  }

  function StepSymbol(args: seq<string>, st: State): Outcome
    requires Ready(args, st) && args[st.index] != ""
  {
    Done(st.(symbols := st.symbols + [args[st.index][1..]]), Symbol, 1, [], st.index, Level(st))
  }

  function StepNamed(st: State, sub: Command): Outcome
    requires st.cmds != [] && |st.entries| == |st.cmds|
  {
    Done(Enter(st, sub), Subcommand, 1, [], st.index, Level(st))
  }

  function StepFlag(args: seq<string>, combine: bool, compgen: bool, st: State): Outcome
    requires Ready(args, st) && |args[st.index]| > 1
  {
    var c, arg := Current(st), args[st.index];
    var plus := UsesPlus(c);
    var split := SplitOnce(arg);
    if split.Some? then StepAssigned(args, st, split.value.0, split.value.1)
    else if FindFlagOption(c, arg).Some? then
      StepOccurrence(args, st, FindFlagOption(c, arg).value, plus, compgen, [], Occurrence, Level(st))
    else if NamedSubcommand(st, c, arg, compgen && st.index == |args| - 1).Some? then
      StepNamed(st, NamedSubcommand(st, c, arg, compgen && st.index == |args| - 1).value)
    else if MatchCombineShorts(c, arg, combine).Some? then
      var (es, sub) := MatchCombineShorts(c, arg, combine).value;
      StepCombined(args, st, plus, compgen, es, sub)
    else if HasSymbol(c, arg) then StepSymbol(args, st)
    else if Fallback(st, c, arg).Some? then Outcome(Enter(st, Fallback(st, c, arg).value), [])
    else Done(st, Occurrence, 1, [Entry(arg, [], None)], st.index, Level(st))
  }

  function StepWord(args: seq<string>, compgen: bool, st: State): Outcome
    requires Ready(args, st)
  {
    var c, arg, lastInCompgen := Current(st), args[st.index], compgen && st.index == |args| - 1;
    if NamedSubcommand(st, c, arg, lastInCompgen).Some? then
      StepNamed(st, NamedSubcommand(st, c, arg, lastInCompgen).value)
    else if HasSymbol(c, arg) then StepSymbol(args, st)
    else if st.positionals == [] && !lastInCompgen && FindDefaultSubcommand(c).Some? then
      var sub := FindDefaultSubcommand(c).value;
      Done(AddPositional(Enter(st, sub), arg, sub), Free, 1, [], st.index, Level(st))
    else Done(AddPositional(st, arg, c), Free, 1, [], st.index, Level(st))
  }

  /** The command has neither flags nor subcommands, and the argument does not ask for help or the version. */
  predicate Bare(c: Command, arg: string) {
    c.flagOptions == [] && c.subcommands == [] && arg !in c.helpFlags && arg !in c.versionFlags
  }

  predicate FlagLike(c: Command, arg: string) {
    |arg| > 1 && MaybeFlagOption(arg, UsesPlus(c))
  }

  /** One pass of the matcher's loop. */
  function Step(args: seq<string>, combine: bool, compgen: bool, st: State): Outcome
    requires Ready(args, st)
  {
    var c, arg := Current(st), args[st.index];
    if arg == "--" then StepSeparator(args, st)
    else if st.rest || Bare(c, arg) then Done(AddPositional(st, arg, c), Free, 1, [], st.index, Level(st))
    else if FlagLike(c, arg) then StepFlag(args, combine, compgen, st)
    else StepWord(args, compgen, st)
  }

  // ------------------------------------------------------------------------ whole runs

  /** A step uses at least one argument up, or descends into a subcommand without using any. */
  ghost predicate Progress(args: seq<string>, st: State, o: Outcome) {
    && st.cmds != [] && o.st.cmds != [] && o.st.cmds[0] == st.cmds[0] && |o.st.entries| == |o.st.cmds|
    && (|| (st.index < o.st.index <= |args| && |o.tokens| == 1)
        || (o.st.index == st.index && o.tokens == [] && Current(o.st) in Current(st).subcommands))
  }

  /** `st1` is `st` or `st` with more levels. */
  ghost predicate Deeper(st: State, st1: State) {
    st.cmds != [] && st.cmds <= st1.cmds && |st1.entries| == |st1.cmds|
  }

  lemma DoneProgresses(args: seq<string>, st: State, st1: State, kind: Kind, size: nat, es: seq<Entry>)
    requires Deeper(st, st1) && 1 <= size && st.index + size <= |args|
    ensures Progress(args, st, Done(st1, kind, size, es, st.index, Level(st)))
  {
  }

  lemma EnterProgresses(args: seq<string>, st: State, sub: Command)
    requires Ready(args, st) && FindDefaultSubcommand(Current(st)) == Some(sub)
    ensures Progress(args, st, Outcome(Enter(st, sub), []))
  {
  }

  lemma FlagProgresses(args: seq<string>, combine: bool, compgen: bool, st: State)
    requires Ready(args, st) && |args[st.index]| > 1
    ensures Progress(args, st, StepFlag(args, combine, compgen, st))
  {
    hide FindFlagOption, FindSubcommand, MatchCombineShorts, UsesPlus, HasSymbol, SplitOnce, OptionValues, Delimit,
      Delegated,
         Done, Progress, IsCluster, ClusterOf, FirstLetterNames, FindDefaultSubcommand;
    var c, arg := Current(st), args[st.index];
    var cluster, split := MatchCombineShorts(c, arg, combine), SplitOnce(arg);
    var named := NamedSubcommand(st, c, arg, compgen && st.index == |args| - 1);
    if split.Some? {
      var (key, v) := split.value;
      match FindFlagOption(c, key)
      case Some(p) => DoneProgresses(args, st, st, Occurrence, 1, [Entry(key, Delimit(p.delimiter, [v]), Some(p.id))]);
      case None =>
        if Fallback(st, c, key).Some? {
          EnterProgresses(args, st, Fallback(st, c, key).value);
        } else {
          DoneProgresses(args, st, st, Occurrence, 1, [Entry(key, [v], None)]);
        }
    } else if FindFlagOption(c, arg).Some? {
      var p := FindFlagOption(c, arg).value;
      var (values, n) := OptionValues(args, st.index, p, UsesPlus(c), compgen);
      DoneProgresses(args, st, st, Occurrence, 1 + n, [] + [Entry(arg, values, Some(p.id))]);
    } else if named.Some? {
      DoneProgresses(args, st, Enter(st, named.value), Subcommand, 1, []);
    } else if cluster.Some? {
      CombinedProgresses(args, st, UsesPlus(c), compgen, cluster.value.0, cluster.value.1);
    } else if HasSymbol(c, arg) {
      DoneProgresses(args, st, st.(symbols := st.symbols + [arg[1..]]), Symbol, 1, []);
    } else if Fallback(st, c, arg).Some? {
      EnterProgresses(args, st, Fallback(st, c, arg).value);
    } else {
      DoneProgresses(args, st, st, Occurrence, 1, [Entry(arg, [], None)]);
    }
  }

  lemma CombinedProgresses(args: seq<string>, st: State, plus: bool, compgen: bool, es: seq<Entry>,
                           sub: Option<Command>)
    requires Ready(args, st) && |args[st.index]| >= 2 && sub == FirstLetterNames(Current(st), args[st.index])
    requires IsCluster(ClusterOf(Current(st), args[st.index]).0, args[st.index],
                       ClusterOf(Current(st), args[st.index]).1, es)
    ensures Progress(args, st, StepCombined(args, st, plus, compgen, es, sub))
  {
    hide OptionValues, Delegated, Done, Progress, FindFlagOption;
    var st1 := if sub.Some? then Enter(st, sub.value) else st;
    if es == [] {
      DoneProgresses(args, st, st1, Combined, 1, []);
    } else {
      LastLetter(ClusterOf(Current(st), args[st.index]).0, args[st.index],
                 ClusterOf(Current(st), args[st.index]).1, es);
      var p := FindFlagOption(Current(st1), es[|es| - 1].param.value).value;
      var (values, n) := OptionValues(args, st.index, p, plus, compgen);
      DoneProgresses(args, st, st1, Combined, 1 + n, es[..|es| - 1] + [Entry(args[st.index], values, Some(p.id))]);
    }
  }

  lemma WordProgresses(args: seq<string>, compgen: bool, st: State)
    requires Ready(args, st)
    ensures Progress(args, st, StepWord(args, compgen, st))
  {
    hide FindSubcommand, Delegated, Done, Progress;
    var c, arg, lastInCompgen := Current(st), args[st.index], compgen && st.index == |args| - 1;
    var named := NamedSubcommand(st, c, arg, lastInCompgen);
    if named.Some? {
      DoneProgresses(args, st, Enter(st, named.value), Subcommand, 1, []);
    } else if HasSymbol(c, arg) {
      DoneProgresses(args, st, st.(symbols := st.symbols + [arg[1..]]), Symbol, 1, []);
    } else if st.positionals == [] && !lastInCompgen && FindDefaultSubcommand(c).Some? {
      var sub := FindDefaultSubcommand(c).value;
      DoneProgresses(args, st, AddPositional(Enter(st, sub), arg, sub), Free, 1, []);
    } else {
      DoneProgresses(args, st, AddPositional(st, arg, c), Free, 1, []);
    }
  }

  /** Every pass of the loop makes progress. */
  lemma StepProgresses(args: seq<string>, combine: bool, compgen: bool, st: State)
    requires Ready(args, st)
    ensures Progress(args, st, Step(args, combine, compgen, st))
  {
    hide StepFlag, StepWord, FlagLike, Bare, Done, Progress;
    var c, arg := Current(st), args[st.index];
    if arg == "--" {
      var st1 := if st.rest then AddPositional(st, arg, c) else st;
      var st2 := if st1.dash.None?
                 then st1.(dash := Some(|st1.positionals|), rest := st1.rest || st.index != |args| - 1) else st1;
      DoneProgresses(args, st, st2, if st.rest then Free else Separator, 1, []);
    } else if st.rest || Bare(c, arg) {
      DoneProgresses(args, st, AddPositional(st, arg, c), Free, 1, []);
    } else if FlagLike(c, arg) {
      assert |arg| > 1 by {
        FlagLikeLong(c, arg);
      }
      FlagProgresses(args, combine, compgen, st);
    } else {
      WordProgresses(args, compgen, st);
    }
  }

  lemma FlagLikeLong(c: Command, arg: string)
    requires FlagLike(c, arg)
    ensures |arg| > 1
  {
  }

  function Start(root: Command): State {
    State([root], [0], [[]], [], [], None, false, 1)
  }

  /** All passes from a state on: the state at the end and the tokens made. */
  function Iterate(args: seq<string>, combine: bool, compgen: bool, st: State): Outcome
    requires st.cmds != [] && |st.entries| == |st.cmds| && st.index <= |args|
    decreases |args| - st.index, Current(st)
  {
    if st.index == |args| then Outcome(st, [])
    else
      StepProgresses(args, combine, compgen, st);
      var o := Step(args, combine, compgen, st);
      var r := Iterate(args, combine, compgen, o.st);
      Outcome(r.st, o.tokens + r.tokens)
  }

  /** After the last argument: a default subcommand with a function is entered if nothing was given. */
  function Finish(st: State): State
    requires st.cmds != [] && |st.entries| == |st.cmds| && st.index >= 1
  {
    if st.positionals == [] && st.entries[|st.entries| - 1] == [] && FindDefaultSubcommand(Current(st)).Some?
       && FindDefaultSubcommand(Current(st)).value.hasFunction
    then Enter(st.(index := st.index - 1), FindDefaultSubcommand(Current(st)).value).(index := st.index)
    else st
  }
}
