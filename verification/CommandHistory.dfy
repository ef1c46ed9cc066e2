/**
 The command history of one application: a bounded list of commands with a cursor, a cyclic
 backward search, and adding with or without suppression of duplicates.
 */
module CommandHistory {
  import opened Options

  /** A history's fields; `reset` is set while the next retrieval starts at the cursor itself. */
  datatype History = History(commands: seq<string>, max: int, lastDisplayed: int, reset: bool)

  /** What every operation keeps. */
  ghost predicate Sound(h: History) {
    && 0 <= h.max && |h.commands| <= h.max
    && -1 <= h.lastDisplayed && (h.commands == [] ==> h.lastDisplayed <= 0)
    && (h.commands != [] ==> h.lastDisplayed < |h.commands|)
    && (h.commands != [] && h.lastDisplayed == -1 ==> |h.commands| < h.max)
  }

  ghost predicate Distinct(s: seq<string>) {
    forall i, j :: 0 <= i < j < |s| ==> s[i] != s[j]
  }

  // ------------------------------------------------------------------------- search

  predicate Matches(stored: string, given: string, exact: bool) {
    if exact then stored == given else given <= stored
  }

  function Prev(i: int, n: nat): int {
    if i <= 0 then n - 1 else i - 1
  }

  /** Up to `steps` commands backward from `i`; an index outside the list ends the search. */
  function Search(s: seq<string>, given: string, exact: bool, i: int, steps: nat): (r: Option<nat>)
    ensures r.Some? ==> r.value < |s| && Matches(s[r.value], given, exact)
    decreases steps
  {
    if steps == 0 || !(0 <= i < |s|) then None
    else if Matches(s[i], given, exact) then Some(i)
    else Search(s, given, exact, Prev(i, |s|), steps - 1)
  }

  /** Where a search from `start` begins, and the reset flag it leaves. */
  function Begin(h: History, start: int, justLooking: bool): (int, bool) {
    if !justLooking && h.reset then (start, false) else (Prev(start, |h.commands|), h.reset)
  }

  function Find(h: History, given: string, start: int, exact: bool, justLooking: bool): Option<nat>
    requires given != ""
  {
    Search(h.commands, given, exact, Begin(h, start, justLooking).0, |h.commands|)
  }

  /** The index `k` steps back from `i`, going round. */
  function Back(i: int, k: int, n: int): int {
    if k <= i then i - k else i - k + n
  }

  /** Nothing matches between `k` and `d` steps back from `i`. */
  ghost predicate Clear(s: seq<string>, given: string, exact: bool, i: nat, k: nat, d: int)
    requires i < |s| && d <= |s|
  {
    forall e :: k <= e < d ==> !Matches(s[Back(i, e, |s|)], given, exact)
  }

  /** The search stops at the first match going back from `i`, and fails only if nothing matches. */
  lemma {:induction false} SearchBack(s: seq<string>, given: string, exact: bool, i: nat, k: nat)
    requires i < |s| && k <= |s|
    ensures var r := Search(s, given, exact, if k < |s| then Back(i, k, |s|) else i, |s| - k);
      && (r.None? <==> forall d :: k <= d < |s| ==> !Matches(s[Back(i, d, |s|)], given, exact))
      && (r.Some? ==> exists d :: k <= d < |s| && Back(i, d, |s|) == r.value && Clear(s, given, exact, i, k, d))
    decreases |s| - k
  {
    if k < |s| && !Matches(s[Back(i, k, |s|)], given, exact) {
      SearchBack(s, given, exact, i, k + 1);
      assert k + 1 < |s| ==> Prev(Back(i, k, |s|), |s|) == Back(i, k + 1, |s|);
    }
  }

  /** From any index of the list the whole list is searched. */
  lemma SearchIsComplete(s: seq<string>, given: string, exact: bool, i: nat)
    requires i < |s|
    ensures Search(s, given, exact, i, |s|).None? <==> forall j :: 0 <= j < |s| ==> !Matches(s[j], given, exact)
  {
    SearchBack(s, given, exact, i, 0);
    if forall d :: 0 <= d < |s| ==> !Matches(s[Back(i, d, |s|)], given, exact) {
      forall j | 0 <= j < |s| ensures !Matches(s[j], given, exact) {
        var d := if j <= i then i - j else i - j + |s|;
        assert Back(i, d, |s|) == j;
      }
    }
  }

  // ----------------------------------------------------------------------- removing

  function Without(s: seq<string>, i: nat): seq<string>
    requires i < |s|
  {
    s[..i] + s[i + 1..]
  }

  function Remove(h: History, i: int): History {
    if !(0 <= i < |h.commands|) then h
    else
      var last := if h.lastDisplayed == i then -1
                  else if h.lastDisplayed > i then (if h.lastDisplayed <= 0 then h.max else h.lastDisplayed) - 1
                  else h.lastDisplayed;
      h.(commands := Without(h.commands, i), lastDisplayed := last)
  }

  lemma RemoveSound(h: History, i: int)
    requires Sound(h)
    ensures Sound(Remove(h, i))
  {
  }

  // ------------------------------------------------------------------------- adding

  /** The command is dropped because it repeats the newest one. */
  predicate Repeats(h: History, c: string) {
    h.commands != [] && h.commands[|h.commands| - 1] == c
  }

  /** The history once a duplicate found by the search is out of it. */
  function Suppressed(h: History, c: string, suppress: bool): History
    requires c != ""
  {
    if !suppress || h.commands == [] then h
    else
      var found := Find(h, c, h.lastDisplayed, true, false);
      var h1 := h.(reset := Begin(h, h.lastDisplayed, false).1);
      if found.Some? then Remove(h1, found.value) else h1
  }

  /** A full history gives up its oldest command. */
  function MakeRoom(h: History): History {
    if |h.commands| == h.max && h.commands != [] then
      h.(commands := h.commands[1..], lastDisplayed := h.lastDisplayed - 1)
    else h
  }

  /** Appends the command and, unless the cursor is already on an equal one, moves the cursor to it. */
  function Append(h: History, c: string): History {
    var cs := h.commands + [c];
    var stays := 0 <= h.lastDisplayed < |cs| && cs[h.lastDisplayed] == c;
    History(cs, h.max, if stays then h.lastDisplayed else |cs| - 1, true)
  }

  function Add(h: History, c: string, suppress: bool): History {
    if h.max == 0 || c == "" then h
    else if Repeats(h, c) then h.(reset := true)
    else Append(MakeRoom(Suppressed(h, c, suppress)), c)
  }

  lemma SuppressedKeepsMax(h: History, c: string, suppress: bool)
    requires c != ""
    ensures Suppressed(h, c, suppress).max == h.max
    ensures !suppress ==> Suppressed(h, c, suppress) == h
  {
  }

  lemma SuppressedSound(h: History, c: string, suppress: bool)
    requires Sound(h) && c != ""
    ensures Sound(Suppressed(h, c, suppress))
  {
    if suppress && h.commands != [] {
      var found := Find(h, c, h.lastDisplayed, true, false);
      var h1 := h.(reset := Begin(h, h.lastDisplayed, false).1);
      if found.Some? {
        RemoveSound(h1, found.value);
      }
    }
  }

  /** Adding keeps the history valid, and a stored command is the newest and under the cursor. */
  lemma AddStores(h: History, c: string, suppress: bool)
    requires Sound(h)
    ensures Sound(Add(h, c, suppress))
    ensures h.max > 0 && c != "" && !Repeats(h, c) ==>
      var r := Add(h, c, suppress);
      && r.commands != [] && r.commands[|r.commands| - 1] == c
      && 0 <= r.lastDisplayed < |r.commands| && r.commands[r.lastDisplayed] == c
  {
    if h.max > 0 && c != "" && !Repeats(h, c) {
      SuppressedSound(h, c, suppress);
    }
  }

  /** The search a duplicate-suppressing Add makes cannot even start: its cursor is off the list. */
  predicate SearchMisfires(h: History) {
    h.commands != [] && h.lastDisplayed == -1 && h.reset
  }

  /** The search inside Add finds the command exactly when it is there and the search can start. */
  lemma FindForAdd(h: History, c: string)
    requires Sound(h) && c != "" && h.commands != []
    ensures Find(h, c, h.lastDisplayed, true, false).Some? <==> c in h.commands && !SearchMisfires(h)
  {
    if !SearchMisfires(h) {
      var i := Begin(h, h.lastDisplayed, false).0;
      SearchIsComplete(h.commands, c, true, i);
    }
  }

  lemma WithoutDistinct(s: seq<string>, i: nat)
    requires Distinct(s) && i < |s|
    ensures Distinct(Without(s, i)) && s[i] !in Without(s, i)
  {
  }

  /** What the list becomes: the one duplicate or the oldest command goes, the new command comes last. */
  lemma AddContents(h: History, c: string, suppress: bool)
    requires Sound(h) && h.max > 0 && c != "" && !Repeats(h, c)
    ensures var r := Add(h, c, suppress).commands;
      if suppress && c in h.commands && !SearchMisfires(h) then
        exists i :: 0 <= i < |h.commands| && h.commands[i] == c && r == Without(h.commands, i) + [c]
      else if |h.commands| == h.max then r == h.commands[1..] + [c]
      else r == h.commands + [c]
  {
    if suppress && h.commands != [] {
      FindForAdd(h, c);
      var found := Find(h, c, h.lastDisplayed, true, false);
      if found.Some? {
        assert h.commands[found.value] == c;
      }
    }
  }

  /**
   A duplicate-free history stays so under duplicate-suppressing Add exactly unless the command is stored,
   is in the list already, and the search for it cannot start.
   */
  lemma SuppressionWorksExactlyWhen(h: History, c: string)
    requires Sound(h) && Distinct(h.commands)
    ensures Distinct(Add(h, c, true).commands)
       <==> !(h.max > 0 && c != "" && !Repeats(h, c) && SearchMisfires(h) && c in h.commands)
  {
    if h.max == 0 || c == "" || Repeats(h, c) {
      return;
    }
    AddContents(h, c, true);
    var r := Add(h, c, true).commands;
    if c in h.commands && !SearchMisfires(h) {
      var i :| 0 <= i < |h.commands| && h.commands[i] == c && r == Without(h.commands, i) + [c];
      WithoutDistinct(h.commands, i);
    } else if c in h.commands {
      var j :| 0 <= j < |h.commands| && h.commands[j] == c;
      assert |h.commands| < h.max;
      assert r[j] == c && r[|r| - 1] == c;
    }
  }

  // -------------------------------------------------------------- moving the cursor

  function Clamp(i: int, n: nat): int
    requires n > 0
  {
    if i < 0 then 0 else if i > n - 1 then n - 1 else i
  }

  function RetrieveNth(h: History, i: int): History {
    h.(lastDisplayed := if h.commands == [] then 0 else Clamp(i, |h.commands|))
  }

  function Retrieve(h: History, previous: bool): History {
    if previous then
      if h.reset then RetrieveNth(h.(reset := false), h.lastDisplayed) else RetrieveNth(h, h.lastDisplayed - 1)
    else RetrieveNth(h, h.lastDisplayed + 1)
  }

  function Realloc(h: History, n: nat): History {
    if h.max == n then h
    else
      var cs := if |h.commands| <= n then h.commands else h.commands[..n];
      History(cs, n, |cs| - 1, true)
  }

  function Emptied(h: History): History {
    h.(commands := [], lastDisplayed := -1, reset := true)
  }

  function Swap(h: History, a: int, b: int): History {
    if a != b && 0 <= a < |h.commands| && 0 <= b < |h.commands|
    then h.(commands := h.commands[a := h.commands[b]][b := h.commands[a]]) else h
  }

  /** The calls a client can make. */
  datatype Op =
    | AddOp(command: string, suppress: bool)
    | RemoveOp(index: int)
    | RetrieveOp(previous: bool)
    | RetrieveNthOp(index: int)
    | ReallocOp(size: nat)
    | EmptyOp
    | SwapOp(a: int, b: int)
    | FindOp(given: string, start: int, exact: bool, justLooking: bool)

  function Apply(h: History, op: Op): History {
    match op
    case AddOp(c, suppress) => Add(h, c, suppress)
    case RemoveOp(i) => Remove(h, i)
    case RetrieveOp(previous) => Retrieve(h, previous)
    case RetrieveNthOp(i) => RetrieveNth(h, i)
    case ReallocOp(n) => Realloc(h, n)
    case EmptyOp => Emptied(h)
    case SwapOp(a, b) => Swap(h, a, b)
    case FindOp(_, start, _, justLooking) => if h.commands == [] then h else h.(reset := Begin(h, start, justLooking).1)
  }

  function ApplyAll(h: History, ops: seq<Op>): History
    decreases |ops|
  {
    if ops == [] then h else ApplyAll(Apply(h, ops[0]), ops[1..])
  }

  lemma ApplySound(h: History, op: Op)
    requires Sound(h)
    ensures Sound(Apply(h, op))
  {
    match op {
      case AddOp(c, suppress) => AddStores(h, c, suppress);
      case RemoveOp(i) => RemoveSound(h, i);
      case RetrieveOp(_) =>
      case RetrieveNthOp(_) =>
      case ReallocOp(_) =>
      case EmptyOp =>
      case SwapOp(_, _) =>
      case FindOp(_, _, _, _) =>
    }
  }

  /** Every run of calls on a fresh history keeps it bounded and its cursor in place. */
  lemma {:induction false} RunsStaySound(h: History, ops: seq<Op>)
    requires Sound(h)
    ensures Sound(ApplyAll(h, ops))
    decreases |ops|
  {
    if ops != [] {
      ApplySound(h, ops[0]);
      RunsStaySound(Apply(h, ops[0]), ops[1..]);
    }
  }

  /** Removing the newest command while it is displayed leaves a state where suppression fails. */
  lemma SuppressionCanFail()
    ensures ApplyAll(History([], 50, -1, false),
                     [AddOp("a", true), AddOp("b", true), AddOp("c", true), RemoveOp(2), AddOp("a", true)]).commands
            == ["a", "b", "a"]
  {
    var h1 := History(["a"], 50, 0, true);
    var h2 := History(["a", "b"], 50, 1, true);
    var h3 := History(["a", "b", "c"], 50, 2, true);
    var h4 := History(["a", "b"], 50, -1, true);
    var h5 := History(["a", "b", "a"], 50, 2, true);
    assert Add(History([], 50, -1, false), "a", true) == h1;
    assert Search(["a"], "b", true, 0, 1) == None;
    assert Add(h1, "b", true) == h2;
    assert Search(["a", "b"], "c", true, 1, 2) == Search(["a", "b"], "c", true, 0, 1) == None;
    assert Add(h2, "c", true) == h3;
    assert Remove(h3, 2) == h4;
    assert Search(["a", "b"], "a", true, -1, 2) == None;
    assert Add(h4, "a", true) == h5;
    var ops := [AddOp("a", true), AddOp("b", true), AddOp("c", true), RemoveOp(2), AddOp("a", true)];
    assert ops[1..][1..] == ops[2..] && ops[2..][1..] == ops[3..] && ops[3..][1..] == ops[4..];
    assert ApplyAll(h4, ops[4..]) == h5;
    assert ApplyAll(h3, ops[3..]) == h5;
    assert ApplyAll(h2, ops[2..]) == h5;
    assert ApplyAll(h1, ops[1..]) == h5;
  }

  // ---------------------------------------------------------- what each call does to the list

  /** The command is the text given, or begins with it where that is enough. */
  ghost predicate Fits(command: string, given: string, exact: bool) {
    |given| <= |command| && command[..|given|] == given && (exact ==> |command| == |given|)
  }

  /** The command `d` steps back from `first` fits, and none before it does. */
  ghost predicate FirstFit(h: History, given: string, exact: bool, first: nat, d: nat)
    requires first < |h.commands| && d < |h.commands|
  {
    var n := |h.commands|;
    && Fits(h.commands[Back(first, d, n)], given, exact)
    && forall e :: 0 <= e < d ==> !Fits(h.commands[Back(first, e, n)], given, exact)
  }

  lemma MatchesFit(command: string, given: string, exact: bool)
    ensures Matches(command, given, exact) <==> Fits(command, given, exact)
  {
  }

  /**
   Looking for a command: from the start itself if the reset flag is set, and else from the one before it,
   going back and round; the first that fits is found, and one is if there is any.
   */
  lemma FindFinds(h: History, given: string, start: int, exact: bool, justLooking: bool)
    requires h.commands != [] && given != "" && 0 <= start < |h.commands|
    ensures var n, found := |h.commands|, Find(h, given, start, exact, justLooking);
      var first := if h.reset && !justLooking then start else if start == 0 then n - 1 else start - 1;
      && (found.None? <==> forall j :: 0 <= j < n ==> !Fits(h.commands[j], given, exact))
      && (found.Some? ==>
            exists d :: 0 <= d < n && Back(first, d, n) == found.value && FirstFit(h, given, exact, first, d))
    ensures Apply(h, FindOp(given, start, exact, justLooking)) == if justLooking then h else h.(reset := false)
  {
    var n := |h.commands|;
    var first := if h.reset && !justLooking then start else if start == 0 then n - 1 else start - 1;
    hide Search, Matches, Fits;
    forall j | 0 <= j < n ensures Matches(h.commands[j], given, exact) <==> Fits(h.commands[j], given, exact) {
      MatchesFit(h.commands[j], given, exact);
    }
    SearchIsComplete(h.commands, given, exact, first);
    SearchBack(h.commands, given, exact, first, 0);
  }

  /** Removing: the other commands keep their order, and the cursor stays on the command it was on. */
  lemma RemoveKeepsOthers(h: History, i: nat)
    requires Sound(h) && i < |h.commands|
    ensures var r := Apply(h, RemoveOp(i));
      && |r.commands| == |h.commands| - 1 && r.max == h.max && r.reset == h.reset
      && (forall j :: 0 <= j < i ==> r.commands[j] == h.commands[j])
      && (forall j :: i < j < |h.commands| ==> r.commands[j - 1] == h.commands[j])
      && (h.lastDisplayed == i || h.lastDisplayed == -1 ==> r.lastDisplayed == -1)
      && (0 <= h.lastDisplayed < i ==> r.lastDisplayed == h.lastDisplayed)
      && (i < h.lastDisplayed ==> r.lastDisplayed == h.lastDisplayed - 1)
  {
  }

  /** The list with command `i` moved to its end. */
  ghost predicate MovedToEnd(s: seq<string>, t: seq<string>, i: int) {
    && 0 <= i < |s| == |t| && t[|t| - 1] == s[i]
    && (forall j :: 0 <= j < i ==> t[j] == s[j]) && (forall j :: i < j < |s| ==> t[j - 1] == s[j])
  }

  /**
   Adding: nothing for an empty command or a list of size zero, only the flag for a repeat of the newest;
   else the command becomes the newest, in place of the duplicate found or of the oldest in a full list.
   */
  lemma AddMakesNewest(h: History, c: string, suppress: bool)
    requires Sound(h)
    ensures var r, s, n := Apply(h, AddOp(c, suppress)), h.commands, |h.commands|;
      if h.max == 0 || c == "" then r == h
      else if n > 0 && s[n - 1] == c then r == h.(reset := true)
      else
        && r.max == h.max && r.reset && r.commands != [] && r.commands[|r.commands| - 1] == c
        && 0 <= r.lastDisplayed < |r.commands| && r.commands[r.lastDisplayed] == c
        && if suppress && c in s && !(h.lastDisplayed == -1 && h.reset)
           then exists i :: MovedToEnd(s, r.commands, i) && s[i] == c
           else r.commands == (if n == h.max then s[1..] else s) + [c]
  {
    if h.max > 0 && c != "" && !Repeats(h, c) {
      AddStores(h, c, suppress);
      AddContents(h, c, suppress);
      AddLeaves(h, c, suppress);
      hide Add, MovedToEnd, Sound;
      if suppress && c in h.commands && !SearchMisfires(h) {
        var i :| 0 <= i < |h.commands| && h.commands[i] == c
          && Add(h, c, suppress).commands == Without(h.commands, i) + [c];
        WithoutMoves(h.commands, i, c);
      }
    }
  }

  /**
   The cursor stays with a command equal to the stored one if it was on one that is still there, and
   goes to the newest otherwise; a full history loses its oldest command, so that the others move up.
   */
  lemma AddMovesCursor(h: History, c: string, suppress: bool)
    requires Sound(h) && h.max > 0 && c != "" && !Repeats(h, c)
    ensures var r, at := Apply(h, AddOp(c, suppress)), h.lastDisplayed;
      && (!suppress ==>
            var gone := if |h.commands| == h.max then 1 else 0;
            r.lastDisplayed == if gone <= at < |h.commands| && h.commands[at] == c then at - gone
                               else |r.commands| - 1)
      && (suppress && Distinct(h.commands) && !SearchMisfires(h) ==> r.lastDisplayed == |r.commands| - 1)
  {
    if suppress && Distinct(h.commands) && !SearchMisfires(h) {
      hide Add;
      AddStores(h, c, true);
      SuppressionWorksExactlyWhen(h, c);
    }
  }

  lemma WithoutMoves(s: seq<string>, i: nat, c: string)
    requires i < |s| && s[i] == c
    ensures MovedToEnd(s, Without(s, i) + [c], i)
  {
  }

  lemma AddLeaves(h: History, c: string, suppress: bool)
    requires Sound(h) && h.max > 0 && c != "" && !Repeats(h, c)
    ensures Add(h, c, suppress).max == h.max && Add(h, c, suppress).reset
  {
    SuppressedKeepsMax(h, c, suppress);
  }

  /** Going back or forward shows the neighbour of the cursor, and at either end the same command again. */
  lemma RetrieveShows(h: History, previous: bool)
    requires Sound(h) && h.commands != []
    ensures var r, n := Apply(h, RetrieveOp(previous)), |h.commands|;
      && r.commands == h.commands && r.max == h.max && 0 <= r.lastDisplayed < n
      && (previous && !h.reset && h.lastDisplayed > 0 ==> r.lastDisplayed == h.lastDisplayed - 1)
      && (previous && h.lastDisplayed <= 0 ==> r.lastDisplayed == 0)
      && (previous && h.reset && h.lastDisplayed >= 0 ==> r.lastDisplayed == h.lastDisplayed)
      && (!previous && h.lastDisplayed < n - 1 ==> r.lastDisplayed == h.lastDisplayed + 1)
      && (!previous && h.lastDisplayed == n - 1 ==> r.lastDisplayed == n - 1)
      && (r.reset <==> h.reset && !previous)
  {
  }

  /** Asking for a command by number shows it, or the first or last for a number beyond. */
  lemma RetrieveNthShows(h: History, i: int)
    requires h.commands != []
    ensures var r, n := Apply(h, RetrieveNthOp(i)), |h.commands|;
      && r == h.(lastDisplayed := r.lastDisplayed) && 0 <= r.lastDisplayed < n
      && (0 <= i < n ==> r.lastDisplayed == i)
      && (i < 0 ==> r.lastDisplayed == 0) && (i >= n ==> r.lastDisplayed == n - 1)
  {
  }

  /** The calls of going back `k` times. */
  function GoBack(k: nat): seq<Op> {
    seq(k, _ => RetrieveOp(true))
  }

  lemma {:induction false} ApplyAllAppend(h: History, a: seq<Op>, b: seq<Op>)
    ensures ApplyAll(h, a + b) == ApplyAll(ApplyAll(h, a), b)
    decreases |a|
  {
    if a == [] {
      assert a + b == b;
    } else {
      assert (a + b)[1..] == a[1..] + b;
      ApplyAllAppend(Apply(h, a[0]), a[1..], b);
    }
  }

  /** From the newest command, with the flag set, the k-th call going back shows the k-th newest, at last the oldest. */
  lemma {:induction false} GoingBackShows(h: History, k: nat)
    requires Sound(h) && h.commands != [] && h.lastDisplayed == |h.commands| - 1 && h.reset
    ensures var r, n := ApplyAll(h, GoBack(k)), |h.commands|;
      && Sound(r) && r.commands == h.commands && (r.reset <==> k == 0)
      && r.lastDisplayed == if k == 0 then n - 1 else if k <= n then n - k else 0
  {
    if k > 0 {
      GoingBackShows(h, k - 1);
      var front := ApplyAll(h, GoBack(k - 1));
      assert GoBack(k) == GoBack(k - 1) + [RetrieveOp(true)];
      ApplyAllAppend(h, GoBack(k - 1), [RetrieveOp(true)]);
      assert ApplyAll(front, [RetrieveOp(true)]) == Apply(front, RetrieveOp(true));
      RetrieveShows(front, true);
      ApplySound(front, RetrieveOp(true));
    }
  }

  /** So after a command is stored with the cursor on it as the newest, going back runs through the list from it. */
  lemma StoredThenBack(h: History, c: string, suppress: bool, k: nat)
    requires Sound(h) && h.max > 0 && c != "" && (h.commands != [] ==> h.commands[|h.commands| - 1] != c) && k >= 1
    requires var r := Apply(h, AddOp(c, suppress)); r.lastDisplayed == |r.commands| - 1
    ensures var r := Apply(h, AddOp(c, suppress));
      var n, shown := |r.commands|, ApplyAll(h, [AddOp(c, suppress)] + GoBack(k));
      && shown.commands == r.commands && 0 <= shown.lastDisplayed < n
      && shown.commands[shown.lastDisplayed] == r.commands[if k <= n then n - k else 0]
      && (k == 1 ==> shown.commands[shown.lastDisplayed] == c)
  {
    hide Add, Apply;
    var r := Apply(h, AddOp(c, suppress));
    ApplySound(h, AddOp(c, suppress));
    AddMakesNewest(h, c, suppress);
    assert ([AddOp(c, suppress)] + GoBack(k))[1..] == GoBack(k);
    GoingBackShows(r, k);
  }

  /** Another size keeps the oldest commands that fit and puts the cursor on the newest of them. */
  lemma ReallocKeepsOldest(h: History, size: nat)
    ensures var r := Apply(h, ReallocOp(size));
      if size == h.max then r == h
      else
        && |r.commands| <= |h.commands| && |r.commands| <= size
        && (|r.commands| == |h.commands| || |r.commands| == size)
        && (forall i :: 0 <= i < |r.commands| ==> r.commands[i] == h.commands[i])
        && r.max == size && r.lastDisplayed == |r.commands| - 1 && r.reset
  {
  }

  /** Swapping exchanges two commands of the list and touches nothing else. */
  lemma SwapExchanges(h: History, a: int, b: int)
    ensures var r, n := Apply(h, SwapOp(a, b)), |h.commands|;
      && r == h.(commands := r.commands) && |r.commands| == n
      && (forall i :: 0 <= i < n && i != a && i != b ==> r.commands[i] == h.commands[i])
      && if 0 <= a < n && 0 <= b < n then r.commands[a] == h.commands[b] && r.commands[b] == h.commands[a]
         else r.commands == h.commands
  {
  }

  /** Emptying forgets the commands, takes the cursor off the list and sets the flag. */
  lemma EmptyForgets(h: History)
    ensures var r := Apply(h, EmptyOp); r.commands == [] && r.lastDisplayed == -1 && r.reset && r.max == h.max
  {
  }

  // -------------------------------------------------------------------- the object

  /** One entry of the pool of histories; `handle` is 0 when no process owns it. */
  class CommandHistory {
    var commands: seq<string>
    var maxCommands: int
    var lastDisplayed: int
    var reset: bool
    var inUse: bool
    var appName: string
    var handle: nat

    constructor (app: string, size: nat, process: nat)
      ensures State() == History([], size, -1, false)
      ensures inUse && appName == app && handle == process
    {
      commands, maxCommands, lastDisplayed, reset := [], size, -1, false;
      inUse, appName, handle := true, app, process;
    }

    function State(): History
      reads this
    {
      History(commands, maxCommands, lastDisplayed, reset)
    }

    method FindMatchingCommand(given: string, start: int, exact: bool, justLooking: bool)
      returns (found: bool, index: int)
      modifies this`reset
      ensures State() == Apply(old(State()), FindOp(given, start, exact, justLooking))
      ensures given != "" ==> found == Find(old(State()), given, start, exact, justLooking).Some?
      ensures given != "" && found ==> index == Find(old(State()), given, start, exact, justLooking).value
      ensures given == "" ==> found == (commands != [])
      ensures given == "" && found ==> index == Begin(old(State()), start, justLooking).0
    {
      index := start;
      if |commands| == 0 {
        return false, index;
      }
      if !justLooking && reset {
        reset := false;
      } else {
        index := Prev(index, |commands|);
      }
      if given == "" {
        return true, index;
      }
      for i := 0 to |commands|
        invariant Search(commands, given, exact, index, |commands| - i)
               == Find(old(State()), given, start, exact, justLooking)
        invariant State() == Apply(old(State()), FindOp(given, start, exact, justLooking))
      {
        if !(0 <= index < |commands|) {
          return false, index;
        }
        var stored := commands[index];
        if (!exact && |given| <= |stored|) || |given| == |stored| {
          if given <= stored {
            return true, index;
          }
        }
        index := Prev(index, |commands|);
      }
      found := false;
    }

    method Remove(i: int) returns (removed: string)
      modifies this`commands, this`lastDisplayed
      ensures State() == Apply(old(State()), RemoveOp(i))
      ensures removed == if 0 <= i < |old(commands)| then old(commands)[i] else ""
    {
      if i < 0 || i >= |commands| {
        return "";
      }
      removed := commands[i];
      commands := commands[..i] + commands[i + 1..];
      if lastDisplayed == i {
        lastDisplayed := -1;
      } else if lastDisplayed > i {
        lastDisplayed := (if lastDisplayed <= 0 then maxCommands else lastDisplayed) - 1;
      }
    }

    method ResetCursor()
      modifies this`lastDisplayed, this`reset
      ensures lastDisplayed == |commands| - 1 && reset
    {
      lastDisplayed, reset := |commands| - 1, true;
    }

    /** Takes a duplicate of the command out of the list, if the search finds one. */
    method TakeDuplicate(command: string) returns (reuse: string)
      requires command != ""
      modifies this`commands, this`lastDisplayed, this`reset
      ensures State() == Suppressed(old(State()), command, true)
      ensures reuse == "" || reuse == command
    {
      reuse := "";
      var found, index := FindMatchingCommand(command, lastDisplayed, true, false);
      if found {
        reuse := Remove(index);
      }
    }

    /** Stores the command last; the cursor is inside the list wherever it is read. */
    method Store(command: string)
      requires Sound(State()) && maxCommands > 0
      modifies this`commands, this`lastDisplayed, this`reset
      ensures State().(reset := true) == Append(MakeRoom(old(State())), command)
    {
      if |commands| == maxCommands {
        commands := commands[1..];
        lastDisplayed := lastDisplayed - 1;
      }
      commands := commands + [command];
      if lastDisplayed == -1 || commands[lastDisplayed] != command {
        ResetCursor();
      }
    }

    /** Fails exactly on a history of size zero. */
    method Add(command: string, suppress: bool) returns (ok: bool)
      requires Sound(State()) && (maxCommands == 0 || inUse)
      modifies this`commands, this`lastDisplayed, this`reset
      ensures ok == (old(maxCommands) != 0)
      ensures State() == Apply(old(State()), AddOp(command, suppress)) && Sound(State())
    {
      hide Sound, Suppressed, MakeRoom, Append;
      AddStores(State(), command, suppress);
      if maxCommands == 0 {
        return false;
      }
      if command == "" {
        return true;
      }
      if |commands| == 0 || commands[|commands| - 1] != command {
        SuppressedSound(State(), command, suppress);
        SuppressedKeepsMax(State(), command, suppress);
        var reuse := "";
        if suppress {
          reuse := TakeDuplicate(command);
        }
        Store(if reuse != "" then reuse else command);
      }
      reset := true;
      ok := true;
    }

    method RetrieveNth(i: int) returns (command: string)
      modifies this`lastDisplayed
      ensures State() == Apply(old(State()), RetrieveNthOp(i))
      ensures command == if commands == [] then "" else commands[Clamp(i, |commands|)]
    {
      if commands == [] {
        lastDisplayed := 0;
        return "";
      }
      lastDisplayed := Clamp(i, |commands|);
      command := commands[lastDisplayed];
    }

    method Retrieve(previous: bool) returns (command: string)
      modifies this`lastDisplayed, this`reset
      ensures State() == Apply(old(State()), RetrieveOp(previous))
      ensures command == if commands == [] then "" else commands[lastDisplayed]
    {
      if previous {
        if reset {
          reset := false;
        } else {
          lastDisplayed := lastDisplayed - 1;
        }
      } else {
        lastDisplayed := lastDisplayed + 1;
      }
      command := RetrieveNth(lastDisplayed);
    }

    method Realloc(size: nat)
      modifies this`commands, this`maxCommands, this`lastDisplayed, this`reset
      ensures State() == Apply(old(State()), ReallocOp(size))
    {
      if maxCommands == size {
        return;
      }
      commands := if |commands| <= size then commands else commands[..size];
      reset := true;
      lastDisplayed := |commands| - 1;
      maxCommands := size;
    }

    method Empty()
      modifies this`commands, this`lastDisplayed, this`reset
      ensures State() == Apply(old(State()), EmptyOp)
    {
      commands, lastDisplayed, reset := [], -1, true;
    }

    method Swap(a: int, b: int)
      modifies this`commands
      ensures State() == Apply(old(State()), SwapOp(a, b))
    {
      if a != b && 0 <= a < |commands| && 0 <= b < |commands| {
        commands := commands[a := commands[b]][b := commands[a]];
      }
    }
  }
}
