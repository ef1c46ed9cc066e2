/**
 Packing an array of rectangles: number them, sort them by decreasing height and width,
 pack one after another, sort them back by number, and set the packed flags.
 */
module SkylineBatch {
  import opened SkylineProfile
  import opened SkylinePlacement
  import opened SkylinePacker
  import SkylineNodes

  const MAX_VAL: int := 0x7fff_ffff

  /** `flag` is the caller's packed flag; while packing it holds the item's original position. */
  datatype Item = Item(id: int, w: int, h: int, x: int, y: int, flag: int)

  datatype Order = ByHeight | ByFlag

  /** `p` may come before `q`: taller first, then wider; or smaller flag first. */
  predicate Before(o: Order, p: Item, q: Item) {
    match o
    case ByHeight => p.h > q.h || (p.h == q.h && p.w >= q.w)
    case ByFlag => p.flag <= q.flag
  }

  ghost predicate SortedBy(o: Order, s: seq<Item>) {
    forall i, j :: 0 <= i < j < |s| ==> Before(o, s[i], s[j])
  }

  /** Nothing taller comes after, and nothing as tall that is wider. */
  ghost predicate TallestFirst(s: seq<Item>) {
    forall i, j :: 0 <= i < j < |s| ==> s[j].h <= s[i].h && (s[j].h == s[i].h ==> s[j].w <= s[i].w)
  }

  lemma SortedIsTallestFirst(s: seq<Item>)
    requires SortedBy(ByHeight, s)
    ensures TallestFirst(s)
  {
    forall i, j | 0 <= i < j < |s| ensures s[j].h <= s[i].h && (s[j].h == s[i].h ==> s[j].w <= s[i].w) {
      assert Before(ByHeight, s[i], s[j]);
    }
  }

  ghost predicate Permutes(perm: seq<nat>, n: nat) {
    && |perm| == n
    && (forall i :: 0 <= i < n ==> perm[i] < n)
    && (forall i, j :: 0 <= i < j < n ==> perm[i] != perm[j])
  }

  /** `t` is `s` rearranged by `perm`. */
  ghost predicate Rearranged(s: seq<Item>, t: seq<Item>, perm: seq<nat>) {
    && |t| == |s| && Permutes(perm, |s|)
    && (forall k :: 0 <= k < |s| ==> t[k] == s[perm[k]])
  }

  /** A sort of the array; callers rely only on its contract, which any correct sort meets. */
  method SortInPlace(a: array<Item>, o: Order) returns (ghost perm: seq<nat>)
    modifies a
    ensures Rearranged(old(a[..]), a[..], perm)
    ensures SortedBy(o, a[..])
  {
    perm := seq(a.Length, i => i);
    var i := 0;
    while i < a.Length
      invariant 0 <= i <= a.Length
      invariant Rearranged(old(a[..]), a[..], perm)
      invariant SortedBy(o, a[..i])
    {
      perm := Sink(a, o, i, perm, old(a[..]));
      i := i + 1;
    }
    assert a[..a.Length] == a[..];
  }

  function Swapped<T>(s: seq<T>, j: nat): (t: seq<T>)
    requires 0 < j < |s|
    ensures |t| == |s|
  {
    s[j - 1 := s[j]][j := s[j - 1]]
  }

  lemma SwapRearranged(s: seq<Item>, t: seq<Item>, perm: seq<nat>, j: nat)
    requires Rearranged(s, t, perm) && 0 < j < |t|
    ensures Rearranged(s, Swapped(t, j), Swapped(perm, j))
  {
  }

  /** The items [..i] are in order apart from the one at `j`, which is sinking. */
  ghost predicate Sinking(o: Order, s: seq<Item>, i: nat, j: nat)
    requires j <= i < |s|
  {
    && (forall p, q :: 0 <= p < q <= i && p != j && q != j ==> Before(o, s[p], s[q]))
    && (forall q :: j < q <= i ==> Before(o, s[j], s[q]))
  }

  lemma SwapSinks(o: Order, s: seq<Item>, i: nat, j: nat)
    requires 0 < j <= i < |s| && Sinking(o, s, i, j) && !Before(o, s[j - 1], s[j])
    ensures Sinking(o, Swapped(s, j), i, j - 1)
  {
  }

  /** Moves the item at `i` down to its place among the sorted items before it. */
  method Sink(a: array<Item>, o: Order, i: nat, ghost perm0: seq<nat>, ghost s: seq<Item>)
    returns (ghost perm: seq<nat>)
    requires i < a.Length && SortedBy(o, a[..i]) && Rearranged(s, a[..], perm0)
    modifies a
    ensures SortedBy(o, a[..i + 1]) && Rearranged(s, a[..], perm)
  {
    hide Rearranged, Before;
    perm := perm0;
    assert |perm| == a.Length && |s| == a.Length by { RearrangedSize(s, a[..], perm); }
    var j := i;
    while j > 0 && !Before(o, a[j - 1], a[j])
      invariant 0 <= j <= i && |perm| == a.Length
      invariant Rearranged(s, a[..], perm) && Sinking(o, a[..], i, j)
    {
      ghost var t := a[..];
      SwapRearranged(s, t, perm, j);
      SwapSinks(o, t, i, j);
      a[j - 1], a[j] := a[j], a[j - 1];
      assert a[..] == Swapped(t, j);
      perm := Swapped(perm, j);
      j := j - 1;
    }
    SunkSorted(o, a[..], i, j);
  }

  lemma RearrangedSize(s: seq<Item>, t: seq<Item>, perm: seq<nat>)
    requires Rearranged(s, t, perm)
    ensures |perm| == |t| == |s|
  {
  }

  lemma SunkSorted(o: Order, s: seq<Item>, i: nat, j: nat)
    requires j <= i < |s| && Sinking(o, s, i, j) && (j > 0 ==> Before(o, s[j - 1], s[j]))
    ensures SortedBy(o, s[..i + 1])
  {
    forall p, q | 0 <= p < q <= i ensures Before(o, s[p], s[q]) {
      if q == j && p < j - 1 {
        assert Before(o, s[p], s[j - 1]);
      }
    }
  }

  // ------------------------------------------------------------------ item bookkeeping

  ghost predicate SameInput(a: Item, b: Item) {
    a.id == b.id && a.w == b.w && a.h == b.h
  }

  /** Every item of `s` carries in its flag the position of its input in `input`, each once. */
  ghost predicate Numbered(input: seq<Item>, s: seq<Item>) {
    && |s| == |input|
    && (forall k :: 0 <= k < |s| ==> 0 <= s[k].flag < |input| && SameInput(s[k], input[s[k].flag]))
    && (forall k, l :: 0 <= k < l < |s| ==> s[k].flag != s[l].flag)
  }

  lemma RearrangedNumbered(input: seq<Item>, s: seq<Item>, t: seq<Item>, perm: seq<nat>)
    requires Numbered(input, s) && Rearranged(s, t, perm)
    ensures Numbered(input, t)
  {
  }

  lemma {:induction false} FlagAtLeast(input: seq<Item>, s: seq<Item>, k: nat)
    requires Numbered(input, s) && SortedBy(ByFlag, s) && k < |s|
    ensures s[k].flag >= k
  {
    if k > 0 {
      FlagAtLeast(input, s, k - 1);
    }
  }

  lemma {:induction false} FlagAtMost(input: seq<Item>, s: seq<Item>, k: nat)
    requires Numbered(input, s) && SortedBy(ByFlag, s) && k < |s|
    ensures s[k].flag <= k
    decreases |s| - k
  {
    if k + 1 < |s| {
      FlagAtMost(input, s, k + 1);
    }
  }

  /** Sorting numbered items by number puts every item back where its input was. */
  lemma SortedBackInPlace(input: seq<Item>, s: seq<Item>)
    requires Numbered(input, s) && SortedBy(ByFlag, s)
    ensures forall k :: 0 <= k < |s| ==> s[k].flag == k && SameInput(s[k], input[k])
  {
    forall k | 0 <= k < |s| ensures s[k].flag == k {
      FlagAtLeast(input, s, k);
      FlagAtMost(input, s, k);
    }
  }

  // ------------------------------------------------------------------------ outcomes

  ghost predicate Empty(a: Item) { a.w == 0 || a.h == 0 }

  ghost predicate Failed(a: Item) { a.x == MAX_VAL && a.y == MAX_VAL }

  ghost function ToRect(a: Item): Rect { Rect(a.x, a.y, a.w, a.h) }

  /** An item that takes up space in the target. */
  ghost predicate Takes(a: Item) { !Empty(a) && !Failed(a) }

  /** The rectangles of the items that take up space, in the items' order. */
  ghost function Taken(s: seq<Item>): seq<Rect> {
    if s == [] then []
    else Taken(s[..|s| - 1]) + if Takes(s[|s| - 1]) then [ToRect(s[|s| - 1])] else []
  }

  /** Packing has dealt with item `a`: empty ones sit at the origin, others failed or are placed. */
  ghost predicate Settled(a: Item, placed: seq<Rect>, from: nat)
    requires from <= |placed|
  {
    && (Empty(a) ==> a.x == 0 && a.y == 0)
    && (Takes(a) ==> ToRect(a) in placed[from..])
  }

  ghost predicate AllSettled(s: seq<Item>, n: nat, placed: seq<Rect>, from: nat)
    requires from <= |placed| && n <= |s|
  {
    forall k :: 0 <= k < n ==> Settled(s[k], placed, from)
  }

  ghost predicate Separate(s: seq<Item>, n: nat)
    requires n <= |s|
  {
    forall k, l :: 0 <= k < l < n && Takes(s[k]) && Takes(s[l]) ==> Disjoint(ToRect(s[k]), ToRect(s[l]))
  }

  /** What a placed rectangle is guaranteed: inside the target and clear of everything placed before. */
  lemma SettledIsSafe(p: Packing, width: int, height: int, from: nat, a: Item)
    requires Safe(p, width, height) && from <= |p.placed| && Settled(a, p.placed, from) && Takes(a)
    ensures Inside(ToRect(a), width, height)
    ensures forall i :: 0 <= i < from ==> Disjoint(p.placed[i], ToRect(a))
  {
    hide Ordered, Bounded, Below;
    var j :| from <= j < |p.placed| && p.placed[j] == ToRect(a);
  }

  /** The newest rectangle is clear of every settled item before it. */
  lemma NewestSeparate(p: Packing, width: int, height: int, from: nat, s: seq<Item>, n: nat, r: Rect)
    requires Safe(p, width, height) && n <= |s| && |p.placed| >= 1 && from <= |p.placed| - 1
    requires p.placed[|p.placed| - 1] == r && AllSettled(s, n, p.placed[..|p.placed| - 1], from)
    ensures forall k :: 0 <= k < n && Takes(s[k]) ==> Disjoint(ToRect(s[k]), r)
  {
    hide Ordered, Bounded, Below, Inside;
    var before := p.placed[..|p.placed| - 1];
    forall k | 0 <= k < n && Takes(s[k]) ensures Disjoint(ToRect(s[k]), r) {
      assert Settled(s[k], before, from);
      var j :| 0 <= j < |before[from..]| && before[from..][j] == ToRect(s[k]);
      assert p.placed[from + j] == ToRect(s[k]);
    }
  }

  lemma StaySettled(s: seq<Item>, n: nat, placed: seq<Rect>, from: nat, r: Rect)
    requires from <= |placed| && n <= |s| && AllSettled(s, n, placed, from)
    ensures AllSettled(s, n, placed + [r], from)
  {
    assert (placed + [r])[from..] == placed[from..] + [r];
  }

  /**
   What one item does to the skyline of a packer with `n` nodes: an empty one nothing; another is packed
   at the position the search chooses exactly when a node is free and some tried position has room.
   */
  ghost predicate ItemStep(t: Target, n: int, s: seq<Seg>, a: Item, q: seq<Seg>) {
    && ValidTarget(t) && Ordered(s, t.width) && a.w >= 0 && a.h >= 0
    && if Empty(a) then a.x == 0 && a.y == 0 && q == s
       else if |s| < n + 2 && HasRoom(s, t, a.w, a.h) then !Failed(a) && PackedAt(s, t, a.w, a.h, a.x, a.y, q)
       else Failed(a) && q == s
  }

  /** The skylines before, between and after the items. */
  ghost predicate Batch(t: Target, n: int, states: seq<seq<Seg>>, items: seq<Item>) {
    |states| == |items| + 1 && forall i :: 0 <= i < |items| ==> ItemStep(t, n, states[i], items[i], states[i + 1])
  }

  lemma BatchGrows(t: Target, n: int, states: seq<seq<Seg>>, items: seq<Item>, a: Item, q: seq<Seg>)
    requires Batch(t, n, states, items) && ItemStep(t, n, states[|items|], a, q)
    ensures Batch(t, n, states + [q], items + [a])
  {
    hide ItemStep;
  }

  /** A node is free exactly when the skyline has fewer corners than the buffer nodes. */
  lemma FreeWhenFewer(packer: Packer)
    requires packer.Valid()
    ensures packer.free != [] <==> |packer.Skyline()| < packer.numNodes + 2
    ensures ValidTarget(packer.Size()) && Ordered(packer.Skyline(), packer.width)
  {
    SkylineNodes.ShapeMeansPartition(packer.pool[..], packer.activeHead, packer.freeHead, packer.active, packer.free);
  }

  /** Packs or fails one item and stores the outcome in it. */
  method PackItem(packer: Packer, rects: array<Item>, i: nat)
    requires packer.Valid() && i < rects.Length && rects[i].w >= 0 && rects[i].h >= 0
    modifies packer`activeHead, packer`freeHead, packer`active, packer`free, packer`placed, packer.pool, rects
    ensures packer.Valid()
    ensures rects[..] == old(rects[..])[i := rects[i]]
    ensures SameInput(rects[i], old(rects[i])) && rects[i].flag == old(rects[i].flag)
    ensures Empty(rects[i]) ==> rects[i].x == 0 && rects[i].y == 0
    ensures packer.placed == if Takes(rects[i]) then old(packer.placed) + [ToRect(rects[i])] else old(packer.placed)
    ensures ItemStep(packer.Size(), packer.numNodes, old(packer.Skyline()), rects[i], packer.Skyline())
  {
    hide Safe, Chosen, PackedAt, Ordered, HasRoom, SkylineNodes.Shape;
    FreeWhenFewer(packer);
    var a := rects[i];
    if a.w == 0 || a.h == 0 {
      rects[i] := a.(x := 0, y := 0);
    } else {
      var ok, x, y := packer.PackRectangle(a.w, a.h);
      if ok {
        PackedBelowMax(packer.placed, packer.Skyline(), packer.width, packer.height);
        assert packer.placed[|packer.placed| - 1] == Rect(x, y, a.w, a.h);
        rects[i] := a.(x := x, y := y);
      } else {
        rects[i] := a.(x := MAX_VAL, y := MAX_VAL);
      }
    }
  }

  /** No placed rectangle sits at the value that marks a failure. */
  lemma PackedBelowMax(placed: seq<Rect>, s: seq<Seg>, width: int, height: int)
    requires Safe(Packing(s, placed), width, height) && height < CEILING
    ensures forall i :: 0 <= i < |placed| ==> placed[i].y < MAX_VAL
  {
    hide Below, Disjoint, Ordered, Bounded;
    forall i | 0 <= i < |placed| ensures placed[i].y < MAX_VAL {
      assert Inside(placed[i], width, height);
    }
  }

  /** Numbers the items by position. */
  method Number(rects: array<Item>)
    modifies rects
    ensures Numbered(old(rects[..]), rects[..])
  {
    var i := 0;
    while i < rects.Length
      invariant 0 <= i <= rects.Length
      invariant forall k :: 0 <= k < rects.Length ==>
        rects[k] == old(rects[k]).(flag := if k < i then k else old(rects[k]).flag)
    {
      rects[i] := rects[i].(flag := i);
      i := i + 1;
    }
  }

  /** What packing the first `i` of the items has done; `was` are the items before. */
  ghost predicate Progressed(t: Target, n: int, input: seq<Item>, was: seq<Item>, placed0: seq<Rect>,
                             s: seq<Item>, i: nat, placed: seq<Rect>, states: seq<seq<Seg>>) {
    && |was| == |s| && i <= |s| && Numbered(input, s) && |placed0| <= |placed|
    && (forall k :: 0 <= k < |s| ==> s[k].w >= 0 && s[k].h >= 0 && SameInput(s[k], was[k]))
    && placed == placed0 + Taken(s[..i])
    && Batch(t, n, states, s[..i])
    && AllSettled(s, i, placed, |placed0|) && Separate(s, i)
  }

  lemma ProgressStarts(t: Target, n: int, input: seq<Item>, was: seq<Item>, placed0: seq<Rect>, q: seq<Seg>)
    requires Numbered(input, was) && forall k :: 0 <= k < |was| ==> was[k].w >= 0 && was[k].h >= 0
    ensures Progressed(t, n, input, was, placed0, was, 0, placed0, [q])
  {
    hide Numbered;
    NothingSettled(was, placed0, |placed0|);
    BatchStarts(t, n, q);
    assert was[..0] == [];
  }

  lemma ProgressNext(t: Target, n: int, input: seq<Item>, was: seq<Item>, placed0: seq<Rect>,
                     s: seq<Item>, i: nat, placed: seq<Rect>, states: seq<seq<Seg>>,
                     next: seq<Item>, placed': seq<Rect>, q: seq<Seg>)
    requires Progressed(t, n, input, was, placed0, s, i, placed, states)
    requires i < |s| && |next| == |s| && next == s[i := next[i]]
    requires SameInput(next[i], s[i]) && next[i].flag == s[i].flag
    requires Empty(next[i]) ==> next[i].x == 0 && next[i].y == 0
    requires placed' == if Takes(next[i]) then placed + [ToRect(next[i])] else placed
    requires Safe(Packing(q, placed'), t.width, t.height) && ItemStep(t, n, states[i], next[i], q)
    ensures Progressed(t, n, input, was, placed0, next, i + 1, placed', states + [q])
  {
    hide Numbered, AllSettled, Separate, ItemStep, Safe, Takes;
    NextSettled(Packing(q, placed'), t.width, t.height, s, next, i, placed, |placed0|);
    NextNumbered(input, s, next, i);
    assert next[..i + 1][..i] == s[..i] && next[..i + 1] == s[..i] + [next[i]];
    BatchGrows(t, n, states, s[..i], next[i], q);
  }

  lemma ProgressEnds(t: Target, n: int, input: seq<Item>, was: seq<Item>, placed0: seq<Rect>,
                     s: seq<Item>, placed: seq<Rect>, states: seq<seq<Seg>>)
    requires Progressed(t, n, input, was, placed0, s, |s|, placed, states)
    ensures Numbered(input, s) && placed == placed0 + Taken(s) && Batch(t, n, states, s)
    ensures forall k :: 0 <= k < |s| ==> SameInput(s[k], was[k])
    ensures AllSettled(s, |s|, placed, |placed0|) && Separate(s, |s|)
  {
    hide Numbered, Batch, AllSettled, Separate, Taken;
    assert s[..|s|] == s;
  }

  /** Packs the items in array order. */
  method PackInOrder(packer: Packer, rects: array<Item>, ghost input: seq<Item>) returns (ghost states: seq<seq<Seg>>)
    requires packer.Valid() && Numbered(input, rects[..])
    requires forall k :: 0 <= k < rects.Length ==> rects[k].w >= 0 && rects[k].h >= 0
    modifies packer`activeHead, packer`freeHead, packer`active, packer`free, packer`placed, packer.pool, rects
    ensures packer.Valid() && Numbered(input, rects[..])
    ensures packer.placed == old(packer.placed) + Taken(rects[..])
    ensures Batch(packer.Size(), packer.numNodes, states, rects[..])
    ensures states[0] == old(packer.Skyline()) && states[rects.Length] == packer.Skyline()
    ensures forall k :: 0 <= k < rects.Length ==> SameInput(rects[k], old(rects[k]))
    ensures AllSettled(rects[..], rects.Length, packer.placed, |old(packer.placed)|)
    ensures Separate(rects[..], rects.Length)
  {
    hide Safe, Ordered, Numbered, AllSettled, Separate, SkylineNodes.Shape, ItemStep, Batch, Progressed, Taken,
      ValidTarget;
    ghost var t, n, was, placed0 := packer.Size(), packer.numNodes, rects[..], packer.placed;
    states := [packer.Skyline()];
    ProgressStarts(t, n, input, was, placed0, packer.Skyline());
    var i := 0;
    while i < rects.Length
      invariant 0 <= i <= rects.Length && packer.Valid() && packer.Size() == t
      invariant Progressed(t, n, input, was, placed0, rects[..], i, packer.placed, states)
      invariant |states| == i + 1 && states[0] == old(packer.Skyline()) && states[i] == packer.Skyline()
    {
      ghost var s, placed := rects[..], packer.placed;
      ProgressSizes(t, n, input, was, placed0, s, i, placed, states);
      PackItem(packer, rects, i);
      ProgressNext(t, n, input, was, placed0, s, i, placed, states, rects[..], packer.placed, packer.Skyline());
      states := states + [packer.Skyline()];
      i := i + 1;
    }
    ProgressEnds(t, n, input, was, placed0, rects[..], packer.placed, states);
  }

  lemma ProgressSizes(t: Target, n: int, input: seq<Item>, was: seq<Item>, placed0: seq<Rect>,
                      s: seq<Item>, i: nat, placed: seq<Rect>, states: seq<seq<Seg>>)
    requires Progressed(t, n, input, was, placed0, s, i, placed, states) && i < |s|
    ensures s[i].w >= 0 && s[i].h >= 0
  {
  }

  lemma BatchStarts(t: Target, n: int, s: seq<Seg>)
    ensures Batch(t, n, [s], [])
  {
  }

  lemma NothingSettled(s: seq<Item>, placed: seq<Rect>, from: nat)
    requires from <= |placed|
    ensures AllSettled(s, 0, placed, from) && Separate(s, 0)
  {
  }

  lemma NextNumbered(input: seq<Item>, s: seq<Item>, t: seq<Item>, i: nat)
    requires Numbered(input, s) && i < |s| && |t| == |s| && t == s[i := t[i]]
    requires SameInput(t[i], s[i]) && t[i].flag == s[i].flag
    ensures Numbered(input, t)
  {
  }

  lemma NextSettled(p: Packing, width: int, height: int, s: seq<Item>, t: seq<Item>, i: nat, placed: seq<Rect>,
                    from: nat)
    requires Safe(p, width, height) && i < |s| && |t| == |s| && t == s[i := t[i]] && from <= |placed|
    requires AllSettled(s, i, placed, from) && Separate(s, i)
    requires Empty(t[i]) ==> t[i].x == 0 && t[i].y == 0
    requires p.placed == if Takes(t[i]) then placed + [ToRect(t[i])] else placed
    ensures AllSettled(t, i + 1, p.placed, from) && Separate(t, i + 1)
  {
    hide Ordered, Bounded, Below, Inside;
    assert AllSettled(t, i, placed, from) by { assert forall k :: 0 <= k < i ==> t[k] == s[k]; }
    if Takes(t[i]) {
      var r := ToRect(t[i]);
      StaySettled(t, i, placed, from, r);
      assert p.placed[..|p.placed| - 1] == placed;
      NewestSeparate(p, width, height, from, t, i, r);
      assert p.placed[from..] == placed[from..] + [r];
    }
  }

  /** Turns outcomes into packed flags and reports whether every item was packed. */
  method SetFlags(rects: array<Item>) returns (all: bool)
    modifies rects
    ensures forall k :: 0 <= k < rects.Length ==>
      rects[k] == old(rects[k]).(flag := if Failed(old(rects[k])) then 0 else 1)
    ensures all <==> forall k :: 0 <= k < rects.Length ==> !Failed(rects[k])
  {
    all := true;
    var i := 0;
    while i < rects.Length
      invariant 0 <= i <= rects.Length
      invariant forall k :: 0 <= k < rects.Length ==>
        rects[k] == if k < i then old(rects[k]).(flag := if Failed(old(rects[k])) then 0 else 1) else old(rects[k])
      invariant all <==> forall k :: 0 <= k < i ==> !Failed(rects[k])
    {
      var packed := !(rects[i].x == MAX_VAL && rects[i].y == MAX_VAL);
      rects[i] := rects[i].(flag := if packed then 1 else 0);
      if !packed {
        all := false;
      }
      i := i + 1;
    }
  }

  /** The caller's items, in its order and of its sizes, with the outcomes of `tried` and their flags. */
  ghost predicate Returned(now: seq<Item>, tried: seq<Item>, perm: seq<nat>, input: seq<Item>) {
    && |now| == |tried| == |input| && Permutes(perm, |tried|)
    && forall k :: 0 <= k < |now| ==>
      && now[k] == tried[perm[k]].(flag := if Failed(now[k]) then 0 else 1)
      && SameInput(now[k], input[k])
  }

  ghost predicate NoneFailed(s: seq<Item>) {
    forall k :: 0 <= k < |s| ==> !Failed(s[k])
  }

  /** The skylines of a batch that turns `first` into `last`. */
  ghost predicate BatchFrom(t: Target, n: int, states: seq<seq<Seg>>, items: seq<Item>, first: seq<Seg>,
                            last: seq<Seg>) {
    Batch(t, n, states, items) && states[0] == first && states[|items|] == last
  }

  /** Numbers the items and sorts them for packing. */
  method NumberAndSort(rects: array<Item>)
    requires forall k :: 0 <= k < rects.Length ==> rects[k].w >= 0 && rects[k].h >= 0
    modifies rects
    ensures Numbered(old(rects[..]), rects[..]) && SortedBy(ByHeight, rects[..])
    ensures forall k :: 0 <= k < rects.Length ==> rects[k].w >= 0 && rects[k].h >= 0
  {
    hide Numbered, SortedBy;
    ghost var input := rects[..];
    Number(rects);
    ghost var numbered := rects[..];
    ghost var perm := SortInPlace(rects, ByHeight);
    RearrangedNumbered(input, numbered, rects[..], perm);
    NumberedSizes(input, rects[..]);
  }

  /** Puts the items back in the caller's order and sets their flags. */
  method Restore(rects: array<Item>, ghost input: seq<Item>, ghost placed: seq<Rect>, ghost from: nat)
    returns (all: bool, ghost perm: seq<nat>)
    requires Numbered(input, rects[..]) && from <= |placed|
    requires AllSettled(rects[..], rects.Length, placed, from) && Separate(rects[..], rects.Length)
    modifies rects
    ensures Returned(rects[..], old(rects[..]), perm, input) && (all <==> NoneFailed(rects[..]))
    ensures AllSettled(rects[..], rects.Length, placed, from) && Separate(rects[..], rects.Length)
  {
    hide Numbered, AllSettled, Separate, SortedBy;
    ghost var tried := rects[..];
    perm := SortInPlace(rects, ByFlag);
    RearrangedNumbered(input, tried, rects[..], perm);
    RearrangedOutcome(tried, rects[..], perm, placed, from);
    SortedBackInPlace(input, rects[..]);
    ghost var ordered := rects[..];
    all := SetFlags(rects);
    FlagsKeepOutcome(ordered, rects[..], placed, from);
  }

  /**
   Packs a whole array. Every item keeps its place and its input; the flag says whether it was
   packed; packed items lie inside the target, apart from each other and from everything packed
   by earlier calls, and become part of what later calls must stay clear of. They were tried in
   decreasing height, then width: `tried` is that order and `perm` leads back to the caller's.
   `states` are the skylines in between: an item failed exactly when, at its turn, no node was free or
   no tried position had room.
   */
  method PackRects(packer: Packer, rects: array<Item>)
    returns (all: bool, ghost tried: seq<Item>, ghost perm: seq<nat>, ghost states: seq<seq<Seg>>)
    requires packer.Valid()
    requires forall k :: 0 <= k < rects.Length ==> rects[k].w >= 0 && rects[k].h >= 0
    modifies packer`activeHead, packer`freeHead, packer`active, packer`free, packer`placed, packer.pool, rects
    ensures packer.Valid()
    ensures TallestFirst(tried) && Returned(rects[..], tried, perm, old(rects[..]))
    ensures BatchFrom(packer.Size(), packer.numNodes, states, tried, old(packer.Skyline()), packer.Skyline())
    ensures packer.placed == old(packer.placed) + Taken(tried)
    ensures AllSettled(rects[..], rects.Length, packer.placed, |old(packer.placed)|)
    ensures Separate(rects[..], rects.Length)
    ensures all <==> NoneFailed(rects[..])
  {
    hide Safe, Ordered, Numbered, AllSettled, Separate, SortedBy, TallestFirst, SkylineNodes.Shape, Taken, Batch,
      Returned, NoneFailed;
    ghost var input := rects[..];
    NumberAndSort(rects);
    ghost var sorted := rects[..];
    states := PackInOrder(packer, rects, input);
    tried := rects[..];
    InputSorted(sorted, tried);
    all, perm := Restore(rects, input, packer.placed, |old(packer.placed)|);
  }

  lemma NumberedSizes(input: seq<Item>, s: seq<Item>)
    requires Numbered(input, s) && forall k :: 0 <= k < |input| ==> input[k].w >= 0 && input[k].h >= 0
    ensures forall k :: 0 <= k < |s| ==> s[k].w >= 0 && s[k].h >= 0
  {
  }

  lemma InputSorted(s: seq<Item>, t: seq<Item>)
    requires |s| == |t| && SortedBy(ByHeight, s) && forall k :: 0 <= k < |s| ==> SameInput(t[k], s[k])
    ensures TallestFirst(t)
  {
    SortedIsTallestFirst(s);
  }

  lemma RearrangedOutcome(s: seq<Item>, t: seq<Item>, perm: seq<nat>, placed: seq<Rect>, from: nat)
    requires Rearranged(s, t, perm) && from <= |placed|
    requires AllSettled(s, |s|, placed, from) && Separate(s, |s|)
    ensures AllSettled(t, |t|, placed, from) && Separate(t, |t|)
  {
    forall k, l | 0 <= k < l < |t| && Takes(t[k]) && Takes(t[l]) ensures Disjoint(ToRect(t[k]), ToRect(t[l])) {
      var a, b := perm[k], perm[l];
      if a < b {
        assert Disjoint(ToRect(s[a]), ToRect(s[b]));
      } else {
        assert Disjoint(ToRect(s[b]), ToRect(s[a]));
      }
    }
  }

  lemma FlagsKeepOutcome(s: seq<Item>, t: seq<Item>, placed: seq<Rect>, from: nat)
    requires |s| == |t| && from <= |placed| && AllSettled(s, |s|, placed, from) && Separate(s, |s|)
    requires forall k :: 0 <= k < |s| ==> t[k] == s[k].(flag := t[k].flag)
    ensures AllSettled(t, |t|, placed, from) && Separate(t, |t|)
  {
    forall k | 0 <= k < |s| ensures Settled(t[k], placed, from) {
      assert Settled(s[k], placed, from);
    }
    forall k, l | 0 <= k < l < |t| && Takes(t[k]) && Takes(t[l]) ensures Disjoint(ToRect(t[k]), ToRect(t[l])) {
      assert Takes(s[k]) && Takes(s[l]);
    }
  }
}
