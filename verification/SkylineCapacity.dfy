/**
 How many nodes the packer needs. Widths are quantized so that the caller's nodes are always enough;
 but a placed rectangle keeps its own width in the skyline, so that on a target at least two rows high
 they are enough for every run exactly when there are as many nodes as columns.
 */
module SkylineCapacity {
  import opened SkylineProfile
  import opened SkylinePlacement

  lemma {:induction false} CornerAtLeast(s: seq<Seg>, width: int, i: nat)
    requires Ordered(s, width) && i < |s|
    ensures s[i].x >= i
  {
    if i > 0 {
      CornerAtLeast(s, width, i - 1);
    }
  }

  /** A skyline over `width` columns never has more than `width + 1` corners. */
  lemma CornersBounded(s: seq<Seg>, width: int)
    requires Ordered(s, width)
    ensures |s| <= width + 1
  {
    CornerAtLeast(s, width, |s| - 1);
  }

  /** A run of the packer from a fresh target: each step takes a free node and packs one rectangle. */
  ghost predicate Run(t: Target, n: nat, states: seq<seq<Seg>>) {
    && |states| >= 1 && states[0] == Start(t.width).skyline
    && (forall i :: 0 <= i < |states| - 1 ==> Step(t, n, states[i], states[i + 1]))
  }

  ghost predicate Step(t: Target, n: nat, s: seq<Seg>, q: seq<Seg>) {
    |s| < n + 2 && exists w, h, x, y :: h >= 1 && PackedAt(s, t, w, h, x, y, q)
  }

  /** No two neighbouring corners are both on the floor. */
  ghost predicate FloorsApart(s: seq<Seg>) {
    forall i :: 0 <= i < |s| - 2 ==> FloorThenWall(s, i)
  }

  predicate FloorThenWall(s: seq<Seg>, i: int)
    requires 0 <= i < |s| - 2
  {
    s[i].y == 0 ==> s[i + 1].y > 0
  }

  /** A new corner is above the floor, and the corners around it keep their neighbours. */
  lemma NewFloorThenWall(s: seq<Seg>, r: Rect, i: nat)
    requires |s| >= 1 && CutAt(s, r.x) < |s| && FloorsApart(s) && r.y + r.h > 0
    requires i < |s| + CutAt(s, r.x) - Skip(s, CutAt(s, r.x), r.x + r.w) - 1
    ensures NewCorner(s, r, i).y == 0 ==> NewCorner(s, r, i + 1).y > 0
  {
    hide CutAt;
    var cut := CutAt(s, r.x);
    var j := Skip(s, cut, r.x + r.w);
    if i + 1 < cut {
      assert FloorThenWall(s, i);
    } else if i > cut {
      assert FloorThenWall(s, i - cut - 1 + j);
    }
  }

  lemma PlaceFloorsApart(s: seq<Seg>, width: int, r: Rect)
    requires Placeable(s, width, r) && FloorsApart(s)
    ensures CutAt(s, r.x) < |s| && FloorsApart(Place(s, r))
  {
    hide Place, NewCorner, CutAt, FloorsApart;
    CutBefore(s, width, r.x);
    PlaceCorner(s, r, 0);
    var p := Place(s, r);
    assert forall i :: 0 <= i < |p| - 2 ==> FloorThenWall(p, i) by {
      forall i: nat | i < |p| - 2 ensures FloorThenWall(p, i) {
        PlaceCorner(s, r, i);
        PlaceCorner(s, r, i + 1);
        NewFloorThenWall(s, r, i);
      }
    }
    FloorsApartIs(p);
  }

  lemma FloorsApartIs(p: seq<Seg>)
    requires forall i :: 0 <= i < |p| - 2 ==> FloorThenWall(p, i)
    ensures FloorsApart(p)
  {
  }

  /** Every state of a run is a proper skyline. */
  lemma {:induction false} RunOrdered(t: Target, n: nat, states: seq<seq<Seg>>, i: nat)
    requires ValidTarget(t) && Run(t, n, states) && i < |states|
    ensures Ordered(states[i], t.width) && Bounded(states[i], t.height) && FloorsApart(states[i])
  {
    hide Chosen, Rest, Place, Aligned, FloorsApart;
    if i == 0 {
      StartApart(t.width);
    } else {
      RunOrdered(t, n, states, i - 1);
      assert Step(t, n, states[i - 1], states[i - 1 + 1]);
      var w, h, x, y :| h >= 1 && PackedAt(states[i - 1], t, w, h, x, y, states[i]);
      PlaceOrdered(states[i - 1], t.width, Rect(x, y, w, h));
      PlaceBounded(states[i - 1], t.width, t.height, Rect(x, y, w, h));
      PlaceFloorsApart(states[i - 1], t.width, Rect(x, y, w, h));
    }
  }

  lemma StartApart(width: int)
    ensures FloorsApart(Start(width).skyline)
  {
  }

  /** All nodes are in use although a rectangle still has room. */
  ghost predicate Stuck(t: Target, n: nat, s: seq<Seg>, w: int, h: int)
    requires ValidTarget(t)
  {
    |s| == n + 2 && s[|s| - 1].x == t.width && w >= 1 && h >= 1 && HasRoom(s, t, w, h)
  }

  ghost predicate StuckRun(t: Target, n: nat, states: seq<seq<Seg>>, w: int, h: int)
    requires ValidTarget(t)
  {
    Run(t, n, states) && Stuck(t, n, states[|states| - 1], w, h)
  }

  /** Some run ends with all nodes in use although a rectangle still has room. */
  ghost predicate RunsOut(t: Target, n: nat)
    requires ValidTarget(t)
  {
    exists states: seq<seq<Seg>>, w: int, h: int :: StuckRun(t, n, states, w, h)
  }

  /** With a node for every column no run uses up the nodes. */
  lemma WideEnough(t: Target, n: nat)
    requires ValidTarget(t) && n >= t.width
    ensures !RunsOut(t, n)
  {
    forall states: seq<seq<Seg>>, w: int, h: int ensures !StuckRun(t, n, states, w, h) {
      if Run(t, n, states) {
        RunOrdered(t, n, states, |states| - 1);
        CornersBounded(states[|states| - 1], t.width);
      }
    }
  }

  // ------------------------------------------------------------------------ one row high

  lemma {:induction false} CornerAtMost(s: seq<Seg>, width: int, i: nat)
    requires Ordered(s, width) && i < |s|
    ensures |s| - 1 - i <= width - s[i].x
    decreases |s| - i
  {
    if i < |s| - 1 {
      CornerAtMost(s, width, i + 1);
    }
  }

  lemma FloorEnds(s: seq<Seg>, width: int, f: nat, lo: int, hi: int)
    requires Ordered(s, width) && FloorsApart(s) && f + 1 < |s| && s[f].y == 0 && lo < s[f + 1].x && hi <= width
    ensures AtLeastHeights(s, lo, hi, 0) ==> hi <= s[f + 1].x
  {
    if s[f + 1].x < width {
      HeightAt(s, width, f + 1, s[f + 1].x);
      assert FloorThenWall(s, f);
      assert Height(s, s[f + 1].x) > 0;
    }
  }

  /** A stretch of floor is one corner's, so room on the floor costs corners. */
  lemma RoomCostsCorners(s: seq<Seg>, t: Target, aw: int, x: int)
    requires ValidTarget(t) && Ordered(s, t.width) && Bounded(s, t.height) && FloorsApart(s)
    requires aw >= 1 && Tried(s, t, aw, x) && Rest(s, x, aw).minY == 0
    ensures |s| - 2 <= t.width - aw
  {
    hide Rest, Height;
    RestIsMax(s, t.width, t.height, x, aw);
    FindHolds(s, t.width, x);
    var f := Find(s, x);
    assert Height(s, x) <= 0 && s[f].y == 0;
    FloorEnds(s, t.width, f, x, x + aw);
    CornerAtLeast(s, t.width, f);
    CornerAtMost(s, t.width, f + 1);
  }

  /** On one row the packer can only run out while the quantum still fits beside the nodes. */
  lemma OneRowSuffices(t: Target, n: nat)
    requires ValidTarget(t) && t.height == 1 && n + t.align > t.width
    ensures !RunsOut(t, n)
  {
    hide Rest, Chosen;
    forall states: seq<seq<Seg>>, w: int, h: int ensures !StuckRun(t, n, states, w, h) {
      if StuckRun(t, n, states, w, h) {
        var s := states[|states| - 1];
        RunOrdered(t, n, states, |states| - 1);
        var x :| Tried(s, t, Aligned(w, t.align), x) && Fits(s, t, Aligned(w, t.align), h, x);
        AlignedAtLeast(w, t.align);
        RestIsMax(s, t.width, t.height, x, Aligned(w, t.align));
        RoomCostsCorners(s, t, Aligned(w, t.align), x);
      }
    }
  }

  lemma AlignedAtLeast(w: int, align: int)
    requires w >= 1 && align >= 1
    ensures Aligned(w, align) >= align
  {
    var a := Aligned(w, align);
    var q := a / align;
    assert a == q * align;
    MulMonotone(1, q, align);
  }

  /** Nothing fits into no rows. */
  lemma NoRowsSuffice(t: Target, n: nat)
    requires ValidTarget(t) && t.height == 0
    ensures !RunsOut(t, n)
  {
    hide Rest, Chosen;
    forall states: seq<seq<Seg>>, w: int, h: int ensures !StuckRun(t, n, states, w, h) {
      if StuckRun(t, n, states, w, h) {
        var s := states[|states| - 1];
        RunOrdered(t, n, states, |states| - 1);
        var x :| Tried(s, t, Aligned(w, t.align), x) && Fits(s, t, Aligned(w, t.align), h, x);
        RestIsMax(s, t.width, t.height, x, Aligned(w, t.align));
      }
    }
  }

  // ------------------------------------------------------------------ a run that uses them up

  /** The skyline after `k` unit squares side by side on the floor. */
  ghost function Row(k: nat, width: int): (s: seq<Seg>)
    ensures |s| == k + 2
    ensures forall i :: 0 <= i < k ==> s[i] == Seg(i, 1)
    ensures s[k] == Seg(k, 0) && s[k + 1] == Seg(width, CEILING)
  {
    seq(k, i => Seg(i, 1)) + [Seg(k, 0), Seg(width, CEILING)]
  }

  lemma RowOrdered(k: nat, width: int)
    requires k < width
    ensures Ordered(Row(k, width), width) && Bounded(Row(k, width), 1)
  {
  }

  lemma RowHeight(k: nat, width: int, col: int)
    requires k < width && 0 <= col < width
    ensures Height(Row(k, width), col) == if col < k then 1 else 0
    ensures Find(Row(k, width), col) == if col < k then col else k
  {
    RowOrdered(k, width);
    HeightAt(Row(k, width), width, if col < k then col else k, col);
  }

  /** Over the squares a rectangle rests on them; right of them it rests on the floor without waste. */
  lemma RowRest(k: nat, width: int, aw: int, z: int)
    requires k < width && 0 <= z && aw >= 1 && z + aw <= width
    ensures var r := Rest(Row(k, width), z, aw);
      0 <= r.minY <= 1 && (z < k ==> r.minY == 1) && (z >= k ==> r.minY == 0 && r.waste == 0)
  {
    var s := Row(k, width);
    RowHeight(k, width, z);
    if z < k {
      hide Rest, Height, Find;
      RowOrdered(k, width);
      RestIsMax(s, width, 1, z, aw);
    } else {
      var a := ScanStep(s, k, z, aw, Scan(0, 0, 0));
      assert ScanFrom(s, k + 1, z, aw, a) == a;
    }
  }

  lemma MulMonotone(a: int, b: int, n: nat)
    requires a <= b
    ensures a * n <= b * n
  {
  }

  /** The quantum the packer chooses leaves room for a unit square beside any fewer than the nodes. */
  lemma QuantumFits(n: nat, width: int, align: int)
    requires 1 <= n < width && align == (width + n - 1) / n
    ensures 1 <= align <= width - n + 1
  {
    assert align * n <= width + n - 1 < align * n + n;
    var slack := (n - 1) * (width - n);
    assert (width - n + 2) * n == width + n - 1 + slack + 1;
    MulMonotone(0, n - 1, width - n);
    if align > width - n + 1 {
      MulMonotone(width - n + 2, align, n);
    } else if align < 1 {
      MulMonotone(align, 0, n);
    }
  }

  lemma AlignedOne(align: int)
    requires align >= 1
    ensures Aligned(1, align) == align
  {
    assert align % align == 0;
  }

  lemma RowChosen(t: Target, k: nat)
    requires ValidTarget(t) && t.height >= 1 && k + t.align <= t.width
    ensures Ordered(Row(k, t.width), t.width) && Chosen(Row(k, t.width), t, t.align, 1, k)
    ensures Rest(Row(k, t.width), k, t.align).minY == 0
  {
    hide Rest;
    var s := Row(k, t.width);
    RowOrdered(k, t.width);
    RowRest(k, t.width, t.align, k);
    assert s[k].x == k;
    forall z | Tried(s, t, t.align, z) ensures NoWorse(s, t, t.align, k, z) {
      RowRest(k, t.width, t.align, z);
    }
  }

  lemma RowPlaced(width: int, k: nat)
    requires k < width
    ensures var s := Row(k, width); CutAt(s, k) < |s|
    ensures k + 1 < width ==> Place(Row(k, width), Rect(k, 0, 1, 1)) == Row(k + 1, width)
  {
    hide Find;
    var s := Row(k, width);
    RowHeight(k, width, k);
    assert CutAt(s, k) == k;
    if k + 1 < width {
      assert Skip(s, k, k + 1) == k;
      assert Place(s, Rect(k, 0, 1, 1)) == s[..k] + [Seg(k, 1)] + [Seg(k + 1, 0)] + s[k + 1..];
    }
  }

  /** The packer puts the next unit square beside the others, whatever its heuristic. */
  lemma RowStep(t: Target, n: nat, k: nat)
    requires ValidTarget(t) && t.height >= 1 && k + t.align <= t.width && k < n && k + 1 < t.width
    ensures Step(t, n, Row(k, t.width), Row(k + 1, t.width))
  {
    hide Rest, Place, Chosen, Aligned;
    var s := Row(k, t.width);
    RowChosen(t, k);
    RowPlaced(t.width, k);
    AlignedOne(t.align);
    RowHeight(k, t.width, k);
    assert AtLeastHeights(s, k, k + 1, 0);
    assert PackedAt(s, t, 1, 1, k, 0, Row(k + 1, t.width));
  }

  ghost function Rows(n: nat, width: int): (r: seq<seq<Seg>>)
    ensures |r| == n + 1
    ensures forall i :: 0 <= i <= n ==> r[i] == Row(i, width)
  {
    seq(n + 1, i requires 0 <= i <= n => Row(i, width))
  }

  /** A row of unit squares uses up all nodes, with a place left where one more fits. */
  lemma RowRunsOut(t: Target, n: nat, x: nat)
    requires ValidTarget(t) && t.height >= 1 && n < t.width && (n >= 1 ==> n - 1 + t.align <= t.width)
    requires x == 0 || x == n
    requires x + t.align <= t.width && (x < n ==> t.height >= 2)
    ensures RunsOut(t, n)
  {
    var r := Rows(n, t.width);
    hide PackedAt, Rest, Aligned, Step;
    forall i | 0 <= i < |r| - 1 ensures Step(t, n, r[i], r[i + 1]) {
      RowStep(t, n, i);
    }
    assert r[0] == Start(t.width).skyline;
    AlignedOne(t.align);
    var s := r[|r| - 1];
    RowRest(n, t.width, t.align, x);
    assert s[x].x == x;
    assert Tried(s, t, Aligned(1, t.align), x) && Fits(s, t, Aligned(1, t.align), 1, x);
    assert StuckRun(t, n, r, 1, 1);
  }

  /**
   With either heuristic and either quantum the packer sets, it can run out of nodes with room to
   spare: never on no rows; on one row exactly when the quantum fits beside as many squares as there
   are nodes; on more rows exactly when there are fewer nodes than columns.
   */
  lemma NodesSufficeExactlyWhenWide(t: Target, n: nat)
    requires ValidTarget(t) && 1 <= n && (t.align == 1 || t.align == (t.width + n - 1) / n)
    ensures RunsOut(t, n) <==>
      if t.height == 0 then false else if t.height == 1 then n + t.align <= t.width else n < t.width
  {
    hide RunsOut;
    if t.height == 0 {
      NoRowsSuffice(t, n);
    } else if n >= t.width {
      WideEnough(t, n);
    } else {
      assert n - 1 + t.align <= t.width by {
        if t.align != 1 {
          QuantumFits(n, t.width, t.align);
        }
      }
      if t.height >= 2 {
        RowRunsOut(t, n, 0);
      } else if n + t.align <= t.width {
        RowRunsOut(t, n, n);
      } else {
        OneRowSuffices(t, n);
      }
    }
  }
}
