/**
 Placing rectangles on a skyline: which positions the packer tries, which one it
 takes, what the corner list becomes, and what holds after every run of placements.
 */
module SkylinePlacement {
  import opened Numbers
  import opened SkylineProfile

  const CEILING: int := 0x4000_0000 // the sentinel's height, (1 << 30)

  /** The packing target: its size, the width quantum and the heuristic in use. */
  datatype Target = Target(width: int, height: int, align: int, bestFit: bool)

  ghost predicate ValidTarget(t: Target) {
    1 <= t.width && 0 <= t.height < CEILING && 1 <= t.align
  }

  /** `w` rounded up to a multiple of the quantum. */
  function Aligned(w: int, align: int): (a: int)
    requires w >= 1 && align >= 1
    ensures w <= a < w + align
    ensures a % align == 0
  {
    var up := w + align - 1;
    assert (up - up % align) % align == 0 by {
      assert up - up % align == (up / align) * align;
      MultipleMod(up / align, align);
    }
    up - up % align
  }

  lemma MultipleMod(k: int, d: int)
    requires k >= 0 && d >= 1
    ensures (k * d) % d == 0
  {
    var q, r := (k * d) / d, (k * d) % d;
    assert (k - q) * d == r;
    assert k - q >= 1 ==> (k - q) * d >= d;
    assert k - q <= -1 ==> (k - q) * d <= -d;
  }

  // ------------------------------------------------------------ positions tried

  ghost predicate LeftAligned(s: seq<Seg>, x: int) {
    exists i :: 0 <= i < |s| && s[i].x == x
  }

  ghost predicate RightAligned(s: seq<Seg>, aw: int, x: int) {
    exists i :: 0 <= i < |s| && s[i].x == x + aw
  }

  /** A position the search tries for a rectangle of quantized width `aw`. */
  ghost predicate Tried(s: seq<Seg>, t: Target, aw: int, x: int) {
    0 <= x && x + aw <= t.width && (LeftAligned(s, x) || (t.bestFit && RightAligned(s, aw, x)))
  }

  ghost predicate Fits(s: seq<Seg>, t: Target, aw: int, h: int, x: int)
    requires |s| >= 1 && s[|s| - 1].x == t.width && x + aw <= t.width
  {
    Rest(s, x, aw).minY + h <= t.height
  }

  /** Lower is better; best fit then prefers less waste; then the leftmost. */
  ghost predicate NoWorse(s: seq<Seg>, t: Target, aw: int, x: int, z: int)
    requires |s| >= 1 && s[|s| - 1].x == t.width && x + aw <= t.width && z + aw <= t.width
  {
    var a, b := Rest(s, x, aw), Rest(s, z, aw);
    || a.minY < b.minY
    || (a.minY == b.minY &&
        if t.bestFit then a.waste < b.waste || (a.waste == b.waste && x <= z) else x <= z)
  }

  /** The position the search returns; best fit only considers positions that fit. */
  ghost predicate Chosen(s: seq<Seg>, t: Target, aw: int, h: int, x: int)
    requires |s| >= 1 && s[|s| - 1].x == t.width
  {
    && Tried(s, t, aw, x)
    && (t.bestFit ==> Fits(s, t, aw, h, x))
    && (forall z :: Tried(s, t, aw, z) && (t.bestFit ==> Fits(s, t, aw, h, z)) ==> NoWorse(s, t, aw, x, z))
  }

  /** Some tried position leaves room for the rectangle. */
  ghost predicate HasRoom(s: seq<Seg>, t: Target, w: int, h: int)
    requires |s| >= 1 && s[|s| - 1].x == t.width && w >= 1 && t.align >= 1
  {
    exists x :: Tried(s, t, Aligned(w, t.align), x) && Fits(s, t, Aligned(w, t.align), h, x)
  }

  /** Taking the chosen position never misses room: it fits as soon as any tried one does. */
  lemma ChosenFitsIfAnyDoes(s: seq<Seg>, t: Target, w: int, h: int, x: int)
    requires |s| >= 1 && s[|s| - 1].x == t.width && w >= 1 && t.align >= 1
    requires Chosen(s, t, Aligned(w, t.align), h, x)
    ensures Fits(s, t, Aligned(w, t.align), h, x) <==> HasRoom(s, t, w, h)
  {
    var aw := Aligned(w, t.align);
    if HasRoom(s, t, w, h) {
      var z :| Tried(s, t, aw, z) && Fits(s, t, aw, h, z);
      assert NoWorse(s, t, aw, x, z);
    }
  }

  // ---------------------------------------------------------------- list surgery

  /** The first corner at or after `j` that is followed by a corner beyond `limit`, or the last. */
  ghost function Skip(s: seq<Seg>, j: nat, limit: int): (k: nat)
    requires j < |s|
    ensures j <= k < |s|
    ensures k + 1 < |s| ==> s[k + 1].x > limit
    ensures j < k ==> s[k].x <= limit
    decreases |s| - j
  {
    if j + 1 < |s| && s[j + 1].x <= limit then Skip(s, j + 1, limit) else j
  }

  /** Index at which the new corner goes, given the corner `f` whose stretch holds column `x`. */
  ghost function CutFrom(s: seq<Seg>, f: nat, x: int): (c: nat)
    requires f < |s|
    ensures c <= |s|
  {
    if s[f].x < x then f + 1 else f
  }

  ghost function CutAt(s: seq<Seg>, x: int): (c: nat)
    requires |s| >= 1
    ensures c <= |s|
  {
    CutFrom(s, Find(s, x), x)
  }

  /** The corner list with [..cut] kept, a new corner, corner `j` trimmed to start no earlier than `right`. */
  ghost function Splice(s: seq<Seg>, cut: nat, j: nat, x: int, right: int, top: int): seq<Seg>
    requires cut <= j < |s|
  {
    s[..cut] + [Seg(x, top)] + [Seg(Max(s[j].x, right), s[j].y)] + s[j + 1..]
  }

  /** The corner list after a rectangle over [x, right) with the given top is placed from corner `f`. */
  ghost function PlaceAt(s: seq<Seg>, f: nat, x: int, right: int, top: int): seq<Seg>
    requires f < |s| && CutFrom(s, f, x) < |s|
  {
    Splice(s, CutFrom(s, f, x), Skip(s, CutFrom(s, f, x), right), x, right, top)
  }

  /** The corner list after a rectangle is placed. */
  ghost function Place(s: seq<Seg>, r: Rect): seq<Seg>
    requires |s| >= 1 && CutAt(s, r.x) < |s|
  {
    PlaceAt(s, Find(s, r.x), r.x, r.x + r.w, r.y + r.h)
  }

  /** The first column right of the rectangle whose height the placement leaves alone. */
  ghost function RaisedEnd(s: seq<Seg>, r: Rect): int
    requires |s| >= 1 && CutAt(s, r.x) < |s|
  {
    Max(s[Skip(s, CutAt(s, r.x), r.x + r.w)].x, r.x + r.w)
  }

  ghost predicate Placeable(s: seq<Seg>, width: int, r: Rect) {
    Ordered(s, width) && 0 <= r.x && 1 <= r.w && r.x + r.w <= width && 1 <= r.h && 0 <= r.y
  }

  lemma CutBefore(s: seq<Seg>, width: int, x: int)
    requires Ordered(s, width) && 0 <= x < width
    ensures CutAt(s, x) < |s|
    ensures forall i :: 0 <= i < CutAt(s, x) ==> s[i].x < x
    ensures s[CutAt(s, x)].x >= x
    ensures s[CutAt(s, x)].x > x ==> CutAt(s, x) > 0 && s[CutAt(s, x) - 1].y == Height(s, x)
    ensures x == 0 <==> CutAt(s, x) == 0
  {
    FindHolds(s, width, x);
  }

  /** Corner `i` of the new list. */
  ghost function NewCorner(s: seq<Seg>, r: Rect, i: nat): Seg
    requires |s| >= 1 && CutAt(s, r.x) < |s|
    requires i < |s| + CutAt(s, r.x) - Skip(s, CutAt(s, r.x), r.x + r.w) + 1
  {
    var cut := CutAt(s, r.x);
    var j := Skip(s, cut, r.x + r.w);
    if i < cut then s[i]
    else if i == cut then Seg(r.x, r.y + r.h)
    else if i == cut + 1 then Seg(Max(s[j].x, r.x + r.w), s[j].y)
    else s[i - cut - 1 + j]
  }

  lemma PlaceCorner(s: seq<Seg>, r: Rect, i: nat)
    requires |s| >= 1 && CutAt(s, r.x) < |s|
    requires i < |s| + CutAt(s, r.x) - Skip(s, CutAt(s, r.x), r.x + r.w) + 1
    ensures |Place(s, r)| == |s| + CutAt(s, r.x) - Skip(s, CutAt(s, r.x), r.x + r.w) + 1
    ensures Place(s, r)[i] == NewCorner(s, r, i)
  {
  }

  lemma NewCornersIncrease(s: seq<Seg>, width: int, r: Rect, i: nat)
    requires Placeable(s, width, r) && CutAt(s, r.x) < |s|
    requires i < |s| + CutAt(s, r.x) - Skip(s, CutAt(s, r.x), r.x + r.w)
    ensures NewCorner(s, r, i).x < NewCorner(s, r, i + 1).x
  {
    CutBefore(s, width, r.x);
  }

  lemma {:induction false} AdjacentIncreasing(s: seq<Seg>, i: nat, j: nat)
    requires forall k {:trigger s[k]} :: 0 <= k < |s| - 1 ==> s[k].x < s[k + 1].x
    requires i < j < |s|
    ensures s[i].x < s[j].x
    decreases j
  {
    if i < j - 1 {
      AdjacentIncreasing(s, i, j - 1);
    }
    assert s[j - 1].x < s[j - 1 + 1].x;
  }

  ghost predicate Increasing(s: seq<Seg>) {
    forall i, j :: 0 <= i < j < |s| ==> s[i].x < s[j].x
  }

  lemma PlaceIncreasing(s: seq<Seg>, width: int, r: Rect)
    requires Placeable(s, width, r) && CutAt(s, r.x) < |s|
    ensures Increasing(Place(s, r))
  {
    var p := Place(s, r);
    forall k {:trigger p[k]} | 0 <= k < |p| - 1 ensures p[k].x < p[k + 1].x {
      PlaceCorner(s, r, k);
      PlaceCorner(s, r, k + 1);
      NewCornersIncrease(s, width, r, k);
    }
    forall a, b | 0 <= a < b < |p| ensures p[a].x < p[b].x {
      AdjacentIncreasing(p, a, b);
    }
  }

  /** The new corner list is again strictly increasing from column 0 to the sentinel. */
  lemma PlaceOrdered(s: seq<Seg>, width: int, r: Rect)
    requires Placeable(s, width, r)
    ensures CutAt(s, r.x) < |s| && Ordered(Place(s, r), width)
  {
    CutBefore(s, width, r.x);
    PlaceCorner(s, r, 0);
    PlaceCorner(s, r, |Place(s, r)| - 1);
    PlaceIncreasing(s, width, r);
  }

  /**
   Placing a rectangle lifts exactly the columns from its left edge to `RaisedEnd` to its
   top and leaves every other column's height as it was.
   */
  lemma PlaceHeight(s: seq<Seg>, width: int, r: Rect, col: int)
    requires Placeable(s, width, r) && 0 <= col < width
    ensures CutAt(s, r.x) < |s|
    ensures Height(Place(s, r), col) == (if r.x <= col < RaisedEnd(s, r) then r.y + r.h else Height(s, col))
  {
    CutBefore(s, width, r.x);
    PlaceOrdered(s, width, r);
    PlaceCorner(s, r, CutAt(s, r.x));
    PlaceCorner(s, r, CutAt(s, r.x) + 1);
    if col < r.x {
      KeptLeft(s, width, r, col);
    } else if col < RaisedEnd(s, r) {
      HeightAt(Place(s, r), width, CutAt(s, r.x), col);
    } else {
      KeptRight(s, width, r, col);
    }
  }

  lemma KeptRight(s: seq<Seg>, width: int, r: Rect, col: int)
    requires Placeable(s, width, r)
    requires CutAt(s, r.x) < |s| && Ordered(Place(s, r), width) && RaisedEnd(s, r) <= col < width
    ensures Height(Place(s, r), col) == Height(s, col)
  {
    hide Place, PlaceAt, Splice, Height, Find, CutAt, Ordered, Skip;
    FindHolds(s, width, col);
    var i, j := Find(s, col), Skip(s, CutAt(s, r.x), r.x + r.w);
    CornerAtOrBefore(s, width, i, j, col);
    var k := CutAt(s, r.x) + 1 + (i - j);
    PlaceCorner(s, r, k);
    PlaceCorner(s, r, k + 1);
    HeightAt(Place(s, r), width, k, col);
  }

  lemma CornerAtOrBefore(s: seq<Seg>, width: int, i: nat, j: nat, col: int)
    requires Ordered(s, width) && i + 1 < |s| && j < |s| && s[j].x <= col < s[i + 1].x
    ensures j <= i
  {
  }

  lemma KeptLeft(s: seq<Seg>, width: int, r: Rect, col: int)
    requires Placeable(s, width, r) && 0 <= col < r.x
    requires CutAt(s, r.x) < |s| && Ordered(Place(s, r), width)
    ensures Height(Place(s, r), col) == Height(s, col)
  {
    hide Place, PlaceAt, Splice, Height, Find;
    CutBefore(s, width, r.x);
    FindHolds(s, width, col);
    PlaceCorner(s, r, Find(s, col));
    PlaceCorner(s, r, Find(s, col) + 1);
    HeightAt(Place(s, r), width, Find(s, col), col);
  }

  /** The lifted stretch passes the rectangle's right edge only inside the corner it cut. */
  lemma OverhangIsFlat(s: seq<Seg>, width: int, r: Rect, col: int)
    requires Placeable(s, width, r) && CutAt(s, r.x) < |s|
    requires r.x + r.w <= col < RaisedEnd(s, r)
    ensures 0 <= col < width && Height(s, col) == Height(s, r.x)
  {
    CutBefore(s, width, r.x);
    var cut := CutAt(s, r.x);
    assert Skip(s, cut, r.x + r.w) == cut;
    FindHolds(s, width, r.x);
    HeightAt(s, width, Find(s, r.x), col);
  }

  // ------------------------------------------------------------- runs of placements

  /** A corner list together with every rectangle placed so far. */
  datatype Packing = Packing(skyline: seq<Seg>, placed: seq<Rect>)

  ghost predicate Inside(r: Rect, width: int, height: int) {
    0 <= r.x && 0 <= r.y && 1 <= r.w && 1 <= r.h && r.x + r.w <= width && r.y + r.h <= height
  }

  ghost predicate Disjoint(a: Rect, b: Rect) {
    a.x + a.w <= b.x || b.x + b.w <= a.x || a.y + a.h <= b.y || b.y + b.h <= a.y
  }

  /** No column of the rectangle has a skyline below its top. */
  ghost predicate Below(s: seq<Seg>, r: Rect)
    requires |s| >= 1
  {
    forall col :: r.x <= col < r.x + r.w ==> r.y + r.h <= Height(s, col)
  }

  ghost predicate Safe(p: Packing, width: int, height: int) {
    && Ordered(p.skyline, width)
    && Bounded(p.skyline, height)
    && (forall i :: 0 <= i < |p.placed| ==> Inside(p.placed[i], width, height) && Below(p.skyline, p.placed[i]))
    && (forall i, j :: 0 <= i < j < |p.placed| ==> Disjoint(p.placed[i], p.placed[j]))
  }

  /** A placement the packer may make: inside the target and resting on or above the skyline. */
  ghost predicate Legal(s: seq<Seg>, width: int, height: int, r: Rect) {
    && Ordered(s, width) && Inside(r, width, height)
    && AtLeastHeights(s, r.x, r.x + r.w, r.y)
  }

  ghost function After(p: Packing, r: Rect): Packing
    requires |p.skyline| >= 1 && CutAt(p.skyline, r.x) < |p.skyline|
  {
    Packing(Place(p.skyline, r), p.placed + [r])
  }

  /** Heights never go down. */
  lemma PlaceRaises(s: seq<Seg>, width: int, height: int, r: Rect, col: int)
    requires Legal(s, width, height, r) && 0 <= col < width
    ensures CutAt(s, r.x) < |s| && Height(s, col) <= Height(Place(s, r), col)
  {
    PlaceHeight(s, width, r, col);
    if r.x + r.w <= col < RaisedEnd(s, r) {
      OverhangIsFlat(s, width, r, col);
    }
  }

  lemma PlaceBounded(s: seq<Seg>, width: int, height: int, r: Rect)
    requires Legal(s, width, height, r) && Bounded(s, height)
    ensures CutAt(s, r.x) < |s| && Bounded(Place(s, r), height)
  {
    CutBefore(s, width, r.x);
    var cut := CutAt(s, r.x);
    var j := Skip(s, cut, r.x + r.w);
    var p := Place(s, r);
    forall i | 0 <= i < |p| - 1 ensures 0 <= p[i].y <= height {
      if i < cut {
        assert p[i] == s[i];
      } else if i > cut + 1 {
        assert p[i] == s[i - cut - 2 + j + 1];
      }
    }
  }

  lemma AfterDisjoint(p: Packing, width: int, height: int, r: Rect, i: nat)
    requires Safe(p, width, height) && Legal(p.skyline, width, height, r) && i < |p.placed|
    ensures Disjoint(p.placed[i], r)
  {
    var q := p.placed[i];
    var col := Max(q.x, r.x);
    if col < q.x + q.w && col < r.x + r.w {
      assert q.y + q.h <= Height(p.skyline, col) <= r.y;
    }
  }

  /** One placement keeps rectangles inside the target, apart, and under the skyline. */
  lemma AfterSafe(p: Packing, width: int, height: int, r: Rect)
    requires Safe(p, width, height) && Legal(p.skyline, width, height, r)
    ensures CutAt(p.skyline, r.x) < |p.skyline| && Safe(After(p, r), width, height)
  {
    CutBefore(p.skyline, width, r.x);
    PlaceOrdered(p.skyline, width, r);
    PlaceBounded(p.skyline, width, height, r);
    var q := After(p, r);
    forall i | 0 <= i < |q.placed| ensures Inside(q.placed[i], width, height) && Below(q.skyline, q.placed[i]) {
      var a := q.placed[i];
      forall col | a.x <= col < a.x + a.w ensures a.y + a.h <= Height(q.skyline, col) {
        PlaceHeight(p.skyline, width, r, col);
        PlaceRaises(p.skyline, width, height, r, col);
        if i < |p.placed| {
          assert Below(p.skyline, p.placed[i]);
        }
      }
    }
    forall i, j | 0 <= i < j < |q.placed| ensures Disjoint(q.placed[i], q.placed[j]) {
      if j == |p.placed| {
        AfterDisjoint(p, width, height, r, i);
      }
    }
  }

  ghost function Start(width: int): Packing {
    Packing([Seg(0, 0), Seg(width, CEILING)], [])
  }

  lemma StartSafe(width: int, height: int)
    requires 1 <= width && 0 <= height
    ensures Safe(Start(width), width, height) && Outline(Start(width), width)
  {
  }

  /** Every rectangle of the run is legal where it is placed. */
  ghost predicate LegalRun(p: Packing, width: int, height: int, run: seq<Rect>)
    decreases |run|
  {
    run == [] ||
    (Legal(p.skyline, width, height, run[0]) && CutAt(p.skyline, run[0].x) < |p.skyline| &&
     LegalRun(After(p, run[0]), width, height, run[1..]))
  }

  ghost function RunFrom(p: Packing, width: int, height: int, run: seq<Rect>): Packing
    requires LegalRun(p, width, height, run)
    decreases |run|
  {
    if run == [] then p else RunFrom(After(p, run[0]), width, height, run[1..])
  }

  lemma {:induction false} RunKeepsSafe(p: Packing, width: int, height: int, run: seq<Rect>)
    requires Safe(p, width, height) && LegalRun(p, width, height, run)
    ensures Safe(RunFrom(p, width, height, run), width, height)
    ensures RunFrom(p, width, height, run).placed == p.placed + run
    decreases |run|
  {
    if run != [] {
      AfterSafe(p, width, height, run[0]);
      RunKeepsSafe(After(p, run[0]), width, height, run[1..]);
      assert p.placed + [run[0]] + run[1..] == p.placed + run;
    }
  }

  /** After any run of placements into a fresh target all rectangles lie inside it, pairwise apart. */
  lemma PackedRectanglesNeverOverlap(width: int, height: int, run: seq<Rect>)
    requires 1 <= width && 0 <= height && LegalRun(Start(width), width, height, run)
    ensures forall i :: 0 <= i < |run| ==> Inside(run[i], width, height)
    ensures forall i, j :: 0 <= i < j < |run| ==> Disjoint(run[i], run[j])
  {
    RunKeepsSafe(Start(width), width, height, run);
    assert RunFrom(Start(width), width, height, run).placed == run;
  }

  // ------------------------------------------------------------- the outline

  /** The top of the highest rectangle that covers the column, 0 where there is none. */
  ghost function TopOf(placed: seq<Rect>, col: int): int {
    if placed == [] then 0
    else
      var r := placed[|placed| - 1];
      Max(TopOf(placed[..|placed| - 1], col), if r.x <= col < r.x + r.w then r.y + r.h else 0)
  }

  /** The skyline is the upper outline of the placed rectangles. */
  ghost predicate Outline(p: Packing, width: int) {
    Ordered(p.skyline, width) && forall col :: 0 <= col < width ==> Height(p.skyline, col) == TopOf(p.placed, col)
  }

  lemma AfterTop(p: Packing, r: Rect, col: int)
    requires |p.skyline| >= 1 && CutAt(p.skyline, r.x) < |p.skyline|
    ensures TopOf(After(p, r).placed, col)
         == Max(TopOf(p.placed, col), if r.x <= col < r.x + r.w then r.y + r.h else 0)
  {
    var placed := p.placed + [r];
    assert placed[..|placed| - 1] == p.placed && placed[|placed| - 1] == r;
  }

  /** A placement keeps the skyline the exact outline exactly when it has no overhang. */
  lemma AfterOutline(p: Packing, width: int, height: int, r: Rect)
    requires Safe(p, width, height) && Outline(p, width) && Legal(p.skyline, width, height, r)
    ensures CutAt(p.skyline, r.x) < |p.skyline|
    ensures Outline(After(p, r), width) <==> RaisedEnd(p.skyline, r) == r.x + r.w
  {
    hide Place, Height, TopOf, CutAt, Below;
    PlaceOrdered(p.skyline, width, r);
    var q, end := After(p, r), RaisedEnd(p.skyline, r);
    forall col | 0 <= col < width
      ensures Height(q.skyline, col) == TopOf(q.placed, col) <==> !(r.x + r.w <= col < end)
    {
      PlaceHeight(p.skyline, width, r, col);
      AfterTop(p, r, col);
      FloorAtLeast(p.skyline, width, height, col);
      assert Height(p.skyline, col) == TopOf(p.placed, col);
      if r.x <= col < r.x + r.w {
        assert Height(p.skyline, col) <= r.y;
      } else if r.x + r.w <= col < end {
        OverhangIsFlat(p.skyline, width, r, col);
        assert Height(p.skyline, r.x) <= r.y;
      }
    }
    if r.x + r.w < end {
      OverhangIsFlat(p.skyline, width, r, r.x + r.w);
      assert Height(q.skyline, r.x + r.w) != TopOf(q.placed, r.x + r.w);
    }
  }

  lemma FloorAtLeast(s: seq<Seg>, width: int, height: int, col: int)
    requires Ordered(s, width) && Bounded(s, height) && 0 <= col < width
    ensures 0 <= Height(s, col)
  {
    FindHolds(s, width, col);
  }

  /** Only best fit with a quantum above 1 can leave an overhang. */
  lemma NoOverhang(s: seq<Seg>, t: Target, w: int, h: int, r: Rect)
    requires ValidTarget(t) && Placeable(s, t.width, r) && r.w == w
    requires Tried(s, t, Aligned(w, t.align), r.x)
    requires !t.bestFit || t.align == 1
    ensures CutAt(s, r.x) < |s| && RaisedEnd(s, r) == r.x + r.w
  {
    CutBefore(s, t.width, r.x);
    FindHolds(s, t.width, r.x);
    var f := Find(s, r.x);
    if LeftAligned(s, r.x) {
      var i :| 0 <= i < |s| && s[i].x == r.x;
      assert i == f;
    } else {
      var i :| 0 <= i < |s| && s[i].x == r.x + Aligned(w, t.align);
      assert f < i;
    }
  }

  /** The rectangle the packer places at a chosen position is legal. */
  lemma ChosenIsLegal(s: seq<Seg>, t: Target, w: int, h: int, x: int)
    requires ValidTarget(t) && Ordered(s, t.width) && Bounded(s, t.height) && w >= 1 && h >= 1
    requires Tried(s, t, Aligned(w, t.align), x) && Fits(s, t, Aligned(w, t.align), h, x)
    ensures Legal(s, t.width, t.height, Rect(x, Rest(s, x, Aligned(w, t.align)).minY, w, h))
  {
    RestIsMax(s, t.width, t.height, x, Aligned(w, t.align));
  }

  lemma ChosenIsTried(s: seq<Seg>, t: Target, aw: int, h: int, x: int)
    requires |s| >= 1 && s[|s| - 1].x == t.width && Chosen(s, t, aw, h, x)
    ensures Tried(s, t, aw, x) && 0 <= x && x + aw <= t.width
  {
  }

  lemma SafeParts(p: Packing, width: int, height: int)
    requires Safe(p, width, height)
    ensures Ordered(p.skyline, width) && Bounded(p.skyline, height) && |p.skyline| >= 1
    ensures p.skyline[|p.skyline| - 1].x == width
  {
  }

  ghost predicate IsPlaceAt(q: seq<Seg>, s: seq<Seg>, f: nat, x: int, right: int, top: int) {
    f < |s| && CutFrom(s, f, x) < |s| && q == PlaceAt(s, f, x, right, top)
  }

  /** The rectangle (w, h) went to the chosen position (x, y) of `s`, which turned `s` into `q`. */
  ghost predicate PackedAt(s: seq<Seg>, t: Target, w: int, h: int, x: int, y: int, q: seq<Seg>) {
    && ValidTarget(t) && w >= 1 && Ordered(s, t.width)
    && Chosen(s, t, Aligned(w, t.align), h, x)
    && y == Rest(s, x, Aligned(w, t.align)).minY
    && Legal(s, t.width, t.height, Rect(x, y, w, h))
    && CutAt(s, x) < |s| && q == Place(s, Rect(x, y, w, h))
  }

  /** Packing at the chosen position, spelled out: the corner it starts from and the list it gives. */
  lemma Prepare(p: Packing, t: Target, w: int, h: int, x: int, y: int) returns (f: nat, q: seq<Seg>)
    requires ValidTarget(t) && w >= 1 && h >= 1 && Safe(p, t.width, t.height)
    requires Chosen(p.skyline, t, Aligned(w, t.align), h, x) && Fits(p.skyline, t, Aligned(w, t.align), h, x)
    requires y == Rest(p.skyline, x, Aligned(w, t.align)).minY
    ensures f == Find(p.skyline, x) && f + 1 < |p.skyline|
    ensures IsPlaceAt(q, p.skyline, f, x, x + w, y + h)
    ensures PackedAt(p.skyline, t, w, h, x, y, q)
    ensures Safe(Packing(q, p.placed + [Rect(x, y, w, h)]), t.width, t.height)
  {
    hide Splice, Skip, Rest, Find, Tried, Chosen, Legal, Safe, Ordered;
    var s, r := p.skyline, Rect(x, y, w, h);
    SafeParts(p, t.width, t.height);
    ChosenIsTried(s, t, Aligned(w, t.align), h, x);
    ChosenIsLegal(s, t, w, h, x);
    f := Find(s, x);
    FindHolds(s, t.width, x);
    AfterSafe(p, t.width, t.height, r);
    q := Place(s, r);
  }

  // ------------------------------------------------------------- runs of the packer

  /** With `n` nodes every rectangle of the run finds one free and goes where the packer's own choice puts it. */
  ghost predicate PackedRun(p: Packing, t: Target, n: nat, run: seq<Rect>)
    decreases |run|
  {
    run == [] ||
    (var r := run[0];
     && 1 <= |p.skyline| < n + 2 && CutAt(p.skyline, r.x) < |p.skyline|
     && PackedAt(p.skyline, t, r.w, r.h, r.x, r.y, After(p, r).skyline)
     && PackedRun(After(p, r), t, n, run[1..]))
  }

  lemma {:induction false} PackedRunIsLegal(p: Packing, t: Target, n: nat, run: seq<Rect>)
    requires PackedRun(p, t, n, run)
    ensures LegalRun(p, t.width, t.height, run)
    decreases |run|
  {
    hide Chosen, Place, CutAt, Legal;
    if run != [] {
      PackedRunIsLegal(After(p, run[0]), t, n, run[1..]);
    }
  }

  /** In every run with the bottom-left rule, or with quantum 1, the skyline stays the exact outline. */
  lemma {:induction false} RunKeepsOutline(p: Packing, t: Target, n: nat, run: seq<Rect>)
    requires Safe(p, t.width, t.height) && Outline(p, t.width) && PackedRun(p, t, n, run)
    requires !t.bestFit || t.align == 1
    ensures LegalRun(p, t.width, t.height, run)
    ensures Outline(RunFrom(p, t.width, t.height, run), t.width)
    decreases |run|
  {
    hide Outline, Safe, Chosen, Place, CutAt, Height;
    if run != [] {
      var r := run[0];
      assert Chosen(p.skyline, t, Aligned(r.w, t.align), r.h, r.x);
      ChosenIsTried(p.skyline, t, Aligned(r.w, t.align), r.h, r.x);
      NoOverhang(p.skyline, t, r.w, r.h, r);
      AfterOutline(p, t.width, t.height, r);
      AfterSafe(p, t.width, t.height, r);
      RunKeepsOutline(After(p, r), t, n, run[1..]);
    }
  }

  /** After every such run from an empty target the height at every column is that of its highest rectangle. */
  lemma SkylineIsTheOutline(p: Packing, t: Target, n: nat, run: seq<Rect>)
    requires ValidTarget(t) && p == Start(t.width) && PackedRun(p, t, n, run)
    requires !t.bestFit || t.align == 1
    ensures LegalRun(p, t.width, t.height, run)
    ensures RunFrom(p, t.width, t.height, run).placed == run && Outline(RunFrom(p, t.width, t.height, run), t.width)
  {
    hide PackedRun, LegalRun, RunFrom, Height, TopOf, Safe, Outline;
    StartSafe(t.width, t.height);
    RunKeepsOutline(p, t, n, run);
    RunKeepsSafe(p, t.width, t.height, run);
    assert p.placed + run == run;
  }

  // --------------------------------------------------------- a run with an overhang

  /** Three nodes for eleven columns make a quantum of four. */
  ghost function Quantized(): Target {
    Target(11, 3, 4, true)
  }

  ghost function Stepped(): seq<Seg> {
    [Seg(0, 1), Seg(7, 0), Seg(11, CEILING)]
  }

  /** A floor of two levels with a tower between them: the least waste is against the tower's right side. */
  ghost function Towered(): seq<Seg> {
    [Seg(0, 1), Seg(7, 2), Seg(9, 0), Seg(11, CEILING)]
  }

  lemma FlatRest(x: int)
    requires 0 <= x <= 3
    ensures Rest(Start(11).skyline, x, 8).minY == 0 && Rest(Start(11).skyline, x, 8).waste == 0
  {
    assert Find(Start(11).skyline, x) == 0;
  }

  lemma SteppedRest(x: int)
    requires 0 <= x <= 7
    ensures Rest(Stepped(), x, 4).minY == if x < 7 then 1 else 0
  {
    var s := Stepped();
    if x < 7 {
      assert Find(s, x) == 0;
      var a := ScanStep(s, 0, x, 4, Scan(0, 0, 0));
      assert a == Scan(1, 7 - x, 0);
      assert x > 3 ==> ScanFrom(s, 1, x, 4, a) == ScanFrom(s, 2, x, 4, ScanStep(s, 1, x, 4, a));
    } else {
      assert s[1..] == [Seg(7, 0), Seg(11, CEILING)];
      assert Find(s, x) == 1;
    }
  }

  lemma ToweredRest(x: int)
    requires 0 <= x <= 3
    ensures var a := Rest(Towered(), x, 8);
      a.minY == 2 && a.waste == if x == 0 then 7 else if x == 1 then 6 else if x == 2 then 7 else 8
  {
    var s := Towered();
    assert Find(s, x) == 0;
    var a := ScanStep(s, 0, x, 8, Scan(0, 0, 0));
    assert a == Scan(1, 7 - x, 0);
    var b := ScanStep(s, 1, x, 8, a);
    assert b == Scan(2, 9 - x, 7 - x);
    assert ScanFrom(s, 1, x, 8, a) == ScanFrom(s, 2, x, 8, b);
  }

  /** A rectangle at a position tried, with the best rest of all positions, is a packed one. */
  lemma PackedWhenBest(s: seq<Seg>, r: Rect, aw: int)
    requires Ordered(s, 11) && Bounded(s, 3) && r.w >= 1 && r.h >= 1 && aw == Aligned(r.w, 4) && 0 <= r.x <= 11 - aw
    requires LeftAligned(s, r.x) || RightAligned(s, aw, r.x)
    requires Rest(s, r.x, aw).minY == r.y && r.y + r.h <= 3
    requires forall z :: 0 <= z <= 11 - aw ==> NoWorse(s, Quantized(), aw, r.x, z)
    ensures CutAt(s, r.x) < |s| && PackedAt(s, Quantized(), r.w, r.h, r.x, r.y, Place(s, r))
  {
    hide Rest, NoWorse, Place, Aligned;
    ChosenIsLegal(s, Quantized(), r.w, r.h, r.x);
    CutBefore(s, 11, r.x);
  }

  lemma FirstIsPacked()
    ensures var s, r := Start(11).skyline, Rect(0, 0, 7, 1);
      CutAt(s, r.x) < |s| && PackedAt(s, Quantized(), r.w, r.h, r.x, r.y, Stepped()) && Place(s, r) == Stepped()
  {
    hide Rest;
    var s, r := Start(11).skyline, Rect(0, 0, 7, 1);
    forall z | 0 <= z <= 3 ensures NoWorse(s, Quantized(), 8, 0, z) {
      FlatRest(0);
      FlatRest(z);
    }
    FlatRest(0);
    assert s[0].x == 0;
    PackedWhenBest(s, r, 8);
  }

  lemma SecondIsPacked()
    ensures var s, r := Stepped(), Rect(7, 0, 2, 2);
      CutAt(s, r.x) < |s| && PackedAt(s, Quantized(), r.w, r.h, r.x, r.y, Towered()) && Place(s, r) == Towered()
  {
    hide Rest;
    var s, r := Stepped(), Rect(7, 0, 2, 2);
    forall z | 0 <= z <= 7 ensures NoWorse(s, Quantized(), 4, 7, z) {
      SteppedRest(7);
      SteppedRest(z);
    }
    SteppedRest(7);
    assert s[1].x == 7 && s[1..] == [Seg(7, 0), Seg(11, CEILING)];
    assert Find(s, 7) == 1;
    PackedWhenBest(s, r, 4);
  }

  lemma ThirdIsPacked()
    ensures var s, r := Towered(), Rect(1, 2, 5, 1);
      && CutAt(s, r.x) < |s| && PackedAt(s, Quantized(), r.w, r.h, r.x, r.y, Place(s, r))
      && RaisedEnd(s, r) == 7
  {
    hide Rest;
    var s, r := Towered(), Rect(1, 2, 5, 1);
    forall z | 0 <= z <= 3 ensures NoWorse(s, Quantized(), 8, 1, z) {
      ToweredRest(1);
      ToweredRest(z);
    }
    ToweredRest(1);
    assert s[2].x == 1 + 8;
    assert Find(s, 1) == 0;
    PackedWhenBest(s, r, 8);
  }

  /**
   With best fit and a quantum above 1 the outline can be lost, with a node free at every step: the third
   of these rectangles covers columns 1 to 5 and the skyline rises over column 6 too.
   */
  lemma OverhangHappens(p: Packing, run: seq<Rect>)
    requires p == Start(11) && run == [Rect(0, 0, 7, 1), Rect(7, 0, 2, 2), Rect(1, 2, 5, 1)]
    ensures Quantized().align == (Quantized().width + 3 - 1) / 3 && PackedRun(p, Quantized(), 3, run)
    ensures LegalRun(p, 11, 3, run) && !Outline(RunFrom(p, 11, 3, run), 11)
  {
    hide PackedAt, Place, Rest, CutAt, Height, RaisedEnd;
    FirstIsPacked();
    SecondIsPacked();
    ThirdIsPacked();
    var a := After(p, run[0]);
    var b := After(a, run[1]);
    var c := After(b, run[2]);
    var q := Quantized();
    assert run[1..][1..] == [run[2]];
    assert PackedRun(c, q, 3, []) && PackedRun(b, q, 3, [run[2]]) && PackedRun(a, q, 3, run[1..]);
    PackedRunIsLegal(p, q, 3, run);
    assert RunFrom(p, 11, 3, run) == RunFrom(b, 11, 3, [run[2]]) == c;
    PlaceOrdered(b.skyline, 11, run[2]);
    assert Height(c.skyline, 6) == 3 by {
      PlaceHeight(b.skyline, 11, run[2], 6);
    }
    assert TopOf(c.placed, 6) == 1 by {
      assert TopOf(p.placed, 6) == 0;
      AfterTop(p, run[0], 6);
      AfterTop(a, run[1], 6);
      AfterTop(b, run[2], 6);
    }
  }
}
