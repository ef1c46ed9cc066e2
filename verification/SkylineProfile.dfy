/**
 The skyline of the rectangle packer as a value: the list of (x, y) corners the
 packer keeps in its active node list, the height it gives every column, the scan
 that finds where a rectangle may rest, and the list surgery done when one is placed.
 */
module SkylineProfile {
  /** One corner of the skyline: from column `x` up to the next corner the height is `y`. */
  datatype Seg = Seg(x: int, y: int)

  /** A placed rectangle; `x`, `y` is its minimum corner. */
  datatype Rect = Rect(x: int, y: int, w: int, h: int)

  /** Corners strictly increase from column 0 to the sentinel at `width`. */
  ghost predicate Ordered(s: seq<Seg>, width: int) {
    && |s| >= 2
    && s[0].x == 0
    && s[|s| - 1].x == width
    && (forall i, j :: 0 <= i < j < |s| ==> s[i].x < s[j].x)
  }

  /** Every corner but the sentinel has a height between 0 and `top`. */
  ghost predicate Bounded(s: seq<Seg>, top: int) {
    forall i :: 0 <= i < |s| - 1 ==> 0 <= s[i].y <= top
  }

  /** The height the skyline gives column `col`. */
  ghost function Height(s: seq<Seg>, col: int): int
    requires |s| >= 1
  {
    if |s| == 1 || col < s[1].x then s[0].y else Height(s[1..], col)
  }

  /** The index of the corner whose stretch holds `col`. */
  ghost function Find(s: seq<Seg>, col: int): (i: nat)
    requires |s| >= 1
    ensures i < |s|
  {
    if |s| == 1 || col < s[1].x then 0 else 1 + Find(s[1..], col)
  }

  lemma FindHolds(s: seq<Seg>, width: int, col: int)
    requires Ordered(s, width) && 0 <= col < width
    ensures Find(s, col) + 1 < |s|
    ensures s[Find(s, col)].x <= col < s[Find(s, col) + 1].x
    ensures Height(s, col) == s[Find(s, col)].y
  {
    FindHoldsFrom(s, col);
  }

  lemma {:induction false} FindHoldsFrom(s: seq<Seg>, col: int)
    requires |s| >= 2 && s[0].x <= col < s[|s| - 1].x
    ensures Find(s, col) + 1 < |s|
    ensures s[Find(s, col)].x <= col < s[Find(s, col) + 1].x
    ensures Height(s, col) == s[Find(s, col)].y
  {
    if col >= s[1].x {
      FindHoldsFrom(s[1..], col);
    }
  }

  lemma HeightAt(s: seq<Seg>, width: int, i: nat, col: int)
    requires Ordered(s, width) && i + 1 < |s| && s[i].x <= col < s[i + 1].x
    ensures Find(s, col) == i && Height(s, col) == s[i].y
  {
    FindHolds(s, width, col);
  }

  // ---------------------------------------------------------------- the scan

  /** What the scan for a resting height has when it reaches corner `i`. */
  datatype Scan = Scan(minY: int, visited: int, waste: int)

  /** One pass of the scan's loop over the corner `i`, for a span [x0, x0 + width). */
  function ScanStep(s: seq<Seg>, i: nat, x0: int, width: int, a: Scan): Scan
    requires i + 1 < |s|
  {
    if s[i].y > a.minY then
      var seen := if s[i].x < x0 then s[i + 1].x - x0 else s[i + 1].x - s[i].x;
      Scan(s[i].y, a.visited + seen, a.waste + a.visited * (s[i].y - a.minY))
    else
      var under0 := s[i + 1].x - s[i].x;
      var under := if under0 + a.visited > width then width - a.visited else under0;
      Scan(a.minY, a.visited + under, a.waste + under * (a.minY - s[i].y))
  }

  /** The scan from corner `i` to the end of the span. */
  function ScanFrom(s: seq<Seg>, i: nat, x0: int, width: int, a: Scan): Scan
    requires i < |s| && s[|s| - 1].x >= x0 + width
    decreases |s| - i
  {
    if s[i].x < x0 + width then
      if i + 1 < |s| then ScanFrom(s, i + 1, x0, width, ScanStep(s, i, x0, width, a)) else a
    else a
  }

  /** Where a span that starts at `x` would rest, and the waste the packer books for it. */
  ghost function Rest(s: seq<Seg>, x: int, width: int): Scan
    requires |s| >= 1 && s[|s| - 1].x >= x + width
  {
    ScanFrom(s, Find(s, x), x, width, Scan(0, 0, 0))
  }

  ghost predicate AtLeastHeights(s: seq<Seg>, lo: int, hi: int, y: int)
    requires |s| >= 1
  {
    forall col :: lo <= col < hi ==> Height(s, col) <= y
  }

  ghost predicate SomeHeight(s: seq<Seg>, lo: int, hi: int, y: int)
    requires |s| >= 1
  {
    exists col :: lo <= col < hi && Height(s, col) == y
  }

  /** `y` is the greatest skyline height over the columns [lo, hi). */
  ghost predicate IsMaxHeight(s: seq<Seg>, lo: int, hi: int, y: int)
    requires |s| >= 1
  {
    AtLeastHeights(s, lo, hi, y) && SomeHeight(s, lo, hi, y)
  }

  lemma {:induction false} ScanIsMax(s: seq<Seg>, width: int, i: nat, x0: int, w: int, a: Scan)
    requires Ordered(s, width) && i < |s| && 0 <= x0 < x0 + w <= width
    requires s[i].x > x0
    requires IsMaxHeight(s, x0, if s[i].x < x0 + w then s[i].x else x0 + w, a.minY)
    ensures IsMaxHeight(s, x0, x0 + w, ScanFrom(s, i, x0, w, a).minY)
    decreases |s| - i
  {
    if s[i].x < x0 + w {
      assert i + 1 < |s|;
      var b := ScanStep(s, i, x0, w, a);
      var hi := if s[i + 1].x < x0 + w then s[i + 1].x else x0 + w;
      HeightAt(s, width, i, s[i].x);
      forall col | x0 <= col < hi ensures Height(s, col) <= b.minY {
        if col >= s[i].x {
          HeightAt(s, width, i, col);
        }
      }
      if s[i].y > a.minY {
        assert Height(s, s[i].x) == b.minY;
      } else {
        var c :| x0 <= c < s[i].x && Height(s, c) == a.minY;
        assert Height(s, c) == b.minY;
      }
      ScanIsMax(s, width, i + 1, x0, w, b);
    }
  }

  /** The scan returns the maximum skyline height over the span, for every admissible start. */
  lemma {:induction false} RestIsMax(s: seq<Seg>, width: int, top: int, x0: int, w: int)
    requires Ordered(s, width) && Bounded(s, top) && 0 <= x0 < x0 + w <= width
    ensures IsMaxHeight(s, x0, x0 + w, Rest(s, x0, w).minY)
    ensures 0 <= Rest(s, x0, w).minY <= top
  {
    FindHolds(s, width, x0);
    var f := Find(s, x0);
    var b := ScanStep(s, f, x0, w, Scan(0, 0, 0));
    assert b.minY == s[f].y;
    var hi := if s[f + 1].x < x0 + w then s[f + 1].x else x0 + w;
    forall col | x0 <= col < hi ensures Height(s, col) <= b.minY {
      HeightAt(s, width, f, col);
    }
    assert Height(s, x0) == b.minY;
    ScanIsMax(s, width, f + 1, x0, w, b);
    var m := Rest(s, x0, w).minY;
    var c :| x0 <= c < x0 + w && Height(s, c) == m;
    FindHolds(s, width, c);
  }

  /** The area between height `y` and the skyline over the columns [lo, hi). */
  ghost function Trapped(s: seq<Seg>, lo: int, hi: int, y: int): int
    requires |s| >= 1
    decreases hi - lo
  {
    if lo >= hi then 0 else (y - Height(s, hi - 1)) + Trapped(s, lo, hi - 1, y)
  }

  lemma {:induction false} TrappedRaise(s: seq<Seg>, lo: int, hi: int, y: int, z: int)
    requires |s| >= 1 && lo <= hi
    ensures Trapped(s, lo, hi, z) == Trapped(s, lo, hi, y) + (hi - lo) * (z - y)
    decreases hi - lo
  {
    if lo < hi {
      TrappedRaise(s, lo, hi - 1, y, z);
      assert (hi - lo) * (z - y) == (hi - 1 - lo) * (z - y) + (z - y);
    }
  }

  lemma {:induction false} TrappedFlat(s: seq<Seg>, width: int, i: nat, lo: int, mid: int, hi: int, y: int)
    requires Ordered(s, width) && i + 1 < |s| && lo <= mid <= hi
    requires s[i].x <= mid && hi <= s[i + 1].x
    ensures Trapped(s, lo, hi, y) == Trapped(s, lo, mid, y) + (hi - mid) * (y - s[i].y)
    decreases hi - mid
  {
    if mid < hi {
      TrappedFlat(s, width, i, lo, mid, hi - 1, y);
      HeightAt(s, width, i, hi - 1);
      assert (hi - mid) * (y - s[i].y) == (hi - 1 - mid) * (y - s[i].y) + (y - s[i].y);
    }
  }

  /** Booked waste, in the part of the span the scan has passed, is the trapped area. */
  ghost predicate ScanExact(s: seq<Seg>, i: nat, x0: int, w: int, a: Scan)
    requires i < |s|
  {
    if s[i].x < x0 + w then
      a.visited == s[i].x - x0 && a.waste == Trapped(s, x0, s[i].x, a.minY)
    else
      a.waste == Trapped(s, x0, x0 + w, a.minY)
  }

  lemma CornersRise(s: seq<Seg>, width: int, i: nat)
    requires Ordered(s, width) && i + 1 < |s|
    ensures s[i].x < s[i + 1].x
  {
  }

  lemma ScanStepExact(s: seq<Seg>, width: int, i: nat, x0: int, w: int, a: Scan)
    requires Ordered(s, width) && i + 1 < |s| && 0 <= x0 <= s[i].x < x0 + w <= width
    requires ScanExact(s, i, x0, w, a)
    ensures ScanExact(s, i + 1, x0, w, ScanStep(s, i, x0, w, a))
  {
    hide Trapped, Ordered;
    assert s[i].x < s[i + 1].x by { CornersRise(s, width, i); }
    var hi := if s[i + 1].x < x0 + w then s[i + 1].x else x0 + w;
    var b := ScanStep(s, i, x0, w, a);
    TrappedRaise(s, x0, s[i].x, a.minY, b.minY);
    TrappedFlat(s, width, i, x0, s[i].x, hi, b.minY);
  }

  lemma {:induction false} ScanFromExact(s: seq<Seg>, width: int, i: nat, x0: int, w: int, a: Scan)
    requires Ordered(s, width) && i < |s| && 0 <= x0 <= s[i].x && 0 < w && x0 + w <= width
    requires ScanExact(s, i, x0, w, a)
    ensures var r := ScanFrom(s, i, x0, w, a); r.waste == Trapped(s, x0, x0 + w, r.minY)
    decreases |s| - i
  {
    if s[i].x < x0 + w {
      ScanStepExact(s, width, i, x0, w, a);
      ScanFromExact(s, width, i + 1, x0, w, ScanStep(s, i, x0, w, a));
    }
  }

  /**
   The booked waste is exactly the area trapped under the rectangle when the span starts
   at a corner, and also when the corner to its left is above the floor.
   */
  lemma RestWasteExact(s: seq<Seg>, width: int, top: int, x0: int, w: int)
    requires Ordered(s, width) && Bounded(s, top) && 0 <= x0 < x0 + w <= width
    requires s[Find(s, x0)].x == x0 || s[Find(s, x0)].y > 0
    ensures Rest(s, x0, w).waste == Trapped(s, x0, x0 + w, Rest(s, x0, w).minY)
  {
    FindHolds(s, width, x0);
    var f := Find(s, x0);
    if s[f].x == x0 {
      ScanFromExact(s, width, f, x0, w, Scan(0, 0, 0));
    } else {
      var b := ScanStep(s, f, x0, w, Scan(0, 0, 0));
      var hi := if s[f + 1].x < x0 + w then s[f + 1].x else x0 + w;
      TrappedFlat(s, width, f, x0, x0, hi, b.minY);
      assert ScanExact(s, f + 1, x0, w, b);
      ScanFromExact(s, width, f + 1, x0, w, b);
    }
  }
}
