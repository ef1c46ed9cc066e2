/**
 The interval index over terminal coordinates: a tree that keeps, at every node, the
 intervals that reach its center, those that end before it on the left and those that
 start after it on the right.
 */
module IntervalTree {

  /** A terminal coordinate, ordered by row and then by column. */
  datatype Point = Point(x: int, y: int)

  const ORIGIN := Point(0, 0)

  predicate Less(a: Point, b: Point) {
    a.y < b.y || (a.y == b.y && a.x < b.x)
  }

  predicate AtMost(a: Point, b: Point) {
    a.y < b.y || (a.y == b.y && a.x <= b.x)
  }

  /** Halving truncates toward zero in each coordinate. */
  function Half(n: int): (r: int)
    ensures if n >= 0 then 0 <= n - 2 * r <= 1 else -1 <= n - 2 * r <= 0
  {
    if n >= 0 then n / 2 else -(-n / 2)
  }

  function Middle(a: Point, b: Point): Point {
    Point(Half(a.x + b.x), Half(a.y + b.y))
  }

  datatype Interval = Interval(start: Point, stop: Point, value: nat)

  /** The end points are put in order on construction. */
  function MakeInterval(s: Point, e: Point, v: nat): (i: Interval)
    ensures Proper(i) && i.value == v
    ensures (i.start == s && i.stop == e) || (i.start == e && i.stop == s)
  {
    if Less(e, s) then Interval(e, s, v) else Interval(s, e, v)
  }

  predicate Proper(i: Interval) {
    AtMost(i.start, i.stop)
  }

  ghost predicate AllProper(s: seq<Interval>) {
    forall k :: 0 <= k < |s| ==> Proper(s[k])
  }

  ghost predicate SortedByStart(s: seq<Interval>) {
    forall i, j :: 0 <= i < j < |s| ==> AtMost(s[i].start, s[j].start)
  }

  /** The tests the index applies to an interval: three for splitting, two for queries. */
  datatype Test =
    | EndsBefore(center: Point)
    | StartsAfter(center: Point)
    | Reaches(center: Point)
    | Overlaps(start: Point, stop: Point)
    | Contained(start: Point, stop: Point)

  predicate Passes(q: Test, i: Interval) {
    match q
    case EndsBefore(c) => Less(i.stop, c)
    case StartsAfter(c) => !Less(i.stop, c) && Less(c, i.start)
    case Reaches(c) => !Less(i.stop, c) && !Less(c, i.start)
    case Overlaps(a, b) => AtMost(a, i.stop) && AtMost(i.start, b)
    case Contained(a, b) => AtMost(a, i.start) && AtMost(i.stop, b)
  }

  ghost predicate AllPass(q: Test, s: seq<Interval>) {
    forall k :: 0 <= k < |s| ==> Passes(q, s[k])
  }

  /** The scan every query is measured against: the intervals that pass, in order. */
  function Filter(s: seq<Interval>, q: Test): (r: seq<Interval>)
    ensures AllPass(q, r)
  {
    if s == [] then []
    else Filter(s[..|s| - 1], q) + if Passes(q, s[|s| - 1]) then [s[|s| - 1]] else []
  }

  datatype Tree =
    | Nil
    | Node(intervals: seq<Interval>, left: Tree, right: Tree, center: Point)

  /** Everything stored in the tree, in the order a full visit meets it. */
  function Contents(t: Tree): seq<Interval> {
    match t
    case Nil => []
    case Node(intervals, left, right, _) => Contents(left) + intervals + Contents(right)
  }

  function Levels(t: Tree): nat {
    match t
    case Nil => 0
    case Node(_, left, right, _) => 1 + if Levels(left) < Levels(right) then Levels(right) else Levels(left)
  }

  /** Left stops lie before the center, right starts after it, and buckets are sorted by start. */
  ghost predicate WellPlaced(t: Tree) {
    match t
    case Nil => true
    case Node(intervals, left, right, center) =>
      && SortedByStart(intervals)
      && AllPass(EndsBefore(center), Contents(left))
      && AllPass(StartsAfter(center), Contents(right))
      && ((left.Node? || right.Node?) ==> AllPass(Reaches(center), intervals))
      && WellPlaced(left) && WellPlaced(right)
  }

  // ------------------------------------------------------------------- what the tests mean

  /** Points come row by row, and in a row from left to right. */
  lemma ReadingOrder(a: Point, b: Point)
    ensures a.y == b.y ==> (Less(a, b) <==> a.x < b.x)
    ensures a.y < b.y ==> Less(a, b) && !Less(b, a)
    ensures AtMost(a, b) <==> !Less(b, a)
  {
  }

  ghost predicate Within(p: Point, a: Point, b: Point) {
    AtMost(a, p) && AtMost(p, b)
  }

  /** Some point lies both in the interval and in the range. */
  ghost predicate Meets(i: Interval, a: Point, b: Point) {
    exists p :: Within(p, i.start, i.stop) && Within(p, a, b)
  }

  /** Every point of the interval lies in the range. */
  ghost predicate Inside(i: Interval, a: Point, b: Point) {
    forall p :: Within(p, i.start, i.stop) ==> Within(p, a, b)
  }

  lemma QueriesMean(i: Interval, a: Point, b: Point)
    requires Proper(i) && AtMost(a, b)
    ensures Passes(Overlaps(a, b), i) <==> Meets(i, a, b)
    ensures Passes(Contained(a, b), i) <==> Inside(i, a, b)
  {
    if Passes(Overlaps(a, b), i) {
      var p := if AtMost(a, i.start) then i.start else a;
      assert Within(p, i.start, i.stop) && Within(p, a, b);
    }
    assert Within(i.start, i.start, i.stop) && Within(i.stop, i.start, i.stop);
  }

  /** The scan keeps every interval that passes as often as it is there. */
  lemma {:induction false} FilterCounts(s: seq<Interval>, q: Test, v: Interval)
    ensures multiset(Filter(s, q))[v] == if Passes(q, v) then multiset(s)[v] else 0
  {
    hide Passes;
    if s != [] {
      FilterCounts(s[..|s| - 1], q, v);
      assert s == s[..|s| - 1] + [s[|s| - 1]];
    }
  }

  /** As many of each interval as were given if it is to be found, and none otherwise. */
  ghost predicate Found(out: seq<Interval>, ivals: seq<Interval>, wanted: Interval -> bool) {
    forall v :: v in ivals || v in out ==> multiset(out)[v] == if wanted(v) then multiset(ivals)[v] else 0
  }

  lemma ScanFinds(out: seq<Interval>, ivals: seq<Interval>, a: Point, b: Point)
    requires AllProper(ivals) && AtMost(a, b)
    ensures multiset(out) == multiset(Filter(ivals, Overlaps(a, b))) ==> Found(out, ivals, v => Meets(v, a, b))
    ensures multiset(out) == multiset(Filter(ivals, Contained(a, b))) ==> Found(out, ivals, v => Inside(v, a, b))
  {
    hide Passes, Filter, Meets, Inside, Proper;
    forall v | v in ivals || v in out
      ensures multiset(out) == multiset(Filter(ivals, Overlaps(a, b))) ==>
        multiset(out)[v] == if Meets(v, a, b) then multiset(ivals)[v] else 0
      ensures multiset(out) == multiset(Filter(ivals, Contained(a, b))) ==>
        multiset(out)[v] == if Inside(v, a, b) then multiset(ivals)[v] else 0
    {
      FilterCounts(ivals, Overlaps(a, b), v);
      FilterCounts(ivals, Contained(a, b), v);
      if v in ivals {
        QueriesMean(v, a, b);
      } else {
        assert multiset(ivals)[v] == 0;
      }
    }
  }

  // ------------------------------------------------------------------------ building

  /** Distributes the intervals over the three sides of the center, keeping their order. */
  method Partition(ivals: seq<Interval>, center: Point)
    returns (lefts: seq<Interval>, here: seq<Interval>, rights: seq<Interval>)
    ensures lefts == Filter(ivals, EndsBefore(center))
    ensures here == Filter(ivals, Reaches(center))
    ensures rights == Filter(ivals, StartsAfter(center))
  {
    lefts, here, rights := [], [], [];
    var i := 0;
    while i < |ivals|
      invariant 0 <= i <= |ivals|
      invariant lefts == Filter(ivals[..i], EndsBefore(center))
      invariant here == Filter(ivals[..i], Reaches(center))
      invariant rights == Filter(ivals[..i], StartsAfter(center))
    {
      var interval := ivals[i];
      assert ivals[..i + 1][..i] == ivals[..i];
      if Less(interval.stop, center) {
        lefts := lefts + [interval];
      } else if Less(center, interval.start) {
        rights := rights + [interval];
      } else {
        here := here + [interval];
      }
      i := i + 1;
    }
    assert ivals[..|ivals|] == ivals;
  }

  /** Every interval lands in exactly one part. */
  lemma PartsConserve(s: seq<Interval>, center: Point)
    ensures multiset(Filter(s, EndsBefore(center))) + multiset(Filter(s, Reaches(center)))
          + multiset(Filter(s, StartsAfter(center))) == multiset(s)
  {
    hide Filter;
    forall x: Interval
      ensures multiset(Filter(s, EndsBefore(center)))[x] + multiset(Filter(s, Reaches(center)))[x]
            + multiset(Filter(s, StartsAfter(center)))[x] == multiset(s)[x]
    {
      FilterCount(s, EndsBefore(center), x);
      FilterCount(s, Reaches(center), x);
      FilterCount(s, StartsAfter(center), x);
    }
  }

  lemma {:induction false} FilterCount(s: seq<Interval>, q: Test, x: Interval)
    ensures multiset(Filter(s, q))[x] == if Passes(q, x) then multiset(s)[x] else 0
  {
    if s != [] {
      FilterCount(s[..|s| - 1], q, x);
      assert s == s[..|s| - 1] + [s[|s| - 1]];
    }
  }

  lemma {:induction false} FilterFrom(s: seq<Interval>, q: Test, k: nat) returns (j: nat)
    requires k < |Filter(s, q)|
    ensures j < |s| && s[j] == Filter(s, q)[k]
  {
    if k < |Filter(s[..|s| - 1], q)| {
      j := FilterFrom(s[..|s| - 1], q, k);
    } else {
      j := |s| - 1;
    }
  }

  /** Filtering keeps a bucket proper and sorted. */
  lemma {:induction false} FilterSorted(s: seq<Interval>, q: Test)
    requires SortedByStart(s) && AllProper(s)
    ensures SortedByStart(Filter(s, q)) && AllProper(Filter(s, q))
  {
    if s != [] {
      var front, last := s[..|s| - 1], s[|s| - 1];
      FilterSorted(front, q);
      var r := Filter(front, q);
      forall i | 0 <= i < |r| ensures AtMost(r[i].start, last.start) {
        var j := FilterFrom(front, q, i);
        assert AtMost(s[j].start, s[|s| - 1].start);
      }
    }
  }

  /** A sort by start; callers rely only on its contract, which any correct sort meets. */
  method SortByStart(s: seq<Interval>) returns (r: seq<Interval>)
    ensures SortedByStart(r) && multiset(r) == multiset(s)
  {
    r := [];
    var i := 0;
    while i < |s|
      invariant 0 <= i <= |s|
      invariant SortedByStart(r) && multiset(r) == multiset(s[..i])
    {
      r := InsertByStart(r, s[i]);
      assert s[..i + 1] == s[..i] + [s[i]];
      i := i + 1;
    }
    assert s[..|s|] == s;
  }

  method InsertByStart(s: seq<Interval>, x: Interval) returns (r: seq<Interval>)
    requires SortedByStart(s)
    ensures SortedByStart(r) && multiset(r) == multiset(s) + multiset{x}
  {
    var k := |s|;
    while k > 0 && Less(x.start, s[k - 1].start)
      invariant 0 <= k <= |s|
      invariant forall i :: k <= i < |s| ==> Less(x.start, s[i].start)
    {
      k := k - 1;
    }
    r := s[..k] + [x] + s[k..];
    InsertedSorted(s, x, k);
    assert s == s[..k] + s[k..];
  }

  lemma InsertedSorted(s: seq<Interval>, x: Interval, k: nat)
    requires SortedByStart(s) && k <= |s| && (k > 0 ==> !Less(x.start, s[k - 1].start))
    requires forall i :: k <= i < |s| ==> Less(x.start, s[i].start)
    ensures SortedByStart(s[..k] + [x] + s[k..])
  {
    var r := s[..k] + [x] + s[k..];
    forall i, j | 0 <= i < j < |r| ensures AtMost(r[i].start, r[j].start) {
      var a := if i < k then i else i - 1;
      var b := if j < k then j else j - 1;
      if j == k && i < k - 1 {
        assert AtMost(s[i].start, s[k - 1].start);
      } else if i != k && j != k {
        assert AtMost(s[a].start, s[b].start);
      }
    }
  }

  /** Least start and greatest stop of a bucket. */
  method Extent(ivals: seq<Interval>) returns (lo: Point, hi: Point)
    requires ivals != []
    ensures IsExtent(lo, hi, ivals)
  {
    lo, hi := ivals[0].start, ivals[0].stop;
    ghost var a, b := 0, 0;
    var k := 0;
    while k < |ivals|
      invariant 0 <= k <= |ivals| && 0 <= a < |ivals| && 0 <= b < |ivals|
      invariant ivals[a].start == lo && ivals[b].stop == hi
      invariant forall j :: 0 <= j < k ==> AtMost(lo, ivals[j].start) && AtMost(ivals[j].stop, hi)
    {
      if Less(ivals[k].start, lo) {
        lo, a := ivals[k].start, k;
      }
      if Less(hi, ivals[k].stop) {
        hi, b := ivals[k].stop, k;
      }
      k := k + 1;
    }
  }

  /** `lo` is the least start and `hi` the greatest stop. */
  ghost predicate IsExtent(lo: Point, hi: Point, ivals: seq<Interval>) {
    && (exists i :: 0 <= i < |ivals| && ivals[i].start == lo)
    && (exists i :: 0 <= i < |ivals| && ivals[i].stop == hi)
    && (forall k :: 0 <= k < |ivals| ==> AtMost(lo, ivals[k].start) && AtMost(ivals[k].stop, hi))
  }

  /** `c` is halfway between the least start and the greatest stop. */
  ghost predicate IsMiddle(c: Point, ivals: seq<Interval>) {
    exists lo, hi :: IsExtent(lo, hi, ivals) && c == Middle(lo, hi)
  }

  /**
   Builds the index. The bucket is kept as it is when the depth is used up or both bucket sizes
   allow it; otherwise it is split at the middle of its extent. Only a split of nothing, which
   reads the first interval, is not allowed.
   */
  method Build(ivals0: seq<Interval>, depth: nat, minBucket: nat, maxBucket: nat, leftExtent: Point, rightExtent: Point)
    returns (t: Tree)
    requires depth >= 1 && AllProper(ivals0)
    requires leftExtent == ORIGIN == rightExtent || SortedByStart(ivals0)
    requires ivals0 != [] || depth == 1 || (minBucket > 0 && maxBucket > 0)
    ensures t.Node? && multiset(Contents(t)) == multiset(ivals0)
    ensures WellPlaced(t) && Levels(t) <= depth
    ensures ivals0 != [] ==> IsMiddle(t.center, ivals0)
    ensures if depth == 1 || (|ivals0| < minBucket && |ivals0| < maxBucket) then Levels(t) == 1
            else AllPass(Reaches(t.center), t.intervals)
    decreases depth
  {
    hide WellPlaced, SortedByStart, AllProper, Filter, Passes, AllPass, IsExtent, Middle, AtMost, Less, Contents,
      Levels;
    var center := ORIGIN;
    var ivals := ivals0;
    var leftp, rightp := leftExtent, rightExtent;
    if ivals != [] {
      var lo, hi := Extent(ivals);
      center := Middle(lo, hi);
      if leftExtent == ORIGIN && rightExtent == ORIGIN {
        leftp, rightp := lo, hi;
      }
    }
    if leftExtent == ORIGIN && rightExtent == ORIGIN {
      ivals := SortByStart(ivals);
    }
    SameSize(ivals, ivals0);
    if depth - 1 == 0 || (|ivals| < minBucket && |ivals| < maxBucket) {
      ivals := SortByStart(ivals);
      t := Node(ivals, Nil, Nil, center);
      LeafPlaced(ivals, center);
      return;
    }
    ProperSame(ivals, ivals0);
    FilterSorted(ivals, EndsBefore(center));
    FilterSorted(ivals, StartsAfter(center));
    FilterSorted(ivals, Reaches(center));
    PartsConserve(ivals, center);
    var lefts, here, rights := Partition(ivals, center);
    var left, right := Nil, Nil;
    NilPlaced();
    if lefts != [] {
      left := Build(lefts, depth - 1, minBucket, maxBucket, leftp, center);
    }
    if rights != [] {
      right := Build(rights, depth - 1, minBucket, maxBucket, center, rightp);
    }
    t := Node(here, left, right, center);
    NodePlaced(here, lefts, rights, left, right, center);
  }

  lemma NilPlaced()
    ensures WellPlaced(Nil) && Contents(Nil) == [] && Levels(Nil) == 0
  {
  }

  lemma LeafPlaced(ivals: seq<Interval>, center: Point)
    requires SortedByStart(ivals)
    ensures var t := Node(ivals, Nil, Nil, center); WellPlaced(t) && Contents(t) == ivals && Levels(t) == 1
  {
  }

  lemma NodePlaced(here: seq<Interval>, lefts: seq<Interval>, rights: seq<Interval>, left: Tree, right: Tree,
                   center: Point)
    requires SortedByStart(here) && AllPass(Reaches(center), here)
    requires AllPass(EndsBefore(center), lefts) && AllPass(StartsAfter(center), rights)
    requires WellPlaced(left) && WellPlaced(right)
    requires multiset(Contents(left)) == multiset(lefts) && multiset(Contents(right)) == multiset(rights)
    ensures WellPlaced(Node(here, left, right, center))
    ensures multiset(Contents(Node(here, left, right, center))) == multiset(lefts) + multiset(here) + multiset(rights)
    ensures Levels(Node(here, left, right, center))
         == 1 + if Levels(left) < Levels(right) then Levels(right) else Levels(left)
  {
    PassSame(EndsBefore(center), Contents(left), lefts);
    PassSame(StartsAfter(center), Contents(right), rights);
  }

  lemma SameSize(a: seq<Interval>, b: seq<Interval>)
    requires multiset(a) == multiset(b)
    ensures |a| == |b|
  {
    assert |multiset(a)| == |multiset(b)|;
  }

  lemma IndexIn(a: seq<Interval>, b: seq<Interval>, k: nat) returns (j: nat)
    requires multiset(a) == multiset(b) && k < |a|
    ensures j < |b| && b[j] == a[k]
  {
    assert a[k] in multiset(b);
    j :| 0 <= j < |b| && b[j] == a[k];
  }

  lemma PassSame(q: Test, a: seq<Interval>, b: seq<Interval>)
    requires multiset(a) == multiset(b) && AllPass(q, b)
    ensures AllPass(q, a)
  {
    forall k | 0 <= k < |a| ensures Passes(q, a[k]) {
      var j := IndexIn(a, b, k);
    }
  }

  lemma ProperSame(a: seq<Interval>, b: seq<Interval>)
    requires multiset(a) == multiset(b) && AllProper(b)
    ensures AllProper(a)
  {
    forall k | 0 <= k < |a| ensures Proper(a[k]) {
      var j := IndexIn(a, b, k);
    }
  }

  // ------------------------------------------------------------------------ queries

  /** The intervals a range query looks at, in visiting order. */
  function Near(t: Tree, start: Point, stop: Point): seq<Interval> {
    match t
    case Nil => []
    case Node(intervals, left, right, center) =>
      (if intervals != [] && !Less(stop, intervals[0].start) then intervals else []) +
      (if AtMost(start, center) then Near(left, start, stop) else []) +
      (if AtMost(center, stop) then Near(right, start, stop) else [])
  }

  function FindOverlapping(t: Tree, start: Point, stop: Point): seq<Interval> {
    Filter(Near(t, start, stop), Overlaps(start, stop))
  }

  function FindContained(t: Tree, start: Point, stop: Point): seq<Interval> {
    Filter(Near(t, start, stop), Contained(start, stop))
  }

  /** A range query over [start, stop]. */
  ghost predicate IsQuery(q: Test, start: Point, stop: Point) {
    q == Overlaps(start, stop) || q == Contained(start, stop)
  }

  /** A proper interval that ends before the range or starts after it answers neither query. */
  lemma OutsideFails(q: Test, start: Point, stop: Point, i: Interval)
    requires IsQuery(q, start, stop) && Proper(i) && (Less(i.stop, start) || Less(stop, i.start))
    ensures !Passes(q, i)
  {
  }

  lemma {:induction false} FilterAppend(a: seq<Interval>, b: seq<Interval>, q: Test)
    ensures Filter(a + b, q) == Filter(a, q) + Filter(b, q)
  {
    hide Filter;
    if b == [] {
      assert a + b == a && Filter(b, q) == [] by { NothingFiltered(q); }
    } else {
      var front, x := b[..|b| - 1], b[|b| - 1];
      FilterAppend(a, front, q);
      assert a + b == a + front + [x] && b == front + [x];
      FilterLast(a + front, x, q);
      FilterLast(front, x, q);
    }
  }

  lemma FilterThree(a: seq<Interval>, b: seq<Interval>, c: seq<Interval>, q: Test)
    ensures multiset(Filter(a + b + c, q)) == multiset(Filter(a, q)) + multiset(Filter(b, q)) + multiset(Filter(c, q))
  {
    hide Filter;
    FilterAppend(a + b, c, q);
    FilterAppend(a, b, q);
  }

  lemma FilterLast(s: seq<Interval>, x: Interval, q: Test)
    ensures Filter(s + [x], q) == Filter(s, q) + if Passes(q, x) then [x] else []
  {
    assert (s + [x])[..|s|] == s;
  }

  lemma {:induction false} FilterNone(s: seq<Interval>, q: Test)
    requires forall k :: 0 <= k < |s| ==> !Passes(q, s[k])
    ensures Filter(s, q) == []
  {
    if s != [] {
      FilterNone(s[..|s| - 1], q);
    }
  }

  lemma ProperParts(t: Tree)
    requires t.Node? && AllProper(Contents(t))
    ensures AllProper(Contents(t.left)) && AllProper(t.intervals) && AllProper(Contents(t.right))
  {
    var all, n, m := Contents(t), |Contents(t.left)|, |t.intervals|;
    forall k | 0 <= k < n ensures Proper(Contents(t.left)[k]) {
      assert all[k] == Contents(t.left)[k];
    }
    forall k | 0 <= k < m ensures Proper(t.intervals[k]) {
      assert all[n + k] == t.intervals[k];
    }
    forall k | 0 <= k < |Contents(t.right)| ensures Proper(Contents(t.right)[k]) {
      assert all[n + m + k] == Contents(t.right)[k];
    }
  }

  /** Skipping parts of a well-placed tree never loses an answer. */
  lemma {:induction false} NearMissesNothing(t: Tree, q: Test, start: Point, stop: Point)
    requires WellPlaced(t) && AllProper(Contents(t)) && IsQuery(q, start, stop)
    ensures multiset(Filter(Near(t, start, stop), q)) == multiset(Filter(Contents(t), q))
  {
    hide Filter, AllPass, SortedByStart, AllProper, IsQuery, Less, AtMost;
    match t {
      case Nil =>
      case Node(intervals, left, right, center) =>
        ProperParts(t);
        NearMissesNothing(left, q, start, stop);
        NearMissesNothing(right, q, start, stop);
        FilterThree(Contents(left), intervals, Contents(right), q);
        var a := if intervals != [] && !Less(stop, intervals[0].start) then intervals else [];
        var b := if AtMost(start, center) then Near(left, start, stop) else [];
        var c := if AtMost(center, stop) then Near(right, start, stop) else [];
        FilterThree(a, b, c, q);
        BucketSkip(t, q, start, stop);
        SidesSkip(t, q, start, stop);
        NothingFiltered(q);
    }
  }

  lemma NothingFiltered(q: Test)
    ensures Filter([], q) == []
  {
  }

  lemma BucketSkip(t: Tree, q: Test, start: Point, stop: Point)
    requires t.Node? && WellPlaced(t) && AllProper(t.intervals) && IsQuery(q, start, stop)
    ensures t.intervals != [] && Less(stop, t.intervals[0].start) ==> Filter(t.intervals, q) == []
  {
    if t.intervals != [] && Less(stop, t.intervals[0].start) {
      forall k | 0 <= k < |t.intervals| ensures !Passes(q, t.intervals[k]) {
        assert k > 0 ==> AtMost(t.intervals[0].start, t.intervals[k].start);
        OutsideFails(q, start, stop, t.intervals[k]);
      }
      FilterNone(t.intervals, q);
    }
  }

  lemma SidesSkip(t: Tree, q: Test, start: Point, stop: Point)
    requires t.Node? && WellPlaced(t) && AllProper(Contents(t.left)) && AllProper(Contents(t.right))
    requires IsQuery(q, start, stop)
    ensures !AtMost(start, t.center) ==> Filter(Contents(t.left), q) == []
    ensures !AtMost(t.center, stop) ==> Filter(Contents(t.right), q) == []
  {
    if !AtMost(start, t.center) {
      var s := Contents(t.left);
      forall k | 0 <= k < |s| ensures !Passes(q, s[k]) {
        assert Passes(EndsBefore(t.center), s[k]);
        OutsideFails(q, start, stop, s[k]);
      }
      FilterNone(s, q);
    }
    if !AtMost(t.center, stop) {
      var s := Contents(t.right);
      forall k | 0 <= k < |s| ensures !Passes(q, s[k]) {
        assert Passes(StartsAfter(t.center), s[k]);
        OutsideFails(q, start, stop, s[k]);
      }
      FilterNone(s, q);
    }
  }

  lemma FilterMultiset(a: seq<Interval>, b: seq<Interval>, q: Test)
    requires multiset(a) == multiset(b)
    ensures multiset(Filter(a, q)) == multiset(Filter(b, q))
  {
    forall x: Interval ensures multiset(Filter(a, q))[x] == multiset(Filter(b, q))[x] {
      FilterCount(a, q, x);
      FilterCount(b, q, x);
    }
  }

  /** On every index over `ivals` both range queries return exactly what a scan of the input would. */
  lemma QueriesMatchScan(t: Tree, ivals: seq<Interval>, start: Point, stop: Point)
    requires WellPlaced(t) && AllProper(ivals) && multiset(Contents(t)) == multiset(ivals)
    ensures multiset(FindOverlapping(t, start, stop)) == multiset(Filter(ivals, Overlaps(start, stop)))
    ensures multiset(FindContained(t, start, stop)) == multiset(Filter(ivals, Contained(start, stop)))
  {
    ProperSame(Contents(t), ivals);
    NearMissesNothing(t, Overlaps(start, stop), start, stop);
    NearMissesNothing(t, Contained(start, stop), start, stop);
    FilterMultiset(Contents(t), ivals, Overlaps(start, stop));
    FilterMultiset(Contents(t), ivals, Contained(start, stop));
  }

  /** Builds an index and answers both queries from it. */
  method BuildAndQuery(ivals: seq<Interval>, depth: nat, minBucket: nat, maxBucket: nat, start: Point, stop: Point)
    returns (overlapping: seq<Interval>, contained: seq<Interval>)
    requires depth >= 1 && AllProper(ivals)
    requires ivals != [] || depth == 1 || (minBucket > 0 && maxBucket > 0)
    ensures multiset(overlapping) == multiset(Filter(ivals, Overlaps(start, stop)))
    ensures multiset(contained) == multiset(Filter(ivals, Contained(start, stop)))
    ensures AtMost(start, stop) ==>
      Found(overlapping, ivals, v => Meets(v, start, stop)) && Found(contained, ivals, v => Inside(v, start, stop))
  {
    var t := Build(ivals, depth, minBucket, maxBucket, ORIGIN, ORIGIN);
    QueriesMatchScan(t, ivals, start, stop);
    overlapping := FindOverlapping(t, start, stop);
    contained := FindContained(t, start, stop);
    if AtMost(start, stop) {
      ScanFinds(overlapping, ivals, start, stop);
      ScanFinds(contained, ivals, start, stop);
    }
  }
}
