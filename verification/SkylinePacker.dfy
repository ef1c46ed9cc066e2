/**
 The packer object. It threads its skyline and its free nodes through one buffer in place;
 each method is tied to the corner lists of SkylineProfile and SkylinePlacement.
 */
module SkylinePacker {
  import opened Numbers
  import opened SkylineProfile
  import opened SkylinePlacement
  import opened SkylineNodes
  import opened SkylineSearch

  lemma QuotientAtLeastOne(a: int, n: int)
    requires 1 <= n <= a
    ensures a / n >= 1
  {
    var q := a / n;
    assert q < 1 ==> q * n <= 0;
  }

  ghost predicate InBuffer(ns: seq<int>, size: int) {
    forall i :: 0 <= i < |ns| ==> 0 <= ns[i] < size
  }

  /** Where a span [x0, x0 + w) starting in the corner at `first` would rest, and the waste under it. */
  method FindMinY(pool: array<Cell>, first: int, ghost ns: seq<int>, ghost i: nat, x0: int, w: int)
    returns (y: int, waste: int)
    requires Linked(pool[..], ns, NULL) && InBuffer(ns, pool.Length) && i < |ns| && first == ns[i]
    requires Corners(pool[..], ns)[|ns| - 1].x >= x0 + w
    ensures var r := ScanFrom(Corners(pool[..], ns), i, x0, w, Scan(0, 0, 0)); r.minY == y && r.waste == waste
  {
    var node := first;
    ghost var s := Corners(pool[..], ns);
    ghost var k := i;
    y, waste := 0, 0;
    var visited := 0;
    while pool[node].x < x0 + w
      invariant k < |ns| && node == ns[k]
      invariant ScanFrom(s, k, x0, w, Scan(y, visited, waste)) == ScanFrom(s, i, x0, w, Scan(0, 0, 0))
      decreases |ns| - k
    {
      assert s[k] == Seg(pool[node].x, pool[node].y);
      LinkedAt(pool[..], ns, k, NULL);
      var next := pool[node].next;
      ghost var a := Scan(y, visited, waste);
      if pool[node].y > y {
        waste := waste + visited * (pool[node].y - y);
        y := pool[node].y;
        if pool[node].x < x0 {
          visited := visited + pool[next].x - x0;
        } else {
          visited := visited + pool[next].x - pool[node].x;
        }
      } else {
        var under := pool[next].x - pool[node].x;
        if under + visited > w {
          under := w - visited;
        }
        waste := waste + under * (y - pool[node].y);
        visited := visited + under;
      }
      assert Scan(y, visited, waste) == ScanStep(s, k, x0, w, a);
      node := next;
      k := k + 1;
    }
  }

  /** The link through which the corner holding column `x` is reached; null stands for the list head. */
  ghost function LinkTo(ns: seq<int>, s: seq<Seg>, x: int): int
    requires |s| >= 1 && |ns| == |s|
  {
    if Find(s, x) == 0 then NULL else ns[Find(s, x) - 1]
  }

  /** Resting height and waste of the tried position `x`, whose corner is at `node`. */
  method Measure(pool: array<Cell>, node: int, ghost ns: seq<int>, t: Target, aw: int, x: int) returns (c: Best)
    requires Linked(pool[..], ns, NULL) && InBuffer(ns, pool.Length) && Ordered(Corners(pool[..], ns), t.width)
    requires aw >= 1 && Tried(Corners(pool[..], ns), t, aw, x) && node == ns[Find(Corners(pool[..], ns), x)]
    ensures Measured(Corners(pool[..], ns), t, aw, c) && c.x == x
  {
    var y, waste := FindMinY(pool, node, ns, Find(Corners(pool[..], ns), x), x, aw);
    c := Held(x, y, waste);
  }

  /** The left-aligned pass: try every corner from which the quantized width still fits. */
  method SearchLeft(pool: array<Cell>, head: int, ghost ns: seq<int>, t: Target, aw: int, h: int)
    returns (best: Best, link: int)
    requires Linked(pool[..], ns, NULL) && InBuffer(ns, pool.Length) && |ns| >= 2 && head == ns[0]
    requires Ordered(Corners(pool[..], ns), t.width) && aw >= 1
    ensures BestSoFar(Corners(pool[..], ns), t, aw, h, |ns|, 0, best)
    ensures best.Held? ==> link == LinkTo(ns, Corners(pool[..], ns), best.x)
  {
    hide Tried, Measured, BeatsIt, Linked, Find, Height;
    ghost var s := Corners(pool[..], ns);
    var node, prev := head, NULL;
    best, link := None, NULL;
    ghost var k := 0;
    while pool[node].x + aw <= t.width
      invariant k < |ns| && node == ns[k] && prev == (if k == 0 then NULL else ns[k - 1])
      invariant BestSoFar(s, t, aw, h, k, 0, best)
      invariant best.Held? ==> best.x < s[k].x && link == LinkTo(ns, s, best.x)
      decreases |ns| - k
    {
      assert s[k].x == pool[node].x;
      assert k + 1 < |ns|;
      HeightAt(s, t.width, k, s[k].x);
      TriedLeft(s, t, aw, k);
      var c := Measure(pool, node, ns, t, aw, pool[node].x);
      LeftStep(s, t, aw, h, k, best, c);
      if TakeLeft(t, h, best, c) {
        best, link := c, prev;
      }
      LinkedAt(pool[..], ns, k, NULL);
      prev, node := node, pool[node].next;
      k := k + 1;
    }
    LeftDone(s, t, aw, h, k, best);
  }

  /** Moves to the corner whose stretch holds column `x`, from one at or left of it. */
  method SeekCorner(pool: array<Cell>, node0: int, prev0: int, ghost ns: seq<int>, ghost f0: nat, x: int,
                    ghost width: int)
    returns (node: int, prev: int, ghost f: nat)
    requires Linked(pool[..], ns, NULL) && InBuffer(ns, pool.Length) && Ordered(Corners(pool[..], ns), width)
    requires f0 < |ns| && node0 == ns[f0] && prev0 == (if f0 == 0 then NULL else ns[f0 - 1])
    requires Corners(pool[..], ns)[f0].x <= x < width
    ensures f < |ns| && node == ns[f] && prev == LinkTo(ns, Corners(pool[..], ns), x)
    ensures f == Find(Corners(pool[..], ns), x) && Corners(pool[..], ns)[f].x <= x
    ensures prev == (if f == 0 then NULL else ns[f - 1])
  {
    hide Linked, Height, Find;
    ghost var s := Corners(pool[..], ns);
    node, prev, f := node0, prev0, f0;
    LinkedAt(pool[..], ns, f, NULL);
    while pool[pool[node].next].x <= x
      invariant f + 1 < |ns| && node == ns[f] && prev == (if f == 0 then NULL else ns[f - 1])
      invariant s[f].x <= x && pool[node].next == ns[f + 1]
      decreases |ns| - f
    {
      assert s[f + 1].x == pool[ns[f + 1]].x;
      LinkedAt(pool[..], ns, f + 1, NULL);
      prev, node, f := node, pool[node].next, f + 1;
    }
    assert s[f + 1].x == pool[ns[f + 1]].x;
    HeightAt(s, width, f, x);
  }

  /** The right-aligned pass of best fit: try ending the span at every corner. */
  method SearchRight(pool: array<Cell>, head: int, ghost ns: seq<int>, t: Target, aw: int, h: int, best0: Best,
                     link0: int)
    returns (best: Best, link: int)
    requires Linked(pool[..], ns, NULL) && InBuffer(ns, pool.Length) && |ns| >= 2 && head == ns[0]
    requires Ordered(Corners(pool[..], ns), t.width) && 1 <= aw <= t.width && t.bestFit
    requires BestSoFar(Corners(pool[..], ns), t, aw, h, |ns|, 0, best0)
    requires best0.Held? ==> link0 == LinkTo(ns, Corners(pool[..], ns), best0.x)
    ensures BestSoFar(Corners(pool[..], ns), t, aw, h, |ns|, |ns|, best)
    ensures best.Held? ==> link == LinkTo(ns, Corners(pool[..], ns), best.x)
  {
    hide Tried, Measured, BestSoFar, Linked, LinkTo, Find, Height;
    ghost var s := Corners(pool[..], ns);
    best, link := best0, link0;
    ghost var m: nat;
    var tail;
    tail, m := FirstTail(pool, head, ns, t, aw, h, best);
    var node, prev := head, NULL;
    ghost var f: nat := 0;
    NextRight(s, t.width, 0);
    while tail != NULL
      invariant m <= |ns| && tail == (if m < |ns| then ns[m] else NULL)
      invariant f < |ns| && node == ns[f] && prev == (if f == 0 then NULL else ns[f - 1])
      invariant m < |ns| ==> s[f].x <= s[m].x - aw
      invariant BestSoFar(s, t, aw, h, |ns|, m, best)
      invariant best.Held? ==> link == LinkTo(ns, s, best.x)
      decreases |ns| - m
    {
      NextRight(s, t.width, m);
      best, link, node, prev, f := TryTail(pool, tail, node, prev, ns, t, aw, h, best, link, m, f);
      LinkedAt(pool[..], ns, m, NULL);
      tail, m := pool[tail].next, m + 1;
    }
  }

  /** The first corner at or right of the quantized width. */
  method FirstTail(pool: array<Cell>, head: int, ghost ns: seq<int>, t: Target, aw: int, h: int, best: Best)
    returns (tail: int, ghost m: nat)
    requires Linked(pool[..], ns, NULL) && InBuffer(ns, pool.Length) && |ns| >= 2 && head == ns[0]
    requires Ordered(Corners(pool[..], ns), t.width) && 1 <= aw <= t.width
    requires BestSoFar(Corners(pool[..], ns), t, aw, h, |ns|, 0, best)
    ensures m < |ns| && tail == ns[m] && Corners(pool[..], ns)[m].x >= aw
    ensures BestSoFar(Corners(pool[..], ns), t, aw, h, |ns|, m, best)
  {
    hide BestSoFar, Linked;
    ghost var s := Corners(pool[..], ns);
    tail, m := head, 0;
    while pool[tail].x < aw
      invariant m < |ns| && tail == ns[m]
      invariant BestSoFar(s, t, aw, h, |ns|, m, best)
      decreases |ns| - m
    {
      assert s[m].x == pool[tail].x;
      RightSkip(s, t, aw, h, m, best);
      LinkedAt(pool[..], ns, m, NULL);
      NextRight(s, t.width, m);
      tail, m := pool[tail].next, m + 1;
    }
    assert s[m].x == pool[tail].x;
  }

  /** Tries the span that ends at the corner `m`, at `tail`. */
  method TryTail(pool: array<Cell>, tail: int, node0: int, prev0: int, ghost ns: seq<int>, t: Target, aw: int, h: int,
                 best0: Best, link0: int, ghost m: nat, ghost f0: nat)
    returns (best: Best, link: int, node: int, prev: int, ghost f: nat)
    requires Linked(pool[..], ns, NULL) && InBuffer(ns, pool.Length) && |ns| >= 2 && m < |ns| && tail == ns[m]
    requires Ordered(Corners(pool[..], ns), t.width) && 1 <= aw <= t.width && t.bestFit
    requires f0 < |ns| && node0 == ns[f0] && prev0 == (if f0 == 0 then NULL else ns[f0 - 1])
    requires 0 <= Corners(pool[..], ns)[f0].x <= Corners(pool[..], ns)[m].x - aw
    requires BestSoFar(Corners(pool[..], ns), t, aw, h, |ns|, m, best0)
    requires best0.Held? ==> link0 == LinkTo(ns, Corners(pool[..], ns), best0.x)
    ensures BestSoFar(Corners(pool[..], ns), t, aw, h, |ns|, m + 1, best)
    ensures best.Held? ==> link == LinkTo(ns, Corners(pool[..], ns), best.x)
    ensures f < |ns| && node == ns[f] && prev == (if f == 0 then NULL else ns[f - 1])
    ensures Corners(pool[..], ns)[f].x <= Corners(pool[..], ns)[m].x - aw
  {
    hide Tried, Measured, BestSoFar, Linked, LinkTo, Find, Height;
    ghost var s := Corners(pool[..], ns);
    assert s[m].x == pool[tail].x;
    NextRight(s, t.width, m);
    var x := pool[tail].x - aw;
    node, prev, f := SeekCorner(pool, node0, prev0, ns, f0, x, t.width);
    TriedRight(s, t, aw, m);
    var c := Measure(pool, node, ns, t, aw, x);
    RightStep(s, t, aw, h, m, best0, c);
    best, link := best0, link0;
    if TakeRight(t, h, best0, c) {
      best, link := c, prev;
    }
  }

  lemma NextRight(s: seq<Seg>, width: int, m: nat)
    requires Ordered(s, width) && m < |s|
    ensures 0 <= s[m].x <= width
    ensures m + 1 < |s| ==> s[m].x < s[m + 1].x
    ensures m + 1 == |s| ==> s[m].x == width
    ensures m == 0 ==> s[m].x == 0
  {
  }

  /** Stores the new corner in the first free node and links the part of the skyline left of it there. */
  method InsertNode(pool: array<Cell>, head: int, freeHead: int, ghost active: seq<int>, ghost free: seq<int>,
                    ghost f: nat, link: int, x: int, top: int)
    returns (node: int, head': int, freeHead': int, cur: int, ghost cut: nat)
    requires Shape(pool[..], head, freeHead, active, free) && free != []
    requires f + 1 < |active| && link == (if f == 0 then NULL else active[f - 1])
    modifies pool
    ensures cut == old(CutFrom(Corners(pool[..], active), f, x))
    ensures node == free[0] && cur == active[cut] && head' == Head(active[..cut], node)
    ensures Splicing(pool[..], freeHead', active[..cut], node, active[cut..], free[1..])
    ensures Corners(pool[..], active[..cut]) == old(Corners(pool[..], active))[..cut]
    ensures Corners(pool[..], active[cut..]) == old(Corners(pool[..], active))[cut..]
    ensures At(pool[..], node).x == x && At(pool[..], node).y == top
  {
    ghost var p := pool[..];
    ghost var s := Corners(p, active);
    ShapeInBuffer(p, head, freeHead, active, free);
    cut := CutFrom(s, f, x);
    LinkFollowed(p, active, f, head);
    node := freeHead;
    freeHead' := pool[node].next;
    pool[node] := Cell(x, top, pool[node].next);
    cur := if link == NULL then head else pool[link].next;
    assert cur == active[f] && pool[cur] == p[cur];
    head' := head;
    if pool[cur].x < x {
      var next := pool[cur].next;
      pool[cur] := pool[cur].(next := node);
      cur := next;
    } else if link == NULL {
      head' := node;
    } else {
      pool[link] := pool[link].(next := node);
    }
    InsertedBy(p, active, node, cut, Seg(x, top));
    assert pool[..] == InsertedPool(p, active, node, cut, Seg(x, top));
    TakeFree(p, head, freeHead, active, free, cut, Seg(x, top), pool[..]);
  }

  lemma ShapeInBuffer(p: seq<Cell>, head: int, freeHead: int, active: seq<int>, free: seq<int>)
    requires Shape(p, head, freeHead, active, free)
    ensures InBuffer(active, |p|) && InBuffer(free, |p|)
    ensures forall i, j :: 0 <= i < |active| && 0 <= j < |free| ==> active[i] != free[j]
    ensures forall i, j :: 0 <= i < j < |active| ==> active[i] != active[j]
  {
    ShapeMeansPartition(p, head, freeHead, active, free);
    assert forall i :: 0 <= i < |active| ==> active[i] in active;
    assert forall i :: 0 <= i < |free| ==> free[i] in free;
  }

  /** Following the found link leads to corner `f`. */
  lemma LinkFollowed(p: seq<Cell>, active: seq<int>, f: nat, head: int)
    requires Linked(p, active, NULL) && head == Head(active, NULL) && InBuffer(active, |p|) && f + 1 < |active|
    ensures var link := if f == 0 then NULL else active[f - 1];
      && active[f] == (if link == NULL then head else At(p, link).next)
      && (link == NULL <==> f == 0)
      && p[active[f]].next == active[f + 1]
  {
    LinkedAt(p, active, f, NULL);
    if f > 0 {
      LinkedAt(p, active, f - 1, NULL);
    }
  }

  ghost function InsertedPool(p: seq<Cell>, active: seq<int>, node: int, cut: nat, top: Seg): seq<Cell>
    requires 0 <= node < |p| && cut <= |active| && InBuffer(active, |p|)
  {
    var q := p[node := Cell(top.x, top.y, p[node].next)];
    if cut == 0 then q else q[active[cut - 1] := p[active[cut - 1]].(next := node)]
  }

  lemma InsertedBy(p: seq<Cell>, active: seq<int>, node: int, cut: nat, top: Seg)
    requires 0 <= node < |p| && cut <= |active| && InBuffer(active, |p|)
    requires forall i :: 0 <= i < |active| ==> active[i] != node
    ensures Inserted(p, InsertedPool(p, active, node, cut, top), active, node, cut, top)
  {
  }

  /** Pushes the first remaining node on the free list. */
  method FreeNode(pool: array<Cell>, freeHead: int, ghost kept: seq<int>, ghost node: int, ghost rest: seq<int>,
                  ghost free: seq<int>, cur: int)
    requires Splicing(pool[..], freeHead, kept, node, rest, free) && |rest| >= 2 && cur == rest[0]
    requires 0 <= cur < pool.Length
    modifies pool
    ensures Splicing(pool[..], cur, kept, node, rest[1..], [cur] + free)
    ensures Corners(pool[..], kept) == old(Corners(pool[..], kept))
    ensures Corners(pool[..], rest[1..]) == old(Corners(pool[..], rest))[1..]
    ensures At(pool[..], node) == old(At(pool[..], node))
  {
    hide Linked, Nodes, Every;
    ghost var p := pool[..];
    pool[cur] := pool[cur].(next := freeHead);
    assert pool[..] == p[cur := p[cur].(next := freeHead)];
    FreeOne(p, freeHead, kept, node, rest, free, pool[..]);
  }

  /** Moves the nodes the rectangle covers to the free list, up to the one it trims. */
  method FreeCovered(pool: array<Cell>, freeHead0: int, ghost kept: seq<int>, node: int, ghost rest: seq<int>,
                     ghost free: seq<int>, cur0: int, right: int)
    returns (freeHead: int, cur: int, ghost freed: nat, ghost free': seq<int>)
    requires Splicing(pool[..], freeHead0, kept, node, rest, free) && cur0 == rest[0]
    modifies pool
    ensures freed == old(Skip(Corners(pool[..], rest), 0, right)) && freed < |rest| && cur == rest[freed]
    ensures Splicing(pool[..], freeHead, kept, node, rest[freed..], free')
    ensures Corners(pool[..], kept) == old(Corners(pool[..], kept))
    ensures Corners(pool[..], rest[freed..]) == old(Corners(pool[..], rest))[freed..]
    ensures At(pool[..], node) == old(At(pool[..], node))
  {
    hide Splicing, Skip;
    ghost var s := Corners(pool[..], rest);
    freeHead, cur, freed, free' := freeHead0, cur0, 0, free;
    RestInBuffer(pool[..], freeHead, kept, node, rest, free);
    assert rest[0..] == rest && s[0..] == s;
    NextAt(pool[..], freeHead, kept, node, rest, 0, free');
    while pool[cur].next != NULL && pool[pool[cur].next].x <= right
      invariant freed < |rest| && cur == rest[freed]
      invariant Splicing(pool[..], freeHead, kept, node, rest[freed..], free')
      invariant Corners(pool[..], kept) == old(Corners(pool[..], kept))
      invariant Corners(pool[..], rest[freed..]) == s[freed..]
      invariant At(pool[..], node) == old(At(pool[..], node))
      invariant pool[cur].next == if freed + 1 < |rest| then rest[freed + 1] else NULL
      invariant Skip(s, freed, right) == Skip(s, 0, right)
      decreases |rest| - freed
    {
      assert s[freed + 1] == s[freed..][1] && rest[freed + 1] == rest[freed..][1];
      SkipStep(s, freed, right);
      var next := pool[cur].next;
      FreeNode(pool, freeHead, kept, node, rest[freed..], free', cur);
      freeHead, free', freed, cur := cur, [cur] + free', freed + 1, next;
      assert rest[freed..] == rest[freed - 1..][1..] && s[freed..] == s[freed - 1..][1..];
      NextAt(pool[..], freeHead, kept, node, rest, freed, free');
    }
    assert freed + 1 < |rest| ==> s[freed + 1] == s[freed..][1] && rest[freed + 1] == rest[freed..][1];
    SkipStep(s, freed, right);
  }

  lemma SkipStep(s: seq<Seg>, j: nat, limit: int)
    requires j < |s|
    ensures Skip(s, j, limit) == if j + 1 < |s| && s[j + 1].x <= limit then Skip(s, j + 1, limit) else j
  {
  }

  lemma RestInBuffer(p: seq<Cell>, freeHead: int, kept: seq<int>, node: int, rest: seq<int>, free: seq<int>)
    requires Splicing(p, freeHead, kept, node, rest, free)
    ensures rest != [] && InBuffer(rest, |p|)
  {
    PartsApart(kept, node, rest, free, |p|);
    assert forall i :: 0 <= i < |rest| ==> rest[i] in rest;
  }

  lemma NextAt(p: seq<Cell>, freeHead: int, kept: seq<int>, node: int, ns: seq<int>, k: nat, free: seq<int>)
    requires k < |ns| && Splicing(p, freeHead, kept, node, ns[k..], free)
    ensures At(p, ns[k]).next == if k + 1 < |ns| then ns[k + 1] else NULL
  {
    LinkedAt(p, ns[k..], 0, NULL);
  }

  /** Links the new node to the first node left over and trims that one to the rectangle's right edge. */
  method CloseGap(pool: array<Cell>, ghost freeHead: int, ghost kept: seq<int>, node: int, ghost rest: seq<int>,
                  ghost free: seq<int>, cur: int, right: int)
    requires Splicing(pool[..], freeHead, kept, node, rest, free) && cur == rest[0]
    modifies pool
    ensures Shape(pool[..], Head(kept, node), freeHead, kept + [node] + rest, free)
    ensures Corners(pool[..], kept + [node] + rest)
         == old(Joined(Corners(pool[..], kept), Seg(At(pool[..], node).x, At(pool[..], node).y),
                       Corners(pool[..], rest), right))
  {
    ghost var p := pool[..];
    PartsApart(kept, node, rest, free, |p|);
    assert cur in rest;
    pool[node] := pool[node].(next := cur);
    if pool[cur].x < right {
      pool[cur] := pool[cur].(x := right);
    }
    assert pool[..] == ClosedPool(p, node, cur, right);
    ClosedBy(p, node, cur, right);
    CloseSplice(p, freeHead, kept, node, rest, free, right, pool[..]);
    ClosedCorners(p, freeHead, kept, node, rest, free, right, pool[..]);
  }

  /** The corners left of the cut, the new one, and the remaining ones with the first trimmed. */
  ghost function Joined(left: seq<Seg>, top: Seg, rest: seq<Seg>, right: int): seq<Seg>
    requires rest != []
  {
    left + [top] + [Seg(Max(rest[0].x, right), rest[0].y)] + rest[1..]
  }

  ghost function ClosedPool(p: seq<Cell>, node: int, next: int, right: int): seq<Cell>
    requires 0 <= node < |p| && 0 <= next < |p|
  {
    p[node := p[node].(next := next)][next := p[next].(x := Max(p[next].x, right))]
  }

  lemma ClosedBy(p: seq<Cell>, node: int, next: int, right: int)
    requires 0 <= node < |p| && 0 <= next < |p| && node != next
    ensures Closed(p, ClosedPool(p, node, next, right), node, next, right)
  {
  }

  /** Opens the skyline at the rectangle: the new node is in, the nodes it covers are free. */
  method OpenGap(pool: array<Cell>, head: int, freeHead: int, ghost active: seq<int>, ghost free: seq<int>,
                 ghost f: nat, link: int, x: int, top: int, right: int)
    returns (node: int, head': int, freeHead': int, cur: int, ghost cut: nat, ghost freed: nat, ghost free': seq<int>)
    requires Shape(pool[..], head, freeHead, active, free) && free != []
    requires f + 1 < |active| && link == (if f == 0 then NULL else active[f - 1])
    modifies pool
    ensures cut == old(CutFrom(Corners(pool[..], active), f, x))
    ensures freed == Skip(old(Corners(pool[..], active))[cut..], 0, right) && cut + freed < |active|
    ensures head' == Head(active[..cut], node) && cur == active[cut..][freed..][0]
    ensures Splicing(pool[..], freeHead', active[..cut], node, active[cut..][freed..], free')
    ensures Corners(pool[..], active[..cut]) == old(Corners(pool[..], active))[..cut]
    ensures Corners(pool[..], active[cut..][freed..]) == old(Corners(pool[..], active))[cut..][freed..]
    ensures Seg(At(pool[..], node).x, At(pool[..], node).y) == Seg(x, top)
  {
    node, head', freeHead', cur, cut := InsertNode(pool, head, freeHead, active, free, f, link, x, top);
    freeHead', cur, freed, free' :=
      FreeCovered(pool, freeHead', active[..cut], node, active[cut..], free[1..], cur, right);
  }

  /** The whole splice: the buffer holds the placed corner list `q`, and no node is lost. */
  method SpliceIn(pool: array<Cell>, head: int, freeHead: int, ghost active: seq<int>, ghost free: seq<int>,
                  ghost f: nat, link: int, x: int, top: int, right: int, ghost q: seq<Seg>)
    returns (head': int, freeHead': int, ghost active': seq<int>, ghost free': seq<int>)
    requires Shape(pool[..], head, freeHead, active, free) && free != []
    requires f + 1 < |active| && link == (if f == 0 then NULL else active[f - 1])
    requires IsPlaceAt(q, Corners(pool[..], active), f, x, right, top)
    modifies pool
    ensures Shape(pool[..], head', freeHead', active', free')
    ensures Corners(pool[..], active') == q
  {
    ghost var s := Corners(pool[..], active);
    ghost var cut: nat;
    ghost var freed: nat;
    var node, cur;
    node, head', freeHead', cur, cut, freed, free' :=
      OpenGap(pool, head, freeHead, active, free, f, link, x, top, right);
    ghost var kept, rest := active[..cut], active[cut..][freed..];
    PlaceIsJoined(s, f, cut, freed, x, right, top);
    CloseGap(pool, freeHead', kept, node, rest, free', cur, right);
    active' := kept + [node] + rest;
  }

  lemma PlaceIsJoined(s: seq<Seg>, f: nat, cut: nat, freed: nat, x: int, right: int, top: int)
    requires f + 1 < |s| && cut == CutFrom(s, f, x) && freed == Skip(s[cut..], 0, right)
    ensures PlaceAt(s, f, x, right, top) == Joined(s[..cut], Seg(x, top), s[cut..][freed..], right)
  {
    SkipTail(s, cut, 0, right);
    JoinedIsSplice(s, cut, freed, x, right, top);
  }

  lemma JoinedIsSplice(s: seq<Seg>, cut: nat, freed: nat, x: int, right: int, top: int)
    requires cut + freed < |s|
    ensures Joined(s[..cut], Seg(x, top), s[cut..][freed..], right) == Splice(s, cut, cut + freed, x, right, top)
  {
    assert s[cut..][freed..] == s[cut + freed..];
    assert s[cut + freed..][1..] == s[cut + freed + 1..];
  }

  /** Skipping inside a tail of the list is skipping in the list, shifted. */
  lemma {:induction false} SkipTail(s: seq<Seg>, cut: nat, j: nat, limit: int)
    requires cut + j < |s|
    ensures Skip(s, cut + j, limit) == cut + Skip(s[cut..], j, limit)
    decreases |s| - j
  {
    if cut + j + 1 < |s| && s[cut + j + 1].x <= limit {
      SkipTail(s, cut, j + 1, limit);
    }
  }

  class Packer {
    const width: int
    const height: int
    const numNodes: int
    const pool: array<Cell>
    var align: int
    var bestFit: bool
    var activeHead: int
    var freeHead: int
    ghost var active: seq<int>
    ghost var free: seq<int>
    ghost var placed: seq<Rect>

    ghost function Size(): Target
      reads this
    {
      Target(width, height, align, bestFit)
    }

    ghost function Skyline(): seq<Seg>
      reads this, pool
    {
      Corners(pool[..], active)
    }

    ghost predicate Valid()
      reads this, pool
    {
      && numNodes >= 1 && pool.Length == numNodes + 2
      && ValidTarget(Size())
      && Shape(pool[..], activeHead, freeHead, active, free)
      && Safe(Packing(Skyline(), placed), width, height)
    }

    /** A fresh target: one floor corner and the sentinel, every caller node free. */
    constructor (w: int, h: int, n: int)
      requires 1 <= w && 0 <= h < CEILING && 1 <= n
      ensures Valid() && fresh(pool) && width == w && height == h && numNodes == n
      ensures !bestFit && align == (w + n - 1) / n
      ensures placed == [] && Skyline() == Start(w).skyline && |free| == n
    {
      width, height, numNodes, bestFit := w, h, n, false;
      align := (w + n - 1) / n;
      activeHead, freeHead := n, 0;
      var p, nodes := FreshPool(w, n);
      pool := p;
      active, free, placed := [n, n + 1], nodes, [];
      new;
      QuotientAtLeastOne(w + n - 1, n);
      StartSafe(w, h);
    }

    /** Quantize widths so that corners stay few, or accept running out of nodes. */
    method SetupAllowOutOfMem(allow: bool)
      requires Valid()
      modifies this`align
      ensures Valid() && align == if allow then 1 else (width + numNodes - 1) / numNodes
    {
      if allow {
        align := 1;
      } else {
        QuotientAtLeastOne(width + numNodes - 1, numNodes);
        align := (width + numNodes - 1) / numNodes;
      }
    }

    method SetupHeuristic(best: bool)
      requires Valid()
      modifies this`bestFit
      ensures Valid() && bestFit == best
    {
      bestFit := best;
    }

    /**
     The best position for a rectangle: the chosen one of all tried, with its link; none only
     if no tried position leaves room.
     */
    method FindBestPos(w: int, h: int) returns (best: Best, link: int)
      requires Valid() && w >= 1 && h >= 1
      ensures best.Held? ==>
        && Chosen(Skyline(), Size(), Aligned(w, align), h, best.x)
        && best.y == Rest(Skyline(), best.x, Aligned(w, align)).minY
        && link == LinkTo(active, Skyline(), best.x)
      ensures HasRoom(Skyline(), Size(), w, h) ==> best.Held?
    {
      ghost var s := Skyline();
      var aw := Aligned(w, align);
      var t := Target(width, height, align, bestFit);
      best, link := None, NULL;
      if aw > width || h > height {
        NeverFits(s, t, w, h);
        return;
      }
      ShapeInBuffer(pool[..], activeHead, freeHead, active, free);
      best, link := SearchLeft(pool, activeHead, active, t, aw, h);
      if bestFit {
        best, link := SearchRight(pool, activeHead, active, t, aw, h, best, link);
      }
      SearchOutcome(s, t, w, h, best);
    }

    /**
     Packs one rectangle: it succeeds exactly when a node is free and some tried position has
     room, takes the chosen position, and lifts the skyline there; otherwise nothing changes.
     */
    method PackRectangle(w: int, h: int) returns (ok: bool, x: int, y: int)
      requires Valid() && w >= 1 && h >= 1
      modifies this`activeHead, this`freeHead, this`active, this`free, this`placed, pool
      ensures Valid()
      ensures ok <==> old(free != [] && HasRoom(Skyline(), Size(), w, h))
      ensures ok ==> PackedAt(old(Skyline()), Size(), w, h, x, y, Skyline())
      ensures ok ==> placed == old(placed) + [Rect(x, y, w, h)]
      ensures !ok ==> placed == old(placed) && Skyline() == old(Skyline()) && free == old(free)
    {
      ghost var s, t := Skyline(), Size();
      var best, link := FindBestPos(w, h);
      if best.Held? {
        ChosenFitsIfAnyDoes(s, t, w, h, best.x);
      }
      if best.None? || best.y + h > height || freeHead == NULL {
        HeadNull(pool[..], activeHead, freeHead, active, free);
        ok, x, y := false, 0, 0;
        return;
      }
      HeadNull(pool[..], activeHead, freeHead, active, free);
      ok, x, y := true, best.x, best.y;
      Commit(link, x, y, w, h);
    }

    /** Splices the rectangle in at the chosen position. */
    method Commit(link: int, x: int, y: int, w: int, h: int)
      requires Valid() && free != [] && w >= 1 && h >= 1
      requires Chosen(Skyline(), Size(), Aligned(w, align), h, x) && Fits(Skyline(), Size(), Aligned(w, align), h, x)
      requires y == Rest(Skyline(), x, Aligned(w, align)).minY && link == LinkTo(active, Skyline(), x)
      modifies this`activeHead, this`freeHead, this`active, this`free, this`placed, pool
      ensures Valid() && placed == old(placed) + [Rect(x, y, w, h)]
      ensures PackedAt(old(Skyline()), Size(), w, h, x, y, Skyline())
    {
      hide PlaceAt, Place, Chosen, Safe;
      ghost var f, q := Prepare(Packing(Skyline(), placed), Size(), w, h, x, y);
      activeHead, freeHead, active, free :=
        SpliceIn(pool, activeHead, freeHead, active, free, f, link, x, y + h, x + w, q);
      placed := placed + [Rect(x, y, w, h)];
    }
  }

  lemma HeadNull(p: seq<Cell>, head: int, freeHead: int, active: seq<int>, free: seq<int>)
    requires Shape(p, head, freeHead, active, free)
    ensures freeHead == NULL <==> free == []
  {
    ShapeInBuffer(p, head, freeHead, active, free);
  }

  lemma NeverFits(s: seq<Seg>, t: Target, w: int, h: int)
    requires ValidTarget(t) && Ordered(s, t.width) && Bounded(s, t.height) && w >= 1
    requires Aligned(w, t.align) > t.width || h > t.height
    ensures !HasRoom(s, t, w, h)
  {
    forall x | Tried(s, t, Aligned(w, t.align), x) ensures !Fits(s, t, Aligned(w, t.align), h, x) {
      RestIsMax(s, t.width, t.height, x, Aligned(w, t.align));
    }
  }

  /** The buffer of a fresh target: caller nodes chained in order, then the floor and the sentinel. */
  method FreshPool(w: int, n: int) returns (p: array<Cell>, ghost nodes: seq<int>)
    requires 1 <= n
    ensures fresh(p) && p.Length == n + 2
    ensures |nodes| == n && Shape(p[..], n, 0, [n, n + 1], nodes)
    ensures Corners(p[..], [n, n + 1]) == Start(w).skyline
  {
    p := new Cell[n + 2](_ => Cell(0, 0, NULL));
    var i := 0;
    while i < n - 1
      invariant 0 <= i <= n - 1
      invariant forall k :: 0 <= k < i ==> p[k].next == k + 1
    {
      p[i] := p[i].(next := i + 1);
      i := i + 1;
    }
    p[i] := p[i].(next := NULL);
    p[n] := Cell(0, 0, n + 1);
    p[n + 1] := Cell(w, CEILING, NULL);
    nodes := Upto(0, n);
    ChainLinked(p[..], 0, n);
    UptoEvery(n);
    assert Linked(p[..], [n, n + 1], NULL) by { LinkedJoin(p[..], [n], [n + 1], NULL); }
  }

  ghost function Upto(lo: nat, hi: nat): (r: seq<int>)
    requires lo <= hi
    ensures |r| == hi - lo && (forall i :: 0 <= i < |r| ==> r[i] == lo + i)
  {
    seq(hi - lo, i => lo + i)
  }

  lemma {:induction false} ChainLinked(p: seq<Cell>, lo: nat, hi: nat)
    requires lo < hi <= |p|
    requires forall k :: lo <= k < hi - 1 ==> p[k].next == k + 1
    requires p[hi - 1].next == NULL
    ensures Linked(p, Upto(lo, hi), NULL)
    decreases hi - lo
  {
    if lo + 1 < hi {
      ChainLinked(p, lo + 1, hi);
    }
    assert Upto(lo, hi)[1..] == if lo + 1 < hi then Upto(lo + 1, hi) else [];
  }

  lemma {:induction false} UptoIsEvery(n: nat)
    ensures multiset(Upto(0, n)) == Every(n)
  {
    hide Every, Upto;
    if n == 0 {
      EveryNext(0);
      assert Upto(0, 0) == [];
    } else {
      UptoIsEvery(n - 1);
      EveryNext(n - 1);
      assert Upto(0, n) == Upto(0, n - 1) + [n - 1];
    }
  }

  lemma EveryNext(n: nat)
    ensures Every(0) == multiset{} && Every(n + 1) == Every(n) + multiset{n}
  {
  }

  lemma UptoEvery(n: nat)
    ensures multiset([n, n + 1]) + multiset(Upto(0, n)) == Every(n + 2)
  {
    UptoIsEvery(n);
    assert Every(n + 2) == Every(n) + multiset{n} + multiset{n + 1};
  }
}
