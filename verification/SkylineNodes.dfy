/**
 The packer's node storage: a fixed buffer of nodes threaded into two linked lists, the
 active skyline and the free list. A pointer is an index into the buffer, null is -1.
 */
module SkylineNodes {
  import opened Numbers
  import opened SkylineProfile

  const NULL: int := -1

  datatype Cell = Cell(x: int, y: int, next: int)

  ghost function At(p: seq<Cell>, n: int): Cell {
    if 0 <= n < |p| then p[n] else Cell(0, 0, NULL)
  }

  ghost function Head(ns: seq<int>, end: int): int {
    if ns == [] then end else ns[0]
  }

  /** Each node of `ns` links to the one after it and the last one links to `end`. */
  ghost predicate Linked(p: seq<Cell>, ns: seq<int>, end: int) {
    ns == [] || (At(p, ns[0]).next == Head(ns[1..], end) && Linked(p, ns[1..], end))
  }

  /** The corners stored in a list of nodes. */
  ghost function Corners(p: seq<Cell>, ns: seq<int>): (s: seq<Seg>)
    ensures |s| == |ns|
    ensures forall i :: 0 <= i < |ns| ==> s[i] == Seg(At(p, ns[i]).x, At(p, ns[i]).y)
  {
    seq(|ns|, i requires 0 <= i < |ns| => Seg(At(p, ns[i]).x, At(p, ns[i]).y))
  }

  /** Every node of an `n`-node buffer, once. */
  ghost function Every(n: nat): (m: multiset<int>)
    ensures forall k :: m[k] == if 0 <= k < n then 1 else 0
    ensures |m| == n
  {
    if n == 0 then multiset{} else Every(n - 1) + multiset{n - 1}
  }

  /** Both lists end in null and together hold every node of the buffer exactly once. */
  ghost predicate Shape(p: seq<Cell>, head: int, freeHead: int, active: seq<int>, free: seq<int>) {
    && head == Head(active, NULL) && freeHead == Head(free, NULL)
    && Linked(p, active, NULL) && Linked(p, free, NULL)
    && multiset(active) + multiset(free) == Every(|p|)
  }

  // ---------------------------------------------------------------- apartness

  /** Two lists that together hold no node twice share none, and stay inside the buffer. */
  lemma NoneShared(a: seq<int>, b: seq<int>, others: multiset<int>, size: nat)
    requires multiset(a) + multiset(b) + others == Every(size)
    ensures forall n :: n in a ==> n !in b && 0 <= n < size
  {
    forall n | n in a ensures n !in b && 0 <= n < size {
      assert (multiset(a) + multiset(b) + others)[n] <= 1;
      assert multiset(a)[n] >= 1;
      assert n in b ==> multiset(b)[n] >= 1;
    }
  }

  lemma NoneTwice(ns: seq<int>, others: multiset<int>, size: nat)
    requires multiset(ns) + others == Every(size)
    ensures forall i, j :: 0 <= i < j < |ns| ==> ns[i] != ns[j]
  {
    forall i, j | 0 <= i < j < |ns| ensures ns[i] != ns[j] {
      assert ns == ns[..j] + ns[j..];
      NoneShared(ns[..j], ns[j..], others, size);
      assert ns[i] in ns[..j] && ns[j] in ns[j..];
    }
  }

  /** The active list and the free list share no node, repeat none, and lose none. */
  lemma ShapeMeansPartition(p: seq<Cell>, head: int, freeHead: int, active: seq<int>, free: seq<int>)
    requires Shape(p, head, freeHead, active, free)
    ensures |active| + |free| == |p|
    ensures forall i, j :: 0 <= i < j < |active| ==> active[i] != active[j]
    ensures forall i, j :: 0 <= i < j < |free| ==> free[i] != free[j]
    ensures forall n :: n in active ==> n !in free
    ensures forall n :: n in active || n in free ==> 0 <= n < |p|
  {
    assert |multiset(active) + multiset(free)| == |active| + |free|;
    NoneTwice(active, multiset(free), |p|);
    assert multiset(free) + multiset(active) + multiset{} == Every(|p|);
    NoneTwice(free, multiset(active), |p|);
    assert multiset(active) + multiset(free) + multiset{} == Every(|p|);
    NoneShared(active, free, multiset{}, |p|);
    NoneShared(free, active, multiset{}, |p|);
  }

  // ------------------------------------------------------------------- linking

  lemma {:induction false} LinkedFrame(p: seq<Cell>, q: seq<Cell>, ns: seq<int>, end: int)
    requires Linked(p, ns, end)
    requires forall n :: n in ns ==> At(p, n) == At(q, n)
    ensures Linked(q, ns, end) && Corners(q, ns) == Corners(p, ns)
  {
    if ns != [] {
      LinkedFrame(p, q, ns[1..], end);
      assert ns[0] in ns;
    }
    assert forall i :: 0 <= i < |ns| ==> ns[i] in ns;
  }

  lemma {:induction false} LinkedJoin(p: seq<Cell>, a: seq<int>, b: seq<int>, end: int)
    requires Linked(p, a, Head(b, end)) && Linked(p, b, end)
    ensures Linked(p, a + b, end)
  {
    if a == [] {
      assert a + b == b;
    } else {
      LinkedJoin(p, a[1..], b, end);
      assert (a + b)[1..] == a[1..] + b;
    }
  }

  lemma {:induction false} LinkedSplit(p: seq<Cell>, ns: seq<int>, cut: nat, end: int)
    requires Linked(p, ns, end) && cut <= |ns|
    ensures Linked(p, ns[..cut], Head(ns[cut..], end)) && Linked(p, ns[cut..], end)
  {
    if cut > 0 {
      LinkedSplit(p, ns[1..], cut - 1, end);
      assert ns[1..][..cut - 1] == ns[..cut][1..];
      assert ns[1..][cut - 1..] == ns[cut..];
    }
  }

  lemma LinkedAt(p: seq<Cell>, ns: seq<int>, i: nat, end: int)
    requires Linked(p, ns, end) && i < |ns|
    ensures At(p, ns[i]).next == if i + 1 < |ns| then ns[i + 1] else end
  {
    LinkedSplit(p, ns, i, end);
  }

  // ------------------------------------------------ the state while a rectangle is spliced in

  /** The nodes of all four parts of a splice, with repetition. */
  ghost function Nodes(kept: seq<int>, node: int, rest: seq<int>, free: seq<int>): multiset<int> {
    multiset(kept) + multiset{node} + multiset(rest) + multiset(free)
  }

  /**
   Mid-splice: `kept` leads to the new node, `rest` still ends the old list, freed nodes
   are on the free list, and no node is lost.
   */
  ghost predicate Splicing(p: seq<Cell>, freeHead: int, kept: seq<int>, node: int, rest: seq<int>, free: seq<int>) {
    && rest != [] && freeHead == Head(free, NULL)
    && Linked(p, kept, node) && Linked(p, rest, NULL) && Linked(p, free, NULL)
    && Nodes(kept, node, rest, free) == Every(|p|)
  }

  /** Membership in one part of the splice excludes the others. */
  lemma PartsApart(kept: seq<int>, node: int, rest: seq<int>, free: seq<int>, size: nat)
    requires Nodes(kept, node, rest, free) == Every(size) && rest != []
    ensures 0 <= node < size && node !in kept && node !in rest && node !in free
    ensures forall n :: n in rest ==> n !in kept && n !in free && 0 <= n < size
    ensures forall n :: n in kept ==> n !in free
    ensures rest[0] !in rest[1..]
  {
    var mk, mn, mr, mf := multiset(kept), multiset{node}, multiset(rest), multiset(free);
    assert mr + mk + (mn + mf) == Every(size);
    NoneShared(rest, kept, mn + mf, size);
    assert mr + mf + (mn + mk) == Every(size);
    NoneShared(rest, free, mn + mk, size);
    assert mk + mf + (mn + mr) == Every(size);
    NoneShared(kept, free, mn + mr, size);
    assert multiset([node]) + multiset(kept + rest + free) + multiset{} == Every(size);
    NoneShared([node], kept + rest + free, multiset{}, size);
    assert node in [node];
    assert mr + (mk + mn + mf) == Every(size);
    NoneTwice(rest, mk + mn + mf, size);
  }

  lemma TakeConserves(active: seq<int>, free: seq<int>, cut: nat)
    requires cut < |active| && free != []
    ensures Nodes(active[..cut], free[0], active[cut..], free[1..]) == multiset(active) + multiset(free)
  {
    assert active == active[..cut] + active[cut..] && free == [free[0]] + free[1..];
  }

  lemma MoveConserves(kept: seq<int>, node: int, rest: seq<int>, free: seq<int>)
    requires rest != []
    ensures Nodes(kept, node, rest[1..], [rest[0]] + free) == Nodes(kept, node, rest, free)
  {
    assert rest == [rest[0]] + rest[1..];
  }

  /** `q` is `p` with the new corner in the first free node and the kept part linked to it. */
  ghost predicate Inserted(p: seq<Cell>, q: seq<Cell>, active: seq<int>, node: int, cut: nat, top: Seg)
    requires cut <= |active|
  {
    && |q| == |p| && At(q, node).x == top.x && At(q, node).y == top.y
    && (cut > 0 ==> At(q, active[cut - 1]) == At(p, active[cut - 1]).(next := node))
    && (forall n :: n != node && (cut == 0 || n != active[cut - 1]) ==> At(q, n) == At(p, n))
  }

  lemma TakeFree(p: seq<Cell>, head: int, freeHead: int, active: seq<int>, free: seq<int>,
                 cut: nat, top: Seg, q: seq<Cell>)
    requires Shape(p, head, freeHead, active, free) && free != [] && cut < |active|
    requires Inserted(p, q, active, free[0], cut, top)
    ensures Splicing(q, At(p, free[0]).next, active[..cut], free[0], active[cut..], free[1..])
    ensures Corners(q, active[..cut]) == Corners(p, active)[..cut]
    ensures Corners(q, active[cut..]) == Corners(p, active)[cut..]
  {
    hide Nodes, Every;
    TakeConserves(active, free, cut);
    var kept, rest, fr := active[..cut], active[cut..], free[1..];
    PartsApart(kept, free[0], rest, fr, |p|);
    LinkedSplit(p, active, cut, NULL);
    assert cut > 0 ==> active[cut - 1] in kept;
    LinkedFrame(p, q, rest, NULL);
    LinkedFrame(p, q, fr, NULL);
    ShapeMeansPartition(p, head, freeHead, active, free);
    KeptRelinked(p, q, active, free[0], cut, top);
  }

  lemma KeptRelinked(p: seq<Cell>, q: seq<Cell>, active: seq<int>, node: int, cut: nat, top: Seg)
    requires Linked(p, active, NULL) && cut < |active| && node !in active
    requires forall i, j :: 0 <= i < j < |active| ==> active[i] != active[j]
    requires Inserted(p, q, active, node, cut, top)
    ensures Linked(q, active[..cut], node)
    ensures Corners(q, active[..cut]) == Corners(p, active)[..cut]
  {
    if cut > 0 {
      var front := active[..cut - 1];
      LinkedSplit(p, active, cut - 1, NULL);
      LinkedFrame(p, q, front, active[cut - 1]);
      LinkedJoin(q, front, [active[cut - 1]], node);
      assert front + [active[cut - 1]] == active[..cut];
    }
  }

  /** Moving the first remaining node to the free list. */
  lemma FreeOne(p: seq<Cell>, freeHead: int, kept: seq<int>, node: int, rest: seq<int>, free: seq<int>, q: seq<Cell>)
    requires Splicing(p, freeHead, kept, node, rest, free) && |rest| >= 2
    requires 0 <= rest[0] < |p| && q == p[rest[0] := p[rest[0]].(next := freeHead)]
    ensures Splicing(q, rest[0], kept, node, rest[1..], [rest[0]] + free)
    ensures Corners(q, kept) == Corners(p, kept) && Corners(q, rest[1..]) == Corners(p, rest)[1..]
    ensures At(q, node) == At(p, node)
  {
    hide Nodes, Every;
    PartsApart(kept, node, rest, free, |p|);
    LinkedFrame(p, q, kept, node);
    LinkedFrame(p, q, rest[1..], NULL);
    LinkedFrame(p, q, free, NULL);
    LinkedJoin(q, [rest[0]], free, NULL);
    MoveConserves(kept, node, rest, free);
  }

  /** `q` is `p` with the new node linked to the first remaining one and that one trimmed. */
  ghost predicate Closed(p: seq<Cell>, q: seq<Cell>, node: int, next: int, right: int) {
    && |q| == |p|
    && At(q, node) == At(p, node).(next := next)
    && At(q, next) == At(p, next).(x := Max(At(p, next).x, right))
    && (forall n :: n != node && n != next ==> At(q, n) == At(p, n))
  }

  /** Moving the first corner does not change the links. */
  lemma RestRelinked(p: seq<Cell>, q: seq<Cell>, rest: seq<int>, node: int, right: int)
    requires rest != [] && Linked(p, rest, NULL) && Closed(p, q, node, rest[0], right)
    requires node !in rest && rest[0] !in rest[1..]
    ensures Linked(q, rest, NULL)
  {
    hide Max;
    LinkedFrame(p, q, rest[1..], NULL);
  }

  /** Linking the new node to the first remaining one and trimming that one closes the splice. */
  lemma CloseSplice(p: seq<Cell>, freeHead: int, kept: seq<int>, node: int, rest: seq<int>, free: seq<int>,
                    right: int, q: seq<Cell>)
    requires Splicing(p, freeHead, kept, node, rest, free) && Closed(p, q, node, rest[0], right)
    ensures Shape(q, Head(kept, node), freeHead, kept + [node] + rest, free)
  {
    hide Every, Max;
    PartsApart(kept, node, rest, free, |p|);
    LinkedFrame(p, q, kept, node);
    LinkedFrame(p, q, free, NULL);
    RestRelinked(p, q, rest, node, right);
    LinkedJoin(q, [node], rest, NULL);
    LinkedJoin(q, kept, [node] + rest, NULL);
    assert kept + [node] + rest == kept + ([node] + rest);
  }

  lemma ClosedCorners(p: seq<Cell>, freeHead: int, kept: seq<int>, node: int, rest: seq<int>, free: seq<int>,
                      right: int, q: seq<Cell>)
    requires Splicing(p, freeHead, kept, node, rest, free) && Closed(p, q, node, rest[0], right)
    ensures Corners(q, kept + [node] + rest)
         == Corners(p, kept) + [Seg(At(p, node).x, At(p, node).y)]
            + [Seg(Max(At(p, rest[0]).x, right), At(p, rest[0]).y)] + Corners(p, rest)[1..]
  {
    PartsApart(kept, node, rest, free, |p|);
    LinkedFrame(p, q, kept, node);
    LinkedFrame(p, q, rest[1..], NULL);
    var a, n, c := Corners(q, kept), Corners(q, [node]), Corners(q, rest);
    CornersJoin(q, kept + [node], rest);
    CornersJoin(q, kept, [node]);
    assert n == [Seg(At(p, node).x, At(p, node).y)];
    TrimmedCorners(p, q, rest, right);
    assert a + n + ([c[0]] + c[1..]) == a + n + [c[0]] + c[1..];
  }

  lemma TrimmedCorners(p: seq<Cell>, q: seq<Cell>, rest: seq<int>, right: int)
    requires rest != [] && At(q, rest[0]) == At(p, rest[0]).(x := Max(At(p, rest[0]).x, right))
    requires Corners(q, rest[1..]) == Corners(p, rest[1..])
    ensures Corners(q, rest) == [Corners(q, rest)[0]] + Corners(q, rest)[1..]
    ensures Corners(q, rest)[0] == Seg(Max(At(p, rest[0]).x, right), At(p, rest[0]).y)
    ensures Corners(q, rest)[1..] == Corners(p, rest)[1..]
  {
    assert Corners(q, rest)[1..] == Corners(q, rest[1..]);
    assert Corners(p, rest)[1..] == Corners(p, rest[1..]);
  }

  lemma CornersJoin(p: seq<Cell>, a: seq<int>, b: seq<int>)
    ensures Corners(p, a + b) == Corners(p, a) + Corners(p, b)
  {
  }
}
