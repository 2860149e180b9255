/**
 Watched page ranges (src/gpu/vendored/src/graphics/shared_memory.cpp, include/rex/graphics/shared_memory.h).

 A range has one node in every bucket it spans; the nodes of a bucket form a doubly linked list and the nodes of
 a range a singly linked one. Freed nodes and ranges go to free lists threaded through the same storage: the C
 unions are the two-case datatypes here, pointers are positions in the storage and -1 is null.
 */
module Watches {

  import opened Arithmetic

  const NIL: int := -1

  datatype WatchNode =
    | Linked(range: nat, rangeNext: int, prev: int, next: int)
    | FreeNode(nextFree: int)

  /** A watched page span and what its callback is called with. */
  datatype Watch = Watch(data: int, first: nat, last: nat) {
    predicate Meets(pageFirst: nat, pageLast: nat) { pageFirst <= last && pageLast >= first }

    predicate Holds(page: nat) { first <= page <= last }

    /** Some watched page is among the given ones. */
    ghost predicate Shares(pageFirst: nat, pageLast: nat) {
      exists page: nat :: Holds(page) && pageFirst <= page <= pageLast
    }
  }

  lemma MeetsIffShares(w: Watch, pageFirst: nat, pageLast: nat)
    requires w.first <= w.last && pageFirst <= pageLast
    ensures w.Meets(pageFirst, pageLast) <==> w.Shares(pageFirst, pageLast)
  {
    if w.Meets(pageFirst, pageLast) {
      assert w.Holds(if w.first > pageFirst then w.first else pageFirst);
    }
  }

  datatype WatchRange =
    | Live(watch: Watch, nodeFirst: int)
    | FreeRange(nextFree: int)

  // ----- linked lists in storage -----

  function At(list: seq<nat>, j: int): int {
    if 0 <= j < |list| then list[j] else NIL
  }

  predicate Distinct(list: seq<nat>) {
    forall i, j | 0 <= i < j < |list| :: list[i] != list[j]
  }

  /** The nodes of a bucket, front to back, with links that agree both ways. */
  ghost predicate Chained(nodes: seq<WatchNode>, list: seq<nat>, head: int) {
    && head == At(list, 0) && Distinct(list)
    && forall j | 0 <= j < |list| :: LinkedAt(nodes, list, j)
  }

  ghost predicate LinkedAt(nodes: seq<WatchNode>, list: seq<nat>, j: nat)
    requires j < |list|
  {
    && list[j] < |nodes| && nodes[list[j]].Linked?
    && nodes[list[j]].prev == At(list, j - 1) && nodes[list[j]].next == At(list, j + 1)
  }

  /** The nodes agree on everything but the links of one bucket. */
  ghost predicate SameNode(a: WatchNode, b: WatchNode) {
    a.Linked? && b.Linked? && a.range == b.range && a.rangeNext == b.rangeNext
  }

  lemma ChainedElsewhere(nodes: seq<WatchNode>, nodes': seq<WatchNode>, list: seq<nat>, head: int)
    requires Chained(nodes, list, head) && |nodes'| >= |nodes|
    requires forall n | n in list :: n < |nodes| && nodes'[n].Linked? && nodes[n].Linked?
                                     && nodes'[n].prev == nodes[n].prev && nodes'[n].next == nodes[n].next
    ensures Chained(nodes', list, head)
  {
    forall j | 0 <= j < |list| ensures LinkedAt(nodes', list, j) {
      assert LinkedAt(nodes, list, j) && list[j] in list;
    }
  }

  // A node put in front of a bucket's list.

  function PushFront(nodes: seq<WatchNode>, n: nat, range: nat, head: int): (r: seq<WatchNode>)
    requires n < |nodes| && n != head && (head == NIL || (0 <= head < |nodes| && nodes[head].Linked?))
    ensures |r| == |nodes|
  {
    var placed := nodes[n := Linked(range, NIL, NIL, head)];
    if head == NIL then placed else placed[head := placed[head].(prev := n)]
  }

  lemma PushFrontChained(nodes: seq<WatchNode>, list: seq<nat>, head: int, n: nat, range: nat)
    requires Chained(nodes, list, head) && n < |nodes| && n !in list
    ensures n != head && (head == NIL || (0 <= head < |nodes| && nodes[head].Linked?))
    ensures Chained(PushFront(nodes, n, range, head), [n] + list, n)
  {
    assert head != NIL ==> LinkedAt(nodes, list, 0);
    var after, longer := PushFront(nodes, n, range, head), [n] + list;
    forall j | 0 <= j < |longer| ensures LinkedAt(after, longer, j) {
      if j > 0 {
        assert LinkedAt(nodes, list, j - 1);
        assert j > 1 ==> list[j - 1] != list[0];
      }
    }
  }

  // A node taken out of a bucket's list.

  function TakeOut(nodes: seq<WatchNode>, n: nat): (r: seq<WatchNode>)
    requires n < |nodes| && nodes[n].Linked?
    requires nodes[n].prev == NIL || (0 <= nodes[n].prev < |nodes| && nodes[nodes[n].prev].Linked?)
    requires nodes[n].next == NIL || (0 <= nodes[n].next < |nodes| && nodes[nodes[n].next].Linked?)
    ensures |r| == |nodes|
  {
    var prev, next := nodes[n].prev, nodes[n].next;
    var left := if prev == NIL then nodes else nodes[prev := nodes[prev].(next := next)];
    if next == NIL then left else left[next := left[next].(prev := prev)]
  }

  function Remove(list: seq<nat>, j: nat): (r: seq<nat>)
    requires j < |list|
    ensures |r| == |list| - 1 && forall k | 0 <= k < |r| :: r[k] == if k < j then list[k] else list[k + 1]
  {
    list[..j] + list[j + 1..]
  }

  lemma NeighboursLinked(nodes: seq<WatchNode>, list: seq<nat>, head: int, j: nat)
    requires Chained(nodes, list, head) && j < |list|
    ensures var n := list[j];
            && n < |nodes| && nodes[n].Linked?
            && nodes[n].prev == At(list, j - 1) && nodes[n].next == At(list, j + 1)
            && (nodes[n].prev == NIL || (0 <= nodes[n].prev < |nodes| && nodes[nodes[n].prev].Linked?))
            && (nodes[n].next == NIL || (0 <= nodes[n].next < |nodes| && nodes[nodes[n].next].Linked?))
  {
    assert LinkedAt(nodes, list, j);
    if j > 0 { assert LinkedAt(nodes, list, j - 1); }
    if j + 1 < |list| { assert LinkedAt(nodes, list, j + 1); }
  }

  lemma TakeOutChained(nodes: seq<WatchNode>, list: seq<nat>, head: int, j: nat)
    requires Chained(nodes, list, head) && j < |list|
    ensures list[j] < |nodes| && nodes[list[j]].Linked?
    ensures nodes[list[j]].prev == NIL || (0 <= nodes[list[j]].prev < |nodes| && nodes[nodes[list[j]].prev].Linked?)
    ensures nodes[list[j]].next == NIL || (0 <= nodes[list[j]].next < |nodes| && nodes[nodes[list[j]].next].Linked?)
    ensures Chained(TakeOut(nodes, list[j]), Remove(list, j), if j == 0 then At(list, 1) else head)
    ensures list[j] !in Remove(list, j)
  {
    NeighboursLinked(nodes, list, head, j);
    var after, shorter := TakeOut(nodes, list[j]), Remove(list, j);
    forall k | 0 <= k < |shorter| ensures LinkedAt(after, shorter, k) {
      TakenOutAt(nodes, list, head, j, k);
    }
  }

  lemma TakenOutAt(nodes: seq<WatchNode>, list: seq<nat>, head: int, j: nat, k: nat)
    requires Chained(nodes, list, head) && j < |list| && k < |list| - 1
    requires list[j] < |nodes| && nodes[list[j]].Linked?
    requires nodes[list[j]].prev == NIL || (0 <= nodes[list[j]].prev < |nodes| && nodes[nodes[list[j]].prev].Linked?)
    requires nodes[list[j]].next == NIL || (0 <= nodes[list[j]].next < |nodes| && nodes[nodes[list[j]].next].Linked?)
    ensures LinkedAt(TakeOut(nodes, list[j]), Remove(list, j), k)
  {
    assert Distinct(list);
    var i := if k < j then k else k + 1;
    assert LinkedAt(nodes, list, i) && LinkedAt(nodes, list, j);
    if j > 0 { assert LinkedAt(nodes, list, j - 1); }
    if j + 1 < |list| { assert LinkedAt(nodes, list, j + 1); }
  }

  // ----- the whole structure -----

  /** The fields of the shared memory that hold watches; `perBucket` is the number of pages in a bucket. */
  datatype Heap = Heap(nodes: seq<WatchNode>, ranges: seq<WatchRange>, buckets: seq<int>, nodeFree: int, rangeFree: int,
                       perBucket: nat)

  /** What the fields mean: the list of each bucket, the bucket of each linked node, the nodes of each range. */
  datatype Shape = Shape(lists: seq<seq<nat>>, home: seq<nat>, spot: seq<seq<nat>>, free: seq<nat>, freeRanges: seq<nat>)

  /** A range being linked or unlinked has only its nodes `lo..hi` in place. */
  datatype Part = Whole | Partial(range: nat, lo: nat, hi: nat)

  function Bucket(page: nat, perBucket: nat): nat
    requires perBucket > 0
  {
    Quotient(page, perBucket)
  }

  function Buckets(w: Watch, perBucket: nat): nat
    requires perBucket > 0 && Bucket(w.first, perBucket) <= Bucket(w.last, perBucket)
  {
    Bucket(w.last, perBucket) - Bucket(w.first, perBucket) + 1
  }

  predicate Placed(w: Watch, perBucket: nat, buckets: nat) {
    perBucket > 0 && w.first <= w.last && Bucket(w.first, perBucket) <= Bucket(w.last, perBucket) < buckets
  }

  predicate Active(part: Part, q: nat, k: nat) {
    part.Partial? && part.range == q ==> part.lo <= k < part.hi
  }

  ghost predicate ListsOk(h: Heap, s: Shape) {
    && |s.lists| == |h.buckets| && |s.home| == |h.nodes|
    && (forall b | 0 <= b < |h.buckets| :: Chained(h.nodes, s.lists[b], h.buckets[b]))
    && (forall b | 0 <= b < |h.buckets| :: AtHome(s, b))
  }

  ghost predicate AtHome(s: Shape, b: nat)
    requires b < |s.lists|
  {
    forall n | n in s.lists[b] :: n < |s.home| && s.home[n] == b
  }

  ghost predicate FreeOk(nodes: seq<WatchNode>, free: seq<nat>, head: int) {
    && head == At(free, 0) && Distinct(free)
    && forall j | 0 <= j < |free| :: free[j] < |nodes| && nodes[free[j]] == FreeNode(At(free, j + 1))
  }

  ghost predicate FreeRangesOk(ranges: seq<WatchRange>, free: seq<nat>, head: int) {
    && head == At(free, 0) && Distinct(free)
    && forall j | 0 <= j < |free| :: free[j] < |ranges| && ranges[free[j]] == FreeRange(At(free, j + 1))
  }

  predicate LiveAt(h: Heap, q: nat) {
    q < |h.ranges| && h.ranges[q].Live?
  }

  ghost predicate SpotOk(h: Heap, s: Shape, part: Part, q: nat)
    requires LiveAt(h, q) && |s.spot| == |h.ranges| && |s.lists| == |h.buckets|
  {
    var w := h.ranges[q].watch;
    && Placed(w, h.perBucket, |h.buckets|)
    && |s.spot[q]| == Buckets(w, h.perBucket)
    && (part.Partial? && part.range == q ==> part.lo <= part.hi <= |s.spot[q]|)
    && (!(part.Partial? && part.range == q && part.hi == 0) ==> h.ranges[q].nodeFirst == s.spot[q][0])
    && forall k | 0 <= k < |s.spot[q]| && Active(part, q, k) :: NodeOk(h, s, part, q, k)
  }

  /** The node of a range in its `k`-th bucket. */
  ghost predicate NodeOk(h: Heap, s: Shape, part: Part, q: nat, k: nat)
    requires LiveAt(h, q) && |s.spot| == |h.ranges| && |s.lists| == |h.buckets|
    requires Placed(h.ranges[q].watch, h.perBucket, |h.buckets|)
    requires |s.spot[q]| == Buckets(h.ranges[q].watch, h.perBucket) && k < |s.spot[q]|
  {
    var n := s.spot[q][k];
    var linked := if part.Partial? && part.range == q then part.hi else |s.spot[q]|;
    && n < |h.nodes| && h.nodes[n].Linked? && h.nodes[n].range == q
    && h.nodes[n].rangeNext == (if k + 1 < linked && k + 1 < |s.spot[q]| then s.spot[q][k + 1] else NIL)
    && n in s.lists[Bucket(h.ranges[q].watch.first, h.perBucket) + k]
  }

  /** A node in a bucket is its range's node for that bucket. */
  ghost predicate BackOk(h: Heap, s: Shape, part: Part, b: nat)
    requires |s.spot| == |h.ranges| && |s.lists| == |h.buckets| && b < |h.buckets|
  {
    forall n | n in s.lists[b] :: BackAt(h, s, part, b, n)
  }

  ghost predicate BackAt(h: Heap, s: Shape, part: Part, b: nat, n: nat)
    requires |s.spot| == |h.ranges| && |s.lists| == |h.buckets| && b < |h.buckets|
  {
    && n < |h.nodes| && h.nodes[n].Linked? && LiveAt(h, h.nodes[n].range)
    && var q := h.nodes[n].range;
       var w := h.ranges[q].watch;
       && Placed(w, h.perBucket, |h.buckets|)
       && Bucket(w.first, h.perBucket) <= b <= Bucket(w.last, h.perBucket)
       && Active(part, q, b - Bucket(w.first, h.perBucket))
       && b - Bucket(w.first, h.perBucket) < |s.spot[q]| && s.spot[q][b - Bucket(w.first, h.perBucket)] == n
  }

  /** Each live range has exactly its one node in each bucket it spans. */
  ghost predicate Inv(h: Heap, s: Shape, part: Part) {
    && h.perBucket > 0 && |s.spot| == |h.ranges| && |s.lists| == |h.buckets|
    && ListsOk(h, s)
    && FreeOk(h.nodes, s.free, h.nodeFree)
    && FreeRangesOk(h.ranges, s.freeRanges, h.rangeFree)
    && (forall q | 0 <= q < |h.ranges| && LiveAt(h, q) :: SpotOk(h, s, part, q))
    && (forall b | 0 <= b < |h.buckets| :: BackOk(h, s, part, b))
    && (part.Partial? ==> LiveAt(h, part.range))
  }

  /** The node is free, or in the list of its bucket. */
  ghost predicate Accounted(s: Shape, n: nat) {
    n in s.free || (n < |s.home| && s.home[n] < |s.lists| && n in s.lists[s.home[n]])
  }

  /** No storage is lost: every node but `loose`, and every range, is on a free list or in use. */
  ghost predicate NoneLost(h: Heap, s: Shape, loose: int) {
    && (forall n: nat | n < |h.nodes| && n != loose :: Accounted(s, n))
    && (forall q: nat | q < |h.ranges| :: LiveAt(h, q) || q in s.freeRanges)
  }

  lemma NodeTaken(h: Heap, s: Shape)
    requires NoneLost(h, s, NIL) && s.free != []
    ensures NoneLost(h, s.(free := s.free[1..]), s.free[0])
  {
    forall n: nat | n < |h.nodes| && n != s.free[0] ensures Accounted(s.(free := s.free[1..]), n) {
      assert Accounted(s, n);
    }
  }

  lemma NodeMade(h: Heap, s: Shape)
    requires NoneLost(h, s, NIL)
    ensures NoneLost(h.(nodes := h.nodes + [FreeNode(NIL)]), s.(home := s.home + [0]), |h.nodes|)
  {
    forall n: nat | n < |h.nodes| ensures Accounted(s.(home := s.home + [0]), n) {
      assert Accounted(s, n);
    }
  }

  lemma NodeLinked(h: Heap, s: Shape, h': Heap, q: nat, k: nat, n: nat, b: nat)
    requires NoneLost(h, s, n) && |h'.nodes| == |h.nodes| && |h'.ranges| == |h.ranges|
    requires forall r: nat | r < |h.ranges| :: LiveAt(h', r) == LiveAt(h, r)
    requires |s.lists| == |h.buckets| && b < |s.lists| && n < |s.home| && q < |s.spot| && k < |s.spot[q]| && Loose(h, s, n)
    ensures NoneLost(h', LinkShape(s, q, k, n, b), NIL)
  {
    var s' := LinkShape(s, q, k, n, b);
    forall m: nat | m < |h.nodes| ensures Accounted(s', m) {
      if m == n {
        assert s'.lists[b][0] == n;
      } else {
        assert Accounted(s, m);
        assert s.home[..] == s.home;
        assert m !in s.free ==> s'.home[m] == s.home[m] && (s'.lists[s.home[m]] == s.lists[s.home[m]] || s'.lists[s.home[m]] == [n] + s.lists[b]);
      }
    }
  }

  lemma NodeFreed(h: Heap, s: Shape, h': Heap, b: nat, j: nat)
    requires NoneLost(h, s, NIL) && |h'.nodes| == |h.nodes| && h'.ranges == h.ranges
    requires b < |s.lists| && j < |s.lists[b]|
    ensures NoneLost(h', UnlinkShape(s, b, j), NIL)
  {
    var s' := UnlinkShape(s, b, j);
    forall m: nat | m < |h.nodes| ensures Accounted(s', m) {
      assert Accounted(s, m);
      if m == s.lists[b][j] {
        assert s'.free[0] == m;
      } else if m in s.free {
        assert m in s'.free;
      } else if s.home[m] == b {
        var i :| 0 <= i < |s.lists[b]| && s.lists[b][i] == m;
        assert s'.lists[b][if i < j then i else i - 1] == m;
      }
    }
  }

  lemma RangeTaken(h: Heap, s: Shape, h': Heap, s': Shape, q: nat)
    requires NoneLost(h, s, NIL) && h'.nodes == h.nodes && s'.free == s.free && s'.lists == s.lists && s'.home == s.home
    requires LiveAt(h', q) && |h'.ranges| >= |h.ranges| && forall r: nat | r < |h'.ranges| && r != q :: r < |h.ranges| && h'.ranges[r] == h.ranges[r]
    requires s'.freeRanges == s.freeRanges || (s.freeRanges != [] && q == s.freeRanges[0] && s'.freeRanges == s.freeRanges[1..])
    ensures NoneLost(h', s', NIL)
  {
    forall n: nat | n < |h'.nodes| ensures Accounted(s', n) {
      assert Accounted(s, n);
    }
    forall r: nat | r < |h'.ranges| && !LiveAt(h', r) ensures r in s'.freeRanges {
      assert !LiveAt(h, r) && r in s.freeRanges;
    }
  }

  lemma RangeFreed(h: Heap, s: Shape, h': Heap, s': Shape, q: nat)
    requires NoneLost(h, s, NIL) && h'.nodes == h.nodes && |h'.ranges| == |h.ranges|
    requires forall r: nat | r < |h.ranges| && r != q :: h'.ranges[r] == h.ranges[r]
    requires s'.free == s.free && s'.lists == s.lists && s'.home == s.home && s'.freeRanges == [q] + s.freeRanges
    ensures NoneLost(h', s', NIL)
  {
    assert s'.freeRanges[0] == q && forall r | r in s.freeRanges :: r in s'.freeRanges;
    forall n: nat | n < |h'.nodes| ensures Accounted(s', n) {
      assert Accounted(s, n);
    }
    forall r: nat | r < |h'.ranges| && !LiveAt(h', r) ensures r in s'.freeRanges {
      if r != q { assert !LiveAt(h, r); }
    }
  }

  // ----- linking one node -----

  /** A node that is in no list and not free to be taken. */
  ghost predicate Loose(h: Heap, s: Shape, n: nat)
    requires |s.lists| == |h.buckets|
  {
    n < |h.nodes| && n !in s.free && (forall b | 0 <= b < |s.lists| :: n !in s.lists[b])
  }

  /** What linking node `n` of range `q` in front of a bucket does to every node. */
  ghost predicate LinkedIn(nodes: seq<WatchNode>, nodes': seq<WatchNode>, q: nat, n: nat, head: int, previous: int) {
    && |nodes'| == |nodes| && n < |nodes| && n != previous
    && nodes'[n] == Linked(q, NIL, NIL, head)
    && forall m | 0 <= m < |nodes| && m != n :: LinkedInAt(nodes[m], nodes'[m], m, n, head, previous)
  }

  ghost predicate LinkedInAt(a: WatchNode, b: WatchNode, m: nat, n: nat, head: int, previous: int) {
    if a.FreeNode? then b == a
    else b == Linked(a.range, if m == previous then n else a.rangeNext, if m == head then n else a.prev, a.next)
  }

  function LinkNodes(nodes: seq<WatchNode>, q: nat, n: nat, head: int, previous: int): (r: seq<WatchNode>)
    requires n < |nodes| && n != head && n != previous
    requires head == NIL || (0 <= head < |nodes| && nodes[head].Linked?)
    requires previous == NIL || (0 <= previous < |nodes| && nodes[previous].Linked?)
    ensures LinkedIn(nodes, r, q, n, head, previous)
  {
    var placed := PushFront(nodes, n, q, head);
    if previous == NIL then placed else placed[previous := placed[previous].(rangeNext := n)]
  }

  function LinkHeap(h: Heap, q: nat, k: nat, n: nat, b: nat, previous: int): Heap
    requires LiveAt(h, q) && b < |h.buckets| && n < |h.nodes| && n != h.buckets[b] && n != previous
    requires h.buckets[b] == NIL || (0 <= h.buckets[b] < |h.nodes| && h.nodes[h.buckets[b]].Linked?)
    requires previous == NIL || (0 <= previous < |h.nodes| && h.nodes[previous].Linked?)
  {
    h.(nodes := LinkNodes(h.nodes, q, n, h.buckets[b], previous),
       ranges := if previous == NIL then h.ranges[q := h.ranges[q].(nodeFirst := n)] else h.ranges,
       buckets := h.buckets[b := n])
  }

  ghost function LinkShape(s: Shape, q: nat, k: nat, n: nat, b: nat): Shape
    requires b < |s.lists| && n < |s.home| && q < |s.spot| && k < |s.spot[q]|
  {
    var longer: seq<nat> := [n] + s.lists[b];
    var row: seq<nat> := s.spot[q][k := n];
    s.(lists := s.lists[b := longer], home := s.home[n := b], spot := s.spot[q := row])
  }

  lemma LinkKeepsLists(h: Heap, s: Shape, q: nat, k: nat, n: nat, b: nat, previous: int)
    requires ListsOk(h, s) && Loose(h, s, n) && LiveAt(h, q) && |s.spot| == |h.ranges| && k < |s.spot[q]|
    requires b < |h.buckets| && n != previous && (previous == NIL || (0 <= previous < |h.nodes| && h.nodes[previous].Linked?))
    ensures n != h.buckets[b] && (h.buckets[b] == NIL || (0 <= h.buckets[b] < |h.nodes| && h.nodes[h.buckets[b]].Linked?))
    ensures ListsOk(LinkHeap(h, q, k, n, b, previous), LinkShape(s, q, k, n, b))
  {
    var head := h.buckets[b];
    PushFrontChained(h.nodes, s.lists[b], head, n, q);
    var h', s' := LinkHeap(h, q, k, n, b, previous), LinkShape(s, q, k, n, b);
    var placed := PushFront(h.nodes, n, q, head);
    forall b2 | 0 <= b2 < |h.buckets| ensures Chained(h'.nodes, s'.lists[b2], h'.buckets[b2]) {
      if b2 == b {
        LinkedInNoPrevious(h.nodes, q, n, head);
        MembersLinked(h.nodes, s.lists[b], head);
        forall m | m in [n] + s.lists[b]
          ensures m < |placed| && placed[m].Linked? && h'.nodes[m].Linked?
                  && h'.nodes[m].prev == placed[m].prev && h'.nodes[m].next == placed[m].next
        {
          if m != n {
            assert LinkedInAt(h.nodes[m], placed[m], m, n, head, NIL);
            assert LinkedInAt(h.nodes[m], h'.nodes[m], m, n, head, previous);
          }
        }
        ChainedElsewhere(placed, h'.nodes, [n] + s.lists[b], n);
      } else {
        OtherBucket(h, s, b, b2);
        ChainedElsewhere(h.nodes, h'.nodes, s.lists[b2], h.buckets[b2]);
      }
    }
    forall b2 | 0 <= b2 < |h.buckets| ensures AtHome(s', b2) {
      assert AtHome(s, b2);
    }
  }

  lemma LinkedInNoPrevious(nodes: seq<WatchNode>, q: nat, n: nat, head: int)
    requires n < |nodes| && n != head && (head == NIL || (0 <= head < |nodes| && nodes[head].Linked?))
    ensures LinkedIn(nodes, PushFront(nodes, n, q, head), q, n, head, NIL)
  {}

  lemma MembersLinked(nodes: seq<WatchNode>, list: seq<nat>, head: int)
    requires Chained(nodes, list, head)
    ensures forall m | m in list :: m < |nodes| && nodes[m].Linked?
  {
    forall m | m in list ensures m < |nodes| && nodes[m].Linked? {
      var j :| 0 <= j < |list| && list[j] == m;
      assert LinkedAt(nodes, list, j);
    }
  }

  lemma OtherBucket(h: Heap, s: Shape, b: nat, b2: nat)
    requires ListsOk(h, s) && b < |h.buckets| && b2 < |h.buckets| && b != b2
    ensures h.buckets[b] == NIL || h.buckets[b] !in s.lists[b2]
    ensures forall m | m in s.lists[b2] :: m < |h.nodes| && h.nodes[m].Linked? && m !in s.lists[b]
  {
    assert AtHome(s, b) && AtHome(s, b2) && Chained(h.nodes, s.lists[b], h.buckets[b]);
    MembersLinked(h.nodes, s.lists[b2], h.buckets[b2]);
  }

  lemma LinkKeepsFree(h: Heap, s: Shape, q: nat, n: nat, b: nat, previous: int)
    requires ListsOk(h, s) && FreeOk(h.nodes, s.free, h.nodeFree) && Loose(h, s, n) && b < |h.buckets|
    requires n != h.buckets[b] && n != previous
    requires h.buckets[b] == NIL || (0 <= h.buckets[b] < |h.nodes| && h.nodes[h.buckets[b]].Linked?)
    requires previous == NIL || (0 <= previous < |h.nodes| && h.nodes[previous].Linked?)
    ensures FreeOk(LinkNodes(h.nodes, q, n, h.buckets[b], previous), s.free, h.nodeFree)
  {
    var nodes' := LinkNodes(h.nodes, q, n, h.buckets[b], previous);
    forall j | 0 <= j < |s.free|
      ensures s.free[j] < |nodes'| && nodes'[s.free[j]] == FreeNode(At(s.free, j + 1))
    {
      assert s.free[j] in s.free;
      assert LinkedInAt(h.nodes[s.free[j]], nodes'[s.free[j]], s.free[j], n, h.buckets[b], previous);
    }
  }

  /** Node `n` is about to become the `k`-th of range `q`, in bucket `b`. */
  ghost predicate Linkable(h: Heap, s: Shape, q: nat, k: nat, n: nat, b: nat, previous: int) {
    && |s.spot| == |h.ranges| && |s.lists| == |h.buckets| && |s.home| == |h.nodes| && h.perBucket > 0 && LiveAt(h, q)
    && Inv(h, s, Partial(q, 0, k)) && Loose(h, s, n) && k < |s.spot[q]|
    && b == Bucket(h.ranges[q].watch.first, h.perBucket) + k && b < |h.buckets|
    && previous == (if k == 0 then NIL else s.spot[q][k - 1])
    && n != h.buckets[b] && n != previous
    && (h.buckets[b] == NIL || (0 <= h.buckets[b] < |h.nodes| && h.nodes[h.buckets[b]].Linked?))
    && (previous == NIL || (0 <= previous < |h.nodes| && h.nodes[previous].Linked?))
  }

  /** A linked node other than the new one, in bucket `home`, as the linking leaves it. */
  lemma LinkedNodeStays(h: Heap, s: Shape, q: nat, k: nat, n: nat, b: nat, previous: int, m: nat, home: nat)
    requires Linkable(h, s, q, k, n, b, previous)
    requires m < |h.nodes| && h.nodes[m].Linked? && home < |s.lists| && m in s.lists[home]
    ensures var h', s' := LinkHeap(h, q, k, n, b, previous), LinkShape(s, q, k, n, b);
            && m != n && |h'.nodes| == |h.nodes| && h'.nodes[m].Linked? && h'.nodes[m].range == h.nodes[m].range
            && h'.nodes[m].rangeNext == (if m == previous then n else h.nodes[m].rangeNext)
            && m in s'.lists[home]
  {
    hide Inv, LinkNodes;
    var h' := LinkHeap(h, q, k, n, b, previous);
    assert LinkedInAt(h.nodes[m], h'.nodes[m], m, n, h.buckets[b], previous);
  }

  lemma LinkKeepsRanges(h: Heap, s: Shape, q: nat, k: nat, n: nat, b: nat, previous: int, q2: nat)
    requires Linkable(h, s, q, k, n, b, previous) && LiveAt(h, q2)
    ensures var h', s' := LinkHeap(h, q, k, n, b, previous), LinkShape(s, q, k, n, b);
            && LiveAt(h', q2) && h'.ranges[q2].watch == h.ranges[q2].watch && |h'.ranges| == |h.ranges|
            && (q2 != q || k > 0 ==> h'.ranges[q2] == h.ranges[q2])
            && (q2 == q && k == 0 ==> h'.ranges[q2].nodeFirst == n)
            && |s'.spot| == |s.spot| && |s'.spot[q2]| == |s.spot[q2]|
            && (forall j | 0 <= j < |s.spot[q2]| :: s'.spot[q2][j] == if q2 == q && j == k then n else s.spot[q2][j])
  {
    hide Inv, LinkNodes;
  }

  /** The nodes of one range sit in different buckets, so they differ. */
  lemma NodesDiffer(h: Heap, s: Shape, part: Part, q: nat, i: nat, j: nat)
    requires ListsOk(h, s) && |s.spot| == |h.ranges| && LiveAt(h, q) && SpotOk(h, s, part, q)
    requires i < j < |s.spot[q]| && NodeOk(h, s, part, q, i) && NodeOk(h, s, part, q, j)
    ensures s.spot[q][i] != s.spot[q][j]
  {
    var first := Bucket(h.ranges[q].watch.first, h.perBucket);
    hide Chained, Bucket;
    assert AtHome(s, first + i) && AtHome(s, first + j);
  }

  lemma PreviousIs(h: Heap, s: Shape, q: nat, k: nat, q2: nat, i: nat)
    requires ListsOk(h, s) && |s.spot| == |h.ranges| && LiveAt(h, q) && LiveAt(h, q2)
    requires SpotOk(h, s, Partial(q, 0, k), q2) && SpotOk(h, s, Partial(q, 0, k), q)
    requires 0 < k <= |s.spot[q]| && i < |s.spot[q2]| && Active(Partial(q, 0, k), q2, i)
    ensures s.spot[q2][i] == s.spot[q][k - 1] <==> q2 == q && i == k - 1
  {
    var part := Partial(q, 0, k);
    assert NodeOk(h, s, part, q, k - 1) && NodeOk(h, s, part, q2, i);
    if q2 == q && i < k - 1 {
      NodesDiffer(h, s, part, q, i, k - 1);
    }
  }

  lemma LinkKeepsNode(h: Heap, s: Shape, q: nat, k: nat, n: nat, b: nat, previous: int, q2: nat, i: nat)
    requires Linkable(h, s, q, k, n, b, previous)
    requires LiveAt(h, q2) && i < |s.spot[q2]| && Active(Partial(q, 0, k), q2, i)
    requires SpotOk(h, s, Partial(q, 0, k), q2) && SpotOk(h, s, Partial(q, 0, k), q) && ListsOk(h, s)
    ensures var h', s' := LinkHeap(h, q, k, n, b, previous), LinkShape(s, q, k, n, b);
            && |s'.spot| == |h'.ranges| && |s'.lists| == |h'.buckets| && LiveAt(h', q2)
            && Placed(h'.ranges[q2].watch, h'.perBucket, |h'.buckets|)
            && |s'.spot[q2]| == Buckets(h'.ranges[q2].watch, h'.perBucket)
            && NodeOk(h', s', Partial(q, 0, k + 1), q2, i)
  {
    assert NodeOk(h, s, Partial(q, 0, k), q2, i);
    if k > 0 {
      PreviousIs(h, s, q, k, q2, i);
    }
    LinkMovesNode(h, s, q, k, n, b, previous, q2, i);
  }

  lemma LinkMovesNode(h: Heap, s: Shape, q: nat, k: nat, n: nat, b: nat, previous: int, q2: nat, i: nat)
    requires Linkable(h, s, q, k, n, b, previous) && LiveAt(h, q2) && i < |s.spot[q2]|
    requires Placed(h.ranges[q2].watch, h.perBucket, |h.buckets|)
    requires |s.spot[q2]| == Buckets(h.ranges[q2].watch, h.perBucket) && NodeOk(h, s, Partial(q, 0, k), q2, i)
    requires q2 == q ==> i < k
    requires previous == s.spot[q2][i] <==> q2 == q && i == k - 1
    ensures var h', s' := LinkHeap(h, q, k, n, b, previous), LinkShape(s, q, k, n, b);
            && |s'.spot| == |h'.ranges| && |s'.lists| == |h'.buckets| && LiveAt(h', q2)
            && Placed(h'.ranges[q2].watch, h'.perBucket, |h'.buckets|)
            && |s'.spot[q2]| == Buckets(h'.ranges[q2].watch, h'.perBucket)
            && NodeOk(h', s', Partial(q, 0, k + 1), q2, i)
  {
    hide Inv, ListsOk, SpotOk, Bucket, Loose, LinkNodes, Distinct;
    LinkedNodeStays(h, s, q, k, n, b, previous, s.spot[q2][i], Bucket(h.ranges[q2].watch.first, h.perBucket) + i);
    LinkKeepsRanges(h, s, q, k, n, b, previous, q2);
  }

  /** The ranges' side of linking: the range being built gains its `k`-th node, the others keep theirs. */
  lemma LinkKeepsSpot(h: Heap, s: Shape, q: nat, k: nat, n: nat, b: nat, previous: int, q2: nat)
    requires Linkable(h, s, q, k, n, b, previous) && LiveAt(h, q2)
    ensures SpotOk(LinkHeap(h, q, k, n, b, previous), LinkShape(s, q, k, n, b), Partial(q, 0, k + 1), q2)
  {
    var h', s' := LinkHeap(h, q, k, n, b, previous), LinkShape(s, q, k, n, b);
    var part' := Partial(q, 0, k + 1);
    assert SpotOk(h, s, Partial(q, 0, k), q2) && SpotOk(h, s, Partial(q, 0, k), q);
    LinkKeepsRanges(h, s, q, k, n, b, previous, q2);
    hide ListsOk, FreeOk, FreeRangesOk, BackOk;
    forall i | 0 <= i < |s'.spot[q2]| && Active(part', q2, i)
      ensures NodeOk(h', s', part', q2, i)
    {
      if q2 != q || i != k {
        LinkKeepsNode(h, s, q, k, n, b, previous, q2, i);
      }
    }
  }

  lemma LinkKeepsBack(h: Heap, s: Shape, q: nat, k: nat, n: nat, b: nat, previous: int, b2: nat)
    requires Linkable(h, s, q, k, n, b, previous) && b2 < |h.buckets|
    ensures BackOk(LinkHeap(h, q, k, n, b, previous), LinkShape(s, q, k, n, b), Partial(q, 0, k + 1), b2)
  {
    var h', s' := LinkHeap(h, q, k, n, b, previous), LinkShape(s, q, k, n, b);
    assert SpotOk(h, s, Partial(q, 0, k), q) && BackOk(h, s, Partial(q, 0, k), b2);
    forall m | m in s'.lists[b2] ensures BackAt(h', s', Partial(q, 0, k + 1), b2, m) {
      if m == n {
        NewNodeBack(h, s, q, k, n, b, previous, b2);
      } else {
        OldNodeBack(h, s, q, k, n, b, previous, b2, m);
      }
    }
  }

  lemma NewNodeBack(h: Heap, s: Shape, q: nat, k: nat, n: nat, b: nat, previous: int, b2: nat)
    requires Linkable(h, s, q, k, n, b, previous) && b2 < |h.buckets| && SpotOk(h, s, Partial(q, 0, k), q)
    requires n in LinkShape(s, q, k, n, b).lists[b2]
    ensures BackAt(LinkHeap(h, q, k, n, b, previous), LinkShape(s, q, k, n, b), Partial(q, 0, k + 1), b2, n)
  {
    hide Inv, NodeOk, Bucket;
    assert b2 == b;
    LinkKeepsRanges(h, s, q, k, n, b, previous, q);
    hide LinkNodes;
  }

  lemma OldNodeBack(h: Heap, s: Shape, q: nat, k: nat, n: nat, b: nat, previous: int, b2: nat, m: nat)
    requires Linkable(h, s, q, k, n, b, previous) && b2 < |h.buckets| && m != n
    requires m in LinkShape(s, q, k, n, b).lists[b2] && BackOk(h, s, Partial(q, 0, k), b2)
    ensures BackAt(LinkHeap(h, q, k, n, b, previous), LinkShape(s, q, k, n, b), Partial(q, 0, k + 1), b2, m)
  {
    hide Inv, LinkNodes, Bucket;
    assert m in s.lists[b2];
    assert BackAt(h, s, Partial(q, 0, k), b2, m);
    LinkedNodeStays(h, s, q, k, n, b, previous, m, b2);
    LinkKeepsRanges(h, s, q, k, n, b, previous, h.nodes[m].range);
  }

  lemma LinkedNodeKept(h: Heap, s: Shape, q: nat, k: nat, n: nat, b: nat, previous: int)
    requires Linkable(h, s, q, k, n, b, previous) && NoneLost(h, s, n)
    ensures NoneLost(LinkHeap(h, q, k, n, b, previous), LinkShape(s, q, k, n, b), NIL)
  {
    hide Bucket, NoneLost;
    NodeLinked(h, s, LinkHeap(h, q, k, n, b, previous), q, k, n, b);
  }

  /** Linking the next node keeps the whole structure. */
  lemma LinkKeeps(h: Heap, s: Shape, q: nat, k: nat, n: nat, b: nat, previous: int)
    requires Linkable(h, s, q, k, n, b, previous)
    ensures Inv(LinkHeap(h, q, k, n, b, previous), LinkShape(s, q, k, n, b), Partial(q, 0, k + 1))
  {
    var h', s' := LinkHeap(h, q, k, n, b, previous), LinkShape(s, q, k, n, b);
    LinkKeepsLists(h, s, q, k, n, b, previous);
    LinkKeepsFree(h, s, q, n, b, previous);
    LinkKeepsFreeRanges(h, q, n, s.freeRanges, previous);
    hide ListsOk, FreeOk, FreeRangesOk, SpotOk, BackOk, Loose, LinkNodes;
    var part' := Partial(q, 0, k + 1);
    forall q2 | 0 <= q2 < |h'.ranges| && LiveAt(h', q2) ensures SpotOk(h', s', part', q2) {
      assert LiveAt(h, q2);
      LinkKeepsSpot(h, s, q, k, n, b, previous, q2);
    }
    forall b2 | 0 <= b2 < |h'.buckets| ensures BackOk(h', s', part', b2) {
      LinkKeepsBack(h, s, q, k, n, b, previous, b2);
    }
  }

  lemma LinkKeepsFreeRanges(h: Heap, q: nat, n: int, free: seq<nat>, previous: int)
    requires FreeRangesOk(h.ranges, free, h.rangeFree) && LiveAt(h, q)
    ensures FreeRangesOk(h.ranges[q := h.ranges[q].(nodeFirst := n)], free, h.rangeFree)
  {}

  // ----- unlinking one node -----

  /** Position `j` of bucket `b` holds the first node that range `q` still has. */
  ghost predicate Unlinkable(h: Heap, s: Shape, q: nat, k: nat, b: nat, j: nat) {
    && |s.spot| == |h.ranges| && |s.lists| == |h.buckets| && |s.home| == |h.nodes| && h.perBucket > 0 && LiveAt(h, q)
    && k < |s.spot[q]| && Inv(h, s, Partial(q, k, |s.spot[q]|))
    && b == Bucket(h.ranges[q].watch.first, h.perBucket) + k && b < |h.buckets|
    && j < |s.lists[b]| && s.lists[b][j] == s.spot[q][k] && Removable(h.nodes, s.lists[b][j])
  }

  predicate Removable(nodes: seq<WatchNode>, n: nat) {
    && n < |nodes| && nodes[n].Linked?
    && (nodes[n].prev == NIL || (0 <= nodes[n].prev < |nodes| && nodes[nodes[n].prev].Linked?))
    && (nodes[n].next == NIL || (0 <= nodes[n].next < |nodes| && nodes[nodes[n].next].Linked?))
  }

  function UnlinkHeap(h: Heap, n: nat, b: nat): Heap
    requires Removable(h.nodes, n) && b < |h.buckets|
  {
    h.(nodes := TakeOut(h.nodes, n)[n := FreeNode(h.nodeFree)], nodeFree := n,
       buckets := if h.nodes[n].prev == NIL then h.buckets[b := h.nodes[n].next] else h.buckets)
  }

  ghost function UnlinkShape(s: Shape, b: nat, j: nat): Shape
    requires b < |s.lists| && j < |s.lists[b]|
  {
    var freed: seq<nat> := [s.lists[b][j]] + s.free;
    s.(lists := s.lists[b := Remove(s.lists[b], j)], free := freed)
  }

  lemma TakeOutOthers(nodes: seq<WatchNode>, n: nat, m: nat)
    requires Removable(nodes, n) && m < |nodes|
    ensures nodes[m].FreeNode? ==> TakeOut(nodes, n)[m] == nodes[m]
    ensures nodes[m].Linked? ==> var t := TakeOut(nodes, n)[m];
              t.Linked? && t.range == nodes[m].range && t.rangeNext == nodes[m].rangeNext
              && (m != nodes[n].next ==> t.prev == nodes[m].prev) && (m != nodes[n].prev ==> t.next == nodes[m].next)
  {}

  lemma UnlinkKeepsLists(h: Heap, s: Shape, b: nat, j: nat)
    requires ListsOk(h, s) && b < |h.buckets| && j < |s.lists[b]| && Removable(h.nodes, s.lists[b][j])
    ensures ListsOk(UnlinkHeap(h, s.lists[b][j], b), UnlinkShape(s, b, j))
  {
    var n := s.lists[b][j];
    var h', s' := UnlinkHeap(h, n, b), UnlinkShape(s, b, j);
    var taken := TakeOut(h.nodes, n);
    TakeOutChained(h.nodes, s.lists[b], h.buckets[b], j);
    NeighboursLinked(h.nodes, s.lists[b], h.buckets[b], j);
    forall b2 | 0 <= b2 < |h.buckets| ensures Chained(h'.nodes, s'.lists[b2], h'.buckets[b2]) {
      if b2 == b {
        MembersLinked(taken, s'.lists[b], if j == 0 then At(s.lists[b], 1) else h.buckets[b]);
        ChainedElsewhere(taken, h'.nodes, s'.lists[b], if j == 0 then At(s.lists[b], 1) else h.buckets[b]);
      } else {
        UnlinkOtherBucket(h, s, b, j, b2);
      }
    }
    forall b2 | 0 <= b2 < |h.buckets| ensures AtHome(s', b2) {
      assert AtHome(s, b2);
    }
  }

  lemma UnlinkOtherBucket(h: Heap, s: Shape, b: nat, j: nat, b2: nat)
    requires ListsOk(h, s) && b < |h.buckets| && j < |s.lists[b]| && b2 < |h.buckets| && b2 != b
    requires Removable(h.nodes, s.lists[b][j])
    ensures Chained(UnlinkHeap(h, s.lists[b][j], b).nodes, s.lists[b2], h.buckets[b2])
  {
    var n := s.lists[b][j];
    NeighboursLinked(h.nodes, s.lists[b], h.buckets[b], j);
    OtherBucket(h, s, b, b2);
    forall m | m in s.lists[b2]
      ensures var t := UnlinkHeap(h, n, b).nodes[m]; t.Linked? && t.prev == h.nodes[m].prev && t.next == h.nodes[m].next
    {
      assert m !in s.lists[b];
      TakeOutOthers(h.nodes, n, m);
    }
    ChainedElsewhere(h.nodes, UnlinkHeap(h, n, b).nodes, s.lists[b2], h.buckets[b2]);
  }

  lemma UnlinkKeepsFree(h: Heap, n: nat, b: nat, free: seq<nat>)
    requires Removable(h.nodes, n) && b < |h.buckets| && FreeOk(h.nodes, free, h.nodeFree)
    ensures FreeOk(UnlinkHeap(h, n, b).nodes, [n] + free, n)
  {
    var nodes', freed: seq<nat> := UnlinkHeap(h, n, b).nodes, [n] + free;
    forall i | 0 <= i < |freed| ensures freed[i] < |nodes'| && nodes'[freed[i]] == FreeNode(At(freed, i + 1)) {
      if i > 0 {
        TakeOutOthers(h.nodes, n, freed[i]);
      }
    }
  }

  lemma UnlinkedNodeStays(h: Heap, s: Shape, q: nat, k: nat, b: nat, j: nat, m: nat, home: nat)
    requires Unlinkable(h, s, q, k, b, j)
    requires m < |h.nodes| && h.nodes[m].Linked? && m != s.spot[q][k] && home < |s.lists| && m in s.lists[home]
    ensures var h', s' := UnlinkHeap(h, s.spot[q][k], b), UnlinkShape(s, b, j);
            && |h'.nodes| == |h.nodes| && h'.nodes[m].Linked? && h'.nodes[m].range == h.nodes[m].range
            && h'.nodes[m].rangeNext == h.nodes[m].rangeNext && m in s'.lists[home]
  {
    hide Inv;
    TakeOutOthers(h.nodes, s.spot[q][k], m);
    if home == b {
      var i :| 0 <= i < |s.lists[b]| && s.lists[b][i] == m;
      assert Remove(s.lists[b], j)[if i < j then i else i - 1] == m;
    }
  }

  lemma UnlinkKeepsNode(h: Heap, s: Shape, q: nat, k: nat, b: nat, j: nat, q2: nat, i: nat)
    requires Unlinkable(h, s, q, k, b, j) && LiveAt(h, q2) && i < |s.spot[q2]|
    requires Placed(h.ranges[q2].watch, h.perBucket, |h.buckets|)
    requires |s.spot[q2]| == Buckets(h.ranges[q2].watch, h.perBucket)
    requires NodeOk(h, s, Partial(q, k, |s.spot[q]|), q2, i) && s.spot[q2][i] != s.spot[q][k]
    ensures var h', s' := UnlinkHeap(h, s.spot[q][k], b), UnlinkShape(s, b, j);
            && |s'.spot| == |h'.ranges| && |s'.lists| == |h'.buckets|
            && NodeOk(h', s', Partial(q, k + 1, |s.spot[q]|), q2, i)
  {
    hide Inv, Bucket, Removable, TakeOut;
    UnlinkedNodeStays(h, s, q, k, b, j, s.spot[q2][i], Bucket(h.ranges[q2].watch.first, h.perBucket) + i);
  }

  lemma UnlinkKeepsSpot(h: Heap, s: Shape, q: nat, k: nat, b: nat, j: nat, q2: nat)
    requires Unlinkable(h, s, q, k, b, j) && LiveAt(h, q2)
    ensures SpotOk(UnlinkHeap(h, s.spot[q][k], b), UnlinkShape(s, b, j), Partial(q, k + 1, |s.spot[q]|), q2)
  {
    var part, part' := Partial(q, k, |s.spot[q]|), Partial(q, k + 1, |s.spot[q]|);
    var h', s' := UnlinkHeap(h, s.spot[q][k], b), UnlinkShape(s, b, j);
    assert SpotOk(h, s, part, q2) && SpotOk(h, s, part, q) && NodeOk(h, s, part, q, k);
    forall i | 0 <= i < |s'.spot[q2]| && Active(part', q2, i) ensures NodeOk(h', s', part', q2, i) {
      assert NodeOk(h, s, part, q2, i);
      if q2 == q {
        NodesDiffer(h, s, part, q, k, i);
      }
      UnlinkKeepsNode(h, s, q, k, b, j, q2, i);
    }
  }

  lemma UnlinkKeepsBack(h: Heap, s: Shape, q: nat, k: nat, b: nat, j: nat, b2: nat)
    requires Unlinkable(h, s, q, k, b, j) && b2 < |h.buckets|
    ensures BackOk(UnlinkHeap(h, s.spot[q][k], b), UnlinkShape(s, b, j), Partial(q, k + 1, |s.spot[q]|), b2)
  {
    var part, part' := Partial(q, k, |s.spot[q]|), Partial(q, k + 1, |s.spot[q]|);
    var h', s' := UnlinkHeap(h, s.spot[q][k], b), UnlinkShape(s, b, j);
    assert ListsOk(h, s) && BackOk(h, s, part, b2) && AtHome(s, b) && AtHome(s, b2);
    assert Chained(h.nodes, s.lists[b], h.buckets[b]);
    hide Inv, ListsOk;
    forall m | m in s'.lists[b2] ensures BackAt(h', s', part', b2, m) {
      assert m in s.lists[b2] && m != s.spot[q][k];
      assert BackAt(h, s, part, b2, m);
      UnlinkedNodeStays(h, s, q, k, b, j, m, b2);
    }
  }

  /** Unlinking the first remaining node of a range keeps the rest of the structure. */
  lemma UnlinkKeeps(h: Heap, s: Shape, q: nat, k: nat, b: nat, j: nat)
    requires Unlinkable(h, s, q, k, b, j)
    ensures Inv(UnlinkHeap(h, s.spot[q][k], b), UnlinkShape(s, b, j), Partial(q, k + 1, |s.spot[q]|))
  {
    var part' := Partial(q, k + 1, |s.spot[q]|);
    var h', s' := UnlinkHeap(h, s.spot[q][k], b), UnlinkShape(s, b, j);
    UnlinkKeepsLists(h, s, b, j);
    UnlinkKeepsFree(h, s.spot[q][k], b, s.free);
    hide ListsOk, FreeOk, FreeRangesOk, SpotOk, BackOk, TakeOut, Removable;
    forall q2 | 0 <= q2 < |h'.ranges| && LiveAt(h', q2) ensures SpotOk(h', s', part', q2) {
      assert LiveAt(h, q2);
      UnlinkKeepsSpot(h, s, q, k, b, j, q2);
    }
    forall b2 | 0 <= b2 < |h'.buckets| ensures BackOk(h', s', part', b2) {
      UnlinkKeepsBack(h, s, q, k, b, j, b2);
    }
  }

  /** The first remaining node of a range is in its bucket's list. */
  lemma NodePosition(h: Heap, s: Shape, q: nat, k: nat) returns (j: nat)
    requires LiveAt(h, q) && |s.spot| == |h.ranges| && k < |s.spot[q]| && Inv(h, s, Partial(q, k, |s.spot[q]|))
    ensures h.perBucket > 0
            && Unlinkable(h, s, q, k, Bucket(h.ranges[q].watch.first, h.perBucket) + k, j)
  {
    var part := Partial(q, k, |s.spot[q]|);
    assert SpotOk(h, s, part, q) && NodeOk(h, s, part, q, k);
    var b := Bucket(h.ranges[q].watch.first, h.perBucket) + k;
    j :| 0 <= j < |s.lists[b]| && s.lists[b][j] == s.spot[q][k];
    NeighboursLinked(h.nodes, s.lists[b], h.buckets[b], j);
  }

  // ----- taking and giving back storage -----

  lemma PopFree(nodes: seq<WatchNode>, free: seq<nat>, head: int)
    requires FreeOk(nodes, free, head) && head != NIL
    ensures free != [] && head == free[0] && 0 <= head < |nodes| && nodes[head].FreeNode?
    ensures FreeOk(nodes, free[1..], nodes[head].nextFree) && head !in free[1..]
  {}

  lemma FreeIsLoose(h: Heap, s: Shape, n: nat)
    requires ListsOk(h, s) && n < |h.nodes| && h.nodes[n].FreeNode?
    ensures forall b | 0 <= b < |s.lists| :: n !in s.lists[b]
  {
    forall b | 0 <= b < |s.lists| ensures n !in s.lists[b] {
      MembersLinked(h.nodes, s.lists[b], h.buckets[b]);
    }
  }

  lemma PopNodeKeeps(h: Heap, s: Shape, part: Part)
    requires Inv(h, s, part) && h.nodeFree != NIL
    ensures 0 <= h.nodeFree < |h.nodes| && h.nodes[h.nodeFree].FreeNode? && s.free != []
    ensures var h', s' := h.(nodeFree := h.nodes[h.nodeFree].nextFree), s.(free := s.free[1..]);
            Inv(h', s', part) && Loose(h', s', h.nodeFree)
  {
    PopFree(h.nodes, s.free, h.nodeFree);
    FreeIsLoose(h, s, h.nodeFree);
    var h', s' := h.(nodeFree := h.nodes[h.nodeFree].nextFree), s.(free := s.free[1..]);
    SameLists(h, s, h', s');
    hide FreeOk, FreeRangesOk, SpotOk, BackOk, ListsOk;
    SameStructure(h, s, h', s', part);
  }

  lemma NodePopped(h: Heap, s: Shape, part: Part)
    requires Inv(h, s, part) && h.nodeFree != NIL && NoneLost(h, s, NIL) && s.free != []
    requires 0 <= h.nodeFree < |h.nodes| && h.nodes[h.nodeFree].FreeNode?
    ensures NoneLost(h.(nodeFree := h.nodes[h.nodeFree].nextFree), s.(free := s.free[1..]), h.nodeFree)
  {
    NodeTaken(h, s);
  }

  lemma SameLists(h: Heap, s: Shape, h': Heap, s': Shape)
    requires ListsOk(h, s) && h'.nodes == h.nodes && h'.buckets == h.buckets && s'.lists == s.lists && s'.home == s.home
    ensures ListsOk(h', s')
  {
    hide Chained;
    forall b | 0 <= b < |h'.buckets| ensures AtHome(s', b) {
      assert AtHome(s, b);
    }
  }

  lemma NewNodeKeeps(h: Heap, s: Shape, part: Part)
    requires Inv(h, s, part)
    ensures var h', s' := h.(nodes := h.nodes + [FreeNode(NIL)]), s.(home := s.home + [0]);
            Inv(h', s', part) && Loose(h', s', |h.nodes|)
  {
    var h', s' := h.(nodes := h.nodes + [FreeNode(NIL)]), s.(home := s.home + [0]);
    forall b | 0 <= b < |s.lists| ensures |h.nodes| !in s.lists[b] && Chained(h'.nodes, s.lists[b], h.buckets[b]) {
      MembersLinked(h.nodes, s.lists[b], h.buckets[b]);
      ChainedElsewhere(h.nodes, h'.nodes, s.lists[b], h.buckets[b]);
    }
    forall b | 0 <= b < |s.lists| ensures AtHome(s', b) {
      assert AtHome(s, b);
    }
    SameStructure(h, s, h', s', part);
  }

  /** Only unused storage changed, so the ranges and lists mean what they did. */
  lemma SameStructure(h: Heap, s: Shape, h': Heap, s': Shape, part: Part)
    requires Inv(h, s, part)
    requires |h'.nodes| >= |h.nodes| && h'.nodes[..|h.nodes|] == h.nodes && h'.ranges == h.ranges
    requires h'.buckets == h.buckets && h'.perBucket == h.perBucket && s'.lists == s.lists && s'.spot == s.spot
    ensures forall q | 0 <= q < |h.ranges| && LiveAt(h', q) :: SpotOk(h', s', part, q)
    ensures forall b | 0 <= b < |h.buckets| :: BackOk(h', s', part, b)
  {
    assert forall m | 0 <= m < |h.nodes| :: h'.nodes[m] == h'.nodes[..|h.nodes|][m];
    forall q | 0 <= q < |h.ranges| && LiveAt(h', q) ensures SpotOk(h', s', part, q) {
      assert LiveAt(h, q) && SpotOk(h, s, part, q);
      SameSpot(h, s, h', s', part, part, q);
    }
    forall b | 0 <= b < |h.buckets| ensures BackOk(h', s', part, b) {
      assert BackOk(h, s, part, b);
      hide Inv, SpotOk;
      forall n | n in s.lists[b] ensures BackAt(h', s', part, b, n) {
        assert BackAt(h, s, part, b, n);
      }
    }
  }

  /** A range's nodes mean the same when the nodes, the lists and the range are as before. */
  lemma SameSpot(h: Heap, s: Shape, h': Heap, s': Shape, part: Part, part': Part, q: nat)
    requires LiveAt(h, q) && |s.spot| == |h.ranges| && |s.lists| == |h.buckets| && SpotOk(h, s, part, q)
    requires LiveAt(h', q) && |s'.spot| == |h'.ranges| && h'.ranges[q] == h.ranges[q]
    requires |h'.nodes| >= |h.nodes| && forall m | 0 <= m < |h.nodes| :: h'.nodes[m] == h.nodes[m]
    requires h'.buckets == h.buckets && h'.perBucket == h.perBucket && s'.lists == s.lists && s'.spot[q] == s.spot[q]
    requires part' == part || ((part.Partial? ==> part.range != q || (part.lo == 0 && part.hi == |s.spot[q]|))
                               && (part'.Partial? ==> part'.range != q || (part'.lo == 0 && part'.hi == |s.spot[q]|)))
    ensures SpotOk(h', s', part', q)
  {
    hide Bucket, Quotient;
    forall k | 0 <= k < |s.spot[q]| && Active(part', q, k) ensures NodeOk(h', s', part', q, k) {
      assert NodeOk(h, s, part, q, k);
    }
  }

  /** A range not in use begins with none of its nodes linked. */
  lemma StartRange(h: Heap, s: Shape, q: nat, w: Watch, h': Heap, s': Shape)
    requires Inv(h, s, Whole) && q < |h'.ranges| && !LiveAt(h, q) && Placed(w, h.perBucket, |h.buckets|)
    requires |h'.ranges| >= |h.ranges| && h'.ranges[q] == Live(w, NIL)
    requires forall r | 0 <= r < |h'.ranges| && r != q :: r < |h.ranges| && h'.ranges[r] == h.ranges[r]
    requires h'.nodes == h.nodes && h'.buckets == h.buckets && h'.perBucket == h.perBucket && h'.nodeFree == h.nodeFree
    requires s'.lists == s.lists && s'.home == s.home && s'.free == s.free
    requires |s'.spot| == |h'.ranges| && |s'.spot[q]| == Buckets(w, h.perBucket)
    requires forall r | 0 <= r < |h'.ranges| && r != q :: r < |s.spot| && s'.spot[r] == s.spot[r]
    requires FreeRangesOk(h'.ranges, s'.freeRanges, h'.rangeFree)
    ensures Inv(h', s', Partial(q, 0, 0))
  {
    var part := Partial(q, 0, 0);
    hide FreeRangesOk, FreeOk, Chained;
    forall r | 0 <= r < |h'.ranges| && LiveAt(h', r) ensures SpotOk(h', s', part, r) {
      if r != q {
        assert LiveAt(h, r) && SpotOk(h, s, Whole, r);
        SameSpot(h, s, h', s', Whole, part, r);
      }
    }
    forall b | 0 <= b < |h'.buckets| ensures BackOk(h', s', part, b) {
      assert BackOk(h, s, Whole, b);
      forall n | n in s.lists[b] ensures BackAt(h', s', part, b, n) {
        assert BackAt(h, s, Whole, b, n);
      }
    }
    forall b | 0 <= b < |h'.buckets| ensures AtHome(s', b) {
      assert AtHome(s, b);
    }
  }

  /** A range with all its nodes is an ordinary one. */
  lemma WholeRange(h: Heap, s: Shape, q: nat)
    requires LiveAt(h, q) && |s.spot| == |h.ranges|
    ensures Inv(h, s, Partial(q, 0, |s.spot[q]|)) ==> Inv(h, s, Whole)
    ensures Inv(h, s, Whole) ==> Inv(h, s, Partial(q, 0, |s.spot[q]|))
  {
    var part := Partial(q, 0, |s.spot[q]|);
    if Inv(h, s, part) { SwitchPart(h, s, part, Whole, q); }
    if Inv(h, s, Whole) { SwitchPart(h, s, Whole, part, q); }
  }

  lemma SwitchPart(h: Heap, s: Shape, part: Part, part': Part, q: nat)
    requires LiveAt(h, q) && |s.spot| == |h.ranges| && Inv(h, s, part)
    requires (part == Whole && part' == Partial(q, 0, |s.spot[q]|)) || (part' == Whole && part == Partial(q, 0, |s.spot[q]|))
    ensures Inv(h, s, part')
  {
    hide ListsOk, FreeOk, FreeRangesOk;
    forall r | 0 <= r < |h.ranges| && LiveAt(h, r) ensures SpotOk(h, s, part', r) {
      assert SpotOk(h, s, part, r);
      SameSpot(h, s, h, s, part, part', r);
    }
    forall b | 0 <= b < |h.buckets| ensures BackOk(h, s, part', b) {
      assert BackOk(h, s, part, b);
      forall n | n in s.lists[b] ensures BackAt(h, s, part', b, n) {
        assert BackAt(h, s, part, b, n);
      }
    }
  }

  /** A range whose nodes are all gone can be given back. */
  lemma FreeRangeKeeps(h: Heap, s: Shape, q: nat)
    requires LiveAt(h, q) && |s.spot| == |h.ranges| && Inv(h, s, Partial(q, |s.spot[q]|, |s.spot[q]|))
    ensures var freed: seq<nat> := [q] + s.freeRanges;
            Inv(h.(ranges := h.ranges[q := FreeRange(h.rangeFree)], rangeFree := q), s.(freeRanges := freed), Whole)
  {
    var part := Partial(q, |s.spot[q]|, |s.spot[q]|);
    var freed: seq<nat> := [q] + s.freeRanges;
    var h', s' := h.(ranges := h.ranges[q := FreeRange(h.rangeFree)], rangeFree := q), s.(freeRanges := freed);
    assert FreeRangesOk(h'.ranges, freed, q);
    hide FreeRangesOk, FreeOk, Chained;
    forall r | 0 <= r < |h'.ranges| && LiveAt(h', r) ensures SpotOk(h', s', Whole, r) {
      assert LiveAt(h, r) && SpotOk(h, s, part, r);
      SameSpot(h, s, h', s', part, Whole, r);
    }
    forall b | 0 <= b < |h'.buckets| ensures BackOk(h', s', Whole, b) {
      assert BackOk(h, s, part, b);
      forall n | n in s.lists[b] ensures BackAt(h', s', Whole, b, n) {
        assert BackAt(h, s, part, b, n);
      }
    }
    forall b | 0 <= b < |h'.buckets| ensures AtHome(s', b) {
      assert AtHome(s, b);
    }
  }

  // ----- what the nodes of a removed range leave behind -----

  /** The nodes of a list that do not belong to a range. */
  ghost function Without(nodes: seq<WatchNode>, list: seq<nat>, q: nat): (r: seq<nat>) {
    if list == [] then []
    else
      var rest := Without(nodes, list[1..], q);
      if BelongsTo(nodes, list[0], q) then rest else [list[0]] + rest
  }

  predicate BelongsTo(nodes: seq<WatchNode>, n: nat, q: nat) {
    n < |nodes| && nodes[n].Linked? && nodes[n].range == q
  }

  lemma {:induction false} WithoutNone(nodes: seq<WatchNode>, list: seq<nat>, q: nat)
    requires forall n | n in list :: !BelongsTo(nodes, n, q)
    ensures Without(nodes, list, q) == list
  {
    if list != [] {
      assert !BelongsTo(nodes, list[0], q);
      WithoutNone(nodes, list[1..], q);
    }
  }

  lemma {:induction false} WithoutOne(nodes: seq<WatchNode>, list: seq<nat>, q: nat, j: nat)
    requires j < |list| && Distinct(list) && BelongsTo(nodes, list[j], q)
    requires forall n | n in list && n != list[j] :: !BelongsTo(nodes, n, q)
    ensures Without(nodes, list, q) == Remove(list, j)
    decreases |list|
  {
    if j == 0 {
      assert list[1..] == Remove(list, 0);
      WithoutNone(nodes, list[1..], q);
    } else {
      assert list[0] in list && list[0] != list[j];
      WithoutOne(nodes, list[1..], q, j - 1);
      assert Remove(list, j) == [list[0]] + Remove(list[1..], j - 1);
    }
  }

  lemma {:induction false} WithoutConcat(nodes: seq<WatchNode>, a: seq<nat>, b: seq<nat>, q: nat)
    ensures Without(nodes, a + b, q) == Without(nodes, a, q) + Without(nodes, b, q)
  {
    if a == [] {
      assert a + b == b;
    } else {
      assert (a + b)[0] == a[0] && (a + b)[1..] == a[1..] + b;
      WithoutConcat(nodes, a[1..], b, q);
    }
  }

  lemma WithoutSplit(nodes: seq<WatchNode>, kept: seq<nat>, n: nat, todo: seq<nat>, q: nat)
    requires BelongsTo(nodes, n, q)
    requires forall m | m in kept || m in todo :: !BelongsTo(nodes, m, q)
    ensures Without(nodes, kept + [n] + todo, q) == kept + todo
  {
    WithoutNone(nodes, kept, q);
    WithoutNone(nodes, todo, q);
    WithoutConcat(nodes, kept, [n], q);
    WithoutConcat(nodes, kept + [n], todo, q);
  }

  /** The only node of its range in its bucket. */
  lemma OnlyNode(h: Heap, s: Shape, part: Part, b: nat, n: nat, m: nat)
    requires Inv(h, s, part) && b < |h.buckets| && n in s.lists[b] && m in s.lists[b]
    requires n < |h.nodes| && h.nodes[n].Linked? && BelongsTo(h.nodes, m, h.nodes[n].range)
    ensures m == n
  {
    assert BackOk(h, s, part, b);
    assert BackAt(h, s, part, b, n) && BackAt(h, s, part, b, m);
  }

  /** Unlinking a node removes it from its bucket and leaves the other buckets alone. */
  lemma UnlinkRemoves(h: Heap, s: Shape, q: nat, k: nat, b: nat, j: nat)
    requires Unlinkable(h, s, q, k, b, j)
    ensures UnlinkShape(s, b, j).lists == s.lists[b := Without(h.nodes, s.lists[b], q)]
  {
    var part, n := Partial(q, k, |s.spot[q]|), s.lists[b][j];
    assert Chained(h.nodes, s.lists[b], h.buckets[b]);
    assert SpotOk(h, s, part, q) && NodeOk(h, s, part, q, k);
    hide Inv, TakeOut;
    forall m | m in s.lists[b] && m != n ensures !BelongsTo(h.nodes, m, q) {
      if BelongsTo(h.nodes, m, q) { OnlyNode(h, s, part, b, n, m); }
    }
    WithoutOne(h.nodes, s.lists[b], q, j);
  }

  lemma StillLinked(h: Heap, s: Shape, q: nat, k: nat, b: nat, j: nat, b2: nat, m: nat)
    requires Unlinkable(h, s, q, k, b, j) && b2 < |s.lists| && m in UnlinkShape(s, b, j).lists[b2]
    ensures m < |h.nodes| && h.nodes[m].Linked? && m != s.spot[q][k]
    ensures UnlinkHeap(h, s.spot[q][k], b).nodes[m].Linked?
            && UnlinkHeap(h, s.spot[q][k], b).nodes[m].range == h.nodes[m].range
  {
    assert Chained(h.nodes, s.lists[b2], h.buckets[b2]) && Chained(h.nodes, s.lists[b], h.buckets[b]);
    assert AtHome(s, b) && AtHome(s, b2);
    hide Inv;
    assert m in s.lists[b2];
    MembersLinked(h.nodes, s.lists[b2], h.buckets[b2]);
    TakeOutOthers(h.nodes, s.spot[q][k], m);
  }

  // ----- the shared memory's watches -----

  const BUFFER_BYTES: nat := 0x2000_0000
  const BUCKETS: nat := 128

  /** One callback: the watch it belonged to and its registration. */
  datatype Fired = Fired(handle: nat, watch: Watch)

  class WatchTable {
    var nodes: seq<WatchNode>
    var ranges: seq<WatchRange>
    var buckets: seq<int>
    var nodeFree: int
    var rangeFree: int
    const perBucket: nat
    ghost var shape: Shape

    constructor (pagesPerBucket: nat)
      requires pagesPerBucket > 0
      ensures Valid() && Watched() == map[] && perBucket == pagesPerBucket
    {
      nodes, ranges, buckets, nodeFree, rangeFree := [], [], seq(BUCKETS, _ => NIL), NIL, NIL;
      perBucket := pagesPerBucket;
      shape := Shape(seq(BUCKETS, _ => []), [], [], [], []);
    }

    ghost function Now(): Heap
      reads this
    {
      Heap(nodes, ranges, buckets, nodeFree, rangeFree, perBucket)
    }

    ghost predicate Valid()
      reads this
    {
      |buckets| == BUCKETS && Inv(Now(), shape, Whole) && NoneLost(Now(), shape, NIL)
    }

    /** The registered ranges by handle. */
    ghost function Watched(): map<nat, Watch>
      reads this
    {
      Registered(Now())
    }

    /** Takes a node from the free list, or from fresh storage. */
    method AllocateNode(ghost part: Part) returns (n: nat)
      requires Inv(Now(), shape, part) && NoneLost(Now(), shape, NIL)
      modifies this
      ensures Inv(Now(), shape, part) && Loose(Now(), shape, n) && NoneLost(Now(), shape, n)
      ensures ranges == old(ranges) && buckets == old(buckets)
      ensures shape.lists == old(shape).lists && shape.spot == old(shape).spot
    {
      hide Inv, Loose, NoneLost;
      if nodeFree != NIL {
        PopNodeKeeps(Now(), shape, part);
        NodePopped(Now(), shape, part);
        n := nodeFree;
        nodeFree := nodes[n].nextFree;
        shape := shape.(free := shape.free[1..]);
      } else {
        NewNodeKeeps(Now(), shape, part);
        NodeMade(Now(), shape);
        n := |nodes|;
        nodes := nodes + [FreeNode(NIL)];
        shape := shape.(home := shape.home + [0]);
      }
    }

    method AllocateRange(w: Watch) returns (q: nat)
      requires Valid() && Placed(w, perBucket, BUCKETS)
      modifies this
      ensures |buckets| == BUCKETS && Inv(Now(), shape, Partial(q, 0, 0)) && q !in old(Watched())
      ensures NoneLost(Now(), shape, NIL)
      ensures LiveAt(Now(), q) && Watched() == old(Watched())[q := w]
      ensures |shape.spot| == |ranges| && |shape.spot[q]| == Buckets(w, perBucket)
    {
      hide Inv, Buckets, Bucket, FreeRangesOk, NoneLost;
      ghost var before, was := Now(), shape;
      ghost var row: seq<nat> := seq(Buckets(w, perBucket), _ => 0);
      InvParts(before, was, Whole);
      if rangeFree != NIL {
        PopFreeRange(ranges, shape.freeRanges, rangeFree);
        q := rangeFree;
        rangeFree := ranges[q].nextFree;
        ranges := ranges[q := Live(w, NIL)];
        TakenRange(before.ranges, ranges, was.freeRanges[1..], rangeFree, q);
        shape := shape.(freeRanges := shape.freeRanges[1..], spot := shape.spot[q := row]);
      } else {
        q := |ranges|;
        ranges := ranges + [Live(w, NIL)];
        MoreRanges(before.ranges, ranges, was.freeRanges, rangeFree);
        shape := shape.(spot := shape.spot + [row]);
      }
      StartRange(before, was, q, w, Now(), shape);
      RangeTaken(before, was, Now(), shape, q);
    }

    /** Gives a range its node in its `k`-th bucket, in front of the bucket's list. */
    method LinkNode(q: nat, k: nat, previous: int) returns (n: nat)
      requires LiveAt(Now(), q) && Inv(Now(), shape, Partial(q, 0, k)) && k < |shape.spot[q]|
      requires NoneLost(Now(), shape, NIL)
      requires previous == if k == 0 then NIL else shape.spot[q][k - 1]
      modifies this
      ensures LiveAt(Now(), q) && Inv(Now(), shape, Partial(q, 0, k + 1)) && |shape.spot[q]| == |old(shape).spot[q]|
      ensures |shape.spot| == |ranges| && NoneLost(Now(), shape, NIL)
      ensures n == shape.spot[q][k] && Watched() == old(Watched()) && |buckets| == |old(buckets)|
    {
      hide Inv, Loose, Bucket, NoneLost;
      n := AllocateNode(Partial(q, 0, k));
      InvParts(Now(), shape, Partial(q, 0, k));
      var b := Bucket(ranges[q].watch.first, perBucket) + k;
      ReadyToLink(Now(), shape, q, k, n, b, previous);
      LinkKeeps(Now(), shape, q, k, n, b, previous);
      ghost var h, s := Now(), shape;
      PlaceNode(q, k, n, b, previous);
      LinkedNodeKept(h, s, q, k, n, b, previous);
      InvParts(Now(), shape, Partial(q, 0, k + 1));
    }

    method PlaceNode(q: nat, ghost k: nat, n: nat, b: nat, previous: int)
      requires Linkable(Now(), shape, q, k, n, b, previous)
      modifies this
      ensures Now() == LinkHeap(old(Now()), q, k, n, b, previous) && shape == LinkShape(old(shape), q, k, n, b)
      ensures LiveAt(Now(), q) && Watched() == old(Watched()) && |buckets| == |old(buckets)|
    {
      hide Inv, Bucket;
      ghost var before, was := Now(), shape;
      var head := buckets[b];
      nodes := nodes[n := Linked(q, NIL, NIL, head)];
      if previous != NIL {
        nodes := nodes[previous := nodes[previous].(rangeNext := n)];
      } else {
        ranges := ranges[q := ranges[q].(nodeFirst := n)];
      }
      if head != NIL {
        nodes := nodes[head := nodes[head].(prev := n)];
      }
      buckets := buckets[b := n];
      shape := LinkShape(was, q, k, n, b);
      assert nodes == LinkNodes(before.nodes, q, n, head, previous);
    }

    /**
     Registers a byte range and returns its handle; a range outside the buffer is not registered. `pageBytes` is
     the page size the buckets were made for.
     */
    method WatchMemoryRange(start: nat, length: nat, data: int, pageBytes: nat) returns (handle: int)
      requires Valid() && pageBytes > 0 && BUFFER_BYTES == BUCKETS * (perBucket * pageBytes)
      modifies this
      ensures Valid()
      ensures length == 0 || start >= BUFFER_BYTES ==> handle == NIL && Watched() == old(Watched())
      ensures length > 0 && start < BUFFER_BYTES ==>
        var size := if length < BUFFER_BYTES - start then length else BUFFER_BYTES - start;
        && 0 <= handle && handle !in old(Watched())
        && Watched() == old(Watched())[handle := Watch(data, start / pageBytes, (start + size - 1) / pageBytes)]
    {
      hide Inv, Bucket, NoneLost;
      if length == 0 || start >= BUFFER_BYTES {
        return NIL;
      }
      var size := if length < BUFFER_BYTES - start then length else BUFFER_BYTES - start;
      PagesPlaced(start, start + size - 1, pageBytes, perBucket, data);
      handle := WatchPages(Watch(data, start / pageBytes, (start + size - 1) / pageBytes));
    }

    method WatchPages(w: Watch) returns (q: nat)
      requires Valid() && Placed(w, perBucket, BUCKETS)
      modifies this
      ensures Valid() && q !in old(Watched()) && Watched() == old(Watched())[q := w]
    {
      hide Inv, Bucket, NoneLost;
      q := AllocateRange(w);
      var previous := NIL;
      var i := Bucket(w.first, perBucket);
      ghost var k := 0;
      while i <= Bucket(w.last, perBucket)
        invariant |shape.spot| == |ranges| && LiveAt(Now(), q)
        invariant i == Bucket(w.first, perBucket) + k && k <= |shape.spot[q]|
        invariant |buckets| == BUCKETS && LiveAt(Now(), q) && |shape.spot[q]| == Buckets(w, perBucket)
        invariant NoneLost(Now(), shape, NIL)
        invariant Inv(Now(), shape, Partial(q, 0, k)) && Watched() == old(Watched())[q := w]
        invariant previous == if k == 0 then NIL else shape.spot[q][k - 1]
      {
        previous := LinkNode(q, i - Bucket(w.first, perBucket), previous);
        i, k := i + 1, k + 1;
      }
      WholeRange(Now(), shape, q);
    }

    /** Takes one node out of its bucket and frees it. */
    method UnlinkNode(n: nat, b: nat, ghost q: nat, ghost k: nat, ghost j: nat)
      requires Unlinkable(Now(), shape, q, k, b, j) && n == shape.spot[q][k]
      modifies this
      ensures Now() == UnlinkHeap(old(Now()), n, b) && shape == UnlinkShape(old(shape), b, j)
    {
      hide Inv;
      ghost var before := Now();
      var prev, next := nodes[n].prev, nodes[n].next;
      if prev != NIL {
        nodes := nodes[prev := nodes[prev].(next := next)];
      } else {
        buckets := buckets[b := next];
      }
      if next != NIL {
        nodes := nodes[next := nodes[next].(prev := prev)];
      }
      nodes := nodes[n := FreeNode(nodeFree)];
      nodeFree := n;
      shape := UnlinkShape(shape, b, j);
    }

    /** Unlinks the first remaining node of a range and returns the one after it. */
    method UnlinkNext(node: nat, bucket: nat, ghost q: nat, ghost k: nat) returns (nodeNext: int, ghost j: nat)
      requires LiveAt(Now(), q) && |shape.spot| == |ranges| && k < |shape.spot[q]| && node == shape.spot[q][k]
      requires Inv(Now(), shape, Partial(q, k, |shape.spot[q]|)) && NoneLost(Now(), shape, NIL)
      requires perBucket > 0 && bucket == Bucket(ranges[q].watch.first, perBucket) + k
      modifies this
      ensures Unlinkable(old(Now()), old(shape), q, k, bucket, j)
      ensures Now() == UnlinkHeap(old(Now()), node, bucket) && shape == UnlinkShape(old(shape), bucket, j)
      ensures Inv(Now(), shape, Partial(q, k + 1, |shape.spot[q]|)) && NoneLost(Now(), shape, NIL)
      ensures nodeNext == if k + 1 < |shape.spot[q]| then shape.spot[q][k + 1] else NIL
    {
      hide Inv, NoneLost, Bucket;
      ghost var h, s := Now(), shape;
      j := NodePosition(h, s, q, k);
      NextOfRange(h, s, q, k);
      nodeNext := nodes[node].rangeNext;
      UnlinkNode(node, bucket, q, k, j);
      UnlinkKeeps(h, s, q, k, bucket, j);
      NodeFreed(h, s, Now(), bucket, j);
    }

    /** Unlinks and frees a registered range: every bucket loses just its node. */
    method UnlinkWatchRange(q: nat)
      requires Valid() && q in Watched()
      modifies this
      ensures Valid() && Watched() == old(Watched()) - {q}
      ensures forall b | 0 <= b < BUCKETS :: LostRange(old(Now()), old(shape), Now(), shape, q, b)
    {
      hide Inv, Bucket, LostRange, BucketKept, NoneLost;
      ghost var before, was := Now(), shape;
      InvParts(before, was, Whole);
      WholeRange(before, was, q);
      ghost var len := |shape.spot[q]|;
      ghost var first := Bucket(ranges[q].watch.first, perBucket);
      FirstNode(before, was, q);
      var bucket := Bucket(ranges[q].watch.first, perBucket);
      var node := ranges[q].nodeFirst;
      ghost var k := 0;
      NothingLost(before, was);
      while node != NIL
        invariant k <= len && bucket == first + k && perBucket == before.perBucket
        invariant ranges == before.ranges && rangeFree == before.rangeFree && |buckets| == BUCKETS
        invariant shape.spot == was.spot && |shape.lists| == |was.lists| == BUCKETS
        invariant Inv(Now(), shape, Partial(q, k, len)) && NoneLost(Now(), shape, NIL)
        invariant node == if k < len then shape.spot[q][k] else NIL
        invariant forall b | 0 <= b < BUCKETS ::
          if first <= b < first + k then LostRange(before, was, Now(), shape, q, b)
          else BucketKept(before, was, Now(), shape, b)
        decreases len - k
      {
        ghost var h, s := Now(), shape;
        var nodeNext;
        ghost var j;
        nodeNext, j := UnlinkNext(node, bucket, q, k);
        forall b | 0 <= b < BUCKETS
          ensures if first <= b < first + (k + 1) then LostRange(before, was, Now(), shape, q, b)
                  else BucketKept(before, was, Now(), shape, b)
        {
          OneMoreLost(before, was, h, s, q, k, bucket, j, b);
        }
        node := nodeNext;
        k, bucket := k + 1, bucket + 1;
      }
      FreeRangeKeeps(Now(), shape, q);
      ghost var h, s := Now(), shape;
      ranges := ranges[q := FreeRange(rangeFree)];
      rangeFree := q;
      ghost var freed: seq<nat> := [q] + shape.freeRanges;
      shape := shape.(freeRanges := freed);
      RangeFreed(h, s, Now(), shape, q);
      forall b | 0 <= b < BUCKETS ensures LostRange(before, was, Now(), shape, q, b) {
        AllLost(before, was, h, s, Now(), shape, q, b);
      }
    }

    method UnwatchMemoryRange(handle: nat)
      requires Valid() && handle in Watched()
      modifies this
      ensures Valid() && Watched() == old(Watched()) - {handle}
    {
      UnlinkWatchRange(handle);
    }

    /** The watches of one bucket that meet the pages: each is called and unregistered once. */
    method FireBucket(b: nat, pageFirst: nat, pageLast: nat) returns (fired: seq<Fired>)
      requires Valid() && b < BUCKETS
      modifies this
      ensures Valid() && Called(old(Watched()), Watched(), fired, pageFirst, pageLast)
      ensures Quiet(Now(), shape, b, pageFirst, pageLast)
      ensures forall b2 | 0 <= b2 < BUCKETS :: Shrunk(old(Now()), old(shape), Now(), shape, b2)
    {
      hide Inv, NoneLost, Shrunk, Called, Chained, LostRange, Spared, Registered, BelongsTo;
      ghost var before, was := Now(), shape;
      InvParts(before, was, Whole);
      ShrunkSelf(before, was);
      CalledNone(Watched(), pageFirst, pageLast);
      fired := [];
      var node := buckets[b];
      HeadOf(before, was, b);
      ghost var kept: seq<nat>, todo: seq<nat> := [], shape.lists[b];
      while node != NIL
        invariant Valid() && |shape.lists| == BUCKETS && shape.lists[b] == kept + todo && node == At(todo, 0)
        invariant Called(Registered(before), Watched(), fired, pageFirst, pageLast)
        invariant forall m | m in kept :: Spared(Now(), m, pageFirst, pageLast)
        invariant forall b2 | 0 <= b2 < BUCKETS :: Shrunk(before, was, Now(), shape, b2)
        decreases |todo|
      {
        ghost var h, s := Now(), shape;
        NodeInBucket(h, s, b, kept, todo);
        var range := nodes[node].range;
        var watch := ranges[range].watch;
        node := nodes[node].next;
        RegisteredAt(h, todo[0], pageFirst, pageLast);
        if watch.Meets(pageFirst, pageLast) {
          ghost var done := fired;
          fired := fired + [Fired(range, watch)];
          UnlinkWatchRange(range);
          CalledOneMore(Registered(before), Registered(h), done, Fired(range, watch), pageFirst, pageLast);
          InvParts(Now(), shape, Whole);
          FiredList(h, s, Now(), shape, b, kept, todo);
          LostShrinks(h, s, Now(), shape, range);
          ShrunkTwice(before, was, h, s, Now(), shape);
          SparedStays(h, s, Now(), shape, b, kept, pageFirst, pageLast);
        } else {
          kept := kept + [todo[0]];
        }
        todo := todo[1..];
        assert shape.lists[b] == kept + todo;
      }
      assert kept + todo == kept;
    }

    /**
     Calls and unregisters every watch that shares a page with the given ones, each exactly once, and no other.
     Callbacks do not watch or unwatch.
     */
    method FireWatches(pageFirst: nat, pageLast: nat) returns (fired: seq<Fired>)
      requires Valid() && pageFirst <= pageLast && Bucket(pageLast, perBucket) < BUCKETS
      modifies this
      ensures Valid()
      ensures forall i, j | 0 <= i < j < |fired| :: fired[i].handle != fired[j].handle
      ensures forall q :: (exists i :: 0 <= i < |fired| && fired[i].handle == q)
                          <==> q in old(Watched()) && old(Watched())[q].Shares(pageFirst, pageLast)
      ensures forall i | 0 <= i < |fired| :: fired[i].handle in old(Watched()) && fired[i].watch == old(Watched())[fired[i].handle]
      ensures Watched() == map q | q in old(Watched()) && !old(Watched())[q].Shares(pageFirst, pageLast) :: old(Watched())[q]
    {
      hide Inv, NoneLost, Shrunk, Called, Bucket, Quiet;
      InvParts(Now(), shape, Whole);
      RegisteredShare(Now(), shape, pageFirst, pageLast);
      fired := [];
      ghost var before := Watched();
      CalledNone(before, pageFirst, pageLast);
      var first := Bucket(pageFirst, perBucket);
      var i := first;
      while i <= Bucket(pageLast, perBucket)
        invariant Valid() && first <= i
        invariant Called(before, Watched(), fired, pageFirst, pageLast)
        invariant forall b | first <= b < i :: b < BUCKETS && Quiet(Now(), shape, b, pageFirst, pageLast)
      {
        ghost var h, s, done, now := Now(), shape, fired, Watched();
        var more := FireBucket(i, pageFirst, pageLast);
        fired := fired + more;
        CalledMore(before, now, Watched(), done, more, pageFirst, pageLast);
        forall b | first <= b < i + 1 ensures b < BUCKETS && Quiet(Now(), shape, b, pageFirst, pageLast) {
          if b < i {
            StaysQuiet(h, s, Now(), shape, b, pageFirst, pageLast);
          }
        }
        i := i + 1;
      }
      AllQuiet(Now(), shape, pageFirst, pageLast);
      CalledAll(before, Watched(), fired, pageFirst, pageLast);
    }
  }

  // ----- firing -----

  /** Which registrations have been called so far: each met the pages, was called once, and is gone. */
  ghost predicate Called(before: map<nat, Watch>, now: map<nat, Watch>, fired: seq<Fired>, pageFirst: nat, pageLast: nat) {
    && (forall i, j | 0 <= i < j < |fired| :: fired[i].handle != fired[j].handle)
    && (forall i | 0 <= i < |fired| :: fired[i].handle in before && before[fired[i].handle] == fired[i].watch
                                       && fired[i].watch.Meets(pageFirst, pageLast))
    && now == before - Handles(fired)
  }

  ghost function Handles(fired: seq<Fired>): (r: set<nat>)
    ensures forall q :: q in r <==> exists i :: 0 <= i < |fired| && fired[i].handle == q
  {
    set i | 0 <= i < |fired| :: fired[i].handle
  }

  lemma CalledNone(before: map<nat, Watch>, pageFirst: nat, pageLast: nat)
    ensures Called(before, before, [], pageFirst, pageLast)
  {}

  lemma CalledOneMore(before: map<nat, Watch>, now: map<nat, Watch>, fired: seq<Fired>, f: Fired, pageFirst: nat, pageLast: nat)
    requires Called(before, now, fired, pageFirst, pageLast)
    requires f.handle in now && now[f.handle] == f.watch && f.watch.Meets(pageFirst, pageLast)
    ensures Called(before, now - {f.handle}, fired + [f], pageFirst, pageLast)
  {
    assert Called(now, now - {f.handle}, [f], pageFirst, pageLast) by {
      assert [f][0] == f;
    }
    CalledMore(before, now, now - {f.handle}, fired, [f], pageFirst, pageLast);
  }

  lemma CalledMore(before: map<nat, Watch>, now: map<nat, Watch>, after: map<nat, Watch>, fired: seq<Fired>, more: seq<Fired>,
                   pageFirst: nat, pageLast: nat)
    requires Called(before, now, fired, pageFirst, pageLast) && Called(now, after, more, pageFirst, pageLast)
    ensures Called(before, after, fired + more, pageFirst, pageLast)
  {
    var all := fired + more;
    forall q ensures q in Handles(all) <==> q in Handles(fired) || q in Handles(more) {
      if i :| 0 <= i < |more| && more[i].handle == q {
        assert all[|fired| + i].handle == q;
      }
      if i :| 0 <= i < |fired| && fired[i].handle == q {
        assert all[i].handle == q;
      }
    }
  }

  /** A node whose range does not meet the pages. */
  ghost predicate Spared(h: Heap, m: nat, pageFirst: nat, pageLast: nat) {
    && m < |h.nodes| && h.nodes[m].Linked? && LiveAt(h, h.nodes[m].range)
    && !h.ranges[h.nodes[m].range].watch.Meets(pageFirst, pageLast)
  }

  ghost predicate Quiet(h: Heap, s: Shape, b: nat, pageFirst: nat, pageLast: nat) {
    b < |s.lists| && forall m | m in s.lists[b] :: Spared(h, m, pageFirst, pageLast)
  }

  lemma RegisteredAt(h: Heap, m: nat, pageFirst: nat, pageLast: nat)
    requires m < |h.nodes| && h.nodes[m].Linked? && LiveAt(h, h.nodes[m].range)
    ensures var q := h.nodes[m].range;
            && q in Registered(h) && Registered(h)[q] == h.ranges[q].watch
            && (!h.ranges[q].watch.Meets(pageFirst, pageLast) ==> Spared(h, m, pageFirst, pageLast))
  {}

  /** The bucket has only lost nodes, and the ranges of the others are what they were. */
  ghost predicate Shrunk(h: Heap, s: Shape, h': Heap, s': Shape, b: nat) {
    && b < |s.lists| && b < |s'.lists|
    && forall m | m in s'.lists[b] :: m in s.lists[b] && SameOwner(h, h', m)
  }

  ghost predicate SameOwner(h: Heap, h': Heap, m: nat) {
    && m < |h.nodes| && m < |h'.nodes| && h.nodes[m].Linked? && h'.nodes[m].Linked?
    && h'.nodes[m].range == h.nodes[m].range
    && LiveAt(h, h.nodes[m].range) && LiveAt(h', h.nodes[m].range)
    && h'.ranges[h.nodes[m].range].watch == h.ranges[h.nodes[m].range].watch
  }

  lemma ShrunkSelf(h: Heap, s: Shape)
    requires Inv(h, s, Whole)
    ensures forall b | 0 <= b < |h.buckets| :: Shrunk(h, s, h, s, b)
  {
    forall b | 0 <= b < |h.buckets| ensures Shrunk(h, s, h, s, b) {
      assert BackOk(h, s, Whole, b);
      assert forall m | m in s.lists[b] :: BackAt(h, s, Whole, b, m);
    }
  }

  lemma ShrunkTwice(h: Heap, s: Shape, h1: Heap, s1: Shape, h2: Heap, s2: Shape)
    requires forall b | 0 <= b < BUCKETS :: Shrunk(h, s, h1, s1, b)
    requires forall b | 0 <= b < BUCKETS :: Shrunk(h1, s1, h2, s2, b)
    ensures forall b | 0 <= b < BUCKETS :: Shrunk(h, s, h2, s2, b)
  {
    forall b | 0 <= b < BUCKETS ensures Shrunk(h, s, h2, s2, b) {
      assert Shrunk(h, s, h1, s1, b) && Shrunk(h1, s1, h2, s2, b);
      forall m | m in s2.lists[b] ensures m in s.lists[b] && SameOwner(h, h2, m) {
        assert m in s1.lists[b];
        assert SameOwner(h1, h2, m) && SameOwner(h, h1, m);
      }
    }
  }

  lemma StaysQuiet(h: Heap, s: Shape, h': Heap, s': Shape, b: nat, pageFirst: nat, pageLast: nat)
    requires Quiet(h, s, b, pageFirst, pageLast) && Shrunk(h, s, h', s', b)
    ensures Quiet(h', s', b, pageFirst, pageLast)
  {
    forall m | m in s'.lists[b] ensures Spared(h', m, pageFirst, pageLast) {
      assert m in s.lists[b] && SameOwner(h, h', m);
      assert Spared(h, m, pageFirst, pageLast);
    }
  }

  lemma HeadOf(h: Heap, s: Shape, b: nat)
    requires Inv(h, s, Whole) && b < |h.buckets|
    ensures h.buckets[b] == At(s.lists[b], 0)
  {
    assert Chained(h.nodes, s.lists[b], h.buckets[b]);
  }

  /** The node the walk stands on: in the bucket, of a registered range, and followed by the rest of the list. */
  lemma NodeInBucket(h: Heap, s: Shape, b: nat, kept: seq<nat>, todo: seq<nat>)
    requires Inv(h, s, Whole) && b < |h.buckets| && |s.lists| == |h.buckets| && s.lists[b] == kept + todo && todo != []
    ensures todo[0] < |h.nodes| && h.nodes[todo[0]].Linked? && LiveAt(h, h.nodes[todo[0]].range)
    ensures h.nodes[todo[0]].next == At(todo[1..], 0)
    ensures forall m | m in kept || m in todo[1..] :: !BelongsTo(h.nodes, m, h.nodes[todo[0]].range)
  {
    var list, n := s.lists[b], todo[0];
    assert Chained(h.nodes, list, h.buckets[b]) && BackOk(h, s, Whole, b);
    assert list[|kept|] == n && n in list;
    assert LinkedAt(h.nodes, list, |kept|) && BackAt(h, s, Whole, b, n);
    if |todo| > 1 {
      assert list[|kept| + 1] == todo[1];
    }
    hide Inv, Chained;
    forall m | m in kept || m in todo[1..] ensures !BelongsTo(h.nodes, m, h.nodes[n].range) {
      OthersDiffer(list, kept, todo, m);
      if BelongsTo(h.nodes, m, h.nodes[n].range) {
        OnlyNode(h, s, Whole, b, n, m);
      }
    }
  }

  lemma OthersDiffer(list: seq<nat>, kept: seq<nat>, todo: seq<nat>, m: nat)
    requires Distinct(list) && list == kept + todo && todo != [] && (m in kept || m in todo[1..])
    ensures m in list && m != todo[0]
  {
    assert list[|kept|] == todo[0];
    if m in kept {
      var i :| 0 <= i < |kept| && kept[i] == m;
      assert list[i] == m;
    } else {
      var i :| 0 <= i < |todo[1..]| && todo[1..][i] == m;
      assert list[|kept| + 1 + i] == m;
    }
  }

  // ----- what one bucket looks like after changes elsewhere -----

  /** The bucket's list is as before, and so are its nodes' owners. */
  ghost predicate BucketKept(h: Heap, s: Shape, h': Heap, s': Shape, b: nat) {
    && b < |s.lists| && b < |s'.lists| && s'.lists[b] == s.lists[b] && OwnersKept(h, h', s'.lists[b])
  }

  /** The bucket's list has lost the nodes of one range. */
  ghost predicate LostRange(h: Heap, s: Shape, h': Heap, s': Shape, q: nat, b: nat) {
    && b < |s.lists| && b < |s'.lists| && s'.lists[b] == Without(h.nodes, s.lists[b], q)
    && OwnersKept(h, h', s'.lists[b])
  }

  ghost predicate OwnersKept(h: Heap, h': Heap, list: seq<nat>) {
    forall m | m in list ::
      m < |h.nodes| && m < |h'.nodes| && h.nodes[m].Linked? && h'.nodes[m].Linked? && h'.nodes[m].range == h.nodes[m].range
  }

  lemma NothingLost(h: Heap, s: Shape)
    requires Inv(h, s, Whole)
    ensures forall b | 0 <= b < |h.buckets| :: BucketKept(h, s, h, s, b)
  {
    forall b | 0 <= b < |h.buckets| ensures BucketKept(h, s, h, s, b) {
      MembersLinked(h.nodes, s.lists[b], h.buckets[b]);
    }
  }

  lemma OwnersKeptTwice(h: Heap, h1: Heap, h2: Heap, list: seq<nat>, list': seq<nat>)
    requires OwnersKept(h, h1, list) && OwnersKept(h1, h2, list') && forall m | m in list' :: m in list
    ensures OwnersKept(h, h2, list')
  {}

  lemma {:induction false} WithoutSame(a: seq<WatchNode>, b: seq<WatchNode>, list: seq<nat>, q: nat)
    requires forall m | m in list :: BelongsTo(a, m, q) == BelongsTo(b, m, q)
    ensures Without(a, list, q) == Without(b, list, q)
  {
    if list != [] {
      assert list[0] in list;
      WithoutSame(a, b, list[1..], q);
    }
  }

  lemma {:induction false} WithoutWithin(nodes: seq<WatchNode>, list: seq<nat>, q: nat)
    ensures forall m | m in Without(nodes, list, q) :: m in list && !BelongsTo(nodes, m, q)
  {
    if list != [] {
      WithoutWithin(nodes, list[1..], q);
    }
  }

  lemma OwnersAfterUnlink(h: Heap, s: Shape, q: nat, k: nat, b: nat, j: nat, b2: nat)
    requires Unlinkable(h, s, q, k, b, j) && b2 < |s.lists|
    ensures OwnersKept(h, UnlinkHeap(h, s.spot[q][k], b), UnlinkShape(s, b, j).lists[b2])
  {
    hide Inv, Bucket;
    var list := UnlinkShape(s, b, j).lists[b2];
    forall m | m in list
      ensures m < |h.nodes| && h.nodes[m].Linked? && UnlinkHeap(h, s.spot[q][k], b).nodes[m].Linked?
              && UnlinkHeap(h, s.spot[q][k], b).nodes[m].range == h.nodes[m].range
    {
      StillLinked(h, s, q, k, b, j, b2, m);
    }
  }

  lemma OneMoreLost(before: Heap, was: Shape, h: Heap, s: Shape, q: nat, k: nat, bucket: nat, j: nat, b: nat)
    requires Unlinkable(h, s, q, k, bucket, j) && b < |s.lists| == |was.lists|
    requires b < bucket ==> b >= bucket - k ==> LostRange(before, was, h, s, q, b)
    requires !(bucket - k <= b < bucket) ==> BucketKept(before, was, h, s, b)
    ensures var h', s' := UnlinkHeap(h, s.spot[q][k], bucket), UnlinkShape(s, bucket, j);
            if bucket - k <= b <= bucket then LostRange(before, was, h', s', q, b) else BucketKept(before, was, h', s', b)
  {
    var h', s' := UnlinkHeap(h, s.spot[q][k], bucket), UnlinkShape(s, bucket, j);
    assert |s'.lists| == |s.lists|;
    UnlinkRemoves(h, s, q, k, bucket, j);
    OwnersAfterUnlink(h, s, q, k, bucket, j, b);
    hide Inv, UnlinkHeap, UnlinkShape;
    if b == bucket {
      assert forall m | m in s.lists[b] :: BelongsTo(before.nodes, m, q) == BelongsTo(h.nodes, m, q);
      WithoutSame(before.nodes, h.nodes, s.lists[b], q);
      WithoutWithin(h.nodes, s.lists[b], q);
    }
    OwnersKeptTwice(before, h, h', s.lists[b], s'.lists[b]);
  }

  lemma FirstNode(h: Heap, s: Shape, q: nat)
    requires Inv(h, s, Whole) && LiveAt(h, q) && |s.spot| == |h.ranges|
    ensures |s.spot[q]| > 0 && h.ranges[q].nodeFirst == s.spot[q][0] && h.perBucket > 0
    ensures Placed(h.ranges[q].watch, h.perBucket, |h.buckets|)
    ensures |s.spot[q]| == Buckets(h.ranges[q].watch, h.perBucket)
  {
    assert SpotOk(h, s, Whole, q);
  }

  lemma NextOfRange(h: Heap, s: Shape, q: nat, k: nat)
    requires LiveAt(h, q) && |s.spot| == |h.ranges| && k < |s.spot[q]| && Inv(h, s, Partial(q, k, |s.spot[q]|))
    ensures s.spot[q][k] < |h.nodes| && h.nodes[s.spot[q][k]].Linked?
    ensures h.nodes[s.spot[q][k]].rangeNext == if k + 1 < |s.spot[q]| then s.spot[q][k + 1] else NIL
  {
    assert SpotOk(h, s, Partial(q, k, |s.spot[q]|), q) && NodeOk(h, s, Partial(q, k, |s.spot[q]|), q, k);
  }

  /** Once all its nodes are gone, no bucket holds a node of the range. */
  lemma AllLost(before: Heap, was: Shape, h: Heap, s: Shape, h': Heap, s': Shape, q: nat, b: nat)
    requires Inv(before, was, Whole) && LiveAt(before, q) && |was.spot| == |before.ranges| && b < |before.buckets|
    requires h'.nodes == h.nodes && s'.lists == s.lists
    requires var w := before.ranges[q].watch;
             before.perBucket > 0 && Placed(w, before.perBucket, |before.buckets|)
             && if Bucket(w.first, before.perBucket) <= b < Bucket(w.first, before.perBucket) + |was.spot[q]|
                then LostRange(before, was, h, s, q, b) else BucketKept(before, was, h, s, b)
    ensures LostRange(before, was, h', s', q, b)
  {
    var w := before.ranges[q].watch;
    assert SpotOk(before, was, Whole, q) && BackOk(before, was, Whole, b);
    if !(Bucket(w.first, before.perBucket) <= b < Bucket(w.first, before.perBucket) + |was.spot[q]|) {
      forall m | m in was.lists[b] ensures !BelongsTo(before.nodes, m, q) {
        assert BackAt(before, was, Whole, b, m);
      }
      WithoutNone(before.nodes, was.lists[b], q);
    }
  }

  lemma ReadyToLink(h: Heap, s: Shape, q: nat, k: nat, n: nat, b: nat, previous: int)
    requires LiveAt(h, q) && h.perBucket > 0 && |s.spot| == |h.ranges| && |s.lists| == |h.buckets|
    requires Inv(h, s, Partial(q, 0, k)) && Loose(h, s, n) && k < |s.spot[q]|
    requires b == Bucket(h.ranges[q].watch.first, h.perBucket) + k
    requires previous == if k == 0 then NIL else s.spot[q][k - 1]
    ensures Linkable(h, s, q, k, n, b, previous)
  {
    var part := Partial(q, 0, k);
    assert SpotOk(h, s, part, q);
    assert k > 0 ==> NodeOk(h, s, part, q, k - 1);
    assert b < |h.buckets|;
    assert Chained(h.nodes, s.lists[b], h.buckets[b]);
    hide Inv, SpotOk, Bucket;
    MembersLinked(h.nodes, s.lists[b], h.buckets[b]);
    assert s.lists[b] != [] ==> s.lists[b][0] in s.lists[b];
    if k > 0 {
      assert s.spot[q][k - 1] in s.lists[Bucket(h.ranges[q].watch.first, h.perBucket) + (k - 1)];
    }
  }

  lemma PagesPlaced(start: nat, last: nat, pageBytes: nat, perBucket: nat, data: int)
    requires pageBytes > 0 && perBucket > 0 && start <= last < BUFFER_BYTES
    requires BUFFER_BYTES == BUCKETS * (perBucket * pageBytes)
    ensures Placed(Watch(data, start / pageBytes, last / pageBytes), perBucket, BUCKETS)
  {
    DivBounds(last, pageBytes);
    DivCompare(start, last / pageBytes, pageBytes);
    var first, final := start / pageBytes, last / pageBytes;
    DivBounds(final, perBucket);
    DivCompare(first, final / perBucket, perBucket);
    DivCompare(last, BUCKETS * perBucket, pageBytes);
    assert BUCKETS * perBucket * pageBytes == BUFFER_BYTES;
    DivCompare(final, BUCKETS, perBucket);
  }

  /** The registered ranges by handle. */
  ghost function Registered(h: Heap): map<nat, Watch> {
    map q: nat | 0 <= q < |h.ranges| && LiveAt(h, q) :: h.ranges[q].watch
  }

  lemma PopFreeRange(ranges: seq<WatchRange>, free: seq<nat>, head: int)
    requires FreeRangesOk(ranges, free, head) && head != NIL
    ensures free != [] && head == free[0] && 0 <= head < |ranges| && ranges[head].FreeRange?
    ensures FreeRangesOk(ranges, free[1..], ranges[head].nextFree) && head !in free[1..]
  {}

  lemma MoreRanges(ranges: seq<WatchRange>, ranges': seq<WatchRange>, free: seq<nat>, head: int)
    requires FreeRangesOk(ranges, free, head) && |ranges| <= |ranges'|
    requires forall r | 0 <= r < |ranges| :: ranges'[r] == ranges[r]
    ensures FreeRangesOk(ranges', free, head)
  {}

  lemma InvParts(h: Heap, s: Shape, part: Part)
    requires Inv(h, s, part)
    ensures |s.spot| == |h.ranges| && |s.lists| == |h.buckets| && h.perBucket > 0
    ensures FreeRangesOk(h.ranges, s.freeRanges, h.rangeFree)
  {}

  lemma TakenRange(ranges: seq<WatchRange>, ranges': seq<WatchRange>, free: seq<nat>, head: int, q: nat)
    requires FreeRangesOk(ranges, free, head) && q !in free && q < |ranges| == |ranges'|
    requires forall r | 0 <= r < |ranges| && r != q :: ranges'[r] == ranges[r]
    ensures FreeRangesOk(ranges', free, head)
  {}

  /** After one call the walked bucket lost just the node the walk stood on. */
  lemma FiredList(h: Heap, s: Shape, h': Heap, s': Shape, b: nat, kept: seq<nat>, todo: seq<nat>)
    requires b < |s.lists| && b < |s'.lists| && s.lists[b] == kept + todo && todo != []
    requires todo[0] < |h.nodes| && h.nodes[todo[0]].Linked?
    requires forall m | m in kept || m in todo[1..] :: !BelongsTo(h.nodes, m, h.nodes[todo[0]].range)
    requires LostRange(h, s, h', s', h.nodes[todo[0]].range, b)
    ensures s'.lists[b] == kept + todo[1..]
  {
    assert kept + todo == kept + [todo[0]] + todo[1..];
    WithoutSplit(h.nodes, kept, todo[0], todo[1..], h.nodes[todo[0]].range);
  }

  lemma SparedStays(h: Heap, s: Shape, h': Heap, s': Shape, b: nat, kept: seq<nat>, pageFirst: nat, pageLast: nat)
    requires Shrunk(h, s, h', s', b) && forall m | m in kept :: m in s'.lists[b] && Spared(h, m, pageFirst, pageLast)
    ensures forall m | m in kept :: Spared(h', m, pageFirst, pageLast)
  {
    forall m | m in kept ensures Spared(h', m, pageFirst, pageLast) {
      assert m in s'.lists[b] && SameOwner(h, h', m);
      assert Spared(h, m, pageFirst, pageLast);
    }
  }

  lemma LostShrinks(h: Heap, s: Shape, h': Heap, s': Shape, q: nat)
    requires Inv(h, s, Whole) && |h.buckets| == BUCKETS && Registered(h') == Registered(h) - {q}
    requires forall b | 0 <= b < BUCKETS :: LostRange(h, s, h', s', q, b)
    ensures forall b | 0 <= b < BUCKETS :: Shrunk(h, s, h', s', b)
  {
    forall b | 0 <= b < BUCKETS ensures Shrunk(h, s, h', s', b) {
      assert BackOk(h, s, Whole, b) && LostRange(h, s, h', s', q, b);
      hide Inv;
      WithoutWithin(h.nodes, s.lists[b], q);
      forall m | m in s'.lists[b] ensures m in s.lists[b] && SameOwner(h, h', m) {
        assert BackAt(h, s, Whole, b, m);
        assert h.nodes[m].range in Registered(h);
        assert h.nodes[m].range in Registered(h');
      }
    }
  }

  /** The test of the walk is the sharing of a page, for every registered range. */
  lemma RegisteredShare(h: Heap, s: Shape, pageFirst: nat, pageLast: nat)
    requires Inv(h, s, Whole) && pageFirst <= pageLast
    ensures forall q | q in Registered(h) ::
      Registered(h)[q].Meets(pageFirst, pageLast) <==> Registered(h)[q].Shares(pageFirst, pageLast)
  {
    forall q | q in Registered(h)
      ensures Registered(h)[q].Meets(pageFirst, pageLast) <==> Registered(h)[q].Shares(pageFirst, pageLast)
    {
      assert SpotOk(h, s, Whole, q);
      MeetsIffShares(Registered(h)[q], pageFirst, pageLast);
    }
  }

  /** With every bucket of the span quiet, no registered range meets the pages. */
  lemma AllQuiet(h: Heap, s: Shape, pageFirst: nat, pageLast: nat)
    requires Inv(h, s, Whole) && h.perBucket > 0 && pageFirst <= pageLast
    requires forall b | Bucket(pageFirst, h.perBucket) <= b <= Bucket(pageLast, h.perBucket) ::
      Quiet(h, s, b, pageFirst, pageLast)
    ensures forall q | q in Registered(h) :: !Registered(h)[q].Meets(pageFirst, pageLast)
  {
    forall q | q in Registered(h) ensures !Registered(h)[q].Meets(pageFirst, pageLast) {
      assert SpotOk(h, s, Whole, q);
      hide Inv, SpotOk, Quiet;
      if Registered(h)[q].Meets(pageFirst, pageLast) {
        var b, m := MeetingNode(h, s, q, pageFirst, pageLast);
      }
    }
  }

  /** A registered range that meets the pages has a node in one of their buckets. */
  lemma MeetingNode(h: Heap, s: Shape, q: nat, pageFirst: nat, pageLast: nat) returns (b: nat, m: nat)
    requires |s.spot| == |h.ranges| && |s.lists| == |h.buckets| && h.perBucket > 0 && pageFirst <= pageLast
    requires LiveAt(h, q) && SpotOk(h, s, Whole, q) && h.ranges[q].watch.Meets(pageFirst, pageLast)
    ensures Bucket(pageFirst, h.perBucket) <= b <= Bucket(pageLast, h.perBucket) && b < |s.lists|
    ensures m in s.lists[b] && m < |h.nodes| && h.nodes[m].Linked? && h.nodes[m].range == q
    ensures !Quiet(h, s, b, pageFirst, pageLast)
  {
    var w := h.ranges[q].watch;
    MeetingBucket(w, pageFirst, pageLast, h.perBucket);
    b := Bucket(if w.first > pageFirst then w.first else pageFirst, h.perBucket);
    m := s.spot[q][b - Bucket(w.first, h.perBucket)];
    assert NodeOk(h, s, Whole, q, b - Bucket(w.first, h.perBucket));
    assert !Spared(h, m, pageFirst, pageLast);
  }

  lemma MeetingBucket(w: Watch, pageFirst: nat, pageLast: nat, perBucket: nat)
    requires perBucket > 0 && w.Meets(pageFirst, pageLast) && w.first <= w.last && pageFirst <= pageLast
    ensures var b := Bucket(if w.first > pageFirst then w.first else pageFirst, perBucket);
            && Bucket(w.first, perBucket) <= b <= Bucket(w.last, perBucket)
            && Bucket(pageFirst, perBucket) <= b <= Bucket(pageLast, perBucket)
  {
    var page := if w.first > pageFirst then w.first else pageFirst;
    BucketOrder(w.first, page, perBucket);
    BucketOrder(pageFirst, page, perBucket);
    BucketOrder(page, w.last, perBucket);
    BucketOrder(page, pageLast, perBucket);
  }

  lemma BucketOrder(a: nat, b: nat, perBucket: nat)
    requires perBucket > 0 && a <= b
    ensures Bucket(a, perBucket) <= Bucket(b, perBucket)
  {
    DivBounds(b, perBucket);
    DivCompare(a, b / perBucket, perBucket);
  }

  lemma CalledAll(before: map<nat, Watch>, now: map<nat, Watch>, fired: seq<Fired>, pageFirst: nat, pageLast: nat)
    requires Called(before, now, fired, pageFirst, pageLast)
    requires forall q | q in now :: !now[q].Meets(pageFirst, pageLast)
    ensures forall i, j | 0 <= i < j < |fired| :: fired[i].handle != fired[j].handle
    ensures forall q :: (exists i :: 0 <= i < |fired| && fired[i].handle == q)
                        <==> q in before && before[q].Meets(pageFirst, pageLast)
    ensures forall i | 0 <= i < |fired| :: fired[i].handle in before && fired[i].watch == before[fired[i].handle]
    ensures now == map q | q in before && !before[q].Meets(pageFirst, pageLast) :: before[q]
  {
    forall q ensures q in Handles(fired) <==> q in before && before[q].Meets(pageFirst, pageLast) {
      if q in before && q !in Handles(fired) {
        assert q in now;
      }
    }
  }

  /**
   A registered range has a node in a bucket exactly when it spans the bucket, and never two.
   */
  lemma OneNodePerBucket(h: Heap, s: Shape, q: nat, b: nat)
    requires Inv(h, s, Whole) && |s.lists| == |h.buckets| && LiveAt(h, q) && b < |h.buckets| && h.perBucket > 0
    ensures (exists m :: m in s.lists[b] && BelongsTo(h.nodes, m, q))
            <==> Bucket(h.ranges[q].watch.first, h.perBucket) <= b <= Bucket(h.ranges[q].watch.last, h.perBucket)
    ensures forall m, m' | m in s.lists[b] && m' in s.lists[b] && BelongsTo(h.nodes, m, q) && BelongsTo(h.nodes, m', q) ::
      m == m'
  {
    var w := h.ranges[q].watch;
    assert SpotOk(h, s, Whole, q) && BackOk(h, s, Whole, b);
    if Bucket(w.first, h.perBucket) <= b <= Bucket(w.last, h.perBucket) {
      assert NodeOk(h, s, Whole, q, b - Bucket(w.first, h.perBucket));
      assert BelongsTo(h.nodes, s.spot[q][b - Bucket(w.first, h.perBucket)], q);
    }
    hide Inv, SpotOk, NodeOk, Bucket;
    forall m | m in s.lists[b] && BelongsTo(h.nodes, m, q) ensures BackAt(h, s, Whole, b, m) {}
  }

  /** What is free is in no bucket and not registered. */
  lemma FreeIsApart(h: Heap, s: Shape, b: nat)
    requires Inv(h, s, Whole) && b < |s.lists|
    ensures forall m | m in s.free :: m !in s.lists[b]
    ensures forall q | q in s.freeRanges :: q !in Registered(h)
  {
    MembersLinked(h.nodes, s.lists[b], h.buckets[b]);
  }

  /** No node is lost: each is on the free list or in exactly one bucket, and each range is free or registered. */
  lemma NothingLeaks(h: Heap, s: Shape, n: nat, q: nat)
    requires Inv(h, s, Whole) && NoneLost(h, s, NIL) && n < |h.nodes| && q < |h.ranges|
    ensures n in s.free <==> forall b: nat | b < |s.lists| :: n !in s.lists[b]
    ensures forall b: nat, b': nat | b < |s.lists| && b' < |s.lists| && n in s.lists[b] && n in s.lists[b'] :: b == b'
    ensures q in s.freeRanges <==> q !in Registered(h)
  {
    assert Accounted(s, n);
    forall b: nat | b < |s.lists| ensures n in s.free ==> n !in s.lists[b] {
      FreeIsApart(h, s, b);
    }
    forall b: nat, b': nat | b < |s.lists| && b' < |s.lists| && n in s.lists[b] && n in s.lists[b'] ensures b == b' {
      assert AtHome(s, b) && AtHome(s, b');
    }
    assert LiveAt(h, q) <==> q in Registered(h);
  }
}
