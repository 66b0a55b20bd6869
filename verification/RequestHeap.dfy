/** What the queue knows of a waiting request, and the order it serves them in. */
module Requests {
  datatype Request = Request(id: nat, priority: int, enqueuedAt: real)

  /** The order of the queue: priority first, then age. */
  predicate Before(a: Request, b: Request) {
    if a.priority != b.priority then a.priority < b.priority else a.enqueuedAt < b.enqueuedAt
  }

  /** No waiting request has a smaller priority number than `q`, or the same and came earlier. */
  predicate MostUrgent(q: Request, waiting: set<Request>) {
    && q in waiting
    && forall r :: r in waiting ==>
         q.priority < r.priority || (q.priority == r.priority && q.enqueuedAt <= r.enqueuedAt)
  }
}

/** The priority heap of waiting requests (internal/ratelimit/queue.go), a binary heap kept in
    one slice in which every request also knows its own position.
  */
module RequestHeap {
  import opened Requests

  class QueuedRequest {
    const req: Request
    var index: int

    constructor (req: Request)
      ensures this.req == req
    {
      this.req := req;
      index := 0;
    }
  }

  /** The request at `i` does not come before its parent. */
  predicate InOrder(h: seq<QueuedRequest>, i: int)
    requires 0 <= i < |h|
  {
    i > 0 ==> !Before(h[i].req, h[(i - 1) / 2].req)
  }

  predicate Ordered(h: seq<QueuedRequest>) {
    forall i :: 0 <= i < |h| ==> InOrder(h, i)
  }

  predicate OrderedUpTo(h: seq<QueuedRequest>, n: int)
    requires 0 <= n <= |h|
  {
    forall i :: 0 <= i < n ==> InOrder(h, i)
  }

  lemma OrderedPrefix(h: seq<QueuedRequest>, n: int)
    requires 0 <= n <= |h| && OrderedUpTo(h, n)
    ensures Ordered(h[..n])
  {
    forall i | 0 <= i < n
      ensures InOrder(h[..n], i)
    {
      assert InOrder(h, i);
    }
  }

  /** The children of `k` do not come before the parent of `k`. */
  predicate Bypass(h: seq<QueuedRequest>, n: int, k: int)
    requires 0 <= k < n <= |h|
  {
    k > 0 ==> forall j :: 0 < j < n && (j - 1) / 2 == k ==> !Before(h[j].req, h[(k - 1) / 2].req)
  }

  /** Among the first `n`, only the edges at `k` may be out of order. */
  predicate Hole(h: seq<QueuedRequest>, n: int, k: int)
    requires 0 <= k < n <= |h|
  {
    && (forall j :: 0 <= j < n && j != k && (j - 1) / 2 != k ==> InOrder(h, j))
    && Bypass(h, n, k)
  }

  function Swapped(h: seq<QueuedRequest>, i: int, j: int): seq<QueuedRequest>
    requires 0 <= i < |h| && 0 <= j < |h|
  {
    h[i := h[j]][j := h[i]]
  }

  function Members(h: seq<QueuedRequest>): set<QueuedRequest> {
    set q | q in h
  }

  ghost predicate SameMembers(g: seq<QueuedRequest>, h: seq<QueuedRequest>) {
    && (forall i :: 0 <= i < |g| ==> g[i] in h)
    && (forall i :: 0 <= i < |h| ==> h[i] in g)
  }

  /** The root of a heap is before, or level with, everything in it: no other has a smaller priority
      number, and none of the same priority is older. */
  lemma {:induction false} RootIsLeast(h: seq<QueuedRequest>, i: int)
    requires Ordered(h) && 0 <= i < |h|
    ensures !Before(h[i].req, h[0].req)
    ensures var q, r := h[0].req, h[i].req;
            q.priority < r.priority || (q.priority == r.priority && q.enqueuedAt <= r.enqueuedAt)
    decreases i
  {
    if i > 0 {
      assert InOrder(h, i);
      RootIsLeast(h, (i - 1) / 2);
    }
  }

  /** Moving the last element into position `i` of a heap leaves one hole, at `i`. */
  lemma LastIntoHole(h: seq<QueuedRequest>, i: int)
    requires Ordered(h) && 0 <= i < |h| - 1
    ensures Hole(Swapped(h, i, |h| - 1), |h| - 1, i)
  {
    var n, s := |h| - 1, Swapped(h, i, |h| - 1);
    forall j | 0 <= j < n && j != i && (j - 1) / 2 != i
      ensures InOrder(s, j)
    {
      assert InOrder(h, j);
    }
    forall j | i > 0 && 0 < j < n && (j - 1) / 2 == i
      ensures !Before(s[j].req, s[(i - 1) / 2].req)
    {
      assert InOrder(h, j) && InOrder(h, i);
    }
  }

  /** Swapping a misplaced child up with its parent moves the hole one level up. */
  lemma UpStep(h: seq<QueuedRequest>, n: int, j: int)
    requires 0 < j < n <= |h| && Bypass(h, n, j) && !InOrder(h, j)
    requires forall k :: 0 <= k < n && k != j ==> InOrder(h, k)
    ensures var i := (j - 1) / 2; var s := Swapped(h, i, j);
            && Bypass(s, n, i)
            && forall k :: 0 <= k < n && k != i ==> InOrder(s, k)
  {
    var i := (j - 1) / 2;
    var s := Swapped(h, i, j);
    forall k | 0 <= k < n && k != i
      ensures InOrder(s, k)
    {
      assert k != j ==> InOrder(h, k);
    }
    forall k | i > 0 && 0 < k < n && (k - 1) / 2 == i
      ensures !Before(s[k].req, s[(i - 1) / 2].req)
    {
      assert InOrder(h, i);
      assert k != j ==> InOrder(h, k);
    }
  }

  /** What `Down` keeps while the misplaced element, first at `i0`, has sunk to `i`. */
  predicate Sinking(h: seq<QueuedRequest>, n: int, i0: int, i: int)
    requires 0 <= i0 <= i < n <= |h|
  {
    && (forall j :: 0 <= j < n && (j - 1) / 2 != i && (j != i0 || i > i0) ==> InOrder(h, j))
    && Bypass(h, n, i)
  }

  predicate LeastChild(h: seq<QueuedRequest>, n: int, i: int, j: int)
    requires 0 <= i < n <= |h|
  {
    && 0 < j < n && (j - 1) / 2 == i
    && forall k :: 0 < k < n && (k - 1) / 2 == i ==> !Before(h[k].req, h[j].req)
  }

  /** The smaller of the children of `i`. */
  method SmallerChild(h: seq<QueuedRequest>, n: int, i: int) returns (j: int)
    requires 0 <= i < n <= |h| && 2 * i + 1 < n
    ensures LeastChild(h, n, i, j)
  {
    var j1 := 2 * i + 1;
    j := j1;
    if j1 + 1 < n && Before(h[j1 + 1].req, h[j1].req) {
      j := j1 + 1;
    }
  }

  /** Once no child comes before it, the sinking element has arrived. */
  lemma Settles(h: seq<QueuedRequest>, n: int, i0: int, i: int)
    requires 0 <= i0 <= i < n <= |h| && Sinking(h, n, i0, i)
    requires forall k :: 0 < k < n && (k - 1) / 2 == i ==> !Before(h[k].req, h[i].req)
    ensures forall k :: 0 <= k < n && (i > i0 || k != i0) ==> InOrder(h, k)
  {
  }

  lemma DownStep(h: seq<QueuedRequest>, n: int, i0: int, i: int, j: int)
    requires 0 <= i0 <= i < n <= |h| && Sinking(h, n, i0, i)
    requires LeastChild(h, n, i, j) && Before(h[j].req, h[i].req)
    ensures Sinking(Swapped(h, i, j), n, i0, j)
  {
    var s := Swapped(h, i, j);
    forall k | 0 <= k < n && (k - 1) / 2 != j
      ensures InOrder(s, k)
    {
      assert (k - 1) / 2 != i && (k != i0 || i > i0) ==> InOrder(h, k);
    }
    forall k | 0 < k < n && (k - 1) / 2 == j
      ensures !Before(s[k].req, s[(j - 1) / 2].req)
    {
      assert InOrder(h, k);
    }
  }

  class Heap {
    var heap: seq<QueuedRequest>
    const maxDepth: int

    ghost predicate Indexed()
      reads this, heap
    {
      forall i :: 0 <= i < |heap| ==> heap[i].index == i
    }

    ghost predicate Valid()
      reads this, heap
    {
      Indexed() && Ordered(heap) && (heap != [] ==> |heap| <= maxDepth)
    }

    ghost function Waiting(): set<QueuedRequest>
      reads this
    {
      Members(heap)
    }

    constructor (maxDepth: int)
      ensures Valid() && heap == [] && this.maxDepth == maxDepth
    {
      heap := [];
      this.maxDepth := maxDepth;
    }

    method Swap(i: int, j: int)
      requires 0 <= i < |heap| && 0 <= j < |heap| && Indexed()
      modifies this, heap
      ensures heap == old(Swapped(heap, i, j)) && Indexed()
    {
      var a, b := heap[i], heap[j];
      heap := heap[i := b][j := a];
      heap[i].index := i;
      heap[j].index := j;
    }

    method Up(j0: int, ghost n: int)
      requires 0 <= j0 < n <= |heap| && Indexed() && Bypass(heap, n, j0)
      requires forall k :: 0 <= k < n && k != j0 ==> InOrder(heap, k)
      modifies this, heap
      ensures Indexed() && |heap| == old(|heap|) && SameMembers(heap, old(heap))
      ensures forall k :: 0 <= k < n ==> InOrder(heap, k)
      ensures heap[n..] == old(heap[n..])
    {
      var j := j0;
      while true
        invariant 0 <= j < n <= |heap| == old(|heap|) && Indexed()
        invariant SameMembers(heap, old(heap)) && heap[n..] == old(heap[n..])
        invariant Bypass(heap, n, j)
        invariant forall k :: 0 <= k < n && k != j ==> InOrder(heap, k)
        decreases j
      {
        if j == 0 || !Before(heap[j].req, heap[(j - 1) / 2].req) {
          break;
        }
        UpStep(heap, n, j);
        SwapKeepsMembers(heap, (j - 1) / 2, j);
        Swap((j - 1) / 2, j);
        j := (j - 1) / 2;
      }
    }

    method Down(i0: int, n: int) returns (moved: bool)
      requires 0 <= i0 < n <= |heap| && Indexed() && Hole(heap, n, i0)
      modifies this, heap
      ensures Indexed() && |heap| == old(|heap|) && SameMembers(heap, old(heap))
      ensures heap[n..] == old(heap[n..])
      ensures forall k :: 0 <= k < n && (moved || k != i0) ==> InOrder(heap, k)
      ensures !moved ==> heap == old(heap)
    {
      var i := i0;
      while true
        invariant i0 <= i < n <= |heap| == old(|heap|) && Indexed()
        invariant SameMembers(heap, old(heap)) && heap[n..] == old(heap[n..])
        invariant Sinking(heap, n, i0, i)
        invariant i == i0 ==> heap == old(heap)
        decreases n - i
      {
        if 2 * i + 1 >= n {
          break;
        }
        var j := SmallerChild(heap, n, i);
        if !Before(heap[j].req, heap[i].req) {
          break;
        }
        DownStep(heap, n, i0, i, j);
        SwapKeepsMembers(heap, i, j);
        Swap(i, j);
        i := j;
      }
      Settles(heap, n, i0, i);
      moved := i > i0;
    }

    /** heap.Push: refused when the queue is full. */
    method Push(q: QueuedRequest) returns (ok: bool)
      requires Valid() && q !in heap
      modifies this, heap, q
      ensures Valid()
      ensures ok == (old(|heap|) < maxDepth)
      ensures ok ==> Waiting() == old(Waiting()) + {q} && |heap| == old(|heap|) + 1
      ensures !ok ==> heap == old(heap) && forall r :: r in Waiting() + {q} ==> r.index == old(r.index)
    {
      if |heap| >= maxDepth {
        return false;
      }
      q.index := |heap|;
      heap := heap + [q];
      assert forall k :: 0 <= k < |heap| - 1 ==> InOrder(old(heap), k) ==> InOrder(heap, k);
      ghost var grown := heap;
      Up(|heap| - 1, |heap|);
      assert forall r :: r in heap <==> r in grown;
      ok := true;
    }

    /** The slice pop at the end of heap.Pop and heap.Remove. */
    method DropLast() returns (q: QueuedRequest)
      requires heap != [] && Indexed()
      modifies this, heap
      ensures q == old(heap[|heap| - 1]) && q.index == -1
      ensures heap == old(heap[..|heap| - 1]) && Indexed()
    {
      var n := |heap|;
      q := heap[n - 1];
      q.index := -1;
      heap := heap[..n - 1];
    }

    /** heap.Pop: takes out a request that none of the waiting ones comes before: each has a larger
        priority number, or the same and came no earlier. It is heap.Remove at the root, where the
        upward repair has nothing to do. */
    method Pop() returns (q: QueuedRequest)
      requires Valid() && heap != []
      modifies this, heap
      ensures Valid()
      ensures q in old(Waiting()) && q.index == -1
      ensures forall r :: r in old(Waiting()) ==>
                || q.req.priority < r.req.priority
                || (q.req.priority == r.req.priority && q.req.enqueuedAt <= r.req.enqueuedAt)
      ensures Waiting() == old(Waiting()) - {q} && |heap| == old(|heap|) - 1
    {
      forall i | 0 <= i < |heap|
        ensures var q, r := heap[0].req, heap[i].req;
                q.priority < r.priority || (q.priority == r.priority && q.enqueuedAt <= r.enqueuedAt)
      {
        RootIsLeast(heap, i);
      }
      q := RemoveAt(0);
    }

    /** The first half of heap.Remove: swap with the last element, then repair in one
        direction or the other. */
    method MoveToEnd(i: int)
      requires Indexed() && Ordered(heap) && 0 <= i < |heap|
      modifies this, heap
      ensures Indexed() && |heap| == old(|heap|) && SameMembers(heap, old(heap))
      ensures heap[|heap| - 1] == old(heap[i]) && OrderedUpTo(heap, |heap| - 1)
    {
      var n := |heap| - 1;
      if n != i {
        LastIntoHole(heap, i);
        SwapKeepsMembers(heap, i, n);
        Swap(i, n);
        var moved := Down(i, n);
        if !moved {
          Up(i, n);
        }
        assert heap[n..][0] == heap[n];
      }
    }

    /** heap.Remove. */
    method RemoveAt(i: int) returns (q: QueuedRequest)
      requires Valid() && 0 <= i < |heap|
      modifies this, heap
      ensures Valid()
      ensures q == old(heap[i]) && q.index == -1
      ensures Waiting() == old(Waiting()) - {q} && |heap| == old(|heap|) - 1
    {
      MoveToEnd(i);
      ghost var h := heap;
      OrderedPrefix(h, |h| - 1);
      assert forall j, k :: 0 <= j < k < |h| ==> h[j].index != h[k].index;
      q := DropLast();
      assert heap == h[..|h| - 1];
      DropLastMembers(old(heap), h, q);
    }

    /** remove: takes out exactly this request, or nothing if it is no longer waiting. */
    method Remove(q: QueuedRequest)
      requires Valid()
      modifies this, heap
      ensures Valid()
      ensures Waiting() == old(Waiting()) - {q}
      ensures q in old(heap) ==> q.index == -1 && |heap| == old(|heap|) - 1
      ensures q !in old(heap) ==> heap == old(heap) && forall r :: r in heap ==> r.index == old(r.index)
    {
      if 0 <= q.index < |heap| && heap[q.index] == q {
        var _ := RemoveAt(q.index);
      }
    }
  }

  lemma DropLastMembers(before: seq<QueuedRequest>, h: seq<QueuedRequest>, q: QueuedRequest)
    requires h != [] && SameMembers(h, before) && h[|h| - 1] == q
    requires forall j, k :: 0 <= j < k < |h| ==> h[j] != h[k]
    ensures Members(h[..|h| - 1]) == Members(before) - {q}
  {
    var n := |h| - 1;
    forall r | r in before && r != q
      ensures r in h[..n]
    {
      var k :| 0 <= k < |before| && before[k] == r;
      assert before[k] in h;
      var j :| 0 <= j < |h| && h[j] == r;
      assert h[..n][j] == r;
    }
    forall r | r in h[..n]
      ensures r in before && r != q
    {
      var t := h[..n];
      var j :| 0 <= j < n && t[j] == r;
      assert h[j] in before;
    }
  }

  lemma SwapKeepsMembers(h: seq<QueuedRequest>, i: int, j: int)
    requires 0 <= i < |h| && 0 <= j < |h|
    ensures SameMembers(h, Swapped(h, i, j))
  {
    var s := Swapped(h, i, j);
    forall k | 0 <= k < |h|
      ensures h[k] in s && s[k] in h
    {
      var k' := if k == i then j else if k == j then i else k;
      assert s[k'] == h[k] && h[k'] == s[k];
    }
  }
}
