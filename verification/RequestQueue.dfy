/** The locked sections of the request queue (internal/ratelimit/queue.go), on the heap and the
    bucket themselves: what `Push` and `Check`/`Pop` of module Admission take as single steps.
  */
module RequestQueues {
  import opened Requests
  import opened RequestHeap
  import A = Admission
  import B = TokenBuckets

  /** What one turn of the dispatcher's loop does under the mutex. */
  datatype Turn =
    | Empty
    | Popped(q: QueuedRequest)
    | Sleep(seconds: real)

  /** The longest the dispatcher sleeps before it looks again. */
  const MAX_WAIT: real := 0.1

  /** A bucket at time `now` as every run leaves it, able to hold a whole token. */
  predicate Regular(b: B.Bucket, now: real) {
    b.lastRefill <= now && b.tokens <= b.maxTokens && 1.0 <= b.maxTokens
  }

  /** What Enqueue does to the waiting requests: refuses at the depth, else adds this one. */
  predicate Enqueued(before: set<Request>, maxDepth: int, req: Request, ok: bool, after: set<Request>) {
    ok == (|before| < maxDepth) && after == if ok then before + {req} else before
  }

  /** What a turn does to them: it parks if there are none, takes out a most urgent one if the bucket
      allows, and sleeps otherwise. */
  predicate Turned(before: set<Request>, allowed: bool, turn: Turn, after: set<Request>) {
    match turn
    case Empty => before == {} == after
    case Popped(q) => allowed && MostUrgent(q.req, before) && after == before - {q.req}
    case Sleep(_) => before != {} && !allowed && after == before
  }

  /** Enqueue is the protocol's Push. */
  lemma PushIsEnqueue(s: A.State, req: Request, ok: bool, after: set<Request>)
    requires A.Enabled(s, A.Push(req.id, req.priority)) && req.enqueuedAt == s.now
    requires Enqueued(s.heap, s.maxDepth, req, ok, after)
    ensures var t := A.Next(s, A.Push(req.id, req.priority));
            t.heap == after && A.At(t, req.id, if ok then A.Pushed(req) else A.Refused)
  {
  }

  /** The dispatcher's turn is the protocol's Check, and Pop if it comes to that. */
  lemma TurnIsCheckAndPop(s: A.State, allowed: bool, turn: Turn, after: set<Request>)
    requires s.dispatcher == A.Locked && Turned(s.heap, allowed, turn, after)
    ensures var t := A.Next(s, A.Check(allowed));
            match turn
            case Empty => t.dispatcher == A.Parked && t.heap == after
            case Sleep(_) => t.dispatcher == A.Sleeping && t.heap == after
            case Popped(q) => A.Enabled(t, A.Pop(q.req)) && A.Next(t, A.Pop(q.req)).heap == after
  {
  }

  class RequestQueue {
    const heap: Heap
    const bucket: B.TokenBucket

    /** The heap is in order and every waiting request has an id of its own. */
    ghost predicate Valid()
      reads heap, heap.heap
    {
      heap.Valid() && OwnIds(heap.Waiting())
    }

    /** The waiting requests, as the protocol sees them. */
    ghost function Waiting(): set<Request>
      reads heap
    {
      RequestsOf(heap.Waiting())
    }

    constructor (bucket: B.TokenBucket, maxDepth: int)
      ensures Valid() && Waiting() == {} && this.bucket == bucket
      ensures fresh(heap) && heap.maxDepth == maxDepth
    {
      this.bucket := bucket;
      this.heap := new Heap(maxDepth);
    }

    /** Enqueue up to the unlock, for a request with a new id; not `ok` is ErrQueueFull. */
    method Enqueue(req: Request) returns (ok: bool, q: QueuedRequest)
      requires Valid() && forall r :: r in Waiting() ==> r.id != req.id
      modifies heap, heap.heap
      ensures Valid()
      ensures fresh(q) && q.req == req
      ensures Enqueued(old(Waiting()), heap.maxDepth, req, ok, Waiting())
      ensures ok ==> heap.Waiting() == old(heap.Waiting()) + {q}
    {
      CountRequests(heap.heap);
      assert forall r :: r in heap.Waiting() ==> r.req in Waiting();
      q := new QueuedRequest(req);
      ok := heap.Push(q);
    }

    /** The dispatcher's locked section: park if nothing waits; otherwise take a token and pop the
        request that comes first, or sleep. The sleep never outlasts the moment a token is due, and
        unless it is cut short at a tenth of a second it ends exactly then. */
    method DispatchTurn(now: real) returns (turn: Turn)
      requires Valid()
      modifies heap, heap.heap, bucket
      ensures Valid()
      ensures Turned(old(Waiting()), old(B.Allows(bucket.View(), now)), turn, Waiting())
      ensures bucket.View() == if turn.Empty? then old(bucket.View()) else old(B.Consume(bucket.View(), now))
      ensures turn.Popped? ==> turn.q.index == -1 && heap.Waiting() == old(heap.Waiting()) - {turn.q}
      ensures turn.Sleep? && old(Regular(bucket.View(), now)) ==>
                && 0.0 < turn.seconds <= 0.1
                && (forall t :: now <= t < now + turn.seconds ==> !B.Allows(bucket.View(), t))
                && (turn.seconds < 0.1 ==> B.Allows(bucket.View(), now + turn.seconds))
    {
      if |heap.heap| == 0 {
        return Empty;
      }
      assert heap.heap[0] in heap.Waiting() && heap.heap[0].req in Waiting();
      ghost var b := bucket.View();
      var allowed, wait := bucket.TryConsume(now);
      if allowed {
        var q := heap.Pop();
        assert q in old(heap.Waiting());
        return Popped(q);
      }
      turn := Sleep(if wait > MAX_WAIT then MAX_WAIT else wait);
      if Regular(b, now) {
        B.WaitIsExact(b, now, now);
        forall t | now <= t
          ensures B.Allows(bucket.View(), t) <==> t >= now + wait
        {
          B.WaitIsExact(b, now, t);
        }
      }
    }
  }

  ghost function RequestsOf(qs: set<QueuedRequest>): set<Request> {
    set q | q in qs :: q.req
  }

  predicate OwnIds(qs: set<QueuedRequest>) {
    forall a, b :: a in qs && b in qs && a.req.id == b.req.id ==> a == b
  }

  /** The length of the heap is the number of requests the protocol counts. */
  lemma {:induction false} CountRequests(h: seq<QueuedRequest>)
    requires OwnIds(Members(h)) && forall i, j :: 0 <= i < j < |h| ==> h[i] != h[j]
    ensures |RequestsOf(Members(h))| == |h|
  {
    if h != [] {
      var n := |h| - 1;
      var front, last := h[..n], h[n];
      assert Members(h) == Members(front) + {last};
      CountRequests(front);
      assert last !in Members(front);
      assert last.req !in RequestsOf(Members(front));
      assert RequestsOf(Members(h)) == RequestsOf(Members(front)) + {last.req};
    }
  }
}
