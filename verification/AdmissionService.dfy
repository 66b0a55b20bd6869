/** That the admission protocol, the bucket and time together serve everybody: whoever has not failed
    can still be forwarded. */
module AdmissionService {
  import opened Requests
  import opened Admission
  import opened AdmissionAccounting
  import opened AdmissionProgress
  import R = AdmissionRate
  import B = TokenBuckets

  /** A bucket that can hold a token, in a state that is not before its last refill. */
  predicate Holds(b: B.Bucket, s: State) {
    b.lastRefill <= s.now && 1.0 <= b.maxTokens
  }

  /** The step takes a token only if the bucket gives one, and does not miss one it would give. */
  predicate Agreeing(s: State, step: Step, b: B.Bucket) {
    step.TryMerchant? || step.Check? ==> step.allowed == B.Allows(b, s.now)
  }

  function BucketAfter(s: State, step: Step, b: B.Bucket): B.Bucket {
    R.After(b, R.OpOf(s, step))
  }

  /** A run in which every TryConsume is decided by the bucket, from `s` to `t`. */
  ghost predicate Leads(s: State, b: B.Bucket, steps: seq<Step>, t: State) {
    IsRun(s, steps) && R.Agrees(s, steps, b) && End(s, steps) == t
  }

  lemma Then(s: State, b: B.Bucket, step: Step, rest: seq<Step>, t: State) returns (steps: seq<Step>)
    requires Enabled(s, step) && Agreeing(s, step, b)
    requires Leads(Next(s, step), BucketAfter(s, step, b), rest, t)
    ensures Leads(s, b, steps, t) && |steps| == |rest| + 1
  {
    steps := [step] + rest;
    assert steps[1..] == rest;
  }

  lemma NothingLeads(s: State, b: B.Bucket)
    ensures Leads(s, b, [], s)
  {
  }

  /** When the bucket will allow the next TryConsume. */
  function Due(b: B.Bucket, now: real): real {
    var wait := (1.0 - b.tokens) / B.EffectiveRate(b);
    if b.lastRefill + wait > now then b.lastRefill + wait else now
  }

  lemma AllowedWhenDue(b: B.Bucket, now: real)
    requires 1.0 <= b.maxTokens
    ensures now <= Due(b, now) && B.Allows(b, Due(b, now))
  {
    B.AllowsWhenDue(b, Due(b, now));
  }

  // ---------- one step nearer ----------

  /** Steps to the next Pop and beyond, and one to wait for a token. */
  function ToGo(s: State, b: B.Bucket): nat {
    2 * Remaining(s) + if s.dispatcher == Locked && !B.Allows(b, s.now) then 1 else 0
  }

  ghost predicate Onward(s: State, b: B.Bucket, step: Step) {
    && Enabled(s, step) && Agreeing(s, step, b)
    && Live(Next(s, step)) && Holds(BucketAfter(s, step, b), Next(s, step))
    && ToGo(Next(s, step), BucketAfter(s, step, b)) < ToGo(s, b)
    && (step.Notify? || Next(s, step).stages == s.stages)
    && Next(s, step).maxDepth == s.maxDepth
  }

  lemma WaitForToken(s: State, b: B.Bucket) returns (step: Step)
    requires Live(s) && Holds(b, s) && s.dispatcher == Locked && !B.Allows(b, s.now)
    ensures Onward(s, b, step)
  {
    AllowedWhenDue(b, s.now);
    step := Tick(Due(b, s.now));
    StepIsLive(s, step);
  }

  lemma TakeToken(s: State, b: B.Bucket) returns (step: Step)
    requires Live(s) && Holds(b, s) && s.heap != {} && s.dispatcher == Locked && B.Allows(b, s.now)
    ensures Onward(s, b, step)
  {
    step := Check(true);
    StepIsLive(s, step);
  }

  /** The dispatcher's steps outside its locked test leave the bucket and the time alone. */
  lemma LeavesBucketAlone(s: State, step: Step, b: B.Bucket)
    requires Nearer(s, step) && s.dispatcher != Locked
    ensures Agreeing(s, step, b) && BucketAfter(s, step, b) == b
    ensures Next(s, step).now == s.now && Next(s, step).maxDepth == s.maxDepth
  {
  }

  lemma Elsewhere(s: State, b: B.Bucket) returns (step: Step)
    requires Live(s) && Holds(b, s) && s.heap != {} && s.dispatcher != Locked
    ensures Onward(s, b, step)
  {
    step := DispatcherGoesOn(s);
    LeavesBucketAlone(s, step, b);
    NearerIsLive(s, step);
    NearerIsOnward(s, step, Next(s, step), b);
  }

  lemma NearerIsLive(s: State, step: Step)
    requires Live(s) && Nearer(s, step)
    ensures Live(Next(s, step))
  {
    StepIsLive(s, step);
  }

  lemma NearerIsOnward(s: State, step: Step, t: State, b: B.Bucket)
    requires Nearer(s, step) && t == Next(s, step) && Live(t) && Holds(b, s) && s.dispatcher != Locked
    requires Agreeing(s, step, b) && BucketAfter(s, step, b) == b && t.now == s.now && t.maxDepth == s.maxDepth
    ensures Onward(s, b, step)
  {
    assert ToGo(t, b) <= 2 * Remaining(t) + 1;
  }

  lemma GoesOn(s: State, b: B.Bucket) returns (step: Step)
    requires Live(s) && Holds(b, s) && s.heap != {}
    ensures Onward(s, b, step)
  {
    if s.dispatcher != Locked {
      step := Elsewhere(s, b);
    } else if B.Allows(b, s.now) {
      step := TakeToken(s, b);
    } else {
      step := WaitForToken(s, b);
    }
  }

  lemma StaysQueueing(s: State, b: B.Bucket, step: Step, id: nat, r: Request)
    requires Queueing(s, id, r) && Onward(s, b, step)
    ensures Queueing(Next(s, step), id, r)
  {
  }

  // ---------- a queued request ----------

  /** None of these steps asks the bucket for anything. */
  predicate Quiet(steps: seq<Step>) {
    forall i :: 0 <= i < |steps| ==> steps[i].Close? || steps[i].Notify? || steps[i].SeeReady?
  }

  lemma {:induction false} QuietAgrees(s: State, steps: seq<Step>, b: B.Bucket)
    requires IsRun(s, steps) && Quiet(steps)
    ensures R.Agrees(s, steps, b)
    decreases |steps|
  {
    if steps != [] {
      assert steps[0].Close? || steps[0].Notify? || steps[0].SeeReady?;
      QuietAgrees(Next(s, steps[0]), steps[1..], b);
    }
  }

  lemma {:induction false} QueuedIsServed(s: State, b: B.Bucket, id: nat, r: Request)
    returns (steps: seq<Step>, t: State)
    requires Live(s) && Holds(b, s) && Queueing(s, id, r)
    ensures Leads(s, b, steps, t) && At(t, id, ForwardedQueued(r)) && |steps| <= ToGo(s, b) + 3
    decreases ToGo(s, b)
  {
    if r in s.heap {
      var step := GoesOn(s, b);
      StaysQueueing(s, b, step, id, r);
      var rest;
      rest, t := QueuedIsServed(Next(s, step), BucketAfter(s, step, b), id, r);
      steps := Then(s, b, step, rest, t);
    } else {
      steps := SeesItsTurn(s, id, r);
      QuietAgrees(s, steps, b);
      t := End(s, steps);
    }
  }

  /** No request is stuck in the queue: from every reachable state in which the dispatcher runs, and
      with a bucket that can hold a token at all, every handler that has queued its request can be
      forwarded with it, in a run in which the bucket itself decides every TryConsume; it takes at
      most ten steps for each request in the heap and fourteen more. */
  lemma NobodyIsStuck(init: State, steps: seq<Step>, b: B.Bucket, id: nat, r: Request)
    returns (more: seq<Step>, t: State)
    requires Init(init) && IsRun(init, steps) && End(init, steps).dispatcher != Exited
    requires Holds(b, End(init, steps)) && Queueing(End(init, steps), id, r)
    ensures Leads(End(init, steps), b, more, t) && At(t, id, ForwardedQueued(r))
    ensures |more| <= 10 * |End(init, steps).heap| + 14
  {
    InitInv(init);
    RunKeepsInv(init, steps);
    RunKeepsWakeUp(init, steps);
    more, t := QueuedIsServed(End(init, steps), b, id, r);
  }

  // ---------- a request at any earlier stage ----------

  lemma PushedIsServed(s: State, b: B.Bucket, id: nat, priority: int) returns (steps: seq<Step>, t: State)
    requires Live(s) && Holds(b, s) && At(s, id, Throttled) && MutexFree(s) && |s.heap| < s.maxDepth
    ensures Leads(s, b, steps, t) && At(t, id, ForwardedQueued(Request(id, priority, s.now)))
  {
    var step := Push(id, priority);
    StepIsLive(s, step);
    var rest;
    rest, t := QueuedIsServed(Next(s, step), b, id, Request(id, priority, s.now));
    steps := Then(s, b, step, rest, t);
  }

  /** With nothing waiting the dispatcher parks and lets go of the mutex. */
  lemma ParksWhenEmpty(s: State, b: B.Bucket) returns (step: Step)
    requires Live(s) && Holds(b, s) && s.heap == {} && !MutexFree(s)
    ensures Enabled(s, step) && Agreeing(s, step, b) && BucketAfter(s, step, b) == b
    ensures Live(Next(s, step)) && Next(s, step) == s.(dispatcher := Parked)
  {
    assert s.dispatcher == Locked;
    step := Check(B.Allows(b, s.now));
    StepIsLive(s, step);
  }

  lemma {:induction false} ThrottledIsServed(s: State, b: B.Bucket, id: nat, priority: int)
    returns (steps: seq<Step>, t: State)
    requires Live(s) && Holds(b, s) && At(s, id, Throttled) && 1 <= s.maxDepth
    ensures Leads(s, b, steps, t) && id in t.stages && Forwarded(t.stages[id])
    decreases ToGo(s, b)
  {
    if MutexFree(s) && |s.heap| < s.maxDepth {
      steps, t := PushedIsServed(s, b, id, priority);
    } else if s.heap != {} {
      var step := GoesOn(s, b);
      var rest;
      rest, t := ThrottledIsServed(Next(s, step), BucketAfter(s, step, b), id, priority);
      steps := Then(s, b, step, rest, t);
    } else {
      var step := ParksWhenEmpty(s, b);
      var rest;
      rest, t := PushedIsServed(Next(s, step), b, id, priority);
      steps := Then(s, b, step, rest, t);
    }
  }

  lemma ClearedIsServed(s: State, b: B.Bucket, id: nat) returns (steps: seq<Step>, t: State)
    requires Holds(b, s) && At(s, id, AppCleared)
    ensures Leads(s, b, steps, t) && At(t, id, ForwardedFast)
  {
    AllowedWhenDue(b, s.now);
    var later := Next(s, Tick(Due(b, s.now)));
    t := Next(later, TryMerchant(id, true));
    NothingLeads(t, BucketAfter(later, TryMerchant(id, true), b));
    steps := Then(later, b, TryMerchant(id, true), [], t);
    steps := Then(s, b, Tick(Due(b, s.now)), steps, t);
  }

  lemma ArrivedIsServed(s: State, b: B.Bucket, id: nat) returns (steps: seq<Step>, t: State)
    requires Justified(s) && Holds(b, s) && (At(s, id, Arrived) || At(s, id, AppWaiting))
    ensures Leads(s, b, steps, t) && At(t, id, ForwardedFast)
  {
    var step := TryApp(id, true);
    var rest;
    rest, t := ClearedIsServed(Next(s, step), b, id);
    steps := Then(s, b, step, rest, t);
  }

  /** The handler has neither been forwarded nor failed, nor decided to give up. */
  predicate Pending(st: Stage) {
    || st.Arrived? || st.AppWaiting? || st.AppCleared? || st.Throttled? || st.Pushed? || st.Waiting?
  }

  /** Everybody can be served: from every reachable state in which the dispatcher runs, and with a
      bucket and a queue that can hold anything at all, each request that is still pending, at
      whatever stage, can be forwarded, in a run in which the merchant's bucket decides every
      TryConsume on it. */
  lemma EverybodyCanBeForwarded(init: State, steps: seq<Step>, b: B.Bucket, id: nat)
    returns (more: seq<Step>, t: State)
    requires Init(init) && IsRun(init, steps) && End(init, steps).dispatcher != Exited
    requires Holds(b, End(init, steps)) && 1 <= End(init, steps).maxDepth
    requires id in End(init, steps).stages && Pending(End(init, steps).stages[id])
    ensures Leads(End(init, steps), b, more, t) && id in t.stages && Forwarded(t.stages[id])
  {
    InitInv(init);
    RunKeepsInv(init, steps);
    RunKeepsWakeUp(init, steps);
    RunIsJustified(init, steps);
    more, t := PendingIsServed(End(init, steps), b, id);
  }

  lemma PendingIsServed(s: State, b: B.Bucket, id: nat) returns (steps: seq<Step>, t: State)
    requires Live(s) && Justified(s) && Holds(b, s) && 1 <= s.maxDepth && id in s.stages && Pending(s.stages[id])
    ensures Leads(s, b, steps, t) && id in t.stages && Forwarded(t.stages[id])
  {
    match s.stages[id]
    case Arrived => steps, t := ArrivedIsServed(s, b, id);
    case AppWaiting => steps, t := ArrivedIsServed(s, b, id);
    case AppCleared => steps, t := ClearedIsServed(s, b, id);
    case Throttled => steps, t := ThrottledIsServed(s, b, id, 0);
    case Pushed(r) => steps, t := QueuedIsServed(s, b, id, r);
    case Waiting(r) => steps, t := QueuedIsServed(s, b, id, r);
  }
}
