/** The admission protocol of one rate-limited endpoint (internal/ratelimit/middleware.go,
    internal/ratelimit/queue.go): many request handlers, one dispatcher, and the bucket, heap
    and channels they share.

    Every step is one critical section or one channel operation. The queue's mutex is held by
    the dispatcher in the places `Locked` and `Granted`; the handlers' critical sections are
    single steps that need it free. The heap is the set of waiting requests: `Heap.Pop` and
    `Heap.Remove` of module RequestHeap show what the slice does to that set. Whether a
    TryConsume is allowed is part of the step; module AdmissionRate ties it to the bucket.
  */
module Admission {
  import opened Requests

  datatype Mode = Reject | Queue | QueueTimeout

  /** Where a request handler is. */
  datatype Stage =
    | Arrived
    | AppWaiting                       // in the retry loop of waitForAppBucket
    | AppCleared                       // past waitForAppBucket
    | Throttled                        // refused by the merchant bucket, about to queue
    | Pushed(req: Request)             // in the heap, notify not yet sent
    | Waiting(req: Request)            // in the select of Enqueue
    | Cancelling(req: Request)         // chose ctx.Done, about to call remove
    | ForwardedFast                    // handed to `next` without queueing
    | ForwardedQueued(req: Request)    // handed to `next` after its ready channel closed
    | AppFailed
    | Refused                          // rejected, or the queue was full or gone
    | QueueStopped(req: Request)
    | Cancelled(req: Request)

  /** Where the dispatcher is. */
  datatype Dispatcher =
    | Top
    | Locked                           // holds the mutex
    | Granted                          // holds the mutex and one token
    | Closing(req: Request)            // popped, about to close its ready channel
    | Parked                           // in the select for an empty heap
    | Sleeping                         // in the select with the timer
    | Exited

  datatype State = State(
    now: real,
    stages: map<nat, Stage>,
    modes: map<nat, Mode>,
    heap: set<Request>,
    maxDepth: int,
    popped: seq<Request>,              // taken out by the dispatcher so far, in order
    ready: set<nat>,                   // requests whose ready channel is closed
    notify: bool,                      // the one-slot channel holds a signal
    stopped: bool,
    dispatcher: Dispatcher,
    hasApp: bool,                      // the endpoint also has an application bucket
    grants: nat,                       // successful TryConsume calls on the merchant bucket
    appGrants: nat)                    // and on the application bucket

  predicate Init(s: State) {
    && s.stages == map[] && s.modes == map[] && s.heap == {} && s.popped == [] && s.ready == {}
    && !s.notify && !s.stopped && s.dispatcher == Top && s.grants == 0 && s.appGrants == 0
  }

  datatype Step =
    | Tick(now: real)
    | Arrive(id: nat, mode: Mode)
    | TryApp(id: nat, allowed: bool)
    | GiveUpApp(id: nat)
    | TryMerchant(id: nat, allowed: bool)
    | Push(id: nat, priority: int)
    | QueueGone(id: nat)
    | Notify(id: nat)
    | SeeReady(id: nat)
    | SeeCancel(id: nat)
    | Remove(id: nat)
    | SeeStopped(id: nat)
    | Stop
    | SetRate(rate: real)
    | ReadTokens
    | Lock
    | Check(allowed: bool)
    | Pop(req: Request)
    | Close
    | TakeNotify
    | TimerFires
    | Exit

  predicate At(s: State, id: nat, st: Stage) {
    id in s.stages && s.stages[id] == st
  }

  predicate MutexFree(s: State) {
    !s.dispatcher.Locked? && !s.dispatcher.Granted?
  }

  predicate IsLeast(r: Request, heap: set<Request>) {
    r in heap && forall o :: o in heap ==> !Before(o, r)
  }

  predicate Enabled(s: State, step: Step) {
    match step
    case Tick(now) => s.now <= now
    case Arrive(id, _) => id !in s.stages
    case TryApp(id, _) => At(s, id, Arrived) || (At(s, id, AppWaiting) && s.hasApp)
    case GiveUpApp(id) => At(s, id, AppWaiting)
    case TryMerchant(id, _) => At(s, id, AppCleared)
    case Push(id, _) => At(s, id, Throttled) && MutexFree(s)
    case QueueGone(id) => At(s, id, Throttled)
    case Notify(id) => id in s.stages && s.stages[id].Pushed?
    case SeeReady(id) => id in s.stages && s.stages[id].Waiting? && id in s.ready
    case SeeCancel(id) => id in s.stages && s.stages[id].Waiting?
    case Remove(id) => id in s.stages && s.stages[id].Cancelling? && MutexFree(s)
    case SeeStopped(id) => id in s.stages && s.stages[id].Waiting? && s.stopped
    case Stop | SetRate(_) | ReadTokens => true
    case Lock => s.dispatcher == Top
    case Check(_) => s.dispatcher == Locked
    case Pop(req) => s.dispatcher == Granted && IsLeast(req, s.heap)
    case Close => s.dispatcher.Closing?
    case TakeNotify => (s.dispatcher == Parked || s.dispatcher == Sleeping) && s.notify
    case TimerFires => s.dispatcher == Sleeping
    case Exit => (s.dispatcher == Parked || s.dispatcher == Sleeping) && s.stopped
  }

  function Move(s: State, id: nat, st: Stage): State {
    s.(stages := s.stages[id := st])
  }

  /** waitForAppBucket: the first try, and the retries of its loop. */
  function AfterTryApp(s: State, id: nat, allowed: bool): State
    requires id in s.stages
  {
    if !s.hasApp then Move(s, id, AppCleared)
    else if allowed then Move(s.(appGrants := s.appGrants + 1), id, AppCleared)
    else if s.stages[id].Arrived? && id in s.modes && s.modes[id] == Reject then Move(s, id, AppFailed)
    else Move(s, id, AppWaiting)
  }

  /** The fast path of the middleware and its fall-through. */
  function AfterTryMerchant(s: State, id: nat, allowed: bool): State {
    if allowed then Move(s.(grants := s.grants + 1), id, ForwardedFast)
    else if id in s.modes && s.modes[id] == Reject then Move(s, id, Refused)
    else Move(s, id, Throttled)
  }

  /** Enqueue up to the unlock. */
  function AfterPush(s: State, id: nat, priority: int): State {
    if |s.heap| >= s.maxDepth then Move(s, id, Refused)
    else
      var req := Request(id, priority, s.now);
      Move(s.(heap := s.heap + {req}), id, Pushed(req))
  }

  /** The dispatcher's locked section, up to TryConsume. */
  function AfterCheck(s: State, allowed: bool): State {
    if s.heap == {} then s.(dispatcher := Parked)
    else if allowed then s.(dispatcher := Granted, grants := s.grants + 1)
    else s.(dispatcher := Sleeping)
  }

  function Next(s: State, step: Step): State
    requires Enabled(s, step)
  {
    match step
    case Tick(now) => s.(now := now)
    case Arrive(id, mode) => Move(s.(modes := s.modes[id := mode]), id, Arrived)
    case TryApp(id, allowed) => AfterTryApp(s, id, allowed)
    case GiveUpApp(id) => Move(s, id, AppFailed)
    case TryMerchant(id, allowed) => AfterTryMerchant(s, id, allowed)
    case Push(id, priority) => AfterPush(s, id, priority)
    case QueueGone(id) => Move(s, id, Refused)
    case Notify(id) => Move(s.(notify := true), id, Waiting(s.stages[id].req))
    case SeeReady(id) => Move(s, id, ForwardedQueued(s.stages[id].req))
    case SeeCancel(id) => Move(s, id, Cancelling(s.stages[id].req))
    case Remove(id) =>
      var req := s.stages[id].req;
      Move(s.(heap := s.heap - {req}), id, Cancelled(req))
    case SeeStopped(id) => Move(s, id, QueueStopped(s.stages[id].req))
    case Stop => s.(stopped := true)
    case SetRate(_) | ReadTokens => s
    case Lock => s.(dispatcher := Locked)
    case Check(allowed) => AfterCheck(s, allowed)
    case Pop(req) => s.(dispatcher := Closing(req), heap := s.heap - {req}, popped := s.popped + [req])
    case Close => s.(dispatcher := Top, ready := s.ready + {s.dispatcher.req.id})
    case TakeNotify => s.(dispatcher := Top, notify := false)
    case TimerFires => s.(dispatcher := Top)
    case Exit => s.(dispatcher := Exited)
  }

  // ---------- runs ----------

  predicate IsRun(s: State, steps: seq<Step>)
    decreases |steps|
  {
    steps != [] ==> Enabled(s, steps[0]) && IsRun(Next(s, steps[0]), steps[1..])
  }

  function End(s: State, steps: seq<Step>): State
    requires IsRun(s, steps)
    decreases |steps|
  {
    if steps == [] then s else End(Next(s, steps[0]), steps[1..])
  }

  // ---------- counting handlers by stage ----------

  function Those(stages: map<nat, Stage>, p: Stage -> bool): set<nat> {
    set id | id in stages && p(stages[id])
  }

  lemma CountMove(stages: map<nat, Stage>, id: nat, st: Stage, p: Stage -> bool)
    ensures |Those(stages[id := st], p)|
         == |Those(stages, p)| - (if id in stages && p(stages[id]) then 1 else 0)
            + (if p(st) then 1 else 0)
  {
    var rest := Those(stages, p) - {id};
    var after := Those(stages[id := st], p);
    assert after == if p(st) then rest + {id} else rest;
    assert Those(stages, p) == if id in stages && p(stages[id]) then rest + {id} else rest;
  }

  // ---------- no lost wake-up ----------

  ghost predicate WakeUpPending(s: State) {
    s.dispatcher == Parked && s.heap != {} ==>
      s.notify || exists id :: id in s.stages && s.stages[id].Pushed?
  }

  /** A handler that has pushed stays where it is until it notifies. */
  lemma StaysPushed(s: State, step: Step, id: nat)
    requires Enabled(s, step) && id in s.stages && s.stages[id].Pushed? && step != Notify(id)
    ensures var t := Next(s, step); id in t.stages && t.stages[id].Pushed?
  {
    match step
    case TryApp(_, _) =>
    case TryMerchant(_, _) =>
    case Push(_, _) =>
    case Check(_) =>
    case _ =>
  }

  /** Where a parked dispatcher with waiting requests and no signal can come from. */
  lemma ParkedBefore(s: State, step: Step)
    requires Enabled(s, step)
    ensures var t := Next(s, step);
            t.dispatcher == Parked && t.heap != {} && !t.notify ==>
              && s.dispatcher == Parked && !s.notify && !step.Notify?
              && (s.heap == {} ==> step.Push? && step.id in t.stages && t.stages[step.id].Pushed?)
  {
    match step
    case TryApp(_, _) =>
    case TryMerchant(_, _) =>
    case Push(_, _) =>
    case Check(_) =>
    case _ =>
  }

  lemma StepKeepsWakeUp(s: State, step: Step)
    requires WakeUpPending(s) && Enabled(s, step)
    ensures WakeUpPending(Next(s, step))
  {
    var t := Next(s, step);
    ParkedBefore(s, step);
    if t.dispatcher == Parked && t.heap != {} && !t.notify && s.heap != {} {
      var id :| id in s.stages && s.stages[id].Pushed?;
      StaysPushed(s, step, id);
    }
  }

  lemma {:induction false} RunKeepsWakeUp(s: State, steps: seq<Step>)
    requires WakeUpPending(s) && IsRun(s, steps)
    ensures WakeUpPending(End(s, steps))
    decreases |steps|
  {
    if steps != [] {
      StepKeepsWakeUp(s, steps[0]);
      RunKeepsWakeUp(Next(s, steps[0]), steps[1..]);
    }
  }

  /** No lost wake-up: in every interleaving, a dispatcher parked on the empty-heap select
      while requests wait can be woken at once, or as soon as some handler that has already
      pushed takes its next step. */
  lemma NoLostWakeUp(init: State, steps: seq<Step>)
    requires Init(init) && IsRun(init, steps)
    ensures var s := End(init, steps);
            s.dispatcher == Parked && s.heap != {} ==>
              || Enabled(s, TakeNotify)
              || exists id :: Enabled(s, Notify(id)) && Enabled(Next(s, Notify(id)), TakeNotify)
  {
    RunKeepsWakeUp(init, steps);
    var s := End(init, steps);
    if s.dispatcher == Parked && s.heap != {} && !s.notify {
      var id :| id in s.stages && s.stages[id].Pushed?;
      assert Enabled(s, Notify(id)) && Enabled(Next(s, Notify(id)), TakeNotify);
    }
  }
}
