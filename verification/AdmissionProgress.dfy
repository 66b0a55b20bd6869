/** What becomes of a request in the admission protocol: why it fails if it does, and that nothing
    but its own cancellation or Stop keeps a queued one from being forwarded. */
module AdmissionProgress {
  import opened Requests
  import opened Admission
  import opened AdmissionAccounting

  // ---------- why a handler ends where it does ----------

  ghost predicate Justified(s: State) {
    && (s.dispatcher == Exited ==> s.stopped)
    && forall id :: id in s.stages ==> id in s.modes && Fair(s, s.stages[id], s.modes[id])
  }

  /** A handler is told that the queue stopped only if it did, waits for or fails at an application
      bucket only if there is one, and never queues in reject mode. */
  predicate Fair(s: State, st: Stage, mode: Mode) {
    && (st.QueueStopped? ==> s.stopped)
    && (st.AppWaiting? || st.AppFailed? ==> s.hasApp)
    && (mode == Reject ==> !st.AppWaiting? && !st.Throttled? && !HasRequest(st))
  }

  /** Every handler step leaves its handler fairly treated. */
  lemma HandlerIsFair(s: State, step: Step)
    requires Justified(s) && Enabled(s, step) && Moved(step).Some?
    ensures var t, id := Next(s, step), step.id;
            id in t.stages && id in t.modes && Fair(s, t.stages[id], t.modes[id])
  {
    match step
    case Arrive(_, _) =>
    case TryApp(_, _) =>
    case GiveUpApp(_) =>
    case TryMerchant(_, _) =>
    case Push(_, _) =>
    case QueueGone(_) =>
    case Notify(_) =>
    case SeeReady(_) =>
    case SeeCancel(_) =>
    case Remove(_) =>
    case SeeStopped(_) =>
  }

  lemma HandlerKeepsModes(s: State, step: Step)
    requires Enabled(s, step) && Moved(step).Some?
    ensures var t := Next(s, step);
            t.stopped == s.stopped && t.modes == if step.Arrive? then s.modes[step.id := step.mode] else s.modes
  {
    match step
    case Arrive(_, _) =>
    case TryApp(_, _) =>
    case GiveUpApp(_) =>
    case TryMerchant(_, _) =>
    case Push(_, _) =>
    case QueueGone(_) =>
    case Notify(_) =>
    case SeeReady(_) =>
    case SeeCancel(_) =>
    case Remove(_) =>
    case SeeStopped(_) =>
  }

  lemma OthersAreFair(s: State, step: Step)
    requires Justified(s) && Enabled(s, step) && Moved(step).None?
    ensures Justified(Next(s, step))
  {
    var t := Next(s, step);
    assert t.stages == s.stages && t.modes == s.modes && t.hasApp == s.hasApp && (s.stopped ==> t.stopped);
  }

  lemma StepIsJustified(s: State, step: Step)
    requires Justified(s) && Enabled(s, step)
    ensures Justified(Next(s, step))
  {
    if Moved(step).Some? {
      HandlerIsFair(s, step);
      HandlerKeepsModes(s, step);
      HandlerFrame(s, step);
      HandlerStages(s, step);
    } else {
      OthersAreFair(s, step);
    }
  }

  lemma {:induction false} RunIsJustified(s: State, steps: seq<Step>)
    requires Justified(s) && IsRun(s, steps)
    ensures Justified(End(s, steps))
    decreases |steps|
  {
    if steps != [] {
      StepIsJustified(s, steps[0]);
      RunIsJustified(Next(s, steps[0]), steps[1..]);
    }
  }

  /** Whose token it was: in every interleaving, each request the dispatcher took out belongs to a
      handler that has been forwarded with it, or is still on its way to see that, or cancelled, or
      was told that the queue stopped, which is then true. */
  lemma PoppedFate(init: State, steps: seq<Step>, r: Request)
    requires Init(init) && IsRun(init, steps) && r in End(init, steps).popped
    ensures var s := End(init, steps);
            r.id in s.stages &&
            var st := s.stages[r.id];
            || st == ForwardedQueued(r)
            || st == Pushed(r) || st == Waiting(r)
            || st == Cancelling(r) || st == Cancelled(r)
            || (st == QueueStopped(r) && s.stopped)
  {
    InitInv(init);
    RunKeepsInv(init, steps);
    RunIsJustified(init, steps);
    assert Queued(End(init, steps), r);
  }

  /** Nobody is told that the queue stopped, and the dispatcher does not end, unless Stop was called. */
  lemma StoppedOnlyByStop(init: State, steps: seq<Step>)
    requires Init(init) && IsRun(init, steps) && Stop !in steps
    ensures var s := End(init, steps);
            s.dispatcher != Exited && forall id :: id in s.stages ==> !s.stages[id].QueueStopped?
  {
    RunIsJustified(init, steps);
    NotStopped(init, steps);
  }

  lemma {:induction false} NotStopped(s: State, steps: seq<Step>)
    requires IsRun(s, steps) && !s.stopped && Stop !in steps
    ensures !End(s, steps).stopped
    decreases |steps|
  {
    if steps != [] {
      assert steps[0] in steps;
      StopsIff(s, steps[0]);
      NotStopped(Next(s, steps[0]), steps[1..]);
    }
  }

  lemma StopsIff(s: State, step: Step)
    requires Enabled(s, step)
    ensures Next(s, step).stopped <==> s.stopped || step == Stop
  {
    if Moved(step).Some? {
      HandlerKeepsModes(s, step);
    }
  }

  predicate RefusedBy(s: State, step: Step, id: nat)
    requires id in s.modes
  {
    if s.modes[id] == Reject then step == TryMerchant(id, false)
    else step == QueueGone(id) || (step.Push? && step.id == id && |s.heap| >= s.maxDepth)
  }

  predicate AppFailedBy(s: State, step: Step, id: nat)
    requires id in s.modes
  {
    if s.modes[id] == Reject then step == TryApp(id, false) && s.hasApp else step == GiveUpApp(id)
  }

  /** Why a request is refused, exactly: in reject mode when a bucket had no token for it; in the
      queueing modes when the queue was full or gone, or when it gave up on the application bucket. */
  lemma WhyRefused(init: State, steps: seq<Step>, step: Step, id: nat)
    requires Init(init) && IsRun(init, steps) && Enabled(End(init, steps), step)
    ensures var s := End(init, steps); var t := Next(s, step);
            id in s.stages && id in t.stages && id in s.modes && t.stages[id] != s.stages[id] ==>
              && (t.stages[id] == Refused <==> RefusedBy(s, step, id))
              && (t.stages[id] == AppFailed <==> AppFailedBy(s, step, id))
  {
    RunIsJustified(init, steps);
    var s := End(init, steps);
    if Moved(step).None? {
      DispatcherDeltas(s, step);
    } else {
      HandlerStages(s, step);
      if id == step.id && id in s.stages {
        FailsBecause(s, step);
      }
    }
  }

  lemma FailsBecause(s: State, step: Step)
    requires Justified(s) && Enabled(s, step) && Moved(step).Some? && step.id in s.stages
    ensures var t, id := Next(s, step), step.id;
            && id in t.stages && id in s.modes
            && (t.stages[id] == Refused <==> RefusedBy(s, step, id))
            && (t.stages[id] == AppFailed <==> AppFailedBy(s, step, id))
  {
    match step
    case TryApp(_, _) =>
    case GiveUpApp(_) =>
    case TryMerchant(_, _) =>
    case Push(_, _) =>
    case QueueGone(_) =>
    case _ =>
  }

  // ---------- every queued request can be forwarded ----------

  /** The states of all interleavings in which Stop has not ended the dispatcher. */
  ghost predicate Live(s: State) {
    Inv(s) && WakeUpPending(s) && s.dispatcher != Exited
  }

  /** Handler `id` waits for its request to be taken out, or for the news that it was. */
  predicate Queueing(s: State, id: nat, r: Request) {
    At(s, id, Pushed(r)) || At(s, id, Waiting(r))
  }

  /** How far the dispatcher is from its next Pop. */
  function Distance(s: State): nat {
    match s.dispatcher
    case Granted => 1
    case Locked => 2
    case Top => 3
    case Closing(_) => 4
    case Sleeping => 4
    case Parked => if s.notify then 4 else 5
    case Exited => 0
  }

  function Remaining(s: State): nat {
    5 * |s.heap| + Distance(s)
  }

  lemma StepIsLive(s: State, step: Step)
    requires Live(s) && Enabled(s, step) && step != Exit
    ensures Live(Next(s, step))
  {
    StepKeepsInv(s, step);
    StepKeepsWakeUp(s, step);
    if Moved(step).Some? {
      HandlerFrame(s, step);
    }
  }

  /** The step brings the dispatcher nearer to emptying the heap and moves no handler, but that one
      may notify. */
  ghost predicate Nearer(s: State, step: Step) {
    && Enabled(s, step) && Remaining(Next(s, step)) < Remaining(s)
    && (step.Notify? || Next(s, step).stages == s.stages)
    && (step.Notify? || step.Pop? || step.Lock? || step == Check(true) || step.Close? || step.TimerFires?
        || step.TakeNotify?)
  }

  lemma PopIsNearer(s: State) returns (step: Step)
    requires s.heap != {} && s.dispatcher == Granted
    ensures Nearer(s, step)
  {
    var least := LeastOf(s.heap);
    step := Pop(least);
    assert |s.heap - {least}| == |s.heap| - 1;
  }

  lemma SignalIsNearer(s: State) returns (step: Step)
    requires WakeUpPending(s) && s.heap != {} && s.dispatcher == Parked && !s.notify
    ensures Nearer(s, step)
  {
    var k :| k in s.stages && s.stages[k].Pushed?;
    step := Notify(k);
  }

  lemma TurnIsNearer(s: State) returns (step: Step)
    requires s.heap != {} && (s.dispatcher == Locked || s.dispatcher == Top || s.dispatcher.Closing?)
    ensures Nearer(s, step)
  {
    step := if s.dispatcher == Locked then Check(true) else if s.dispatcher == Top then Lock else Close;
  }

  lemma WakingIsNearer(s: State) returns (step: Step)
    requires s.dispatcher == Sleeping || (s.dispatcher == Parked && s.notify)
    ensures Nearer(s, step)
  {
    step := if s.dispatcher == Sleeping then TimerFires else TakeNotify;
  }

  /** What the dispatcher can do next when requests wait and the bucket gives. */
  lemma DispatcherGoesOn(s: State) returns (step: Step)
    requires Live(s) && s.heap != {}
    ensures Nearer(s, step)
  {
    if s.dispatcher == Granted {
      step := PopIsNearer(s);
    } else if s.dispatcher == Parked && !s.notify {
      step := SignalIsNearer(s);
    } else if s.dispatcher == Parked || s.dispatcher == Sleeping {
      step := WakingIsNearer(s);
    } else {
      step := TurnIsNearer(s);
    }
  }

  lemma StillQueueing(s: State, step: Step, id: nat, r: Request)
    requires Queueing(s, id, r) && Nearer(s, step)
    ensures Queueing(Next(s, step), id, r)
  {
  }

  /** Once it is taken out, at most three steps are left: closing its channel, its own notification,
      and seeing the closed channel. */
  lemma SeesItsTurn(s: State, id: nat, r: Request) returns (steps: seq<Step>)
    requires Live(s) && r !in s.heap && Queueing(s, id, r)
    ensures IsRun(s, steps) && |steps| <= 3 && At(End(s, steps), id, ForwardedQueued(r))
    ensures forall i :: 0 <= i < |steps| ==> steps[i] == Close || steps[i].Notify? || steps[i].SeeReady?
  {
    assert r in s.popped && r.id == id;
    if id !in s.ready {
      assert s.dispatcher == Closing(r);
      StepIsLive(s, Close);
      steps := SeesReady(Next(s, Close), id, r);
      steps := First(s, Close, steps);
    } else {
      steps := SeesReady(s, id, r);
    }
  }

  lemma SeesReady(s: State, id: nat, r: Request) returns (steps: seq<Step>)
    requires id in s.ready && Queueing(s, id, r)
    ensures IsRun(s, steps) && |steps| <= 2 && At(End(s, steps), id, ForwardedQueued(r))
    ensures forall i :: 0 <= i < |steps| ==> steps[i].Notify? || steps[i].SeeReady?
  {
    if At(s, id, Pushed(r)) {
      var t := Next(s, Notify(id));
      steps := First(t, SeeReady(id), []);
      steps := First(s, Notify(id), steps);
    } else {
      steps := First(s, SeeReady(id), []);
    }
  }

  lemma First(s: State, step: Step, rest: seq<Step>) returns (steps: seq<Step>)
    requires Enabled(s, step) && IsRun(Next(s, step), rest)
    ensures steps == [step] + rest && IsRun(s, steps) && End(s, steps) == End(Next(s, step), rest)
  {
    steps := [step] + rest;
    assert steps[1..] == rest;
  }

  /** A handler that waits at a closed channel is one step from being forwarded with its own request,
      and that step changes nothing else. */
  lemma ReadyIsForwarded(init: State, steps: seq<Step>, id: nat)
    requires Init(init) && IsRun(init, steps)
    requires id in End(init, steps).ready && id in End(init, steps).stages && End(init, steps).stages[id].Waiting?
    ensures var s := End(init, steps); var r := s.stages[id].req;
            && r.id == id && r in s.popped
            && exists step :: Enabled(s, step) && Next(s, step) == s.(stages := s.stages[id := ForwardedQueued(r)])
  {
    InitInv(init);
    RunKeepsInv(init, steps);
    var s := End(init, steps);
    assert Next(s, SeeReady(id)) == s.(stages := s.stages[id := ForwardedQueued(s.stages[id].req)]);
  }

  // ---------- urgent requests first ----------

  lemma {:induction false} RunUpTo(s: State, steps: seq<Step>, k: nat)
    requires IsRun(s, steps) && k < |steps|
    ensures IsRun(s, steps[..k]) && Enabled(End(s, steps[..k]), steps[k])
    decreases |steps|
  {
    if k > 0 {
      RunUpTo(Next(s, steps[0]), steps[1..], k - 1);
      assert steps[..k][1..] == steps[1..][..k - 1];
    }
  }

  /** Urgent requests first: wherever a request is taken out in an interleaving, every other one that
      waits has a larger priority number, or the same and came no earlier. */
  lemma UrgentFirst(s: State, steps: seq<Step>, k: nat)
    requires IsRun(s, steps) && k < |steps| && steps[k].Pop?
    ensures IsRun(s, steps[..k])
    ensures MostUrgent(steps[k].req, End(s, steps[..k]).heap)
  {
    RunUpTo(s, steps, k);
  }

  // ---------- the mutex ----------

  /** The dispatcher takes the mutex by Lock alone, and gives it back when it parks, sleeps or has
      popped. */
  lemma MutexIsLocked(s: State, step: Step)
    requires Enabled(s, step)
    ensures MutexFree(s) && !MutexFree(Next(s, step)) <==> step == Lock
    ensures !MutexFree(s) && MutexFree(Next(s, step)) <==>
            step.Pop? || (step.Check? && (s.heap == {} || !step.allowed))
  {
    if Moved(step).Some? {
      HandlerFrame(s, step);
    }
  }

  // ---------- signals ----------

  function SignalsSent(steps: seq<Step>): nat {
    if steps == [] then 0 else (if steps[0].Notify? then 1 else 0) + SignalsSent(steps[1..])
  }

  function SignalsTaken(steps: seq<Step>): nat {
    if steps == [] then 0 else (if steps[0].TakeNotify? then 1 else 0) + SignalsTaken(steps[1..])
  }

  /** The dispatcher is not woken more often than it was notified. */
  lemma {:induction false} WakeUpsAreSignalled(s: State, steps: seq<Step>)
    requires IsRun(s, steps)
    ensures SignalsTaken(steps) + One(End(s, steps).notify) <= SignalsSent(steps) + One(s.notify)
    decreases |steps|
  {
    if steps != [] {
      OneSignal(s, steps[0]);
      WakeUpsAreSignalled(Next(s, steps[0]), steps[1..]);
    }
  }

  lemma OneSignal(s: State, step: Step)
    requires Enabled(s, step)
    ensures One(step.TakeNotify?) + One(Next(s, step).notify) <= One(step.Notify?) + One(s.notify)
  {
    match step
    case TryApp(_, _) =>
    case TryMerchant(_, _) =>
    case Push(_, _) =>
    case Check(_) =>
    case _ =>
  }

  // ---------- Stop ----------

  /** After Stop the dispatcher can end, wherever it was, in at most five steps of its own; and every
      handler still waiting can be told at once. */
  lemma StopReleasesAll(init: State, steps: seq<Step>) returns (more: seq<Step>)
    requires Init(init) && IsRun(init, steps)
    ensures var s := Next(End(init, steps), Stop);
            && IsRun(s, more) && |more| <= 5
            && End(s, more).dispatcher == Exited && End(s, more).stages == s.stages
            && forall id :: id in s.stages && s.stages[id].Waiting? ==>
                 Enabled(s, SeeStopped(id)) && At(Next(s, SeeStopped(id)), id, QueueStopped(s.stages[id].req))
  {
    InitInv(init);
    RunKeepsInv(init, steps);
    var s := Next(End(init, steps), Stop);
    StepKeepsInv(End(init, steps), Stop);
    more := CanExit(s);
  }

  /** How many steps the dispatcher is from its end. */
  function ToExit(d: Dispatcher): nat {
    match d
    case Granted => 5
    case Closing(_) => 4
    case Top => 3
    case Locked => 2
    case Sleeping => 1
    case Parked => 1
    case Exited => 0
  }

  lemma TowardsExit(s: State) returns (step: Step)
    requires Inv(s) && s.stopped && s.dispatcher != Exited
    ensures Enabled(s, step) && Next(s, step).stopped && Next(s, step).stages == s.stages
    ensures ToExit(Next(s, step).dispatcher) < ToExit(s.dispatcher)
  {
    match s.dispatcher
    case Granted =>
      var least := LeastOf(s.heap);
      step := Pop(least);
    case Closing(_) => step := Close;
    case Top => step := Lock;
    case Locked => step := Check(false);
    case Sleeping => step := Exit;
    case Parked => step := Exit;
  }

  lemma {:induction false} CanExit(s: State) returns (steps: seq<Step>)
    requires Inv(s) && s.stopped
    ensures IsRun(s, steps) && |steps| <= ToExit(s.dispatcher)
    ensures End(s, steps).dispatcher == Exited && End(s, steps).stages == s.stages
    decreases ToExit(s.dispatcher)
  {
    steps := [];
    if s.dispatcher != Exited {
      var step := TowardsExit(s);
      StepKeepsInv(s, step);
      steps := CanExit(Next(s, step));
      steps := First(s, step, steps);
    }
  }
}
