/** Who owns which token: accounting over every interleaving of the admission protocol. */
module AdmissionAccounting {
  import opened Requests
  import opened Admission
  import opened Options

  predicate HasRequest(st: Stage) {
    || st.Pushed? || st.Waiting? || st.Cancelling? || st.ForwardedQueued?
    || st.QueueStopped? || st.Cancelled?
  }

  /** The stages in which a request may still be in the heap. */
  predicate MayWait(st: Stage) {
    st.Pushed? || st.Waiting? || st.Cancelling? || st.QueueStopped?
  }

  /** The handler `r.id` was queued, and its queued request is `r`. */
  predicate Queued(s: State, r: Request) {
    r.id in s.stages && HasRequest(s.stages[r.id]) && s.stages[r.id].req == r
  }

  ghost predicate Placed(s: State) {
    && (forall id :: id in s.stages && HasRequest(s.stages[id]) ==> s.stages[id].req.id == id)
    && (forall r :: r in s.heap ==> Queued(s, r) && MayWait(s.stages[r.id]))
    && (forall r :: r in s.popped ==> Queued(s, r) && r !in s.heap)
    && (forall i, j :: 0 <= i < j < |s.popped| ==> s.popped[i] != s.popped[j])
  }

  ghost predicate Accounted(s: State) {
    && (forall id :: id in s.stages && MayWait(s.stages[id]) ==>
          s.stages[id].req in s.heap || s.stages[id].req in s.popped)
    && (forall id :: id in s.stages && s.stages[id].ForwardedQueued? ==> id in s.ready)
    && (s.dispatcher == Granted ==> s.heap != {})
    && (s.heap != {} ==> |s.heap| <= s.maxDepth)
  }

  /** The closed ready channels are those of the popped requests, but for the one being closed. */
  ghost predicate ReadyAfterPop(s: State) {
    && (s.dispatcher.Closing? ==> s.dispatcher.req in s.popped && s.dispatcher.req.id !in s.ready)
    && (forall r :: r in s.popped ==> r.id in s.ready || s.dispatcher == Closing(r))
    && (forall id :: id in s.ready ==>
          id in s.stages && HasRequest(s.stages[id]) && s.stages[id].req in s.popped)
  }

  ghost predicate Inv(s: State) {
    Placed(s) && Accounted(s) && ReadyAfterPop(s)
  }

  /** A handler that has no request in the queue moves to another such stage. */
  lemma MoveOutside(s: State, id: nat, st: Stage)
    requires Inv(s) && !HasRequest(st) && (id in s.stages ==> !HasRequest(s.stages[id]))
    ensures Inv(Move(s, id, st))
  {
    var t := Move(s, id, st);
    assert forall r :: Queued(s, r) ==> Queued(t, r) && t.stages[r.id] == s.stages[r.id];
  }

  /** A queued handler moves on, keeping its request. */
  lemma MoveQueued(s: State, id: nat, st: Stage)
    requires Inv(s) && id in s.stages && MayWait(s.stages[id])
    requires HasRequest(st) && st.req == s.stages[id].req
    requires MayWait(st) || (st.ForwardedQueued? && id in s.ready)
    ensures Inv(Move(s, id, st))
  {
    var t := Move(s, id, st);
    assert forall r :: Queued(s, r) ==> Queued(t, r);
    if st.ForwardedQueued? {
      assert st.req in s.popped;
      assert forall r :: r in s.heap ==> r.id != id;
    }
  }

  /** The queue after a push that found room. */
  ghost predicate AfterRoom(s: State, id: nat, req: Request, t: State) {
    && At(s, id, Throttled) && MutexFree(s) && req.id == id && |s.heap| < s.maxDepth
    && t == Move(s.(heap := s.heap + {req}), id, Pushed(req))
  }

  lemma OthersStayQueued(s: State, id: nat, req: Request, t: State)
    requires AfterRoom(s, id, req, t)
    ensures forall r :: Queued(s, r) ==> r.id != id && Queued(t, r) && t.stages[r.id] == s.stages[r.id]
  {
  }

  lemma PushKeepsPlaced(s: State, id: nat, req: Request, t: State)
    requires Inv(s) && AfterRoom(s, id, req, t)
    ensures Placed(t) && ReadyAfterPop(t)
  {
    OthersStayQueued(s, id, req, t);
  }

  lemma PushKeepsAccounted(s: State, id: nat, req: Request, t: State)
    requires Inv(s) && AfterRoom(s, id, req, t)
    ensures Accounted(t)
  {
    assert |t.heap| <= |s.heap| + 1;
  }

  lemma PushKeepsInv(s: State, id: nat, priority: int)
    requires Inv(s) && At(s, id, Throttled) && MutexFree(s)
    ensures Inv(AfterPush(s, id, priority))
  {
    if |s.heap| >= s.maxDepth {
      MoveOutside(s, id, Refused);
    } else {
      var req, t := Request(id, priority, s.now), AfterPush(s, id, priority);
      PushKeepsPlaced(s, id, req, t);
      PushKeepsAccounted(s, id, req, t);
    }
  }

  /** The queue after `remove` of a cancelled handler's request. */
  lemma RemoveKeepsPlaced(s: State, id: nat, t: State)
    requires Inv(s) && Enabled(s, Remove(id)) && t == Next(s, Remove(id))
    ensures Placed(t) && ReadyAfterPop(t)
  {
    var req := s.stages[id].req;
    forall r | Queued(s, r)
      ensures Queued(t, r) && (r != req ==> t.stages[r.id] == s.stages[r.id])
    {
    }
  }

  lemma RemoveKeepsAccounted(s: State, id: nat, t: State)
    requires Inv(s) && Enabled(s, Remove(id)) && t == Next(s, Remove(id))
    ensures Accounted(t)
  {
    SubsetSize(t.heap, s.heap);
    forall k | k in t.stages && MayWait(t.stages[k])
      ensures t.stages[k].req in t.heap || t.stages[k].req in t.popped
    {
      assert k != id && t.stages[k] == s.stages[k];
    }
  }

  lemma RemoveKeepsInv(s: State, id: nat)
    requires Inv(s) && Enabled(s, Remove(id))
    ensures Inv(Next(s, Remove(id)))
  {
    RemoveKeepsPlaced(s, id, Next(s, Remove(id)));
    RemoveKeepsAccounted(s, id, Next(s, Remove(id)));
  }

  lemma SubsetSize(a: set<Request>, b: set<Request>)
    requires a <= b
    ensures |a| <= |b|
  {
    assert b == a + (b - a);
  }

  lemma PopKeepsPlaced(s: State, req: Request, t: State)
    requires Inv(s) && Enabled(s, Pop(req)) && t == Next(s, Pop(req))
    ensures Placed(t)
  {
    assert forall r :: r in t.popped <==> r in s.popped || r == req;
    assert forall r :: Queued(s, r) <==> Queued(t, r);
  }

  lemma PopKeepsAccounted(s: State, req: Request, t: State)
    requires Inv(s) && Enabled(s, Pop(req)) && t == Next(s, Pop(req))
    ensures Accounted(t)
  {
    assert forall r :: r in t.popped <==> r in s.popped || r == req;
    SubsetSize(t.heap, s.heap);
  }

  lemma PopKeepsReady(s: State, req: Request, t: State)
    requires Inv(s) && Enabled(s, Pop(req)) && t == Next(s, Pop(req))
    ensures ReadyAfterPop(t)
  {
    assert forall r :: r in t.popped <==> r in s.popped || r == req;
    assert Queued(s, req) && req !in s.popped;
  }

  lemma PopKeepsInv(s: State, req: Request)
    requires Inv(s) && Enabled(s, Pop(req))
    ensures Inv(Next(s, Pop(req)))
  {
    PopKeepsPlaced(s, req, Next(s, Pop(req)));
    PopKeepsAccounted(s, req, Next(s, Pop(req)));
    PopKeepsReady(s, req, Next(s, Pop(req)));
  }

  lemma CloseKeepsInv(s: State)
    requires Inv(s) && Enabled(s, Close)
    ensures Inv(Next(s, Close))
  {
    var t := Next(s, Close);
    assert forall r :: Queued(s, r) <==> Queued(t, r);
    assert Queued(s, s.dispatcher.req);
  }

  /** A step that changes no stage and leaves heap, popped requests and channels alone. */
  lemma DispatcherMoves(s: State, t: State)
    requires Inv(s) && !s.dispatcher.Closing? && !t.dispatcher.Closing?
    requires t.stages == s.stages && t.heap == s.heap && t.popped == s.popped && t.ready == s.ready
    requires t.maxDepth == s.maxDepth && (t.dispatcher == Granted ==> s.heap != {})
    ensures Inv(t)
  {
    assert forall r :: Queued(s, r) <==> Queued(t, r);
  }

  lemma Unconcerned(s: State, t: State)
    requires Inv(s) && t.dispatcher == s.dispatcher && t.maxDepth == s.maxDepth
    requires t.stages == s.stages && t.heap == s.heap && t.popped == s.popped && t.ready == s.ready
    ensures Inv(t)
  {
    assert forall r :: Queued(s, r) <==> Queued(t, r);
  }

  /** The handler a step moves, if any. */
  function Moved(step: Step): Option<nat> {
    match step
    case Arrive(id, _) => Some(id)
    case TryApp(id, _) => Some(id)
    case GiveUpApp(id) => Some(id)
    case TryMerchant(id, _) => Some(id)
    case Push(id, _) => Some(id)
    case QueueGone(id) => Some(id)
    case Notify(id) => Some(id)
    case SeeReady(id) => Some(id)
    case SeeCancel(id) => Some(id)
    case Remove(id) => Some(id)
    case SeeStopped(id) => Some(id)
    case _ => None
  }

  /** What every handler step but Push and Remove does to the queue: nothing but move the
      handler, inside or outside the queued stages. */
  lemma HandlerShape(s: State, step: Step)
    requires Enabled(s, step) && Moved(step).Some? && !step.Push? && !step.Remove?
    ensures var t, id := Next(s, step), step.id;
            && id in t.stages && t.stages == s.stages[id := t.stages[id]]
            && t.heap == s.heap && t.popped == s.popped && t.ready == s.ready
            && t.dispatcher == s.dispatcher && t.maxDepth == s.maxDepth
            && if HasRequest(t.stages[id]) then
                 && id in s.stages && MayWait(s.stages[id]) && t.stages[id].req == s.stages[id].req
                 && (MayWait(t.stages[id]) || (t.stages[id].ForwardedQueued? && id in s.ready))
               else
                 id in s.stages ==> !HasRequest(s.stages[id])
  {
    match step
    case Arrive(_, _) =>
    case TryApp(_, _) =>
    case GiveUpApp(_) =>
    case TryMerchant(_, _) =>
    case QueueGone(_) =>
    case Notify(_) =>
    case SeeReady(_) =>
    case SeeCancel(_) =>
    case SeeStopped(_) =>
  }

  lemma HandlerKeepsInv(s: State, step: Step)
    requires Inv(s) && Enabled(s, step) && Moved(step).Some? && !step.Push? && !step.Remove?
    ensures Inv(Next(s, step))
  {
    HandlerShape(s, step);
    var t, id := Next(s, step), step.id;
    MoveAnywhere(s, t, id, t.stages[id]);
  }

  lemma MoveAnywhere(s: State, t: State, id: nat, st: Stage)
    requires Inv(s) && t.stages == s.stages[id := st]
    requires t.heap == s.heap && t.popped == s.popped && t.ready == s.ready
    requires t.dispatcher == s.dispatcher && t.maxDepth == s.maxDepth
    requires if HasRequest(st) then
               && id in s.stages && MayWait(s.stages[id]) && st.req == s.stages[id].req
               && (MayWait(st) || (st.ForwardedQueued? && id in s.ready))
             else
               id in s.stages ==> !HasRequest(s.stages[id])
    ensures Inv(t)
  {
    if HasRequest(st) {
      MoveQueued(s, id, st);
    } else {
      MoveOutside(s, id, st);
    }
    Unconcerned(Move(s, id, st), t);
  }

  lemma StepKeepsInv(s: State, step: Step)
    requires Inv(s) && Enabled(s, step)
    ensures Inv(Next(s, step))
  {
    if step.Push? {
      PushKeepsInv(s, step.id, step.priority);
    } else if step.Remove? {
      RemoveKeepsInv(s, step.id);
    } else if Moved(step).Some? {
      HandlerKeepsInv(s, step);
    } else {
      DispatcherKeepsInv(s, step);
    }
  }

  lemma DispatcherKeepsInv(s: State, step: Step)
    requires Inv(s) && Enabled(s, step) && Moved(step).None?
    ensures Inv(Next(s, step))
  {
    if step.Pop? {
      PopKeepsInv(s, step.req);
    } else if step.Close? {
      CloseKeepsInv(s);
    } else {
      OthersKeepInv(s, step);
    }
  }

  lemma OthersKeepInv(s: State, step: Step)
    requires Inv(s) && Enabled(s, step) && Moved(step).None? && !step.Pop? && !step.Close?
    ensures Inv(Next(s, step))
  {
    match step
    case Tick(_) => Unconcerned(s, Next(s, step));
    case Stop => Unconcerned(s, Next(s, step));
    case SetRate(_) => Unconcerned(s, Next(s, step));
    case ReadTokens => Unconcerned(s, Next(s, step));
    case Lock => DispatcherMoves(s, Next(s, step));
    case Check(_) => DispatcherMoves(s, Next(s, step));
    case TakeNotify => DispatcherMoves(s, Next(s, step));
    case TimerFires => DispatcherMoves(s, Next(s, step));
    case Exit => DispatcherMoves(s, Next(s, step));
  }

  lemma {:induction false} RunKeepsInv(s: State, steps: seq<Step>)
    requires Inv(s) && IsRun(s, steps)
    ensures Inv(End(s, steps))
    decreases |steps|
  {
    if steps != [] {
      StepKeepsInv(s, steps[0]);
      RunKeepsInv(Next(s, steps[0]), steps[1..]);
    }
  }

  lemma InitInv(s: State)
    requires Init(s)
    ensures Inv(s)
  {
  }

  // ---------- each ready channel is closed at most once ----------

  /** No run ever closes a closed channel, and the dispatcher never pops an empty heap. */
  lemma ClosesOnce(init: State, steps: seq<Step>)
    requires Init(init) && IsRun(init, steps)
    ensures var s := End(init, steps);
            && (Enabled(s, Close) ==> s.dispatcher.req.id !in s.ready)
            && (s.dispatcher == Granted ==> exists r :: Enabled(s, Pop(r)))
            && (s.heap != {} ==> |s.heap| <= s.maxDepth)
  {
    InitInv(init);
    RunKeepsInv(init, steps);
    CanAlwaysPop(End(init, steps));
  }

  lemma CanAlwaysPop(s: State)
    requires Inv(s)
    ensures s.dispatcher == Granted ==> exists r :: Enabled(s, Pop(r))
  {
    if s.dispatcher == Granted {
      var r := LeastOf(s.heap);
      assert Enabled(s, Pop(r));
    }
  }

  lemma {:induction false} LeastOf(heap: set<Request>) returns (r: Request)
    requires heap != {}
    ensures IsLeast(r, heap)
    decreases |heap|
  {
    var x :| x in heap;
    var rest := heap - {x};
    r := x;
    if rest != {} {
      var m := LeastOf(rest);
      r := if Before(m, x) then m else x;
    }
    assert forall o :: o in heap ==> o == x || o in rest;
  }

  // ---------- token accounting ----------

  function InFlight(s: State): nat {
    if s.dispatcher == Granted then 1 else 0
  }

  predicate Fast(st: Stage) { st.ForwardedFast? }

  /** Past waitForAppBucket. */
  predicate Cleared(st: Stage) { !st.Arrived? && !st.AppWaiting? && !st.AppFailed? }

  predicate Balanced(s: State) {
    && s.grants == |Those(s.stages, Fast)| + |s.popped| + InFlight(s)
    && s.appGrants == if s.hasApp then |Those(s.stages, Cleared)| else 0
  }

  function One(b: bool): nat {
    if b then 1 else 0
  }

  predicate WasFast(s: State, id: nat) { id in s.stages && Fast(s.stages[id]) }

  predicate WasCleared(s: State, id: nat) { id in s.stages && Cleared(s.stages[id]) }

  lemma MoveKeepsBalance(s: State, t: State, id: nat, st: Stage)
    requires Balanced(s) && t.stages == s.stages[id := st]
    requires t.popped == s.popped && t.dispatcher == s.dispatcher && t.hasApp == s.hasApp
    requires t.grants == s.grants + One(Fast(st)) - One(WasFast(s, id))
    requires t.appGrants == if s.hasApp then s.appGrants + One(Cleared(st)) - One(WasCleared(s, id)) else s.appGrants
    ensures Balanced(t)
  {
    CountMove(s.stages, id, st, Fast);
    CountMove(s.stages, id, st, Cleared);
  }

  lemma HandlerStages(s: State, step: Step)
    requires Enabled(s, step) && Moved(step).Some?
    ensures var t, id := Next(s, step), step.id;
            id in t.stages && t.stages == s.stages[id := t.stages[id]]
  {
    match step
    case Arrive(_, _) =>
    case TryApp(_, _) =>
    case GiveUpApp(_) =>
    case TryMerchant(_, _) =>
    case Push(_, _) =>
    case QueueGone(_) =>
    case Notify(_) =>
    case SeeReady(_) =>
    case SeeCancel(_) =>
    case Remove(_) =>
    case SeeStopped(_) =>
  }

  lemma HandlerFrame(s: State, step: Step)
    requires Enabled(s, step) && Moved(step).Some?
    ensures var t := Next(s, step);
            t.popped == s.popped && t.dispatcher == s.dispatcher && t.hasApp == s.hasApp
  {
    match step
    case Arrive(_, _) =>
    case TryApp(_, _) =>
    case GiveUpApp(_) =>
    case TryMerchant(_, _) =>
    case Push(_, _) =>
    case QueueGone(_) =>
    case Notify(_) =>
    case SeeReady(_) =>
    case SeeCancel(_) =>
    case Remove(_) =>
    case SeeStopped(_) =>
  }

  lemma HandlerGrants(s: State, step: Step)
    requires Enabled(s, step) && Moved(step).Some?
    ensures var t, id := Next(s, step), step.id;
            && id in t.stages
            && t.grants == s.grants + One(Fast(t.stages[id])) - One(WasFast(s, id))
  {
    match step
    case Arrive(_, _) =>
    case TryApp(_, _) =>
    case GiveUpApp(_) =>
    case TryMerchant(_, _) =>
    case Push(_, _) =>
    case QueueGone(_) =>
    case Notify(_) =>
    case SeeReady(_) =>
    case SeeCancel(_) =>
    case Remove(_) =>
    case SeeStopped(_) =>
  }

  lemma HandlerAppGrants(s: State, step: Step)
    requires Enabled(s, step) && Moved(step).Some?
    ensures var t, id := Next(s, step), step.id;
            && id in t.stages
            && t.appGrants == if s.hasApp then s.appGrants + One(Cleared(t.stages[id])) - One(WasCleared(s, id))
                              else s.appGrants
  {
    match step
    case Arrive(_, _) =>
    case TryApp(_, _) =>
    case GiveUpApp(_) =>
    case TryMerchant(_, _) =>
    case Push(_, _) =>
    case QueueGone(_) =>
    case Notify(_) =>
    case SeeReady(_) =>
    case SeeCancel(_) =>
    case Remove(_) =>
    case SeeStopped(_) =>
  }

  lemma DispatcherDeltas(s: State, step: Step)
    requires Enabled(s, step) && Moved(step).None?
    ensures var t := Next(s, step);
            && t.stages == s.stages && t.hasApp == s.hasApp && t.appGrants == s.appGrants
            && t.grants - |t.popped| - InFlight(t) == s.grants - |s.popped| - InFlight(s)
  {
  }

  lemma StepKeepsBalance(s: State, step: Step)
    requires Balanced(s) && Enabled(s, step)
    ensures Balanced(Next(s, step))
  {
    if Moved(step).Some? {
      HandlerStages(s, step);
      HandlerFrame(s, step);
      HandlerGrants(s, step);
      HandlerAppGrants(s, step);
      MoveKeepsBalance(s, Next(s, step), step.id, Next(s, step).stages[step.id]);
    } else {
      DispatcherDeltas(s, step);
    }
  }

  lemma {:induction false} RunKeepsBalance(s: State, steps: seq<Step>)
    requires Balanced(s) && IsRun(s, steps)
    ensures Balanced(End(s, steps))
    decreases |steps|
  {
    if steps != [] {
      StepKeepsBalance(s, steps[0]);
      RunKeepsBalance(Next(s, steps[0]), steps[1..]);
    }
  }

  lemma InitBalanced(s: State)
    requires Init(s)
    ensures Balanced(s)
  {
    assert Those(s.stages, Fast) == {} && Those(s.stages, Cleared) == {};
  }

  predicate Forwarded(st: Stage) { st.ForwardedFast? || st.ForwardedQueued? }

  /** Admission accounting, in every interleaving:
      - each token the merchant bucket gave went to one fast-path forward, to one popped request,
        or is in the dispatcher's hand;
      - no request is popped twice, so each forwarded one owns its own token, and no more requests
        are forwarded than tokens were given;
      - each request past the application bucket paid it exactly one token;
      - a cancelled request is out of the heap: either removed without a token, or popped with one. */
  lemma EveryForwardIsPaid(init: State, steps: seq<Step>)
    requires Init(init) && IsRun(init, steps)
    ensures var s := End(init, steps);
            && s.grants == |Those(s.stages, Fast)| + |s.popped| + InFlight(s)
            && s.appGrants == (if s.hasApp then |Those(s.stages, Cleared)| else 0)
            && |Those(s.stages, Forwarded)| <= s.grants
            && (forall id :: id in s.stages && s.stages[id].ForwardedQueued? ==>
                  s.stages[id].req.id == id && s.stages[id].req in s.popped)
            && (forall i, j :: 0 <= i < j < |s.popped| ==> s.popped[i].id != s.popped[j].id)
            && (forall id :: id in s.stages && s.stages[id].Cancelled? ==> s.stages[id].req !in s.heap)
  {
    InitInv(init);
    InitBalanced(init);
    RunKeepsInv(init, steps);
    RunKeepsBalance(init, steps);
    var s := End(init, steps);
    ForwardsWithinGrants(s);
    forall i, j | 0 <= i < j < |s.popped|
      ensures s.popped[i].id != s.popped[j].id
    {
      assert Queued(s, s.popped[i]) && Queued(s, s.popped[j]);
    }
  }

  lemma ForwardsWithinGrants(s: State)
    requires Inv(s) && Balanced(s)
    ensures |Those(s.stages, Forwarded)| <= s.grants
  {
    var ids := PoppedIds(s.popped);
    var bound := Those(s.stages, Fast) + ids;
    forall id | id in Those(s.stages, Forwarded)
      ensures id in bound
    {
      if s.stages[id].ForwardedQueued? {
        assert id in s.ready && s.stages[id].req in s.popped;
      }
    }
    assert bound == Those(s.stages, Forwarded) + (bound - Those(s.stages, Forwarded));
  }

  function PoppedIds(popped: seq<Request>): (ids: set<nat>)
    ensures |ids| <= |popped|
    ensures forall r :: r in popped ==> r.id in ids
  {
    if popped == [] then {} else PoppedIds(popped[..|popped| - 1]) + {popped[|popped| - 1].id}
  }

  // ---------- service order ----------

  /** Whoever was taken out came no later than those of the same priority taken out after it or
      still waiting. */
  ghost predicate InOrder(heap: set<Request>, popped: seq<Request>, now: real) {
    && (forall r :: r in heap || r in popped ==> r.enqueuedAt <= now)
    && (forall p, w :: p in popped && w in heap && p.priority == w.priority ==> p.enqueuedAt <= w.enqueuedAt)
    && (forall i, j :: 0 <= i < j < |popped| && popped[i].priority == popped[j].priority ==>
          popped[i].enqueuedAt <= popped[j].enqueuedAt)
  }

  ghost predicate Fifo(s: State) {
    InOrder(s.heap, s.popped, s.now)
  }

  lemma PopInOrder(heap: set<Request>, popped: seq<Request>, now: real, req: Request)
    requires InOrder(heap, popped, now) && IsLeast(req, heap)
    ensures InOrder(heap - {req}, popped + [req], now)
  {
    var more := popped + [req];
    assert forall r :: r in more <==> r in popped || r == req;
    assert forall i :: 0 <= i < |popped| ==> popped[i] in popped;
  }

  lemma PopKeepsFifo(s: State, req: Request)
    requires Fifo(s) && Enabled(s, Pop(req))
    ensures Fifo(Next(s, Pop(req)))
  {
    PopInOrder(s.heap, s.popped, s.now, req);
  }

  lemma OthersKeepFifo(s: State, t: State)
    requires Fifo(s) && t.popped == s.popped && s.now <= t.now
    requires forall r :: r in t.heap ==> r in s.heap || r.enqueuedAt == s.now
    ensures Fifo(t)
  {
  }

  lemma StepKeepsFifo(s: State, step: Step)
    requires Fifo(s) && Enabled(s, step)
    ensures Fifo(Next(s, step))
  {
    if step.Pop? {
      PopKeepsFifo(s, step.req);
    } else {
      OthersKeepFifo(s, Next(s, step));
    }
  }

  /** First come, first served within a priority: in every interleaving the dispatcher has taken
      out the requests of each priority in the order they were enqueued. */
  lemma {:induction false} ServedInOrder(s: State, steps: seq<Step>)
    requires Fifo(s) && IsRun(s, steps)
    ensures Fifo(End(s, steps))
    decreases |steps|
  {
    if steps != [] {
      StepKeepsFifo(s, steps[0]);
      ServedInOrder(Next(s, steps[0]), steps[1..]);
    }
  }

  lemma ServedInOrderFromStart(init: State, steps: seq<Step>)
    requires Init(init) && IsRun(init, steps)
    ensures var p := End(init, steps).popped;
            forall i, j :: 0 <= i < j < |p| && p[i].priority == p[j].priority ==>
              p[i].enqueuedAt <= p[j].enqueuedAt
  {
    ServedInOrder(init, steps);
  }
}
