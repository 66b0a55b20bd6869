/** The asynchronous request logger (internal/logging/logger.go): callers put entries on a bounded
    channel without blocking, one worker batches and flushes them, and Close may race with both.
  */
module AsyncLogger {

  const BATCH_SIZE: nat := 100

  // ---------- the worker ----------

  /** What the worker's select can pick: an entry, the closed and drained channel, or the ticker. */
  datatype Event<E> = Received(entry: E) | Drained | Ticked

  datatype Worker<E> = Worker(batch: seq<E>, flushed: seq<seq<E>>, done: bool)

  /** flush: an empty batch is not written. */
  function Flush<E>(w: Worker<E>): Worker<E> {
    if w.batch == [] then w else w.(flushed := w.flushed + [w.batch], batch := [])
  }

  function OnEvent<E>(w: Worker<E>, ev: Event<E>): Worker<E> {
    match ev
    case Received(entry) =>
      var grown := w.(batch := w.batch + [entry]);
      if |grown.batch| >= BATCH_SIZE then Flush(grown) else grown
    case Drained => Flush(w).(done := true)
    case Ticked => Flush(w)
  }

  function OnEvents<E>(w: Worker<E>, evs: seq<Event<E>>): Worker<E> {
    if evs == [] then w else OnEvent(OnEvents(w, evs[..|evs| - 1]), evs[|evs| - 1])
  }

  /** The worker's loop over what its select picks, up to the closed channel. The batch is one
      buffer, of which the first `n` entries count; after a flush it is used again from the start. */
  method RunWorker<E(0)>(evs: seq<Event<E>>) returns (flushed: seq<seq<E>>, pending: seq<E>, done: bool)
    requires forall i :: 0 <= i < |evs| - 1 ==> !evs[i].Drained?
    ensures Worker(pending, flushed, done) == OnEvents(Worker([], [], false), evs)
  {
    var batch, n := new E[BATCH_SIZE], 0;
    flushed, done := [], false;
    for i := 0 to |evs|
      invariant n < BATCH_SIZE == batch.Length && fresh(batch)
      invariant Worker(batch[..n], flushed, done) == OnEvents(Worker([], [], false), evs[..i])
    {
      assert evs[..i + 1][..i] == evs[..i];
      match evs[i] {
        case Received(entry) =>
          ghost var before := batch[..n];
          batch[n] := entry;
          n := n + 1;
          assert batch[..n] == before + [entry];
          if n >= BATCH_SIZE {
            flushed := flushed + [batch[..n]];
            n := 0;
          }
        case Drained =>
          if n > 0 {
            flushed := flushed + [batch[..n]];
          }
          n, done := 0, true;
        case Ticked =>
          if n > 0 {
            flushed := flushed + [batch[..n]];
            n := 0;
          }
      }
    }
    assert evs[..|evs|] == evs;
    pending := batch[..n];
  }

  // ---------- callers, channel, worker and Close together ----------

  datatype State<E> = State(
    capacity: nat,
    channel: seq<E>,
    closed: bool,
    worker: Worker<E>,
    calls: nat,                        // Log calls so far
    dropped: nat,
    accepted: seq<E>,                  // entries Log put on the channel, in order
    closeReturned: bool)

  predicate Init<E>(s: State<E>) {
    && s.channel == [] && !s.closed && s.worker == Worker([], [], false)
    && s.calls == 0 && s.dropped == 0 && s.accepted == [] && !s.closeReturned
  }

  /** `handoff`: a receiver is waiting at the empty channel, so the send succeeds even unbuffered. */
  datatype Step<E> =
    | Log(entry: E, handoff: bool)
    | Receive
    | SeeClosed
    | Tick
    | CloseChannel
    | ReturnFromClose

  predicate Enabled<E>(s: State<E>, step: Step<E>) {
    match step
    case Log(_, handoff) => handoff ==> s.channel == [] && !s.worker.done
    case Receive => !s.worker.done && s.channel != []
    case SeeClosed => !s.worker.done && s.closed && s.channel == []
    case Tick => !s.worker.done
    case CloseChannel => !s.closed
    case ReturnFromClose => s.closed && s.worker.done
  }

  /** A send on a closed channel panics, and the recovered panic counts as a drop. */
  function AfterLog<E>(s: State<E>, entry: E, handoff: bool): State<E> {
    var t := s.(calls := s.calls + 1);
    if !s.closed && (|s.channel| < s.capacity || handoff)
    then t.(channel := s.channel + [entry], accepted := s.accepted + [entry])
    else t.(dropped := s.dropped + 1)
  }

  function Next<E>(s: State<E>, step: Step<E>): State<E>
    requires Enabled(s, step)
  {
    match step
    case Log(entry, handoff) => AfterLog(s, entry, handoff)
    case Receive => s.(channel := s.channel[1..], worker := OnEvent(s.worker, Received(s.channel[0])))
    case SeeClosed => s.(worker := OnEvent(s.worker, Drained))
    case Tick => s.(worker := OnEvent(s.worker, Ticked))
    case CloseChannel => s.(closed := true)
    case ReturnFromClose => s.(closeReturned := true)
  }

  predicate IsRun<E>(s: State<E>, steps: seq<Step<E>>)
    decreases |steps|
  {
    steps != [] ==> Enabled(s, steps[0]) && IsRun(Next(s, steps[0]), steps[1..])
  }

  function End<E>(s: State<E>, steps: seq<Step<E>>): State<E>
    requires IsRun(s, steps)
    decreases |steps|
  {
    if steps == [] then s else End(Next(s, steps[0]), steps[1..])
  }

  // ---------- conservation ----------

  function Concat<E>(batches: seq<seq<E>>): seq<E> {
    if batches == [] then [] else Concat(batches[..|batches| - 1]) + batches[|batches| - 1]
  }

  /** Everything the worker was given, in order: flushed batches first, then the open one. */
  function Given<E>(w: Worker<E>): seq<E> {
    Concat(w.flushed) + w.batch
  }

  predicate Bounded<E>(w: Worker<E>) {
    && |w.batch| < BATCH_SIZE
    && forall i :: 0 <= i < |w.flushed| ==> 0 < |w.flushed[i]| <= BATCH_SIZE
  }

  lemma FlushKeepsGiven<E>(w: Worker<E>)
    requires |w.batch| <= BATCH_SIZE && forall i :: 0 <= i < |w.flushed| ==> 0 < |w.flushed[i]| <= BATCH_SIZE
    ensures Given(Flush(w)) == Given(w) && Flush(w).batch == [] && Bounded(Flush(w))
  {
    var f := w.flushed + [w.batch];
    assert f[..|f| - 1] == w.flushed;
  }

  lemma EventKeepsGiven<E>(w: Worker<E>, ev: Event<E>)
    requires Bounded(w)
    ensures Bounded(OnEvent(w, ev))
    ensures Given(OnEvent(w, ev)) == if ev.Received? then Given(w) + [ev.entry] else Given(w)
    ensures !ev.Received? ==> OnEvent(w, ev).batch == []
  {
    if ev.Received? {
      var grown := w.(batch := w.batch + [ev.entry]);
      FlushKeepsGiven(grown);
      assert Given(grown) == Given(w) + [ev.entry];
    } else {
      FlushKeepsGiven(w);
    }
  }

  /** An entry that is received is flushed at once exactly when it is the hundredth of its batch. */
  lemma FlushesAtHundred<E>(w: Worker<E>, entry: E)
    requires Bounded(w)
    ensures var v := OnEvent(w, Received(entry));
            if |w.batch| == 99 then v.batch == [] && v.flushed == w.flushed + [w.batch + [entry]]
            else v.batch == w.batch + [entry] && v.flushed == w.flushed
  {
  }

  /** Every accepted entry is flushed, in the open batch or on the channel, each exactly once and in
      order; every call is accepted or counted as dropped; batches have 1 to 100 entries. */
  predicate Conserved<E(==)>(s: State<E>) {
    && s.accepted == Given(s.worker) + s.channel
    && s.calls == |s.accepted| + s.dropped
    && Bounded(s.worker)
    && (s.worker.done ==> s.closed && s.channel == [] && s.worker.batch == [])
    && (s.closeReturned ==> s.worker.done)
  }

  lemma StepConserves<E>(s: State<E>, step: Step<E>)
    requires Conserved(s) && Enabled(s, step)
    ensures Conserved(Next(s, step))
  {
    match step
    case Log(entry, handoff) =>
      assert Given(s.worker) + (s.channel + [entry]) == (Given(s.worker) + s.channel) + [entry];
    case Receive =>
      EventKeepsGiven(s.worker, Received(s.channel[0]));
      assert s.channel == [s.channel[0]] + s.channel[1..];
      assert Given(s.worker) + s.channel == (Given(s.worker) + [s.channel[0]]) + s.channel[1..];
    case SeeClosed => EventKeepsGiven(s.worker, Drained);
    case Tick => EventKeepsGiven(s.worker, Ticked);
    case CloseChannel =>
    case ReturnFromClose =>
  }

  lemma {:induction false} RunConserves<E>(s: State<E>, steps: seq<Step<E>>)
    requires Conserved(s) && IsRun(s, steps)
    ensures Conserved(End(s, steps))
    decreases |steps|
  {
    if steps != [] {
      StepConserves(s, steps[0]);
      RunConserves(Next(s, steps[0]), steps[1..]);
    }
  }

  /** No entry is lost or written twice, in any interleaving of callers, worker, ticker and Close:
      each Log call is counted in dropped, or its entry reaches flush exactly once, in channel
      order, in batches of at most 100; and once Close has returned nothing accepted is pending. */
  lemma NoEntryIsLost<E>(init: State<E>, steps: seq<Step<E>>)
    requires Init(init) && IsRun(init, steps)
    ensures var s := End(init, steps);
            && s.calls == |s.accepted| + s.dropped
            && Concat(s.worker.flushed) <= s.accepted
            && s.accepted == Concat(s.worker.flushed) + s.worker.batch + s.channel
            && (forall i :: 0 <= i < |s.worker.flushed| ==> |s.worker.flushed[i]| <= 100)
            && (s.closeReturned ==> Concat(s.worker.flushed) == s.accepted)
  {
    RunConserves(init, steps);
    var s := End(init, steps);
    var all := Concat(s.worker.flushed);
    assert s.accepted == all + (s.worker.batch + s.channel);
    assert s.accepted[..|all|] == all;
  }

  /** The step is a Log call that found the channel closed, or full with nobody waiting at it. */
  predicate FoundNoRoom<E>(s: State<E>, step: Step<E>) {
    step.Log? && (s.closed || (|s.channel| >= s.capacity && !step.handoff))
  }

  function NoRoomCount<E>(s: State<E>, steps: seq<Step<E>>): nat
    requires IsRun(s, steps)
    decreases |steps|
  {
    if steps == [] then 0
    else (if FoundNoRoom(s, steps[0]) then 1 else 0) + NoRoomCount(Next(s, steps[0]), steps[1..])
  }

  function Entries<E>(s: State<E>, steps: seq<Step<E>>): seq<E>
    requires IsRun(s, steps)
    decreases |steps|
  {
    if steps == [] then []
    else (if steps[0].Log? && !FoundNoRoom(s, steps[0]) then [steps[0].entry] else [])
         + Entries(Next(s, steps[0]), steps[1..])
  }

  /** Nothing is dropped needlessly: over every run, the calls counted as dropped are those that found
      the channel closed, or full with nobody waiting at it, and the entries of all others are
      accepted, in the order of the calls. */
  lemma {:induction false} DroppedOnlyForWantOfRoom<E>(s: State<E>, steps: seq<Step<E>>)
    requires IsRun(s, steps)
    ensures End(s, steps).dropped == s.dropped + NoRoomCount(s, steps)
    ensures End(s, steps).accepted == s.accepted + Entries(s, steps)
    decreases |steps|
  {
    if steps != [] {
      DroppedOnlyForWantOfRoom(Next(s, steps[0]), steps[1..]);
    }
  }

  /** Log never blocks: in any state a call returns at once, with its entry on the channel or dropped. */
  lemma LogNeverBlocks<E>(s: State<E>, entry: E)
    ensures Enabled(s, Log(entry, false))
    ensures var t := Next(s, Log(entry, false));
            t.calls == s.calls + 1 && (t.channel == s.channel + [entry] || t.dropped == s.dropped + 1)
  {
  }

  /** A tick of the worker leaves nothing it has received unflushed, in any run. */
  lemma TickFlushesAll<E>(init: State<E>, steps: seq<Step<E>>)
    requires Init(init) && IsRun(init, steps) && Enabled(End(init, steps), Tick)
    ensures var s := Next(End(init, steps), Tick); s.accepted == Concat(s.worker.flushed) + s.channel
  {
    RunConserves(init, steps);
    var s := End(init, steps);
    EventKeepsGiven(s.worker, Ticked);
    StepConserves(s, Tick);
    var w := Next(s, Tick).worker;
    assert Given(w) == Concat(w.flushed);
  }

  /** Close does not hang for want of work: from any state in which the worker runs, closing the channel
      lets the worker drain what is left and Close return, in one step for each entry and three more. */
  lemma CloseCanReturn<E>(s: State<E>) returns (steps: seq<Step<E>>)
    requires !s.worker.done
    ensures |steps| <= |s.channel| + 3 && IsRun(s, steps) && End(s, steps).closeReturned
  {
    if s.closed {
      steps := DrainAndReturn(s);
    } else {
      var t := Next(s, CloseChannel);
      var rest := DrainAndReturn(t);
      steps := [CloseChannel] + rest;
      assert steps[1..] == rest;
    }
  }

  lemma {:induction false} DrainAndReturn<E>(s: State<E>) returns (steps: seq<Step<E>>)
    requires s.closed && !s.worker.done
    ensures |steps| == |s.channel| + 2 && IsRun(s, steps) && End(s, steps).closeReturned
    decreases |s.channel|
  {
    if s.channel == [] {
      var t := Next(s, SeeClosed);
      steps := [SeeClosed, ReturnFromClose];
      assert steps[1..] == [ReturnFromClose] && steps[1..][1..] == [];
      assert IsRun(t, [ReturnFromClose]) && End(t, [ReturnFromClose]).closeReturned;
    } else {
      var t := Next(s, Receive);
      var rest := DrainAndReturn(t);
      steps := [Receive] + rest;
      assert steps[1..] == rest;
    }
  }
}
