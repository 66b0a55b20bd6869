/** The limiter's table of buckets (internal/ratelimit/limiter.go): callers that look a bucket up and
    create it on a miss, racing with each other and with the garbage collector.

    Every entry owns a queue with a running dispatcher goroutine, so each entry that does not end up
    in the table has to be stopped. Every step is one operation on the table or one Stop; entries are
    numbered in the order they are created.
  */
module Limiters {
  import opened Options

  /** Where a GetBucket call is. */
  datatype Call =
    | Looking(key: string)
    | Missed(key: string)                          // not in the table, and the endpoint is known
    | Holding(key: string, mine: nat)              // created an entry, about to LoadOrStore it
    | Losing(key: string, mine: nat, actual: nat)  // another entry is there, about to stop its own
    | Done(key: string, got: Option<nat>)

  /** Where the collector is. */
  datatype Collector = Resting | Stopping(key: string, entry: nat) | Deleting(key: string, entry: nat)

  /** Where Limiter.Stop is in its range over the table: the entries of the table when it began that
      it has not visited yet. Keys added since may or may not be visited. */
  datatype Stopper = Open | Ranging(left: map<string, nat>) | Stopped

  datatype State = State(
    table: map<string, nat>,
    calls: map<nat, Call>,
    collector: Collector,
    stopper: Stopper,
    created: nat,                                  // entries 0 to created - 1 exist
    running: set<nat>)                             // entries whose dispatcher has not been stopped

  predicate Init(s: State) {
    && s.table == map[] && s.calls == map[] && s.collector == Resting && s.stopper == Open
    && s.created == 0 && s.running == {}
  }

  datatype Step =
    | Begin(id: nat, key: string)
    | Load(id: nat, known: bool)                   // Load, and LookupDefaults on a miss
    | Create(id: nat)
    | LoadOrStore(id: nat)
    | StopOwn(id: nat)
    | Pick(key: string)                            // the collector finds a stale entry
    | StopStale
    | Delete
    | BeginStop
    | StopOne(key: string)                         // one turn of the range of Limiter.Stop
    | Skip(key: string)                            // the entry to visit is gone
    | EndStop

  predicate Enabled(s: State, step: Step) {
    match step
    case Begin(id, _) => id !in s.calls
    case Load(id, _) => id in s.calls && s.calls[id].Looking?
    case Create(id) => id in s.calls && s.calls[id].Missed?
    case LoadOrStore(id) => id in s.calls && s.calls[id].Holding?
    case StopOwn(id) => id in s.calls && s.calls[id].Losing?
    case Pick(key) => s.collector == Resting && key in s.table
    case StopStale => s.collector.Stopping?
    case Delete => s.collector.Deleting?
    case BeginStop => s.stopper.Open?
    case StopOne(key) => s.stopper.Ranging? && key in s.table
    case Skip(key) =>
      s.stopper.Ranging? && key in s.stopper.left && (key in s.table ==> s.table[key] != s.stopper.left[key])
    case EndStop => s.stopper == Ranging(map[])
  }

  function Put(s: State, id: nat, c: Call): State {
    s.(calls := s.calls[id := c])
  }

  function AfterLoad(s: State, id: nat, key: string, known: bool): State {
    if key in s.table then Put(s, id, Done(key, Some(s.table[key])))
    else if known then Put(s, id, Missed(key))
    else Put(s, id, Done(key, None))
  }

  function AfterLoadOrStore(s: State, id: nat, key: string, mine: nat): State {
    if key !in s.table then Put(s.(table := s.table[key := mine]), id, Done(key, Some(mine)))
    else if s.table[key] != mine then Put(s, id, Losing(key, mine, s.table[key]))
    else Put(s, id, Done(key, Some(mine)))
  }

  function Next(s: State, step: Step): State
    requires Enabled(s, step)
  {
    match step
    case Begin(id, key) => Put(s, id, Looking(key))
    case Load(id, known) => AfterLoad(s, id, s.calls[id].key, known)
    case Create(id) =>
      Put(s.(created := s.created + 1, running := s.running + {s.created}), id, Holding(s.calls[id].key, s.created))
    case LoadOrStore(id) => AfterLoadOrStore(s, id, s.calls[id].key, s.calls[id].mine)
    case StopOwn(id) =>
      var c := s.calls[id];
      Put(s.(running := s.running - {c.mine}), id, Done(c.key, Some(c.actual)))
    case Pick(key) => s.(collector := Stopping(key, s.table[key]))
    case StopStale =>
      s.(running := s.running - {s.collector.entry}, collector := Deleting(s.collector.key, s.collector.entry))
    case Delete => s.(table := s.table - {s.collector.key}, collector := Resting)
    case BeginStop => s.(stopper := Ranging(s.table))
    case StopOne(key) => s.(running := s.running - {s.table[key]}, stopper := Ranging(s.stopper.left - {key}))
    case Skip(key) => s.(stopper := Ranging(s.stopper.left - {key}))
    case EndStop => s.(stopper := Stopped)
  }

  predicate IsRun(s: State, steps: seq<Step>)
    decreases |steps|
  {
    steps != [] ==> Enabled(s, steps[0]) && IsRun(Next(s, steps[0]), steps[1..])
  }

  function End(s: State, steps: seq<Step>): State
    requires IsRun(s, steps)
    decreases |steps|
  {
    if steps == [] then s else End(Next(s, steps[0]), steps[1..])
  }

  // ---------- no dispatcher is leaked ----------

  predicate Owning(c: Call) {
    c.Holding? || c.Losing?
  }

  predicate SameEntry(c: Call, d: Call) {
    Owning(c) && Owning(d) && c.mine == d.mine
  }

  ghost predicate Listed(s: State, e: nat) {
    exists k :: k in s.table && s.table[k] == e
  }

  ghost predicate Owned(s: State, e: nat) {
    exists id :: id in s.calls && Owning(s.calls[id]) && s.calls[id].mine == e
  }

  /** Entries are listed once, owned once, and not both. */
  ghost predicate Placed(s: State) {
    && (forall k :: k in s.table ==> s.table[k] < s.created)
    && (forall k, l :: k in s.table && l in s.table && s.table[k] == s.table[l] ==> k == l)
    && (forall id :: id in s.calls && Owning(s.calls[id]) ==>
          s.calls[id].mine < s.created && !Listed(s, s.calls[id].mine))
    && (forall i, j :: i in s.calls && j in s.calls && SameEntry(s.calls[i], s.calls[j]) ==> i == j)
  }

  /** What the collector is about to delete is what it found, and is stopped by then. */
  ghost predicate Collecting(s: State) {
    && (!s.collector.Resting? ==> s.collector.key in s.table && s.table[s.collector.key] == s.collector.entry)
    && (s.collector.Deleting? ==> s.collector.entry !in s.running)
  }

  ghost predicate Tended(s: State) {
    forall e: nat :: e in s.running ==> e < s.created && (Listed(s, e) || Owned(s, e))
  }

  /** A call's own entry runs until the call stops it. */
  predicate Busy(s: State) {
    forall id :: id in s.calls && Owning(s.calls[id]) ==> s.calls[id].mine in s.running
  }

  ghost predicate Inv(s: State) {
    Placed(s) && Collecting(s) && Tended(s) && Busy(s)
  }

  lemma SameTable(s: State, t: State)
    requires Inv(s) && t.table == s.table && s.created == t.created
    requires t.running <= s.running && t.collector == s.collector
    requires forall id :: id in t.calls && Owning(t.calls[id]) ==>
               id in s.calls && Owning(s.calls[id]) && s.calls[id].mine == t.calls[id].mine
    requires forall e: nat :: e in t.running && Owned(s, e) ==> Owned(t, e)
    requires Busy(t)
    ensures Inv(t)
  {
    assert forall e: nat :: Listed(s, e) <==> Listed(t, e);
  }

  lemma SameEntries(s: State, t: State)
    requires Inv(s) && t.table == s.table && t.calls == s.calls && t.created == s.created
    requires t.running == s.running && t.collector == s.collector
    ensures Inv(t)
  {
    SameTable(s, t) by {
      assert forall e: nat :: Owned(s, e) ==> Owned(t, e);
    }
  }

  lemma LoadKeepsInv(s: State, id: nat, known: bool)
    requires Inv(s) && Enabled(s, Load(id, known))
    ensures Inv(Next(s, Load(id, known)))
  {
    var t := Next(s, Load(id, known));
    OthersStillOwn(s, t, id);
    SameTable(s, t);
  }

  /** A call that owns nothing moves on: the others own what they owned. */
  lemma OthersStillOwn(s: State, t: State, id: nat)
    requires id in t.calls && t.calls == s.calls[id := t.calls[id]]
    requires id in s.calls ==> !Owning(s.calls[id])
    ensures forall e: nat :: Owned(s, e) ==> Owned(t, e)
  {
    forall e: nat | Owned(s, e)
      ensures Owned(t, e)
    {
      var i :| i in s.calls && Owning(s.calls[i]) && s.calls[i].mine == e;
      assert i in t.calls && Owning(t.calls[i]) && t.calls[i].mine == e;
    }
  }

  lemma CreateKeepsInv(s: State, id: nat)
    requires Inv(s) && Enabled(s, Create(id))
    ensures Inv(Next(s, Create(id)))
  {
    var t := Next(s, Create(id));
    OthersStillOwn(s, t, id);
    assert forall e: nat :: Listed(s, e) <==> Listed(t, e);
    assert Owning(t.calls[id]) && t.calls[id].mine == s.created && Owned(t, s.created);
  }

  /** What is listed and owned once a call has stored its entry. */
  lemma StoreMoves(s: State, id: nat, t: State)
    requires Inv(s) && Enabled(s, LoadOrStore(id)) && s.calls[id].key !in s.table && t == Next(s, LoadOrStore(id))
    ensures var mine := s.calls[id].mine;
            && (forall e: nat :: Listed(t, e) <==> Listed(s, e) || e == mine)
            && (forall e: nat :: Owned(s, e) && e != mine ==> Owned(t, e))
  {
    var key, mine := s.calls[id].key, s.calls[id].mine;
    assert t.table[key] == mine;
    forall e: nat | Listed(s, e)
      ensures Listed(t, e)
    {
      var k :| k in s.table && s.table[k] == e;
      assert k in t.table && t.table[k] == e;
    }
    forall e: nat | Owned(s, e) && e != mine
      ensures Owned(t, e)
    {
      var i :| i in s.calls && Owning(s.calls[i]) && s.calls[i].mine == e;
      assert i in t.calls && Owning(t.calls[i]) && t.calls[i].mine == e;
    }
  }

  lemma StoreKeepsPlaced(s: State, id: nat, t: State)
    requires Inv(s) && Enabled(s, LoadOrStore(id)) && s.calls[id].key !in s.table && t == Next(s, LoadOrStore(id))
    ensures Placed(t)
  {
    StoreMoves(s, id, t);
    assert forall k :: k in s.table ==> Listed(s, s.table[k]);
    forall i | i in t.calls && Owning(t.calls[i])
      ensures t.calls[i].mine < t.created && !Listed(t, t.calls[i].mine)
    {
      assert t.calls[i] == s.calls[i] && !SameEntry(s.calls[i], s.calls[id]);
    }
  }

  lemma StoreKeepsInv(s: State, id: nat)
    requires Inv(s) && Enabled(s, LoadOrStore(id)) && s.calls[id].key !in s.table
    ensures Inv(Next(s, LoadOrStore(id)))
  {
    StoreKeepsPlaced(s, id, Next(s, LoadOrStore(id)));
    StoreMoves(s, id, Next(s, LoadOrStore(id)));
  }

  lemma LoseKeepsInv(s: State, id: nat)
    requires Inv(s) && Enabled(s, LoadOrStore(id)) && s.calls[id].key in s.table
    ensures Inv(Next(s, LoadOrStore(id)))
  {
    var t, key, mine := Next(s, LoadOrStore(id)), s.calls[id].key, s.calls[id].mine;
    assert Listed(s, s.table[key]);
    assert t.calls[id] == Losing(key, mine, s.table[key]);
    forall e: nat | Owned(s, e)
      ensures Owned(t, e)
    {
      var i :| i in s.calls && Owning(s.calls[i]) && s.calls[i].mine == e;
      assert i in t.calls && Owning(t.calls[i]) && t.calls[i].mine == e;
    }
    SameTable(s, t);
  }

  lemma StopOwnKeepsInv(s: State, id: nat)
    requires Inv(s) && Enabled(s, StopOwn(id))
    ensures Inv(Next(s, StopOwn(id)))
  {
    var t, mine := Next(s, StopOwn(id)), s.calls[id].mine;
    forall e: nat | Owned(s, e) && e != mine
      ensures Owned(t, e)
    {
      var i :| i in s.calls && Owning(s.calls[i]) && s.calls[i].mine == e;
      assert i in t.calls && Owning(t.calls[i]) && t.calls[i].mine == e;
    }
    SameTable(s, t);
  }

  lemma CollectorKeepsInv(s: State, step: Step)
    requires Inv(s) && Enabled(s, step) && (step.Pick? || step.StopStale? || step.StopOne?)
    ensures Inv(Next(s, step))
  {
    var t := Next(s, step);
    assert forall e: nat :: Listed(s, e) <==> Listed(t, e);
    assert forall e: nat :: Owned(s, e) <==> Owned(t, e);
    assert forall k :: k in s.table ==> Listed(s, s.table[k]);
  }

  lemma DeleteKeepsInv(s: State)
    requires Inv(s) && Enabled(s, Delete)
    ensures Inv(Next(s, Delete))
  {
    var t, gone := Next(s, Delete), s.collector.entry;
    forall e: nat | Listed(s, e) && e != gone
      ensures Listed(t, e)
    {
      var k :| k in s.table && s.table[k] == e;
      assert k in t.table && t.table[k] == e;
    }
    assert forall e: nat :: Listed(t, e) ==> Listed(s, e);
    assert forall e: nat :: Owned(s, e) <==> Owned(t, e);
  }

  lemma StepKeepsInv(s: State, step: Step)
    requires Inv(s) && Enabled(s, step)
    ensures Inv(Next(s, step))
  {
    match step
    case Begin(id, _) =>
      OthersStillOwn(s, Next(s, step), id);
      SameTable(s, Next(s, step));
    case Load(id, known) => LoadKeepsInv(s, id, known);
    case Create(id) => CreateKeepsInv(s, id);
    case LoadOrStore(id) =>
      if s.calls[id].key in s.table { LoseKeepsInv(s, id); } else { StoreKeepsInv(s, id); }
    case StopOwn(id) => StopOwnKeepsInv(s, id);
    case Pick(_) => CollectorKeepsInv(s, step);
    case StopStale => CollectorKeepsInv(s, step);
    case StopOne(_) => CollectorKeepsInv(s, step);
    case BeginStop => SameEntries(s, Next(s, step));
    case Skip(_) => SameEntries(s, Next(s, step));
    case EndStop => SameEntries(s, Next(s, step));
    case Delete => DeleteKeepsInv(s);
  }

  lemma {:induction false} RunKeepsInv(s: State, steps: seq<Step>)
    requires Inv(s) && IsRun(s, steps)
    ensures Inv(End(s, steps))
    decreases |steps|
  {
    if steps != [] {
      StepKeepsInv(s, steps[0]);
      RunKeepsInv(Next(s, steps[0]), steps[1..]);
    }
  }

  /** No dispatcher is leaked: in every interleaving of callers, collector and Stop, a dispatcher
      that still runs belongs to the entry of some key, or to a call that is about to store it or
      stop it. Once all calls have returned, the running dispatchers are those of the table. */
  lemma NoLeakedDispatcher(init: State, steps: seq<Step>)
    requires Init(init) && IsRun(init, steps)
    ensures var s := End(init, steps);
            && (forall e: nat :: e in s.running ==> Listed(s, e) || Owned(s, e))
            && ((forall id :: id in s.calls ==> s.calls[id].Done?) ==> forall e: nat :: e in s.running ==> Listed(s, e))
            && (Enabled(s, Delete) ==> s.collector.key in s.table && s.table[s.collector.key] !in s.running)
  {
    RunKeepsInv(init, steps);
  }

  // ---------- what a call returns ----------

  /** How many steps a call is from returning. */
  function ToReturn(c: Call): nat {
    match c
    case Looking(_) => 4
    case Missed(_) => 3
    case Holding(_, _) => 2
    case Losing(_, _, _) => 1
    case Done(_, _) => 0
  }

  /** The next step of the call itself. */
  function OwnStep(c: Call, id: nat, known: bool): Step
    requires !c.Done?
  {
    match c
    case Looking(_) => Load(id, known)
    case Missed(_) => Create(id)
    case Holding(_, _) => LoadOrStore(id)
    case Losing(_, _, _) => StopOwn(id)
  }

  /** Whether the call has an entry coming: there is one, it has created one, or it may. */
  predicate Gets(s: State, c: Call, known: bool) {
    c.Looking? ==> c.key in s.table || known
  }

  /** A loser returns the entry that was there when it lost. */
  predicate LostTo(s: State, c: Call) {
    c.Losing? ==> c.key in s.table && s.table[c.key] == c.actual
  }

  lemma OwnStepHelps(s: State, id: nat, known: bool)
    requires id in s.calls && !s.calls[id].Done? && LostTo(s, s.calls[id])
    ensures var c := s.calls[id]; var step := OwnStep(c, id, known);
            && Enabled(s, step)
            && var t := Next(s, step);
               && id in t.calls && t.calls[id].key == c.key && ToReturn(t.calls[id]) < ToReturn(c)
               && LostTo(t, t.calls[id])
               && (Gets(s, c, known) ==> Gets(t, t.calls[id], known))
               && (t.calls[id].Done? ==>
                     if Gets(s, c, known) then c.key in t.table && t.calls[id].got == Some(t.table[c.key])
                     else t.calls[id].got == None && t.created == s.created && t.table == s.table)
               && (!Gets(s, c, known) ==> t.calls[id].Done?)
  {
  }

  lemma {:induction false} CallGoesOn(s: State, id: nat, known: bool) returns (steps: seq<Step>)
    requires id in s.calls && !s.calls[id].Done? && LostTo(s, s.calls[id])
    ensures IsRun(s, steps) && |steps| <= ToReturn(s.calls[id])
    ensures var t, key := End(s, steps), s.calls[id].key;
            && id in t.calls && t.calls[id].Done?
            && if Gets(s, s.calls[id], known) then key in t.table && t.calls[id].got == Some(t.table[key])
               else t.calls[id].got == None && t.created == s.created && t.table == s.table
    decreases ToReturn(s.calls[id])
  {
    OwnStepHelps(s, id, known);
    var step := OwnStep(s.calls[id], id, known);
    var t := Next(s, step);
    var rest := [];
    if !t.calls[id].Done? {
      rest := CallGoesOn(t, id, known);
    }
    steps := [step] + rest;
    assert steps[1..] == rest;
  }

  /** GetBucket returns by its own steps, at most four of them and wherever it is: the entry of the
      table if there is one or the endpoint is known, and otherwise none, having created none. A loser
      returns the entry it lost to. */
  lemma CallReturns(s: State, id: nat, known: bool) returns (steps: seq<Step>)
    requires id in s.calls && !s.calls[id].Done?
    ensures IsRun(s, steps) && |steps| <= 4
    ensures var c, t := s.calls[id], End(s, steps);
            && id in t.calls && t.calls[id].Done?
            && if c.Losing? then t.calls[id].got == Some(c.actual)
               else if c.Looking? && c.key !in s.table && !known
               then t.calls[id].got == None && t.created == s.created && t.table == s.table
               else c.key in t.table && t.calls[id].got == Some(t.table[c.key])
  {
    if s.calls[id].Losing? {
      steps := [StopOwn(id)];
      assert steps[1..] == [] && IsRun(Next(s, StopOwn(id)), []);
    } else {
      steps := CallGoesOn(s, id, known);
    }
  }

  // ---------- what Limiter.Stop stops ----------

  predicate NoneCreates(steps: seq<Step>) {
    forall i :: 0 <= i < |steps| ==> !steps[i].Create?
  }

  predicate NoneOwns(s: State) {
    forall id :: id in s.calls ==> !Owning(s.calls[id])
  }

  /** With no entry in a caller's hands, what still runs is what the range has yet to visit. */
  ghost predicate Stoppable(s: State) {
    && NoneOwns(s)
    && (s.stopper.Ranging? ==>
          forall k :: k in s.table && s.table[k] in s.running ==>
            k in s.stopper.left && s.stopper.left[k] == s.table[k])
    && (s.stopper.Stopped? ==> s.running == {})
  }

  lemma StepKeepsStoppable(s: State, step: Step)
    requires Inv(s) && Stoppable(s) && Enabled(s, step) && !step.Create?
    ensures Stoppable(Next(s, step))
  {
    if step.EndStop? {
      assert forall e: nat :: e in s.running ==> Listed(s, e);
    }
  }

  lemma {:induction false} RunKeepsStoppable(s: State, steps: seq<Step>)
    requires Inv(s) && Stoppable(s) && IsRun(s, steps) && NoneCreates(steps)
    ensures Stoppable(End(s, steps))
    decreases |steps|
  {
    if steps != [] {
      StepKeepsInv(s, steps[0]);
      StepKeepsStoppable(s, steps[0]);
      assert forall i :: 0 <= i < |steps[1..]| ==> steps[1..][i] == steps[i + 1];
      RunKeepsStoppable(Next(s, steps[0]), steps[1..]);
    }
  }

  /** Once begun, the range can always be finished, without anything but Stop moving. */
  lemma {:induction false} RangeCanEnd(s: State) returns (steps: seq<Step>)
    requires Inv(s) && s.stopper.Ranging?
    ensures IsRun(s, steps) && NoneCreates(steps) && End(s, steps).stopper.Stopped?
    ensures forall e: nat :: e in s.running && !Listed(s, e) ==> e in End(s, steps).running
    decreases |s.stopper.left|
  {
    if s.stopper.left == map[] {
      steps := [EndStop];
      assert steps[1..] == [] && IsRun(Next(s, EndStop), []);
    } else {
      var key :| key in s.stopper.left;
      var step := if key in s.table then StopOne(key) else Skip(key);
      var t := Next(s, step);
      StepKeepsInv(s, step);
      assert t.stopper.left.Keys == s.stopper.left.Keys - {key};
      assert |t.stopper.left| < |s.stopper.left|;
      var rest := RangeCanEnd(t);
      steps := [step] + rest;
      assert steps[1..] == rest;
      forall e: nat | e in s.running && !Listed(s, e)
        ensures e in t.running && !Listed(t, e)
      {
      }
    }
  }

  /** What Limiter.Stop is for, and exactly when it achieves it: in every run in which no call
      creates an entry from here on, nothing runs once Stop has returned, if and only if no call
      holds an entry of its own here. */
  lemma StopsAllIff(s: State)
    requires Inv(s) && s.stopper.Open?
    ensures NoneOwns(s) <==>
            (forall steps :: IsRun(s, steps) && NoneCreates(steps) && End(s, steps).stopper.Stopped? ==>
               End(s, steps).running == {})
  {
    if NoneOwns(s) {
      forall steps | IsRun(s, steps) && NoneCreates(steps) && End(s, steps).stopper.Stopped?
        ensures End(s, steps).running == {}
      {
        RunKeepsStoppable(s, steps);
      }
    } else {
      var id :| id in s.calls && Owning(s.calls[id]);
      var e, t := s.calls[id].mine, Next(s, BeginStop);
      StepKeepsInv(s, BeginStop);
      assert e in t.running && !Listed(t, e);
      var rest := RangeCanEnd(t);
      var steps := [BeginStop] + rest;
      assert steps[1..] == rest && IsRun(s, steps) && NoneCreates(steps);
      assert e in End(s, steps).running;
    }
  }

  /** The run that leaks: a call has created its entry, Stop ranges over the empty table and
      returns, and the call stores the entry. All is over, and its dispatcher runs. */
  lemma StoredAfterStop(init: State, key: string)
    requires Init(init)
    ensures var steps := [Begin(0, key), Load(0, true), Create(0), BeginStop, EndStop, LoadOrStore(0)];
            && IsRun(init, steps)
            && var s := End(init, steps);
               s.stopper.Stopped? && s.calls == map[0 := Done(key, Some(0))] && s.table == map[key := 0]
               && s.running == {0}
  {
    var steps := [Begin(0, key), Load(0, true), Create(0), BeginStop, EndStop, LoadOrStore(0)];
    var s3 := State(map[], map[0 := Holding(key, 0)], Resting, Open, 1, {0});
    CreateFirst(init, key, [BeginStop, EndStop, LoadOrStore(0)], s3);
    StopThenStore(s3, key);
    assert steps == [Begin(0, key), Load(0, true), Create(0)] + [BeginStop, EndStop, LoadOrStore(0)];
  }

  lemma CreateFirst(init: State, key: string, rest: seq<Step>, s3: State)
    requires Init(init) && s3 == State(map[], map[0 := Holding(key, 0)], Resting, Open, 1, {0}) && IsRun(s3, rest)
    ensures var steps := [Begin(0, key), Load(0, true), Create(0)] + rest;
            IsRun(init, steps) && End(init, steps) == End(s3, rest)
  {
    var s1 := State(map[], map[0 := Looking(key)], Resting, Open, 0, {});
    var s2 := State(map[], map[0 := Missed(key)], Resting, Open, 0, {});
    assert Next(init, Begin(0, key)) == s1 && Next(s1, Load(0, true)) == s2 && Next(s2, Create(0)) == s3;
    FirstStep(s2, Create(0), rest);
    FirstStep(s1, Load(0, true), [Create(0)] + rest);
    FirstStep(init, Begin(0, key), [Load(0, true)] + ([Create(0)] + rest));
    assert [Begin(0, key), Load(0, true), Create(0)] + rest
        == [Begin(0, key)] + ([Load(0, true)] + ([Create(0)] + rest));
  }

  lemma StopThenStore(s: State, key: string)
    requires s == State(map[], map[0 := Holding(key, 0)], Resting, Open, 1, {0})
    ensures var steps := [BeginStop, EndStop, LoadOrStore(0)];
            && IsRun(s, steps)
            && End(s, steps) == State(map[key := 0], map[0 := Done(key, Some(0))], Resting, Stopped, 1, {0})
  {
    var s1, s2 := s.(stopper := Ranging(map[])), s.(stopper := Stopped);
    var s3 := State(map[key := 0], map[0 := Done(key, Some(0))], Resting, Stopped, 1, {0});
    assert Next(s, BeginStop) == s1 && Next(s1, EndStop) == s2 && Next(s2, LoadOrStore(0)) == s3;
    FirstStep(s2, LoadOrStore(0), []);
    FirstStep(s1, EndStop, [LoadOrStore(0)]);
    FirstStep(s, BeginStop, [EndStop, LoadOrStore(0)]);
    assert [BeginStop] + [EndStop, LoadOrStore(0)] == [BeginStop, EndStop, LoadOrStore(0)];
    assert [EndStop] + [LoadOrStore(0)] == [EndStop, LoadOrStore(0)] && [LoadOrStore(0)] + [] == [LoadOrStore(0)];
  }

  lemma FirstStep(s: State, step: Step, rest: seq<Step>)
    requires Enabled(s, step) && IsRun(Next(s, step), rest)
    ensures IsRun(s, [step] + rest) && End(s, [step] + rest) == End(Next(s, step), rest)
  {
    assert ([step] + rest)[1..] == rest;
  }

  /** And it runs for good: after Stop, a dispatcher that runs for an entry of the table is stopped
      by nothing but the collector, which Stop has told to end. */
  lemma {:induction false} LeakLasts(s: State, steps: seq<Step>, key: string)
    requires Inv(s) && s.stopper.Stopped? && key in s.table && s.table[key] in s.running
    requires s.collector.Resting? || s.collector.key != key
    requires IsRun(s, steps) && forall i :: 0 <= i < |steps| ==> steps[i] != Pick(key)
    ensures var t := End(s, steps); key in t.table && t.table[key] == s.table[key] && t.table[key] in t.running
    decreases |steps|
  {
    if steps != [] {
      StepKeepsInv(s, steps[0]);
      LeakStays(s, steps[0], key);
      assert forall i :: 0 <= i < |steps[1..]| ==> steps[1..][i] == steps[i + 1];
      LeakLasts(Next(s, steps[0]), steps[1..], key);
    }
  }

  lemma LeakStays(s: State, step: Step, key: string)
    requires Inv(s) && s.stopper.Stopped? && key in s.table && s.table[key] in s.running
    requires (s.collector.Resting? || s.collector.key != key) && Enabled(s, step) && step != Pick(key)
    ensures var t := Next(s, step);
            && t.stopper.Stopped? && key in t.table && t.table[key] == s.table[key] && t.table[key] in t.running
            && (t.collector.Resting? || t.collector.key != key)
  {
    assert Listed(s, s.table[key]);
  }

  /** A call that misses after Stop leaks in the same way. */
  lemma CreatedAfterStop(s: State, id: nat)
    requires s.stopper.Stopped? && id in s.calls && s.calls[id].Missed? && s.calls[id].key !in s.table
    ensures var steps := [Create(id), LoadOrStore(id)];
            && IsRun(s, steps)
            && var t := End(s, steps);
               && t.calls == s.calls[id := Done(s.calls[id].key, Some(s.created))]
               && t.table == s.table[s.calls[id].key := s.created] && s.created in t.running
  {
    var t := Next(s, Create(id));
    FirstStep(t, LoadOrStore(id), []);
    FirstStep(s, Create(id), [LoadOrStore(id)]);
    assert [Create(id)] + [LoadOrStore(id)] == [Create(id), LoadOrStore(id)];
    assert [LoadOrStore(id)] + [] == [LoadOrStore(id)];
  }

  // ---------- an entry outlives its place in the table ----------

  /** The collector has found the entry stale; a call loads it; the collector stops and deletes it.
      The call goes on with an entry that is not in the table, and the next call gets another. */
  lemma LoadedWhileCollected(s: State, id: nat, key: string, e: nat)
    requires s.collector == Stopping(key, e) && key in s.table && s.table[key] == e
    requires id in s.calls && s.calls[id] == Looking(key)
    ensures var steps := [Load(id, true), StopStale, Delete];
            && IsRun(s, steps)
            && var t := End(s, steps); t.calls == s.calls[id := Done(key, Some(e))] && key !in t.table
  {
    var s1 := Next(s, Load(id, true));
    var s2 := Next(s1, StopStale);
    FirstStep(s2, Delete, []);
    FirstStep(s1, StopStale, [Delete]);
    FirstStep(s, Load(id, true), [StopStale, Delete]);
    assert [Delete] + [] == [Delete] && [StopStale] + [Delete] == [StopStale, Delete];
    assert [Load(id, true)] + [StopStale, Delete] == [Load(id, true), StopStale, Delete];
  }

  // ---------- callers agree ----------

  /** The step takes the key's entry out of the table. */
  predicate Discards(s: State, step: Step, key: string) {
    step.Delete? && s.collector.Deleting? && s.collector.key == key
  }

  predicate Keeps(s: State, steps: seq<Step>, key: string)
    requires IsRun(s, steps)
    decreases |steps|
  {
    steps != [] ==> !Discards(s, steps[0], key) && Keeps(Next(s, steps[0]), steps[1..], key)
  }

  /** The call has not looked its result up yet. */
  predicate Undecided(s: State, id: nat) {
    id !in s.calls || s.calls[id].Looking? || s.calls[id].Missed? || s.calls[id].Holding?
  }

  /** The call is undecided, or decided on `e`, or about another key. */
  predicate Agrees(s: State, id: nat, key: string, e: nat) {
    || Undecided(s, id)
    || s.calls[id].key != key
    || (s.calls[id].Done? && s.calls[id].got == Some(e))
    || (s.calls[id].Losing? && s.calls[id].actual == e)
  }

  lemma StepAgrees(s: State, step: Step, id: nat, key: string, e: nat)
    requires Enabled(s, step) && !Discards(s, step, key)
    requires key in s.table && s.table[key] == e && Agrees(s, id, key, e)
    ensures var t := Next(s, step); key in t.table && t.table[key] == e && Agrees(t, id, key, e)
  {
  }

  /** One bucket for a key: as long as the collector does not take the key's entry out, all
      GetBucket calls for it that look it up, hit or miss, return that one entry. */
  lemma {:induction false} CallersAgree(s: State, steps: seq<Step>, id: nat, key: string, e: nat)
    requires IsRun(s, steps) && Keeps(s, steps, key)
    requires key in s.table && s.table[key] == e && Agrees(s, id, key, e)
    ensures var t := End(s, steps);
            && key in t.table && t.table[key] == e
            && (id in t.calls && t.calls[id].Done? && t.calls[id].key == key ==> t.calls[id].got == Some(e))
    decreases |steps|
  {
    if steps != [] {
      StepAgrees(s, steps[0], id, key, e);
      CallersAgree(Next(s, steps[0]), steps[1..], id, key, e);
    }
  }
}
