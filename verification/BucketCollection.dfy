/** When collecting idle entries is safe (internal/ratelimit/limiter.go, gc): what has to hold for a
    discarded bucket to be full by the time it is replaced, and runs of the program in which it is
    not, or is used beside its replacement.
  */
module BucketCollection {
  import opened TokenBuckets
  import opened BucketLives

  // ---------- filling up ----------

  /** Since its last grant the bucket has gained at least `r` a second, or is full. */
  predicate Filling(b: Bucket, lastGrant: real, r: real) {
    && InRange(b) && lastGrant <= b.lastRefill
    && (b.tokens >= b.maxTokens || b.tokens >= Accrual(b.lastRefill - lastGrant, r))
  }

  lemma OpKeepsFilling(b: Bucket, lastGrant: real, r: real, op: Op)
    requires Filling(b, lastGrant, r) && b.lastRefill <= op.at && 0.0 <= r
    requires op.UpdateRate? || EffectiveRate(b) >= r
    ensures Filling(Apply(b, op), if Grants(b, op) then op.at else lastGrant, r)
  {
    if !op.UpdateRate? {
      FasterAccrues(op.at - b.lastRefill, r, EffectiveRate(b));
      AccrualAddsUp(lastGrant, b.lastRefill, op.at, r);
      assert Accrual(0.0, r) == 0.0;
    }
  }

  /** A bucket that has granted nothing for the time it takes to fill from empty is full. */
  lemma QuietIsFull(b: Bucket, lastGrant: real, r: real, at: real, fill: real)
    requires Filling(b, lastGrant, r) && b.lastRefill <= at && 0.0 <= r <= EffectiveRate(b)
    requires at - lastGrant >= fill && Accrual(fill, r) >= b.maxTokens
    ensures FullBy(b, at)
  {
    FasterAccrues(at - b.lastRefill, r, EffectiveRate(b));
    AccrualAddsUp(lastGrant, b.lastRefill, at, r);
    LongerAccrues(fill, at - lastGrant, r);
  }

  // ---------- runs ----------

  /** Only the last bucket is used, and its refills, with those that replacements stand for, use rates
      between `r` and `bound`. */
  predicate Steady(k: Key, ev: Event, r: real, bound: real) {
    && (ev.Use? ==> OfLast(k, ev))
    && (k.buckets != [] && (Replaces(k, ev) || (ev.Use? && !ev.op.UpdateRate?)) ==>
          r <= EffectiveRate(Last(k)) <= bound)
  }

  /** When a bucket is replaced, it has granted nothing for at least `fill` seconds. */
  predicate Rested(k: Key, ev: Event, fill: real) {
    Replaces(k, ev) ==> ev.at - k.lastGrant >= fill
  }

  predicate Quiet(k: Key, evs: seq<Event>, c: Config, r: real, bound: real, fill: real)
    requires IsRun(k, evs, c)
    decreases |evs|
  {
    evs != [] ==>
      && Steady(k, evs[0], r, bound) && Rested(k, evs[0], fill)
      && Quiet(Next(k, evs[0], c), evs[1..], c, r, bound, fill)
  }

  /** What the runs below keep, at time `now`. */
  predicate Kept(k: Key, c: Config, r: real, now: real) {
    Regular(k, c) && Last(k).lastRefill <= now && Filling(Last(k), k.lastGrant, r)
  }

  lemma EventKeeps(k: Key, ev: Event, c: Config, r: real, bound: real, now: real)
    requires Kept(k, c, r, now) && Enabled(k, ev, c) && Steady(k, ev, r, bound) && now <= TimeOf(ev) && 0.0 <= r
    ensures Kept(Next(k, ev, c), c, r, TimeOf(ev))
  {
    if ev.Use? {
      OpKeepsFilling(Last(k), k.lastGrant, r, ev.op);
    }
  }

  lemma {:induction false} QuietIsLawful(k: Key, evs: seq<Event>, c: Config, r: real, bound: real, fill: real,
                                         now: real)
    requires Kept(k, c, r, now) && IsRun(k, evs, c) && Quiet(k, evs, c, r, bound, fill) && Ordered(now, evs)
    requires 0.0 <= r && Accrual(fill, r) >= c.burst
    ensures Lawful(k, evs, c, bound)
    decreases |evs|
  {
    if evs != [] {
      var t := Next(k, evs[0], c);
      EventKeeps(k, evs[0], c, r, bound, now);
      if Replaces(k, evs[0]) {
        QuietIsFull(Last(k), k.lastGrant, r, evs[0].at, fill);
      }
      QuietIsLawful(t, evs[1..], c, r, bound, fill, TimeOf(evs[0]));
    }
  }

  /** The rate bound when buckets are replaced at rest: if no token of a bucket was granted for the
      time it takes to fill before it is replaced, and none is taken from it after, the key is granted
      at most the burst and `bound` a second. */
  lemma QuietRateBound(k: Key, evs: seq<Event>, c: Config, r: real, bound: real, fill: real, now: real)
    requires Kept(k, c, r, now) && IsRun(k, evs, c) && Quiet(k, evs, c, r, bound, fill) && Ordered(now, evs)
    requires 0.0 <= r && 0.0 <= bound && Accrual(fill, r) >= c.burst
    ensures GrantsWithin(GrantsOf(k, evs, c), c.burst, bound, now, EndTime(now, evs))
  {
    QuietIsLawful(k, evs, c, r, bound, fill, now);
    RateBoundOverLives(k, evs, c, bound, now);
  }

  // ---------- what the collector's test is worth ----------

  /** Tokens are granted at most `delay` after the last stamp, and no lookup falls between the
      collector's test and its Delete. */
  predicate Prompt(k: Key, ev: Event, delay: real) {
    && (Granted(k, ev) ==> TimeOf(ev) <= k.lastUsed + delay)
    && !(ev.Lookup? && k.listed && k.picked)
  }

  predicate AlwaysPrompt(k: Key, evs: seq<Event>, c: Config, r: real, bound: real, delay: real)
    requires IsRun(k, evs, c)
    decreases |evs|
  {
    evs != [] ==>
      && Steady(k, evs[0], r, bound) && Prompt(k, evs[0], delay)
      && AlwaysPrompt(Next(k, evs[0], c), evs[1..], c, r, bound, delay)
  }

  /** The last grant is near the stamp, which is old once the collector has picked the entry. */
  predicate Stamped(k: Key, c: Config, delay: real, now: real) {
    && k.lastUsed <= now && k.lastGrant <= k.lastUsed + delay
    && (k.picked || !k.listed ==> k.lastUsed < now - c.ttl)
  }

  lemma {:induction false} PromptIsQuiet(k: Key, evs: seq<Event>, c: Config, r: real, bound: real, delay: real,
                                         now: real)
    requires Stamped(k, c, delay, now) && IsRun(k, evs, c) && AlwaysPrompt(k, evs, c, r, bound, delay)
    requires Ordered(now, evs) && 0.0 <= delay
    ensures Quiet(k, evs, c, r, bound, c.ttl - delay)
    decreases |evs|
  {
    if evs != [] {
      PromptIsQuiet(Next(k, evs[0], c), evs[1..], c, r, bound, delay, TimeOf(evs[0]));
    }
  }

  /** The collector is safe: if tokens are granted within `delay` of a lookup, no lookup comes between
      the collector's test and its Delete, no replaced bucket is used, and the TTL exceeds `delay` by
      the time a bucket takes to fill, the rate bound holds in every window of every run. */
  lemma CollectorIsSafe(k: Key, evs: seq<Event>, c: Config, r: real, bound: real, delay: real, now: real)
    requires Kept(k, c, r, now) && Stamped(k, c, delay, now) && 0.0 <= delay
    requires IsRun(k, evs, c) && AlwaysPrompt(k, evs, c, r, bound, delay) && Ordered(now, evs)
    requires 0.0 <= r && 0.0 <= bound && Accrual(c.ttl - delay, r) >= c.burst
    ensures GrantsWithin(GrantsOf(k, evs, c), c.burst, bound, now, EndTime(now, evs))
  {
    PromptIsQuiet(k, evs, c, r, bound, delay, now);
    QuietRateBound(k, evs, c, r, bound, c.ttl - delay, now);
  }

  /** From a key's first lookup on, such a run meets what the rate bound over all lives asks for. */
  lemma PromptIsLawful(evs: seq<Event>, c: Config, r: real, bound: real, delay: real)
    requires IsRun(UNUSED, evs, c) && evs != [] && AlwaysPrompt(UNUSED, evs, c, r, bound, delay)
    requires Ordered(TimeOf(evs[0]), evs) && c.burst > 0.0 && 0.0 <= delay
    requires 0.0 <= r && Accrual(c.ttl - delay, r) >= c.burst
    ensures Lawful(UNUSED, evs, c, bound)
  {
    var k, at, rest := Next(UNUSED, evs[0], c), TimeOf(evs[0]), evs[1..];
    PromptIsQuiet(k, rest, c, r, bound, delay, at);
    QuietIsLawful(k, rest, c, r, bound, c.ttl - delay, at);
  }

  /** The collector may find this key stale at `at`. */
  predicate Collectable(k: Key, c: Config, delay: real, at: real) {
    && Regular(k, c) && Last(k).refillRate == c.rate && Last(k).lastRefill <= at
    && Filling(Last(k), k.lastGrant, EffectiveRate(Last(k))) && k.lastGrant <= k.lastUsed + delay
    && Enabled(k, Pick(at), c)
  }

  /** No shorter TTL will do: at its configured rate every bucket the collector may find stale is full
      if and only if it fills from empty in the TTL less the delay. */
  lemma TtlIff(c: Config, delay: real)
    requires c.burst > 0.0 && 0.0 <= delay
    ensures Accrual(c.ttl - delay, EffectiveRate(New(c, 0.0))) >= c.burst <==>
            forall k, at :: Collectable(k, c, delay, at) ==> FullBy(Last(k), at)
  {
    var r := EffectiveRate(New(c, 0.0));
    if Accrual(c.ttl - delay, r) >= c.burst {
      forall k, at | Collectable(k, c, delay, at)
        ensures FullBy(Last(k), at)
      {
        QuietIsFull(Last(k), k.lastGrant, r, at, c.ttl - delay);
      }
    } else {
      TtlTooShort(c, delay, r);
    }
  }

  lemma TtlTooShort(c: Config, delay: real, r: real)
    requires c.burst > 0.0 && 0.0 <= delay && r == EffectiveRate(New(c, 0.0))
    requires Accrual(c.ttl - delay, r) < c.burst
    ensures exists k, at :: Collectable(k, c, delay, at) && !FullBy(Last(k), at)
  {
    var q := c.ttl - delay;
    var full := c.burst / r;
    AccruesWhenDue(c.burst, q, r);
    AccruesWhenDue(c.burst, full / 2.0, r);
    var wait := if q < 0.0 then full / 2.0 else (q + full) / 2.0;
    AccruesWhenDue(c.burst, wait, r);
    var k := Key([Bucket(0.0, c.burst, c.rate, delay, c.throttle)], true, 0.0, false, delay);
    assert Accrual(0.0, r) == 0.0;
    assert Last(k).tokens == 0.0 && EffectiveRate(Last(k)) == r;
    assert Collectable(k, c, delay, delay + wait) && !FullBy(Last(k), delay + wait);
  }

  // ---------- runs that exceed the bound ----------

  /** A bucket of one token, refilled at a tenth a second. */
  function Slow(tokens: real, at: real): Bucket {
    Bucket(tokens, 1.0, 0.1, at, 1.0)
  }

  /** From `k`, the run goes from one time to the other and is granted `g` tokens. */
  predicate Trace(k: Key, evs: seq<Event>, c: Config, from: real, to: real, g: nat) {
    IsRun(k, evs, c) && Ordered(from, evs) && EndTime(from, evs) == to && GrantsOf(k, evs, c) == g
  }

  lemma Prepend(k: Key, ev: Event, t: Key, rest: seq<Event>, c: Config, from: real, to: real, g: nat)
    requires Enabled(k, ev, c) && Next(k, ev, c) == t && Trace(t, rest, c, TimeOf(ev), to, g) && from <= TimeOf(ev)
    ensures Trace(k, [ev] + rest, c, from, to, g + if Granted(k, ev) then 1 else 0)
  {
    FirstEvent(k, ev, rest, c);
    assert ([ev] + rest)[1..] == rest;
    EndTimeOfRest(from, [ev] + rest);
  }

  /** When it holds exactly one token, it grants it and is empty. */
  lemma SlowGrants(k: Key, c: Config, tokens: real, t: real, at: real)
    requires k.buckets == [Slow(tokens, t)] && tokens + Accrual(at - t, 0.1) == 1.0
    ensures Granted(k, Use(0, TryConsume(at)))
    ensures Next(k, Use(0, TryConsume(at)), c) == k.(buckets := [Slow(0.0, at)], lastGrant := at)
  {
    assert EffectiveRate(k.buckets[0]) == 0.1;
    assert k.buckets[0 := Slow(0.0, at)] == [Slow(0.0, at)];
  }

  predicate IsSlow(c: Config) {
    c.rate == 0.1 && c.burst == 1.0 && c.throttle == 1.0
  }

  /** A key looked up at 0 whose last grant was at `at`. */
  function Emptied(at: real): Key {
    Key([Slow(0.0, at)], true, 0.0, false, at)
  }

  /** The entry is found stale, collected and created again, and the new bucket grants a token. */
  function CollectAndUse(at: real): seq<Event> {
    [Pick(at)] + ([Discard(at)] + ([Lookup(at)] + ([Use(1, TryConsume(at))] + [])))
  }

  lemma CollectedGrants(k: Key, c: Config, from: real, at: real)
    requires |k.buckets| == 1 && k.listed && !k.picked && k.lastUsed < at - c.ttl && IsSlow(c) && from <= at
    ensures Trace(k, CollectAndUse(at), c, from, at, 1)
  {
    var k1, k2 := k.(picked := true), k.(listed := false, picked := false);
    var k3 := Key(k.buckets + [Slow(1.0, at)], true, at, false, at);
    var ev := Use(1, TryConsume(at));
    assert k3.buckets[1] == Slow(1.0, at) && Granted(k3, ev);
    Prepend(k3, ev, Next(k3, ev, c), [], c, at, at, 0);
    Prepend(k2, Lookup(at), k3, [ev] + [], c, at, at, 1);
    Prepend(k1, Discard(at), k2, [Lookup(at)] + ([ev] + []), c, at, at, 1);
    Prepend(k, Pick(at), k1, [Discard(at)] + ([Lookup(at)] + ([ev] + [])), c, from, at, 1);
  }

  /** The first lookup, and the first token. */
  lemma SlowStarts(c: Config, rest: seq<Event>, to: real, g: nat)
    requires IsSlow(c) && Trace(Emptied(0.0), rest, c, 0.0, to, g)
    ensures Trace(UNUSED, [Lookup(0.0)] + ([Use(0, TryConsume(0.0))] + rest), c, 0.0, to, g + 1)
  {
    var k, ev := Key([Slow(1.0, 0.0)], true, 0.0, false, 0.0), Use(0, TryConsume(0.0));
    assert Accrual(0.0, 0.1) == 0.0;
    SlowGrants(k, c, 1.0, 0.0, 0.0);
    Prepend(k, ev, Emptied(0.0), rest, c, 0.0, to, g);
    assert [] + [New(c, 0.0)] == k.buckets;
    Prepend(UNUSED, Lookup(0.0), k, [ev] + rest, c, 0.0, to, g + 1);
  }

  /** Ten seconds later the bucket holds one token again. */
  lemma SlowServes(c: Config, t: real, rest: seq<Event>, to: real, g: nat)
    requires IsSlow(c) && Trace(Emptied(t + 10.0), rest, c, t + 10.0, to, g)
    ensures Trace(Emptied(t), [Use(0, TryConsume(t + 10.0))] + rest, c, t, to, g + 1)
  {
    assert Accrual(10.0, 0.1) == 1.0;
    SlowGrants(Emptied(t), c, 0.0, t, t + 10.0);
    Prepend(Emptied(t), Use(0, TryConsume(t + 10.0)), Emptied(t + 10.0), rest, c, t, to, g);
  }

  /** The first token, and two more for the queue. */
  function Serve(rest: seq<Event>): seq<Event> {
    [Lookup(0.0)] + ([Use(0, TryConsume(0.0))] + ([Use(0, TryConsume(10.0))] + ([Use(0, TryConsume(20.0))] + rest)))
  }

  lemma ServedThen(c: Config, rest: seq<Event>, to: real, g: nat)
    requires IsSlow(c) && Trace(Emptied(20.0), rest, c, 20.0, to, g)
    ensures Trace(UNUSED, Serve(rest), c, 0.0, to, g + 3)
  {
    var second := [Use(0, TryConsume(20.0))] + rest;
    SlowServes(c, 10.0, rest, to, g);
    SlowServes(c, 0.0, second, to, g + 1);
    SlowStarts(c, [Use(0, TryConsume(10.0))] + second, to, g + 2);
  }

  /** Recreated too soon: with a TTL below the time to fill, a drained bucket is collected and the next
      one grants again, two tokens where the bound allows 1.1. */
  lemma RecreatedTooSoon()
    ensures var c := Config(0.1, 1.0, 1.0, 0.5);
            var evs := [Lookup(0.0)] + ([Use(0, TryConsume(0.0))] + CollectAndUse(1.0));
            Trace(UNUSED, evs, c, 0.0, 1.0, 2) && !GrantsWithin(2, c.burst, 0.1, 0.0, 1.0)
  {
    var c := Config(0.1, 1.0, 1.0, 0.5);
    CollectedGrants(Emptied(0.0), c, 0.0, 1.0);
    SlowStarts(c, CollectAndUse(1.0), 1.0, 1);
    assert Accrual(1.0, 0.1) == 0.1;
  }

  /** Served while it looks idle: the TTL is the time to fill, but a queue is served at 10 and 20
      seconds without a stamp. The entry is collected right after a grant and the next one grants
      again: four tokens in 21 seconds, where the bound allows 3.1. */
  lemma ServedWhileIdle()
    ensures var c := Config(0.1, 1.0, 1.0, 10.0);
            && Accrual(c.ttl, 0.1) >= c.burst
            && Trace(UNUSED, Serve(CollectAndUse(21.0)), c, 0.0, 21.0, 4) && !GrantsWithin(4, c.burst, 0.1, 0.0, 21.0)
  {
    var c := Config(0.1, 1.0, 1.0, 10.0);
    CollectedGrants(Emptied(20.0), c, 20.0, 21.0);
    ServedThen(c, CollectAndUse(21.0), 21.0, 1);
    assert Accrual(10.0, 0.1) == 1.0 && Accrual(21.0, 0.1) == 2.1;
  }

  // ---------- using a replaced bucket ----------

  /** Every refill of the run uses a rate of at most `bound`. */
  predicate RatesWithin(k: Key, evs: seq<Event>, c: Config, bound: real)
    requires IsRun(k, evs, c)
    decreases |evs|
  {
    evs != [] ==>
      && (evs[0].Use? && !evs[0].op.UpdateRate? ==> EffectiveRate(k.buckets[evs[0].i]) <= bound)
      && RatesWithin(Next(k, evs[0], c), evs[1..], c, bound)
  }

  /** A lookup that comes between the collector's test and its Delete gives its caller a bucket that is
      then replaced: from here on both are in use. */
  function Raced(c: Config, t0: real, at: real): Key {
    Key([New(c, t0), New(c, at)], true, at, false, at)
  }

  lemma RaceReaches(c: Config, t0: real, at: real)
    requires t0 < at - c.ttl
    ensures var evs := [Lookup(t0), Pick(at), Lookup(at), Discard(at), Lookup(at)];
            IsRun(UNUSED, evs, c) && End(UNUSED, evs, c) == Raced(c, t0, at)
  {
    var k1 := Key([New(c, t0)], true, t0, false, t0);
    var k2 := k1.(picked := true);
    var k3 := k2.(lastUsed := at);
    var k4 := k3.(listed := false, picked := false);
    assert Next(UNUSED, Lookup(t0), c) == k1 && Next(k1, Pick(at), c) == k2 && Next(k2, Lookup(at), c) == k3;
    assert Next(k3, Discard(at), c) == k4 && Next(k4, Lookup(at), c) == Raced(c, t0, at);
    FirstEvent(k4, Lookup(at), [], c);
    FirstEvent(k3, Discard(at), [Lookup(at)], c);
    FirstEvent(k2, Lookup(at), [Discard(at), Lookup(at)], c);
    FirstEvent(k1, Pick(at), [Lookup(at), Discard(at), Lookup(at)], c);
    FirstEvent(UNUSED, Lookup(t0), [Pick(at), Lookup(at), Discard(at), Lookup(at)], c);
    assert [Lookup(at)] + [] == [Lookup(at)] && [Discard(at)] + [Lookup(at)] == [Discard(at), Lookup(at)];
    assert [Lookup(at)] + [Discard(at), Lookup(at)] == [Lookup(at), Discard(at), Lookup(at)];
    assert [Pick(at)] + [Lookup(at), Discard(at), Lookup(at)] == [Pick(at), Lookup(at), Discard(at), Lookup(at)];
    assert [Lookup(t0)] + [Pick(at), Lookup(at), Discard(at), Lookup(at)]
        == [Lookup(t0), Pick(at), Lookup(at), Discard(at), Lookup(at)];
  }

  /** `n` requests for the new bucket at one time. */
  function Burst(n: nat, at: real): seq<Event> {
    if n == 0 then [] else [Use(1, TryConsume(at))] + Burst(n - 1, at)
  }

  /** The second bucket holds at least `n` tokens at `at`, the first at least one. */
  predicate Holds(k: Key, n: nat, at: real) {
    && |k.buckets| == 2 && k.buckets[1].lastRefill == at && Allows(k.buckets[0], at)
    && n as real <= k.buckets[1].tokens <= k.buckets[1].maxTokens
  }

  lemma OneOfBurst(k: Key, c: Config, n: nat, at: real)
    requires Holds(k, n, at) && n > 0
    ensures var ev := Use(1, TryConsume(at)); var t := Next(k, ev, c);
            && Granted(k, ev) && Holds(t, n - 1, at)
            && EffectiveRate(t.buckets[0]) == EffectiveRate(k.buckets[0])
            && EffectiveRate(t.buckets[1]) == EffectiveRate(k.buckets[1])
  {
    assert Accrual(0.0, EffectiveRate(k.buckets[1])) == 0.0;
  }

  /** Both buckets refill no faster than `bound`. */
  predicate BothWithin(k: Key, bound: real) {
    |k.buckets| == 2 && EffectiveRate(k.buckets[0]) <= bound && EffectiveRate(k.buckets[1]) <= bound
  }

  /** A full bucket grants its burst at once, and one more token comes out of the other. */
  lemma {:induction false} BurstAndOne(k: Key, c: Config, n: nat, at: real, bound: real)
    requires Holds(k, n, at) && BothWithin(k, bound)
    ensures var evs := Burst(n, at) + [Use(0, TryConsume(at))];
            && IsRun(k, evs, c) && GrantsOf(k, evs, c) == n + 1 && RatesWithin(k, evs, c, bound)
    decreases n
  {
    var last := [Use(0, TryConsume(at))];
    if n == 0 {
      assert Burst(0, at) + last == last && last + [] == last && last[1..] == [];
      FirstEvent(k, last[0], [], c);
    } else {
      var ev := Use(1, TryConsume(at));
      var t, rest := Next(k, ev, c), Burst(n - 1, at) + last;
      OneOfBurst(k, c, n, at);
      BurstAndOne(t, c, n - 1, at, bound);
      FirstEvent(k, ev, rest, c);
      assert Burst(n, at) + last == [ev] + rest && ([ev] + rest)[1..] == rest;
    }
  }

  lemma {:induction false} BurstOrdered(n: nat, at: real)
    ensures var evs := Burst(n, at) + [Use(0, TryConsume(at))]; Ordered(at, evs) && EndTime(at, evs) == at
    decreases n
  {
    var last := [Use(0, TryConsume(at))];
    if n == 0 {
      assert Burst(0, at) + last == last && last[1..] == [];
    } else {
      BurstOrdered(n - 1, at);
      assert (Burst(n, at) + last)[1..] == Burst(n - 1, at) + last;
    }
  }

  lemma {:induction false} FractionsGrantNothing(k: Key, evs: seq<Event>, c: Config)
    requires IsRun(k, evs, c) && 0.0 < c.burst < 1.0 && forall b :: b in k.buckets ==> b.maxTokens < 1.0
    ensures GrantsOf(k, evs, c) == 0
    decreases |evs|
  {
    if evs != [] {
      var t := Next(k, evs[0], c);
      forall i | 0 <= i < |t.buckets|
        ensures t.buckets[i].maxTokens < 1.0
      {
        assert i < |k.buckets| ==> k.buckets[i] in k.buckets;
      }
      assert evs[0].Use? ==> k.buckets[evs[0].i] in k.buckets;
      FractionsGrantNothing(t, evs[1..], c);
    }
  }

  /** The grants of every run from here are within the bound. */
  ghost predicate Bounded(k: Key, c: Config, at: real) {
    forall evs, bound :: IsRun(k, evs, c) && Ordered(at, evs) && 0.0 <= bound && RatesWithin(k, evs, c, bound) ==>
      GrantsWithin(GrantsOf(k, evs, c), c.burst, bound, at, EndTime(at, evs))
  }

  /** Using a replaced bucket breaks the bound for every endpoint that grants at all: although the old
      bucket was full when it was replaced, some run from here exceeds the bound, if and only if the
      burst is at least one token. */
  lemma ReplacedUseIff(c: Config, t0: real, at: real)
    requires c.burst > 0.0 && t0 <= at
    ensures FullBy(New(c, t0), at)
    ensures !Bounded(Raced(c, t0, at), c, at) <==> c.burst >= 1.0
  {
    var k, rate := Raced(c, t0, at), EffectiveRate(New(c, t0));
    FasterAccrues(at - t0, rate, rate);
    if c.burst >= 1.0 {
      var n := c.burst.Floor;
      BurstAndOne(k, c, n, at, rate);
      BurstOrdered(n, at);
      var evs := Burst(n, at) + [Use(0, TryConsume(at))];
      assert Accrual(0.0, rate) == 0.0;
      assert !GrantsWithin(GrantsOf(k, evs, c), c.burst, rate, at, EndTime(at, evs));
    } else {
      forall evs, bound | IsRun(k, evs, c) && Ordered(at, evs) && 0.0 <= bound && RatesWithin(k, evs, c, bound)
        ensures GrantsWithin(GrantsOf(k, evs, c), c.burst, bound, at, EndTime(at, evs))
      {
        FractionsGrantNothing(k, evs, c);
        EndsLater(at, evs);
        FasterAccrues(EndTime(at, evs) - at, 0.0, bound);
        assert Accrual(EndTime(at, evs) - at, 0.0) == 0.0;
      }
    }
  }

  lemma {:induction false} EndsLater(from: real, evs: seq<Event>)
    requires Ordered(from, evs)
    ensures from <= EndTime(from, evs)
    decreases |evs|
  {
    if evs != [] {
      EndsLater(TimeOf(evs[0]), evs[1..]);
      EndTimeOfRest(from, evs);
    }
  }
}
