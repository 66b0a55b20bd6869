/** The buckets of one key over time (internal/ratelimit/limiter.go): a lookup stamps the entry or
    creates it, the collector discards an entry whose stamp is old, and the next lookup creates a new
    one, whose bucket starts full. Handlers and dispatchers go on using the bucket they have, also
    after its entry was discarded, and their operations on it stamp nothing.
  */
module BucketLives {
  import opened TokenBuckets

  /** The configured rate and burst of the key's endpoint, the throttle, and how old a stamp may get. */
  datatype Config = Config(rate: real, burst: real, throttle: real, ttl: real)

  datatype Key = Key(
    buckets: seq<Bucket>,              // every bucket the key has had, in the order of creation
    listed: bool,                      // the last one is in the table
    lastUsed: real,                    // its stamp
    picked: bool,                      // the collector found it stale and is about to delete it
    lastGrant: real)                   // when the last bucket last granted a token, or was created

  const UNUSED := Key([], false, 0.0, false, 0.0)

  datatype Event =
    | Lookup(at: real)                 // GetBucket
    | Use(i: nat, op: Op)              // an operation on the i-th bucket
    | Pick(at: real)                   // the collector's test of the stamp
    | Discard(at: real)                // and its Delete

  function TimeOf(ev: Event): real {
    if ev.Use? then ev.op.at else ev.at
  }

  predicate Enabled(k: Key, ev: Event, c: Config) {
    match ev
    case Lookup(_) => true
    case Use(i, _) => i < |k.buckets|
    case Pick(at) => k.listed && k.lastUsed < at - c.ttl
    case Discard(_) => k.listed && k.picked
  }

  function New(c: Config, at: real): Bucket {
    Fresh(c.rate, c.burst, c.throttle, at)
  }

  /** The event is granted a token. */
  predicate Granted(k: Key, ev: Event) {
    ev.Use? && ev.i < |k.buckets| && Grants(k.buckets[ev.i], ev.op)
  }

  predicate OfLast(k: Key, ev: Event) {
    ev.Use? && ev.i == |k.buckets| - 1
  }

  function Next(k: Key, ev: Event, c: Config): Key
    requires Enabled(k, ev, c)
  {
    match ev
    case Lookup(at) =>
      if k.listed then k.(lastUsed := at) else Key(k.buckets + [New(c, at)], true, at, false, at)
    case Use(i, op) =>
      k.(buckets := k.buckets[i := Apply(k.buckets[i], op)],
         lastGrant := if OfLast(k, ev) && Granted(k, ev) then op.at else k.lastGrant)
    case Pick(_) => k.(picked := true)
    case Discard(_) => k.(listed := false, picked := false)
  }

  predicate IsRun(k: Key, evs: seq<Event>, c: Config)
    decreases |evs|
  {
    evs != [] ==> Enabled(k, evs[0], c) && IsRun(Next(k, evs[0], c), evs[1..], c)
  }

  function End(k: Key, evs: seq<Event>, c: Config): Key
    requires IsRun(k, evs, c)
    decreases |evs|
  {
    if evs == [] then k else End(Next(k, evs[0], c), evs[1..], c)
  }

  function GrantsOf(k: Key, evs: seq<Event>, c: Config): nat
    requires IsRun(k, evs, c)
    decreases |evs|
  {
    if evs == [] then 0
    else (if Granted(k, evs[0]) then 1 else 0) + GrantsOf(Next(k, evs[0], c), evs[1..], c)
  }

  /** Times never decrease, and start no earlier than `from`. */
  predicate Ordered(from: real, evs: seq<Event>)
    decreases |evs|
  {
    evs != [] ==> from <= TimeOf(evs[0]) && Ordered(TimeOf(evs[0]), evs[1..])
  }

  lemma FirstEvent(k: Key, ev: Event, rest: seq<Event>, c: Config)
    requires Enabled(k, ev, c) && IsRun(Next(k, ev, c), rest, c)
    ensures IsRun(k, [ev] + rest, c) && End(k, [ev] + rest, c) == End(Next(k, ev, c), rest, c)
    ensures GrantsOf(k, [ev] + rest, c)
         == (if Granted(k, ev) then 1 else 0) + GrantsOf(Next(k, ev, c), rest, c)
  {
    assert ([ev] + rest)[1..] == rest;
  }

  // ---------- one replacement ----------

  /** The bucket would be full by then. */
  predicate FullBy(b: Bucket, at: real) {
    b.tokens + Accrual(at - b.lastRefill, EffectiveRate(b)) >= b.maxTokens
  }

  /** Exactly when a replacement invents no tokens: the new bucket is the old one, refilled and set
      back to its configured rate, if and only if the old one would be full by then; and if and only
      if what it holds is covered by what the old one held and the time since. */
  lemma RecreationIff(b: Bucket, at: real, c: Config)
    requires c.burst > 0.0 && b.maxTokens == c.burst && b.throttle == c.throttle
    requires InRange(b) && b.lastRefill <= at
    ensures FullBy(b, at) <==> New(c, at) == Refill(b, at).(refillRate := c.rate)
    ensures FullBy(b, at) <==> Covered(b, New(c, at), 0, EffectiveRate(b))
  {
    var kept := Refill(b, at);
    assert kept.(refillRate := c.rate) == Bucket(kept.tokens, b.maxTokens, c.rate, at, b.throttle);
  }

  // ---------- the rate bound over all lives ----------

  /** The event replaces the last bucket by a new one. */
  predicate Replaces(k: Key, ev: Event) {
    ev.Lookup? && !k.listed && k.buckets != []
  }

  function Last(k: Key): Bucket
    requires k.buckets != []
  {
    k.buckets[|k.buckets| - 1]
  }

  /** No operation on a bucket that has been replaced; each replaced one would be full by then; and no
      refill of the last bucket, not even the one a replacement stands for, is faster than `bound`. */
  predicate Sound(k: Key, ev: Event, bound: real) {
    && (ev.Use? ==> OfLast(k, ev))
    && (Replaces(k, ev) ==> FullBy(Last(k), ev.at))
    && (k.buckets != [] && (Replaces(k, ev) || (ev.Use? && !ev.op.UpdateRate?)) ==> EffectiveRate(Last(k)) <= bound)
  }

  predicate Lawful(k: Key, evs: seq<Event>, c: Config, bound: real)
    requires IsRun(k, evs, c)
    decreases |evs|
  {
    evs != [] ==> Sound(k, evs[0], bound) && Lawful(Next(k, evs[0], c), evs[1..], c, bound)
  }

  /** What the event would be on a single bucket: a replacement is a look at the tokens and a return
      to the configured rate. */
  function OnOneBucket(k: Key, ev: Event, c: Config): seq<Op> {
    if ev.Use? then [ev.op]
    else if Replaces(k, ev) then [Tokens(ev.at), UpdateRate(ev.at, c.rate)]
    else []
  }

  function OneLife(k: Key, evs: seq<Event>, c: Config): seq<Op>
    requires IsRun(k, evs, c)
    decreases |evs|
  {
    if evs == [] then [] else OnOneBucket(k, evs[0], c) + OneLife(Next(k, evs[0], c), evs[1..], c)
  }

  /** The key has a bucket of the configured burst and throttle. */
  predicate Regular(k: Key, c: Config) {
    c.burst > 0.0 && k.buckets != [] && Last(k).maxTokens == c.burst && Last(k).throttle == c.throttle
  }

  /** One event does to the last bucket what its operations do to a single one. */
  lemma OneEvent(k: Key, ev: Event, c: Config, bound: real, ops: seq<Op>)
    requires Regular(k, c) && Enabled(k, ev, c) && Sound(k, ev, bound)
    ensures Regular(Next(k, ev, c), c)
    ensures var all := OnOneBucket(k, ev, c) + ops; var b := Last(Next(k, ev, c));
            && GrantCount(Last(k), all) == (if Granted(k, ev) then 1 else 0) + GrantCount(b, ops)
            && (RefillsWithin(b, ops, bound) ==> RefillsWithin(Last(k), all, bound))
  {
    var all := OnOneBucket(k, ev, c) + ops;
    if ev.Use? {
      assert all[1..] == ops;
    } else if Replaces(k, ev) {
      var kept := Refill(Last(k), ev.at);
      assert kept.(refillRate := c.rate) == New(c, ev.at);
      assert all[1..][1..] == ops && all[1..][0] == UpdateRate(ev.at, c.rate);
    } else {
      assert all == ops;
    }
  }

  /** Lives that end full are one life. */
  lemma {:induction false} LivesAreOne(k: Key, evs: seq<Event>, c: Config, bound: real)
    requires Regular(k, c) && IsRun(k, evs, c) && Lawful(k, evs, c, bound)
    ensures GrantsOf(k, evs, c) == GrantCount(Last(k), OneLife(k, evs, c))
    ensures RefillsWithin(Last(k), OneLife(k, evs, c), bound)
    decreases |evs|
  {
    if evs != [] {
      var t := Next(k, evs[0], c);
      OneEvent(k, evs[0], c, bound, OneLife(t, evs[1..], c));
      LivesAreOne(t, evs[1..], c, bound);
    }
  }

  /** The operations lie between the times of the first and the last event. */
  predicate Spans(ops: seq<Op>, from: real, to: real) {
    Chronological(from, ops) && from <= to && (ops != [] ==> from <= ops[0].at && ops[|ops| - 1].at <= to)
  }

  lemma SpansGrow(first: seq<Op>, ops: seq<Op>, from: real, at: real, to: real)
    requires Spans(ops, at, to) && from <= at && |first| <= 2
    requires forall i :: 0 <= i < |first| ==> first[i].at == at
    ensures Spans(first + ops, from, to)
  {
    var all := first + ops;
    ChronologicalEarlier(from, at, ops);
    if |first| == 0 {
      assert all == ops;
    } else if |first| == 1 {
      assert all[1..] == ops;
    } else {
      assert all[1..][1..] == ops && all[1..][0] == first[1];
    }
    assert ops != [] ==> all[|all| - 1] == ops[|ops| - 1];
    assert ops == [] ==> all == first;
  }

  function EndTime(from: real, evs: seq<Event>): real {
    if evs == [] then from else TimeOf(evs[|evs| - 1])
  }

  lemma EndTimeOfRest(from: real, evs: seq<Event>)
    requires evs != []
    ensures EndTime(from, evs) == EndTime(TimeOf(evs[0]), evs[1..])
  {
  }

  lemma {:induction false} OneLifeSpans(k: Key, evs: seq<Event>, c: Config, from: real)
    requires IsRun(k, evs, c) && Ordered(from, evs)
    ensures Spans(OneLife(k, evs, c), from, EndTime(from, evs))
    decreases |evs|
  {
    if evs != [] {
      var t, at := Next(k, evs[0], c), TimeOf(evs[0]);
      OneLifeSpans(t, evs[1..], c, at);
      EndTimeOfRest(from, evs);
      SpansGrow(OnOneBucket(k, evs[0], c), OneLife(t, evs[1..], c), from, at, EndTime(from, evs));
    }
  }

  lemma SpannedBound(b: Bucket, ops: seq<Op>, bound: real, from: real, to: real)
    requires Spans(ops, from, to) && b.lastRefill <= from && 0.0 <= b.maxTokens && 0.0 <= bound
    requires RefillsWithin(b, ops, bound)
    ensures GrantsWithin(GrantCount(b, ops), b.maxTokens, bound, from, to)
  {
    if ops == [] {
      EarlierStart(0, b.maxTokens, bound, from, to, to);
    } else {
      ChronologicalEarlier(b.lastRefill, from, ops);
      RateBound(b, ops, bound);
      Widen(GrantCount(b, ops), b.maxTokens, bound, ops[0].at, ops[|ops| - 1].at, from, to);
    }
  }

  /** The rate bound over all lives of a key's bucket: in any window of any run in which no replaced
      bucket is used, and each would be full by the time it is replaced, the key is granted at most
      the burst and `bound` a second. */
  lemma RateBoundOverLives(k: Key, evs: seq<Event>, c: Config, bound: real, from: real)
    requires Regular(k, c) && IsRun(k, evs, c) && Lawful(k, evs, c, bound) && 0.0 <= bound
    requires Last(k).lastRefill <= from && Ordered(from, evs)
    ensures GrantsWithin(GrantsOf(k, evs, c), c.burst, bound, from, EndTime(from, evs))
  {
    LivesAreOne(k, evs, c, bound);
    OneLifeSpans(k, evs, c, from);
    SpannedBound(Last(k), OneLife(k, evs, c), bound, from, EndTime(from, evs));
  }

  /** And so for the whole run of a key, from its first lookup on. */
  lemma RateBoundFromStart(evs: seq<Event>, c: Config, bound: real)
    requires IsRun(UNUSED, evs, c) && evs != [] && Lawful(UNUSED, evs, c, bound)
    requires c.burst > 0.0 && 0.0 <= bound && Ordered(TimeOf(evs[0]), evs)
    ensures GrantsWithin(GrantsOf(UNUSED, evs, c), c.burst, bound, TimeOf(evs[0]), EndTime(0.0, evs))
  {
    var at, rest := TimeOf(evs[0]), evs[1..];
    EndTimeOfRest(0.0, evs);
    RateBoundOverLives(Next(UNUSED, evs[0], c), rest, c, bound, at);
  }
}
