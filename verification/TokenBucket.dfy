/** The token bucket behind every rate limit (internal/ratelimit/bucket.go).

    `Bucket` is the value of a bucket and the functions on it are its specification;
    the class `TokenBucket` updates its fields in place and is proved against them.
    Time is in seconds, as a `real` passed in by the caller.
  */
module TokenBuckets {

  datatype Bucket = Bucket(
    tokens: real,
    maxTokens: real,
    refillRate: real,
    lastRefill: real,
    throttle: real)

  /** The rate used when the configured one is zero or negative. */
  const MIN_RATE: real := 0.000000001

  function Fresh(rate: real, burst: real, throttle: real, now: real): Bucket {
    var maxTokens := if burst <= 0.0 then (if rate > 1.0 then rate else 1.0) else burst;
    Bucket(burst, maxTokens, rate, now, throttle)
  }

  function EffectiveRate(b: Bucket): (r: real)
    ensures r > 0.0
  {
    var r := b.refillRate * b.throttle;
    if r <= 0.0 then MIN_RATE else r
  }

  /** The tokens a rate adds up to in some time. */
  function Accrual(elapsed: real, rate: real): real {
    elapsed * rate
  }

  function Refill(b: Bucket, now: real): Bucket {
    var full := b.tokens + Accrual(now - b.lastRefill, EffectiveRate(b));
    b.(tokens := if full < b.maxTokens then full else b.maxTokens, lastRefill := now)
  }

  predicate Allows(b: Bucket, now: real) {
    Refill(b, now).tokens >= 1.0
  }

  /** The bucket after a TryConsume at `now`, granted or not. */
  function Consume(b: Bucket, now: real): Bucket {
    var r := Refill(b, now);
    if r.tokens >= 1.0 then r.(tokens := r.tokens - 1.0) else r
  }

  /** The wait a refused TryConsume reports. */
  function WaitTime(b: Bucket, now: real): real {
    (1.0 - Refill(b, now).tokens) / EffectiveRate(b)
  }

  // ---------- runs of operations ----------

  datatype Op =
    | TryConsume(at: real)
    | Tokens(at: real)
    | UpdateRate(at: real, rate: real)

  function Apply(b: Bucket, op: Op): Bucket {
    match op
    case TryConsume(at) => Consume(b, at)
    case Tokens(at) => Refill(b, at)
    case UpdateRate(_, rate) => b.(refillRate := rate)
  }

  predicate Grants(b: Bucket, op: Op) {
    op.TryConsume? && Allows(b, op.at)
  }

  function Run(b: Bucket, ops: seq<Op>): Bucket
    decreases |ops|
  {
    if ops == [] then b else Run(Apply(b, ops[0]), ops[1..])
  }

  /** How many of the operations are granted a token. */
  function GrantCount(b: Bucket, ops: seq<Op>): nat
    decreases |ops|
  {
    if ops == [] then 0
    else (if Grants(b, ops[0]) then 1 else 0) + GrantCount(Apply(b, ops[0]), ops[1..])
  }

  /** Times never decrease, and start no earlier than `from`. */
  predicate Chronological(from: real, ops: seq<Op>)
    decreases |ops|
  {
    ops != [] ==> from <= ops[0].at && Chronological(ops[0].at, ops[1..])
  }

  /** Every refill of the run uses an effective rate of at most `bound`. */
  predicate RefillsWithin(b: Bucket, ops: seq<Op>, bound: real)
    decreases |ops|
  {
    ops != [] ==>
      && (ops[0].UpdateRate? || EffectiveRate(b) <= bound)
      && RefillsWithin(Apply(b, ops[0]), ops[1..], bound)
  }

  // ---------- the rate bound ----------

  function Positive(x: real): real {
    if x < 0.0 then 0.0 else x
  }

  lemma FasterAccrues(elapsed: real, a: real, b: real)
    requires 0.0 <= elapsed && a <= b
    ensures Accrual(elapsed, a) <= Accrual(elapsed, b)
    ensures 0.0 <= a ==> 0.0 <= Accrual(elapsed, a)
  {
  }

  lemma LongerAccrues(a: real, b: real, rate: real)
    requires a <= b && 0.0 <= rate
    ensures Accrual(a, rate) <= Accrual(b, rate)
  {
  }

  lemma AccrualAddsUp(x: real, y: real, z: real, rate: real)
    ensures Accrual(z - x, rate) == Accrual(y - x, rate) + Accrual(z - y, rate)
  {
  }

  /** The time to accrue `d` tokens is d / rate, and no less. */
  lemma AccruesWhenDue(d: real, elapsed: real, rate: real)
    requires rate > 0.0
    ensures Accrual(elapsed, rate) >= d <==> elapsed >= d / rate
    ensures d > 0.0 ==> d / rate > 0.0
  {
    var w := d / rate;
    assert w * rate == d;
    if elapsed >= w {
      assert (elapsed - w) * rate >= 0.0;
    } else {
      assert (w - elapsed) * rate > 0.0;
    }
  }

  /** A refill adds at most `bound` tokens a second. */
  lemma RefillAddsAtMost(b: Bucket, now: real, bound: real)
    requires b.lastRefill <= now && EffectiveRate(b) <= bound
    ensures Positive(Refill(b, now).tokens) <= Positive(b.tokens) + Accrual(now - b.lastRefill, bound)
  {
    FasterAccrues(now - b.lastRefill, EffectiveRate(b), bound);
  }

  /** Going from `b` to `c`, `granted` tokens were handed out and no more appeared than `bound`
      a second. */
  predicate Covered(b: Bucket, c: Bucket, granted: nat, bound: real) {
    && b.lastRefill <= c.lastRefill
    && granted as real + Positive(c.tokens)
       <= Positive(b.tokens) + Accrual(c.lastRefill - b.lastRefill, bound)
  }

  lemma OneOp(b: Bucket, op: Op, bound: real)
    requires b.lastRefill <= op.at && 0.0 <= bound
    requires op.UpdateRate? || EffectiveRate(b) <= bound
    ensures Apply(b, op).lastRefill <= op.at
    ensures Covered(b, Apply(b, op), if Grants(b, op) then 1 else 0, bound)
  {
    if !op.UpdateRate? {
      RefillAddsAtMost(b, op.at, bound);
    }
  }

  lemma CoveredComposes(b: Bucket, c: Bucket, d: Bucket, g: nat, h: nat, bound: real)
    requires Covered(b, c, g, bound) && Covered(c, d, h, bound)
    ensures Covered(b, d, g + h, bound)
  {
    AccrualAddsUp(b.lastRefill, c.lastRefill, d.lastRefill, bound);
  }

  /** Along any run, the tokens granted plus those left are at most those held at the start
      plus what the elapsed time can have added: tokens are never invented. */
  lemma {:induction false} TokensAreConserved(b: Bucket, ops: seq<Op>, bound: real)
    requires 0.0 <= bound
    requires Chronological(b.lastRefill, ops) && RefillsWithin(b, ops, bound)
    ensures ops != [] ==> Run(b, ops).lastRefill <= ops[|ops| - 1].at
    ensures Covered(b, Run(b, ops), GrantCount(b, ops), bound)
    decreases |ops|
  {
    if ops != [] {
      var next, g := Apply(b, ops[0]), if Grants(b, ops[0]) then 1 else 0;
      OneOp(b, ops[0], bound);
      ChronologicalEarlier(next.lastRefill, ops[0].at, ops[1..]);
      TokensAreConserved(next, ops[1..], bound);
      LastIsLast(ops);
      CoveredComposes(b, next, Run(next, ops[1..]), g, GrantCount(next, ops[1..]), bound);
    }
  }

  lemma {:induction false} LastIsLast(ops: seq<Op>)
    requires ops != []
    ensures |ops| > 1 ==> ops[1..] != [] && ops[1..][|ops[1..]| - 1] == ops[|ops| - 1]
  {
  }

  lemma {:induction false} ChronologicalEarlier(earlier: real, from: real, ops: seq<Op>)
    requires earlier <= from && Chronological(from, ops)
    ensures Chronological(earlier, ops)
  {
  }

  /** At most `cap` tokens and `bound` more a second were granted between two times. */
  predicate GrantsWithin(granted: nat, cap: real, bound: real, from: real, to: real) {
    granted as real <= cap + Accrual(to - from, bound)
  }

  lemma CoveredBounds(b: Bucket, c: Bucket, granted: nat, bound: real, cap: real, to: real)
    requires Covered(b, c, granted, bound) && 0.0 <= bound
    requires Positive(b.tokens) <= cap && c.lastRefill <= to
    ensures GrantsWithin(granted, cap, bound, b.lastRefill, to)
  {
    LongerAccrues(c.lastRefill - b.lastRefill, to - b.lastRefill, bound);
  }

  lemma EarlierStart(granted: nat, cap: real, bound: real, from: real, later: real, to: real)
    requires GrantsWithin(granted, cap, bound, later, to) && from <= later && 0.0 <= bound
    ensures GrantsWithin(granted, cap, bound, from, to)
  {
    LongerAccrues(to - later, to - from, bound);
  }

  lemma Widen(granted: nat, cap: real, bound: real, from: real, to: real, from': real, to': real)
    requires GrantsWithin(granted, cap, bound, from, to) && from' <= from && to <= to' && 0.0 <= bound
    ensures GrantsWithin(granted, cap, bound, from', to')
  {
    LongerAccrues(to - from, to' - from', bound);
  }

  /** An operation that refills starts its window with at most maxTokens to give. */
  lemma RefillCaps(b: Bucket, op: Op)
    requires !op.UpdateRate? && 0.0 <= b.maxTokens
    ensures Apply(b, op).lastRefill == op.at
    ensures (if Grants(b, op) then 1.0 else 0.0) + Positive(Apply(b, op).tokens) <= b.maxTokens
  {
  }

  /** The rate bound. In any window of bucket operations, whatever ran before it, at most
      maxTokens + bound * (length of the window) requests are granted, where `bound` is the
      largest effective rate any refill of the window uses. Rate changes bill the whole time
      since the last refill at the new rate, which is why the largest rate counts. */
  lemma {:induction false} RateBound(b: Bucket, ops: seq<Op>, bound: real)
    requires ops != [] && 0.0 <= b.maxTokens && 0.0 <= bound
    requires Chronological(b.lastRefill, ops) && RefillsWithin(b, ops, bound)
    ensures GrantsWithin(GrantCount(b, ops), b.maxTokens, bound, ops[0].at, ops[|ops| - 1].at)
    decreases |ops|
  {
    var op, rest, next := ops[0], ops[1..], Apply(b, ops[0]);
    LastIsLast(ops);
    var last := ops[|ops| - 1].at;
    if !op.UpdateRate? {
      RefillCaps(b, op);
      TokensAreConserved(next, rest, bound);
      var cap := b.maxTokens - if Grants(b, op) then 1.0 else 0.0;
      CoveredBounds(next, Run(next, rest), GrantCount(next, rest), bound, cap, last);
    } else if rest != [] {
      ChronologicalEarlier(b.lastRefill, op.at, rest);
      RateBound(next, rest, bound);
      EarlierStart(GrantCount(next, rest), b.maxTokens, bound, op.at, rest[0].at, last);
    } else {
      assert Accrual(0.0, bound) == 0.0;
    }
  }

  // ---------- the configured rate ----------

  /** A rate within `bound` once throttled. */
  predicate ThrottledWithin(rate: real, throttle: real, bound: real) {
    rate * throttle <= bound
  }

  /** The configured rate, and every rate set later, is within `bound` once throttled; so is the
      least rate a bucket ever has. */
  predicate ConfiguredWithin(b: Bucket, ops: seq<Op>, bound: real) {
    && ThrottledWithin(b.refillRate, b.throttle, bound) && 0.000000001 <= bound
    && forall i :: 0 <= i < |ops| && ops[i].UpdateRate? ==> ThrottledWithin(ops[i].rate, b.throttle, bound)
  }

  lemma {:induction false} ConfiguredRefills(b: Bucket, ops: seq<Op>, bound: real)
    requires ConfiguredWithin(b, ops, bound)
    ensures RefillsWithin(b, ops, bound)
    decreases |ops|
  {
    if ops != [] {
      ConfiguredRefills(Apply(b, ops[0]), ops[1..], bound);
    }
  }

  /** The rate bound in the configured numbers: at most maxTokens plus `bound` a second, where
      `bound` is the largest of rate times throttle over the rates configured and set. */
  lemma ConfiguredRateBound(b: Bucket, ops: seq<Op>, bound: real)
    requires ops != [] && 0.0 <= b.maxTokens && Chronological(b.lastRefill, ops) && ConfiguredWithin(b, ops, bound)
    ensures GrantCount(b, ops) as real <= b.maxTokens + bound * (ops[|ops| - 1].at - ops[0].at)
  {
    ConfiguredRefills(b, ops, bound);
    RateBound(b, ops, bound);
  }

  function Min(x: real, y: real): real {
    if x < y then x else y
  }

  /** The operations only read, and end at `to`. */
  predicate ReadsUntil(from: real, ops: seq<Op>, to: real) {
    && ops != [] && Chronological(from, ops) && ops[|ops| - 1].at == to
    && forall i :: 0 <= i < |ops| ==> ops[i].Tokens?
  }

  /** A refill at `now` does not change what a later one gives. */
  lemma RefillsCompose(b: Bucket, now: real, later: real)
    requires b.lastRefill <= now <= later
    ensures Refill(Refill(b, now), later) == Refill(b, later)
  {
    var rate := EffectiveRate(b);
    AccrualAddsUp(b.lastRefill, now, later, rate);
    FasterAccrues(later - now, 0.0, rate);
    assert Accrual(later - now, 0.0) == 0.0;
  }

  lemma {:induction false} ReadsAreOneRefill(b: Bucket, ops: seq<Op>, to: real)
    requires ReadsUntil(b.lastRefill, ops, to)
    ensures Run(b, ops) == Refill(b, to)
    decreases |ops|
  {
    var next, rest := Apply(b, ops[0]), ops[1..];
    if rest != [] {
      LastIsLast(ops);
      ReadsAreOneRefill(next, rest, to);
      UntilLast(ops[0].at, rest);
      RefillsCompose(b, ops[0].at, to);
    }
  }

  lemma {:induction false} UntilLast(from: real, ops: seq<Op>)
    requires ops != [] && Chronological(from, ops)
    ensures from <= ops[|ops| - 1].at
    decreases |ops|
  {
    if |ops| > 1 {
      UntilLast(ops[0].at, ops[1..]);
    }
  }

  /** A bucket that is only looked at, however often, holds what it held and rate times throttle for
      each second since, up to maxTokens; a billionth a second if that product is not positive. */
  lemma LeftAlone(b: Bucket, ops: seq<Op>, to: real)
    requires ReadsUntil(b.lastRefill, ops, to)
    ensures var perSecond := b.refillRate * b.throttle; var elapsed := to - b.lastRefill;
            Run(b, ops).tokens
              == Min(b.maxTokens, b.tokens + elapsed * (if perSecond > 0.0 then perSecond else 0.000000001))
  {
    ReadsAreOneRefill(b, ops, to);
  }

  // ---------- the bound is reached ----------

  /** `n` calls of TryConsume at `at`. */
  function AtOnce(at: real, n: nat): seq<Op> {
    if n == 0 then [] else [TryConsume(at)] + AtOnce(at, n - 1)
  }

  /** `n` calls of TryConsume, `gap` seconds apart, the first `gap` seconds after `from`. */
  function Spaced(from: real, gap: real, n: nat): seq<Op>
    decreases n
  {
    if n == 0 then [] else [TryConsume(from + gap)] + Spaced(from + gap, gap, n - 1)
  }

  /** The first operation and the rest of a run. */
  lemma GrantFirst(b: Bucket, op: Op, rest: seq<Op>)
    ensures GrantCount(b, [op] + rest) == (if Grants(b, op) then 1 else 0) + GrantCount(Apply(b, op), rest)
  {
    assert ([op] + rest)[1..] == rest;
  }

  /** Calls as far apart as the bucket takes to accrue a token are all granted. */
  lemma {:induction false} SpacedAreGranted(b: Bucket, gap: real, n: nat)
    requires 0.0 <= b.tokens <= b.maxTokens && 1.0 <= b.maxTokens && 0.0 < gap && Accrual(gap, EffectiveRate(b)) == 1.0
    ensures GrantCount(b, Spaced(b.lastRefill, gap, n)) == n
    decreases n
  {
    if n > 0 {
      var at := b.lastRefill + gap;
      GrantFirst(b, TryConsume(at), Spaced(at, gap, n - 1));
      SpacedAreGranted(Consume(b, at), gap, n - 1);
    }
  }

  lemma {:induction false} BurstIsGranted(b: Bucket, n: nat, left: Bucket, rest: seq<Op>)
    requires n as real <= b.tokens <= b.maxTokens && left == b.(tokens := b.tokens - n as real)
    ensures GrantCount(b, AtOnce(b.lastRefill, n) + rest) == n + GrantCount(left, rest)
    decreases n
  {
    var now := b.lastRefill;
    if n == 0 {
      assert AtOnce(now, 0) + rest == rest && left == b;
    } else {
      assert Accrual(now - now, EffectiveRate(b)) == 0.0;
      var next := b.(tokens := b.tokens - 1.0);
      assert Refill(b, now) == b && Consume(b, now) == next;
      BurstIsGranted(next, n - 1, left, rest);
      assert AtOnce(now, n) + rest == [TryConsume(now)] + (AtOnce(now, n - 1) + rest);
      GrantFirst(b, TryConsume(now), AtOnce(now, n - 1) + rest);
    }
  }

  /** Exactly `cap` tokens and `perSecond` more a second were granted between two times. */
  predicate GrantsAll(granted: nat, cap: real, perSecond: real, from: real, to: real) {
    granted as real == cap + perSecond * (to - from)
  }

  lemma OneToken(b: Bucket, perSecond: real, gap: real)
    requires perSecond == b.refillRate * b.throttle && perSecond > 0.0 && gap == 1.0 / perSecond
    ensures 0.0 < gap && Accrual(gap, EffectiveRate(b)) == 1.0
  {
    AccruesWhenDue(1.0, gap, perSecond);
    assert gap * perSecond == 1.0;
  }

  /** The bound is reached: a new bucket with a whole burst grants that many requests at once, and
      then one more each time rate times throttle have added up to a token. These are maxTokens and
      rate times throttle for each second the run takes. */
  lemma RateBoundIsReached(rate: real, burst: nat, throttle: real, now: real, perSecond: real, n: nat)
    requires 1 <= burst && perSecond == rate * throttle && perSecond > 0.0
    ensures var b := Fresh(rate, burst as real, throttle, now);
            var ops := AtOnce(now, burst) + Spaced(now, 1.0 / perSecond, n);
            && |ops| == burst + n && GrantCount(b, ops) == burst + n
            && GrantsAll(burst + n, b.maxTokens, perSecond, ops[0].at, ops[|ops| - 1].at)
  {
    var b, gap := Fresh(rate, burst as real, throttle, now), 1.0 / perSecond;
    var empty := b.(tokens := 0.0);
    BurstIsGranted(b, burst, empty, Spaced(now, gap, n));
    OneToken(empty, perSecond, gap);
    SpacedAreGranted(empty, gap, n);
    RunTimes(now, burst, gap, n);
    InUnits(burst, n, gap, perSecond, now);
  }

  lemma InUnits(burst: nat, n: nat, gap: real, perSecond: real, now: real)
    requires perSecond > 0.0 && gap == 1.0 / perSecond
    ensures GrantsAll(burst + n, burst as real, perSecond, now, now + n as real * gap)
  {
    assert gap * perSecond == 1.0;
    assert perSecond * (n as real * gap) == n as real * (gap * perSecond);
  }

  lemma RunTimes(now: real, burst: nat, gap: real, n: nat)
    requires 1 <= burst
    ensures var ops := AtOnce(now, burst) + Spaced(now, gap, n);
            |ops| == burst + n && ops[0].at == now && ops[|ops| - 1].at == now + n as real * gap
  {
    AtOnceTimes(now, burst);
    SpacedEnds(now, gap, n);
  }

  lemma {:induction false} AtOnceTimes(at: real, n: nat)
    ensures |AtOnce(at, n)| == n && forall i :: 0 <= i < n ==> AtOnce(at, n)[i] == TryConsume(at)
  {
    if n > 0 {
      AtOnceTimes(at, n - 1);
    }
  }

  lemma {:induction false} SpacedEnds(from: real, gap: real, n: nat)
    ensures |Spaced(from, gap, n)| == n
    ensures n > 0 ==> Spaced(from, gap, n)[n - 1] == TryConsume(from + n as real * gap)
    decreases n
  {
    if n > 0 {
      SpacedEnds(from + gap, gap, n - 1);
    }
  }

  // ---------- the range of the token count ----------

  predicate InRange(b: Bucket) {
    0.0 <= b.tokens <= b.maxTokens
  }

  lemma {:induction false} RunKeepsRange(b: Bucket, ops: seq<Op>)
    requires InRange(b) && Chronological(b.lastRefill, ops)
    ensures InRange(Run(b, ops)) && Run(b, ops).maxTokens == b.maxTokens
    decreases |ops|
  {
    if ops != [] {
      if ops[0].UpdateRate? {
        ChronologicalEarlier(b.lastRefill, ops[0].at, ops[1..]);
      } else {
        FasterAccrues(ops[0].at - b.lastRefill, EffectiveRate(b), EffectiveRate(b));
      }
      RunKeepsRange(Apply(b, ops[0]), ops[1..]);
    }
  }

  /** The token count stays between zero and maxTokens in every run exactly when the
      configured burst is not negative: the constructor copies a negative burst into `tokens`. */
  lemma RangeIffBurstNotNegative(rate: real, burst: real, throttle: real, now: real)
    ensures burst >= 0.0 <==>
            forall ops :: Chronological(now, ops) ==> InRange(Run(Fresh(rate, burst, throttle, now), ops))
  {
    var b := Fresh(rate, burst, throttle, now);
    if burst >= 0.0 {
      forall ops | Chronological(now, ops)
        ensures InRange(Run(b, ops))
      {
        RunKeepsRange(b, ops);
      }
    } else {
      assert Chronological(now, []) && !InRange(Run(b, []));
    }
  }

  // ---------- the reported wait ----------

  /** The wait a refused TryConsume reports is exact: if nothing else touches the bucket, a
      retry is granted if and only if it comes no earlier than that, given that the bucket can
      hold a whole token at all. */
  lemma WaitIsExact(b: Bucket, now: real, later: real)
    requires b.lastRefill <= now <= later
    requires b.tokens <= b.maxTokens && 1.0 <= b.maxTokens
    requires !Allows(b, now)
    ensures WaitTime(b, now) > 0.0
    ensures Allows(Consume(b, now), later) <==> later >= now + WaitTime(b, now)
  {
    var rate := EffectiveRate(b);
    AccruesWhenDue(1.0 - Refill(b, now).tokens, later - now, rate);
  }

  // ---------- which buckets grant at all ----------

  lemma {:induction false} FractionalBurstStarves(b: Bucket, ops: seq<Op>)
    requires b.maxTokens < 1.0
    ensures GrantCount(b, ops) == 0
    decreases |ops|
  {
    if ops != [] {
      FractionalBurstStarves(Apply(b, ops[0]), ops[1..]);
    }
  }

  /** A bucket grants nothing, ever, if and only if it cannot hold a whole token (a burst strictly
      between 0 and 1): any other grants a TryConsume that comes late enough. */
  lemma StarvesIff(b: Bucket)
    ensures b.maxTokens < 1.0 <==> forall ops :: Chronological(b.lastRefill, ops) ==> GrantsNone(b, ops)
  {
    if b.maxTokens < 1.0 {
      forall ops | Chronological(b.lastRefill, ops)
        ensures GrantsNone(b, ops)
      {
        FractionalBurstStarves(b, ops);
      }
    } else {
      var later := b.lastRefill + Positive((1.0 - b.tokens) / EffectiveRate(b));
      AllowsWhenDue(b, later);
      var ops := [TryConsume(later)];
      assert Grants(b, ops[0]) && ops[1..] == [] && GrantCount(Apply(b, ops[0]), []) == 0;
      assert Chronological(b.lastRefill, ops) && !GrantsNone(b, ops);
    }
  }

  predicate GrantsNone(b: Bucket, ops: seq<Op>) {
    GrantCount(b, ops) == 0
  }

  lemma AllowsWhenDue(b: Bucket, later: real)
    requires 1.0 <= b.maxTokens && later - b.lastRefill >= (1.0 - b.tokens) / EffectiveRate(b)
    ensures Allows(b, later)
  {
    AccruesWhenDue(1.0 - b.tokens, later - b.lastRefill, EffectiveRate(b));
  }

  // ---------- the bucket as the program updates it ----------

  class TokenBucket {
    var tokens: real
    var maxTokens: real
    var refillRate: real
    var lastRefill: real
    var throttle: real

    function View(): Bucket
      reads this
    {
      Bucket(tokens, maxTokens, refillRate, lastRefill, throttle)
    }

    constructor (rate: real, burst: real, throttle: real, now: real)
      ensures View() == Fresh(rate, burst, throttle, now)
    {
      var max := burst;
      if max <= 0.0 {
        max := if rate > 1.0 then rate else 1.0;
      }
      this.tokens := burst;
      this.maxTokens := max;
      this.refillRate := rate;
      this.lastRefill := now;
      this.throttle := throttle;
    }

    method TryConsume(now: real) returns (allowed: bool, wait: real)
      modifies this
      ensures allowed == old(Allows(View(), now))
      ensures View() == old(Consume(View(), now))
      ensures wait == if allowed then 0.0 else old(WaitTime(View(), now))
    {
      DoRefill(now);
      if tokens >= 1.0 {
        tokens := tokens - 1.0;
        return true, 0.0;
      }
      var deficit := 1.0 - tokens;
      return false, deficit / EffectiveRate(View());
    }

    method DoRefill(now: real)
      modifies this
      ensures View() == old(Refill(View(), now))
    {
      var elapsed := now - lastRefill;
      var full := tokens + Accrual(elapsed, EffectiveRate(View()));
      tokens := if full < maxTokens then full else maxTokens;
      lastRefill := now;
    }

    method SetRate(newRate: real)
      modifies this
      ensures View() == old(View()).(refillRate := newRate)
    {
      refillRate := newRate;
    }

    method CurrentTokens(now: real) returns (t: real)
      modifies this
      ensures View() == old(Refill(View(), now)) && t == View().tokens
    {
      DoRefill(now);
      t := tokens;
    }
  }
}
