/** Which bucket of a key granted what: the grants of a run, by bucket. */
module BucketShares {
  import opened TokenBuckets
  import opened BucketLives

  /** The operations of the run on bucket `j`. */
  function Proj(evs: seq<Event>, j: nat): seq<Op> {
    if evs == [] then []
    else (if evs[0].Use? && evs[0].i == j then [evs[0].op] else []) + Proj(evs[1..], j)
  }

  /** Bucket `j` as it is when the run begins, or as it is created later. */
  function Start(k: Key, evs: seq<Event>, c: Config, j: nat): Bucket
    requires IsRun(k, evs, c) && j < |End(k, evs, c).buckets|
    decreases |evs|
  {
    if j < |k.buckets| then k.buckets[j] else Start(Next(k, evs[0], c), evs[1..], c, j)
  }

  /** How many tokens bucket `j` grants. */
  function Share(k: Key, evs: seq<Event>, c: Config, j: nat): nat
    requires IsRun(k, evs, c)
    decreases |evs|
  {
    if evs == [] then 0
    else (if Granted(k, evs[0]) && evs[0].i == j then 1 else 0) + Share(Next(k, evs[0], c), evs[1..], c, j)
  }

  lemma {:induction false} ShareIs(k: Key, evs: seq<Event>, c: Config, j: nat)
    requires IsRun(k, evs, c) && j < |End(k, evs, c).buckets|
    ensures Share(k, evs, c, j) == GrantCount(Start(k, evs, c, j), Proj(evs, j))
    decreases |evs|
  {
    if evs != [] {
      var t, ops := Next(k, evs[0], c), Proj(evs[1..], j);
      ShareIs(t, evs[1..], c, j);
      if evs[0].Use? && evs[0].i == j {
        assert Proj(evs, j)[1..] == ops;
      } else {
        assert Proj(evs, j) == ops;
      }
    }
  }

  function SharesUpTo(k: Key, evs: seq<Event>, c: Config, n: nat): nat
    requires IsRun(k, evs, c)
  {
    if n == 0 then 0 else SharesUpTo(k, evs, c, n - 1) + Share(k, evs, c, n - 1)
  }

  lemma {:induction false} SharesStep(k: Key, evs: seq<Event>, c: Config, n: nat)
    requires IsRun(k, evs, c) && evs != []
    ensures SharesUpTo(k, evs, c, n)
         == (if Granted(k, evs[0]) && evs[0].i < n then 1 else 0) + SharesUpTo(Next(k, evs[0], c), evs[1..], c, n)
    decreases n
  {
    if n > 0 {
      SharesStep(k, evs, c, n - 1);
    }
  }

  lemma {:induction false} NoShares(k: Key, c: Config, n: nat)
    ensures SharesUpTo(k, [], c, n) == 0
    decreases n
  {
    if n > 0 {
      NoShares(k, c, n - 1);
    }
  }

  /** Every token of the run was granted by one of the buckets the key has had. */
  lemma {:induction false} SharesAddUp(k: Key, evs: seq<Event>, c: Config, n: nat)
    requires IsRun(k, evs, c) && |End(k, evs, c).buckets| <= n
    ensures GrantsOf(k, evs, c) == SharesUpTo(k, evs, c, n)
    decreases |evs|
  {
    if evs == [] {
      NoShares(k, c, n);
    } else {
      NeverFewer(k, evs, c);
      SharesStep(k, evs, c, n);
      SharesAddUp(Next(k, evs[0], c), evs[1..], c, n);
    }
  }

  lemma {:induction false} NeverFewer(k: Key, evs: seq<Event>, c: Config)
    requires IsRun(k, evs, c)
    ensures |k.buckets| <= |End(k, evs, c).buckets|
    decreases |evs|
  {
    if evs != [] {
      NeverFewer(Next(k, evs[0], c), evs[1..], c);
    }
  }

  // ---------- a bound without conditions ----------

  lemma {:induction false} ProjSpans(evs: seq<Event>, j: nat, from: real)
    requires Ordered(from, evs)
    ensures Spans(Proj(evs, j), from, EndTime(from, evs))
    decreases |evs|
  {
    if evs != [] {
      var at := TimeOf(evs[0]);
      ProjSpans(evs[1..], j, at);
      EndTimeOfRest(from, evs);
      var first := if evs[0].Use? && evs[0].i == j then [evs[0].op] else [];
      SpansGrow(first, Proj(evs[1..], j), from, at, EndTime(from, evs));
    }
  }

  /** A bucket is not used before it is created. */
  lemma {:induction false} StartsInTime(evs: seq<Event>, k: Key, c: Config, j: nat, from: real)
    requires IsRun(k, evs, c) && j < |End(k, evs, c).buckets| && Ordered(from, evs) && c.burst > 0.0
    requires forall b :: b in k.buckets ==> b.lastRefill <= from && b.maxTokens == c.burst
    ensures var s := Start(k, evs, c, j); s.maxTokens == c.burst && Chronological(s.lastRefill, Proj(evs, j))
    decreases |evs|
  {
    if j < |k.buckets| {
      assert k.buckets[j] in k.buckets;
      ProjSpans(evs, j, from);
      ChronologicalEarlier(k.buckets[j].lastRefill, from, Proj(evs, j));
    } else {
      var t, at := Next(k, evs[0], c), TimeOf(evs[0]);
      forall i | 0 <= i < |t.buckets|
        ensures t.buckets[i].lastRefill <= at && t.buckets[i].maxTokens == c.burst
      {
        assert i < |k.buckets| ==> k.buckets[i] in k.buckets;
      }
      StartsInTime(evs[1..], t, c, j, at);
      assert Proj(evs, j) == Proj(evs[1..], j);
    }
  }

  /** One bucket, in whatever life and state it is used, grants at most its burst and `bound` a second. */
  lemma ShareBound(evs: seq<Event>, c: Config, j: nat, bound: real, from: real)
    requires IsRun(UNUSED, evs, c) && j < |End(UNUSED, evs, c).buckets| && Ordered(from, evs) && c.burst > 0.0
    requires 0.0 <= bound && RefillsWithin(Start(UNUSED, evs, c, j), Proj(evs, j), bound)
    ensures GrantsWithin(Share(UNUSED, evs, c, j), c.burst, bound, from, EndTime(from, evs))
  {
    var s, ops := Start(UNUSED, evs, c, j), Proj(evs, j);
    ShareIs(UNUSED, evs, c, j);
    StartsInTime(evs, UNUSED, c, j, from);
    ProjSpans(evs, j, from);
    if ops == [] {
      EarlierStart(0, c.burst, bound, from, EndTime(from, evs), EndTime(from, evs));
    } else {
      RateBound(s, ops, bound);
      Widen(GrantCount(s, ops), c.burst, bound, ops[0].at, ops[|ops| - 1].at, from, EndTime(from, evs));
    }
  }

  /** The refills of every bucket of the run stay within `bound`. */
  predicate AllWithin(evs: seq<Event>, c: Config, bound: real)
    requires IsRun(UNUSED, evs, c)
  {
    forall j :: 0 <= j < |End(UNUSED, evs, c).buckets| ==> RefillsWithin(Start(UNUSED, evs, c, j), Proj(evs, j), bound)
  }

  /** `n` times what one bucket may grant. */
  predicate WithinTimes(granted: nat, n: nat, cap: real, bound: real, from: real, to: real) {
    granted as real <= (n as real) * (cap + Accrual(to - from, bound))
  }

  lemma OneMoreTime(granted: nat, more: nat, n: nat, cap: real, bound: real, from: real, to: real)
    requires WithinTimes(granted, n, cap, bound, from, to) && GrantsWithin(more, cap, bound, from, to)
    ensures WithinTimes(granted + more, n + 1, cap, bound, from, to)
  {
    var x := cap + Accrual(to - from, bound);
    assert ((n + 1) as real) * x == (n as real) * x + x;
  }

  lemma {:induction false} SharesBound(evs: seq<Event>, c: Config, n: nat, bound: real, from: real)
    requires IsRun(UNUSED, evs, c) && n <= |End(UNUSED, evs, c).buckets| && Ordered(from, evs) && c.burst > 0.0
    requires 0.0 <= bound && AllWithin(evs, c, bound)
    ensures WithinTimes(SharesUpTo(UNUSED, evs, c, n), n, c.burst, bound, from, EndTime(from, evs))
    decreases n
  {
    if n > 0 {
      SharesBound(evs, c, n - 1, bound, from);
      ShareBound(evs, c, n - 1, bound, from);
      OneMoreTime(SharesUpTo(UNUSED, evs, c, n - 1), Share(UNUSED, evs, c, n - 1), n - 1, c.burst, bound,
                  from, EndTime(from, evs));
    }
  }

  /** Whatever is collected when, and whoever goes on using a replaced bucket: a key is granted at most
      the burst and `bound` a second for each bucket it has had. */
  lemma RateBoundForEach(evs: seq<Event>, c: Config, bound: real, from: real)
    requires IsRun(UNUSED, evs, c) && Ordered(from, evs) && c.burst > 0.0 && 0.0 <= bound && AllWithin(evs, c, bound)
    ensures var n := |End(UNUSED, evs, c).buckets|;
            WithinTimes(GrantsOf(UNUSED, evs, c), n, c.burst, bound, from, EndTime(from, evs))
  {
    var n := |End(UNUSED, evs, c).buckets|;
    SharesAddUp(UNUSED, evs, c, n);
    SharesBound(evs, c, n, bound, from);
  }
}
