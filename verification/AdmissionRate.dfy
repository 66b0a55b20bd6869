/** The rate the protocol and the bucket enforce together. */
module AdmissionRate {
  import opened Admission
  import A = AdmissionAccounting
  import B = TokenBuckets
  import L = BucketLives
  import H = BucketShares

  /** The merchant-bucket operation a protocol step performs, if any. */
  function OpOf(s: State, step: Step): seq<B.Op> {
    match step
    case TryMerchant(_, _) => [B.TryConsume(s.now)]
    case Check(_) => if s.heap == {} then [] else [B.TryConsume(s.now)]
    case SetRate(rate) => [B.UpdateRate(s.now, rate)]
    case ReadTokens => [B.Tokens(s.now)]
    case _ => []
  }

  function After(b: B.Bucket, op: seq<B.Op>): B.Bucket
    requires |op| <= 1
  {
    if op == [] then b else B.Apply(b, op[0])
  }

  /** Every TryConsume of the run is allowed exactly when the bucket, starting as `b`, allows it. */
  predicate Agrees(s: State, steps: seq<Step>, b: B.Bucket)
    requires IsRun(s, steps)
    decreases |steps|
  {
    steps != [] ==>
      && (steps[0].TryMerchant? || steps[0].Check? ==> steps[0].allowed == B.Allows(b, s.now))
      && Agrees(Next(s, steps[0]), steps[1..], After(b, OpOf(s, steps[0])))
  }

  function OpsOf(s: State, steps: seq<Step>): seq<B.Op>
    requires IsRun(s, steps)
    decreases |steps|
  {
    if steps == [] then [] else OpOf(s, steps[0]) + OpsOf(Next(s, steps[0]), steps[1..])
  }

  /** The step is granted a merchant token. */
  predicate TakesToken(s: State, step: Step) {
    (step.TryMerchant? || (step.Check? && s.heap != {})) && step.allowed
  }

  lemma CountsTokens(s: State, step: Step)
    requires Enabled(s, step)
    ensures Next(s, step).grants == s.grants + if TakesToken(s, step) then 1 else 0
    ensures s.now <= Next(s, step).now
  {
    match step
    case TryApp(_, _) =>
    case TryMerchant(_, _) =>
    case Push(_, _) =>
    case Check(_) =>
    case _ =>
  }

  lemma StepGrants(s: State, step: Step, b: B.Bucket)
    requires step.TryMerchant? || step.Check? ==> step.allowed == B.Allows(b, s.now)
    ensures B.GrantCount(b, OpOf(s, step)) == if TakesToken(s, step) then 1 else 0
  {
    var ops := OpOf(s, step);
    if ops != [] {
      OneGrant(b, ops[0]);
      assert ops == [ops[0]];
    }
  }

  lemma OneGrant(b: B.Bucket, op: B.Op)
    ensures B.GrantCount(b, [op]) == if B.Grants(b, op) then 1 else 0
  {
    assert [op][1..] == [];
  }

  /** The protocol's grants are the bucket's, and its operations reach the bucket in time order. */
  lemma {:induction false} GrantsComeFromBucket(s: State, steps: seq<Step>, b: B.Bucket)
    requires IsRun(s, steps) && Agrees(s, steps, b)
    ensures End(s, steps).grants == s.grants + B.GrantCount(b, OpsOf(s, steps))
    ensures s.now <= End(s, steps).now && B.Chronological(s.now, OpsOf(s, steps))
    ensures OpsOf(s, steps) != [] ==> OpsOf(s, steps)[|OpsOf(s, steps)| - 1].at <= End(s, steps).now
    decreases |steps|
  {
    if steps != [] {
      var op, t, rest := OpOf(s, steps[0]), Next(s, steps[0]), steps[1..];
      CountsTokens(s, steps[0]);
      StepGrants(s, steps[0], b);
      GrantsComeFromBucket(t, rest, After(b, op));
      PrependOp(b, op, OpsOf(t, rest), s.now, t.now);
    }
  }

  /** Counting the grants of a run one operation at a time. */
  lemma PrependOp(b: B.Bucket, op: seq<B.Op>, ops: seq<B.Op>, now: real, later: real)
    requires |op| <= 1 && (op != [] ==> op[0].at == now) && now <= later && B.Chronological(later, ops)
    ensures B.GrantCount(b, op + ops) == B.GrantCount(b, op) + B.GrantCount(After(b, op), ops)
    ensures B.Chronological(now, op + ops)
    ensures op + ops != [] ==> (op + ops)[|op + ops| - 1].at == if ops == [] then now else ops[|ops| - 1].at
  {
    B.ChronologicalEarlier(now, later, ops);
    if op == [] {
      assert op + ops == ops;
    } else {
      OneGrant(b, op[0]);
      assert op == [op[0]] && (op + ops)[1..] == ops;
    }
  }

  /** In any window of any interleaving, whatever came before it, the merchant bucket hands out
      at most maxTokens plus `bound` a second, where `bound` is the largest effective rate used. */
  lemma WindowRate(s: State, steps: seq<Step>, b: B.Bucket, bound: real)
    requires IsRun(s, steps) && Agrees(s, steps, b)
    requires b.lastRefill <= s.now && 0.0 <= b.maxTokens && 0.0 <= bound
    requires B.RefillsWithin(b, OpsOf(s, steps), bound)
    ensures End(s, steps).grants >= s.grants
    ensures B.GrantsWithin(End(s, steps).grants - s.grants, b.maxTokens, bound, s.now, End(s, steps).now)
  {
    GrantsComeFromBucket(s, steps, b);
    var ops, to := OpsOf(s, steps), End(s, steps).now;
    if ops == [] {
      B.EarlierStart(0, b.maxTokens, bound, s.now, to, to);
    } else {
      B.ChronologicalEarlier(b.lastRefill, s.now, ops);
      B.RateBound(b, ops, bound);
      B.Widen(B.GrantCount(b, ops), b.maxTokens, bound, ops[0].at, ops[|ops| - 1].at, s.now, to);
    }
  }

  /** Which steps bring the bucket up to date: every TryConsume on it, and every reading of its
      tokens. No other step touches what it holds. */
  lemma WhatRefills(s: State, step: Step, b: B.Bucket)
    ensures var c := After(b, OpOf(s, step));
            if step.TryMerchant? || (step.Check? && s.heap != {}) || step.ReadTokens? then c.lastRefill == s.now
            else c.lastRefill == b.lastRefill && c.tokens == b.tokens
  {
  }

  /** What the limiter is for: in every interleaving from the start, no more requests of the
      merchant are forwarded than the burst plus the rate times the elapsed time. */
  lemma ForwardRate(init: State, steps: seq<Step>, b: B.Bucket, bound: real)
    requires Init(init) && IsRun(init, steps) && Agrees(init, steps, b)
    requires b.lastRefill <= init.now && 0.0 <= b.maxTokens && 0.0 <= bound
    requires B.RefillsWithin(b, OpsOf(init, steps), bound)
    ensures var s := End(init, steps);
            B.GrantsWithin(|Those(s.stages, A.Forwarded)|, b.maxTokens, bound, init.now, s.now)
  {
    WindowRate(init, steps, b, bound);
    A.EveryForwardIsPaid(init, steps);
    var s := End(init, steps);
    FewerGrants(|Those(s.stages, A.Forwarded)|, s.grants, b.maxTokens, bound, init.now, s.now);
  }

  /** The same in the configured numbers: no more than the bucket holds at most and, a second, the
      largest of the rates configured and set, times the throttle. */
  lemma ConfiguredForwardRate(init: State, steps: seq<Step>, b: B.Bucket, bound: real)
    requires Init(init) && IsRun(init, steps) && Agrees(init, steps, b)
    requires b.lastRefill <= init.now && 0.0 <= b.maxTokens && B.ConfiguredWithin(b, OpsOf(init, steps), bound)
    ensures var s := End(init, steps);
            |Those(s.stages, A.Forwarded)| as real <= b.maxTokens + bound * (s.now - init.now)
  {
    B.ConfiguredRefills(b, OpsOf(init, steps), bound);
    ForwardRate(init, steps, b, bound);
  }

  lemma FewerGrants(fewer: nat, granted: nat, cap: real, bound: real, from: real, to: real)
    requires fewer <= granted && B.GrantsWithin(granted, cap, bound, from, to)
    ensures B.GrantsWithin(fewer, cap, bound, from, to)
  {
  }

  // ---------- over the lives of a key's entry ----------

  /** The entry of a key: a bucket, a queue and its dispatcher, and the handlers that use them, from
      the entry's creation until the last of them is done, which may be after it was discarded. */
  datatype Life = Life(init: State, steps: seq<Step>)

  /** The life of the key's `j`-th entry is a run of the protocol on its bucket, and what it does to
      that bucket is what the key's run says. */
  predicate Lived(l: Life, evs: seq<L.Event>, c: L.Config, j: nat)
    requires L.IsRun(L.UNUSED, evs, c) && j < |L.End(L.UNUSED, evs, c).buckets|
  {
    && Init(l.init) && IsRun(l.init, l.steps) && Agrees(l.init, l.steps, H.Start(L.UNUSED, evs, c, j))
    && OpsOf(l.init, l.steps) == H.Proj(evs, j)
  }

  /** One life for each entry of the key's run, overlapping as they may. */
  predicate AllLived(lives: seq<Life>, evs: seq<L.Event>, c: L.Config) {
    && L.IsRun(L.UNUSED, evs, c) && |lives| == |L.End(L.UNUSED, evs, c).buckets|
    && forall j :: 0 <= j < |lives| ==> Lived(lives[j], evs, c, j)
  }

  function Forwards(l: Life): nat {
    if IsRun(l.init, l.steps) then |Those(End(l.init, l.steps).stages, A.Forwarded)| else 0
  }

  /** The requests forwarded in the first `n` lives together. */
  function AllForwarded(lives: seq<Life>, n: nat): nat
    requires n <= |lives|
  {
    if n == 0 then 0 else AllForwarded(lives, n - 1) + Forwards(lives[n - 1])
  }

  lemma LifeIsPaid(l: Life, evs: seq<L.Event>, c: L.Config, j: nat)
    requires L.IsRun(L.UNUSED, evs, c) && j < |L.End(L.UNUSED, evs, c).buckets| && Lived(l, evs, c, j)
    ensures Forwards(l) <= H.Share(L.UNUSED, evs, c, j)
  {
    A.EveryForwardIsPaid(l.init, l.steps);
    GrantsComeFromBucket(l.init, l.steps, H.Start(L.UNUSED, evs, c, j));
    H.ShareIs(L.UNUSED, evs, c, j);
  }

  lemma {:induction false} LivesArePaid(lives: seq<Life>, evs: seq<L.Event>, c: L.Config, n: nat)
    requires AllLived(lives, evs, c) && n <= |lives|
    ensures AllForwarded(lives, n) <= H.SharesUpTo(L.UNUSED, evs, c, n)
    decreases n
  {
    if n > 0 {
      LivesArePaid(lives, evs, c, n - 1);
      LifeIsPaid(lives[n - 1], evs, c, n - 1);
    }
  }

  /** Every request forwarded in any of the lives was paid with a token of the key. */
  lemma ForwardsArePaid(lives: seq<Life>, evs: seq<L.Event>, c: L.Config)
    requires AllLived(lives, evs, c)
    ensures AllForwarded(lives, |lives|) <= L.GrantsOf(L.UNUSED, evs, c)
  {
    LivesArePaid(lives, evs, c, |lives|);
    H.SharesAddUp(L.UNUSED, evs, c, |lives|);
  }

  /** The rate across collections: however often the key's entry is discarded and created again, no
      more requests are forwarded than the burst plus the rate times the elapsed time, provided that
      no operation reaches a bucket that has been replaced and each would have been full by then. */
  lemma ForwardRateOverLives(lives: seq<Life>, evs: seq<L.Event>, c: L.Config, bound: real)
    requires AllLived(lives, evs, c) && evs != [] && L.Ordered(L.TimeOf(evs[0]), evs)
    requires c.burst > 0.0 && 0.0 <= bound && L.Lawful(L.UNUSED, evs, c, bound)
    ensures B.GrantsWithin(AllForwarded(lives, |lives|), c.burst, bound, L.TimeOf(evs[0]), L.EndTime(0.0, evs))
  {
    ForwardsArePaid(lives, evs, c);
    L.RateBoundFromStart(evs, c, bound);
    FewerGrants(AllForwarded(lives, |lives|), L.GrantsOf(L.UNUSED, evs, c), c.burst, bound,
                L.TimeOf(evs[0]), L.EndTime(0.0, evs));
  }

  /** Without these conditions, whatever is collected when and whoever keeps a replaced bucket: no more
      than that for each entry the key has had. */
  lemma ForwardRateForEach(lives: seq<Life>, evs: seq<L.Event>, c: L.Config, bound: real, from: real)
    requires AllLived(lives, evs, c) && L.Ordered(from, evs)
    requires c.burst > 0.0 && 0.0 <= bound && H.AllWithin(evs, c, bound)
    ensures H.WithinTimes(AllForwarded(lives, |lives|), |lives|, c.burst, bound, from, L.EndTime(from, evs))
  {
    ForwardsArePaid(lives, evs, c);
    H.RateBoundForEach(evs, c, bound, from);
    FewerTimes(AllForwarded(lives, |lives|), L.GrantsOf(L.UNUSED, evs, c), |lives|, c.burst, bound,
               from, L.EndTime(from, evs));
  }

  lemma FewerTimes(fewer: nat, granted: nat, n: nat, cap: real, bound: real, from: real, to: real)
    requires fewer <= granted && H.WithinTimes(granted, n, cap, bound, from, to)
    ensures H.WithinTimes(fewer, n, cap, bound, from, to)
  {
  }
}
