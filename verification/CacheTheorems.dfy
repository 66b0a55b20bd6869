/** What the response cache guarantees over whole histories. */
module CacheTheorems {
  import opened Options
  import opened CacheModel

  function Empty(maxBytes: int): Cache {
    Cache([], maxBytes, 0, 0, 0)
  }

  function Run(c: Cache, ops: seq<Op>): Cache
    decreases |ops|
  {
    if ops == [] then c else Run(Apply(c, ops[0]), ops[1..])
  }

  /** What each operation of a history returns: Get its response, the others nothing. */
  function Outputs(c: Cache, ops: seq<Op>): (out: seq<Option<Response>>)
    ensures |out| == |ops|
    decreases |ops|
  {
    if ops == [] then []
    else [if ops[0].Get? then GetResult(c, ops[0].key, ops[0].at) else None]
         + Outputs(Apply(c, ops[0]), ops[1..])
  }

  // ---------- the reference: a map with expiry and no size limit ----------

  datatype Timed = Timed(resp: Response, expiresAt: int)

  type Unbounded = map<string, Timed>

  function RefApply(u: Unbounded, op: Op): Unbounded {
    match op
    case Get(_, _) => u
    case Set(key, resp, ttl, at) => u[key := Timed(resp, at + ttl)]
    case Delete(key, _) => u - {key}
    case DeleteByPrefix(prefix, _) => map k | k in u && !(prefix <= k) :: u[k]
    case Sweep(_) => u
    case Close(_) => map[]
  }

  function RefGet(u: Unbounded, key: string, now: int): Option<Response> {
    if key in u && now <= u[key].expiresAt then Some(u[key].resp) else None
  }

  function RefOutputs(u: Unbounded, ops: seq<Op>): (out: seq<Option<Response>>)
    ensures |out| == |ops|
    decreases |ops|
  {
    if ops == [] then []
    else [if ops[0].Get? then RefGet(u, ops[0].key, ops[0].at) else None]
         + RefOutputs(RefApply(u, ops[0]), ops[1..])
  }

  /** Every cached entry is what the reference holds under its key. */
  ghost predicate Refines(c: Cache, u: Unbounded) {
    && Distinct(c.lru)
    && forall e :: e in c.lru ==> e.key in u && u[e.key] == Timed(e.resp, e.expiresAt)
  }

  lemma StepRefines(c: Cache, u: Unbounded, op: Op)
    requires Refines(c, u)
    ensures Refines(Apply(c, op), RefApply(u, op))
    ensures op.Get? && GetResult(c, op.key, op.at).Some? ==>
              GetResult(c, op.key, op.at) == RefGet(u, op.key, op.at)
  {
    ApplyDistinct(c, op);
    if op.Get? {
      LookupIs(c.lru, op.key);
    }
  }

  /** The cache refines the reference: over every history, a hit returns exactly what the
      unbounded map would. Eviction can only turn hits into misses. */
  lemma {:induction false} HitsAreExact(c: Cache, u: Unbounded, ops: seq<Op>)
    requires Refines(c, u)
    ensures forall i :: 0 <= i < |ops| && Outputs(c, ops)[i].Some? ==> Outputs(c, ops)[i] == RefOutputs(u, ops)[i]
    decreases |ops|
  {
    if ops != [] {
      StepRefines(c, u, ops[0]);
      HitsAreExact(Apply(c, ops[0]), RefApply(u, ops[0]), ops[1..]);
    }
  }

  // ---------- without a byte limit nothing is lost ----------

  /** The cache holds everything in the reference that has not expired by `now`. */
  ghost predicate Complete(c: Cache, u: Unbounded, now: int) {
    forall k :: k in u && now <= u[k].expiresAt ==> exists e :: e in c.lru && e.key == k
  }

  predicate Chronological(from: int, ops: seq<Op>)
    decreases |ops|
  {
    ops != [] ==> from <= ops[0].at && Chronological(ops[0].at, ops[1..])
  }

  lemma GetComplete(c: Cache, u: Unbounded, key: string, now: int)
    requires Refines(c, u) && Complete(c, u, now)
    ensures Complete(AfterGet(c, key, now), u, now)
    ensures GetResult(c, key, now) == RefGet(u, key, now)
  {
    LookupIs(c.lru, key);
    KeepMembers(c.lru, {key});
    var d := AfterGet(c, key, now);
    forall k | k in u && now <= u[k].expiresAt
      ensures exists e :: e in d.lru && e.key == k
    {
      var e :| e in c.lru && e.key == k;
      assert e in d.lru;
    }
  }

  lemma OthersComplete(c: Cache, u: Unbounded, op: Op, now: int)
    requires Refines(c, u) && Complete(c, u, now) && !op.Get? && op.at == now && c.maxBytes <= 0
    ensures Complete(Apply(c, op), RefApply(u, op), now)
  {
    var d, v := Apply(c, op), RefApply(u, op);
    if op.Set? || op.Delete? {
      KeepMembers(c.lru, {op.key});
    } else if op.DeleteByPrefix? {
      PrefixDeleted(c, op.prefix);
    } else if op.Sweep? {
      KeepMembers(c.lru, ExpiredKeys(c.lru, now));
    }
    forall k | k in v && now <= v[k].expiresAt
      ensures exists e :: e in d.lru && e.key == k
    {
      if op.Set? && k == op.key {
        assert d.lru[0] in d.lru && d.lru[0].key == k;
      } else {
        var e :| e in c.lru && e.key == k;
        assert op.Sweep? ==> !Expired(e, now);
        assert e in d.lru by {
          if op.Sweep? {
            NotExpired(c, e, now);
          }
        }
      }
    }
  }

  lemma NotExpired(c: Cache, e: Entry, now: int)
    requires Distinct(c.lru) && e in c.lru && !Expired(e, now)
    ensures e.key !in ExpiredKeys(c.lru, now)
  {
    var j :| 0 <= j < |c.lru| && c.lru[j] == e;
  }

  /** With no byte limit (maxBytes 0) and time moving forward, the cache and the reference
      answer every Get alike. */
  lemma {:induction false} UnlimitedIsExact(c: Cache, u: Unbounded, ops: seq<Op>, now: int)
    requires Refines(c, u) && Complete(c, u, now) && c.maxBytes <= 0 && Chronological(now, ops)
    ensures Outputs(c, ops) == RefOutputs(u, ops)
    decreases |ops|
  {
    if ops != [] {
      var op := ops[0];
      assert Complete(c, u, op.at);
      StepRefines(c, u, op);
      if op.Get? {
        GetComplete(c, u, op.key, op.at);
      } else {
        OthersComplete(c, u, op, op.at);
      }
      UnlimitedIsExact(Apply(c, op), RefApply(u, op), ops[1..], op.at);
    }
  }

  /** The cache has an entry under `key` that lasts until `until`. */
  ghost predicate Holds(c: Cache, key: string, until: int) {
    exists e :: e in c.lru && e.key == key && until <= e.expiresAt
  }

  /** The operation neither deletes the key nor gives it an earlier end, and comes by `until`. */
  predicate SparesKey(op: Op, key: string, until: int) {
    match op
    case Get(_, at) => at <= until
    case Set(k, _, ttl, at) => k == key ==> until <= at + ttl
    case Delete(k, _) => k != key
    case DeleteByPrefix(prefix, _) => !(prefix <= key)
    case Sweep(at) => at <= until
    case Close(_) => false
  }

  lemma OpHolds(c: Cache, op: Op, key: string, until: int)
    requires Distinct(c.lru) && c.maxBytes <= 0 && Holds(c, key, until) && SparesKey(op, key, until)
    ensures Distinct(Apply(c, op).lru) && Apply(c, op).maxBytes == c.maxBytes && Holds(Apply(c, op), key, until)
  {
    ApplyDistinct(c, op);
    var e :| e in c.lru && e.key == key && until <= e.expiresAt;
    var d := Apply(c, op);
    match op {
      case Get(k, _) => KeepMembers(c.lru, {k}); LookupIs(c.lru, k); assert e in d.lru;
      case Set(k, _, _, _) => KeepMembers(c.lru, {k}); assert (if k == key then d.lru[0] else e) in d.lru;
      case Delete(k, _) => KeepMembers(c.lru, {k}); assert e in d.lru;
      case DeleteByPrefix(prefix, _) => PrefixDeleted(c, prefix); assert e in d.lru;
      case Sweep(at) => NotExpired(c, e, at); KeepMembers(c.lru, ExpiredKeys(c.lru, at)); assert e in d.lru;
    }
  }

  lemma {:induction false} RunHolds(c: Cache, ops: seq<Op>, key: string, until: int)
    requires Distinct(c.lru) && c.maxBytes <= 0 && Holds(c, key, until)
    requires forall i :: 0 <= i < |ops| ==> SparesKey(ops[i], key, until)
    ensures Distinct(Run(c, ops).lru) && Run(c, ops).maxBytes == c.maxBytes && Holds(Run(c, ops), key, until)
    decreases |ops|
  {
    if ops != [] {
      OpHolds(c, ops[0], key, until);
      RunHolds(Apply(c, ops[0]), ops[1..], key, until);
    }
  }

  // ---------- counters ----------

  function GetCount(ops: seq<Op>): nat {
    if ops == [] then 0 else (if ops[0].Get? then 1 else 0) + GetCount(ops[1..])
  }

  function HitCount(out: seq<Option<Response>>): nat {
    if out == [] then 0 else (if out[0].Some? then 1 else 0) + HitCount(out[1..])
  }

  /** Every Get is counted once, as a hit exactly when it returned a response. */
  lemma {:induction false} EveryGetIsCounted(c: Cache, ops: seq<Op>)
    ensures var d := Run(c, ops);
            && d.hits == c.hits + HitCount(Outputs(c, ops))
            && d.hits + d.misses == c.hits + c.misses + GetCount(ops)
    decreases |ops|
  {
    if ops != [] {
      EveryGetIsCounted(Apply(c, ops[0]), ops[1..]);
      var out := Outputs(c, ops);
      assert out[1..] == Outputs(Apply(c, ops[0]), ops[1..]);
    }
  }

  // ---------- the byte budget ----------

  predicate Positive(l: seq<Entry>) {
    forall i :: 0 <= i < |l| ==> l[i].size > 0
  }

  /** Within budget, unless a single entry is larger than the whole budget. */
  predicate WithinBudget(c: Cache) {
    c.maxBytes > 0 ==> Sum(c.lru) <= c.maxBytes || |c.lru| == 1
  }

  lemma {:induction false} KeepSum(l: seq<Entry>, gone: set<string>)
    requires Positive(l)
    ensures Positive(Keep(l, gone)) && 0 <= Sum(Keep(l, gone)) <= Sum(l) && |Keep(l, gone)| <= |l|
  {
    if l != [] {
      KeepSum(l[1..], gone);
      assert ([l[0]] + Keep(l[1..], gone))[1..] == Keep(l[1..], gone);
    }
  }

  lemma {:induction false} PrefixSum(l: seq<Entry>, n: nat)
    requires Positive(l) && n <= |l|
    ensures Positive(l[..n]) && 0 <= Sum(l[..n]) <= Sum(l)
  {
    if l != [] && n > 0 {
      PrefixSum(l[1..], n - 1);
      assert l[..n][1..] == l[1..][..n - 1];
    } else {
      assert l[..n] == [];
      KeepSum(l, {});
    }
  }

  lemma FrontSum(e: Entry, l: seq<Entry>)
    ensures Sum([e] + l) == e.size + Sum(l)
  {
    assert ([e] + l)[1..] == l;
  }

  /** Moving an entry to the front keeps the total. */
  lemma {:induction false} RemoveSum(l: seq<Entry>, e: Entry)
    requires Distinct(l) && e in l
    ensures Sum(l) == e.size + Sum(Keep(l, {e.key})) && |l| == 1 + |Keep(l, {e.key})|
  {
    if l[0] == e {
      assert forall o :: o in l[1..] ==> o.key != e.key;
      KeepNone(l[1..], {e.key});
    } else {
      assert e in l[1..];
      assert l[0].key != e.key;
      RemoveSum(l[1..], e);
      FrontSum(l[0], Keep(l[1..], {e.key}));
    }
  }

  lemma GetKeepsBudget(c: Cache, key: string, at: int)
    requires Distinct(c.lru) && Positive(c.lru) && WithinBudget(c)
    ensures Positive(AfterGet(c, key, at).lru) && WithinBudget(AfterGet(c, key, at))
  {
    KeepSum(c.lru, {key});
    LookupIs(c.lru, key);
    var e := Lookup(c.lru, key);
    if e.Some? {
      RemoveSum(c.lru, e.value);
      FrontSum(e.value, Keep(c.lru, {key}));
    }
  }

  lemma SetKeepsBudget(c: Cache, key: string, resp: Response, ttl: int, at: int)
    requires Positive(c.lru)
    ensures var d := AfterSet(c, key, resp, ttl, at); Positive(d.lru) && WithinBudget(d)
  {
    KeepSum(c.lru, {key});
    var others, kept := Keep(c.lru, {key}), KeptBySet(c, key, EntrySize(resp));
    TrimIsPrefix(others, c.maxBytes - EntrySize(resp));
    PrefixSum(others, |kept|);
    assert kept == others[..|kept|];
    FrontSum(Entry(key, resp, at + ttl, EntrySize(resp)), kept);
  }

  /** After a sweep no expired entry is left and, under a limit, the total is within four fifths
      of it. */
  lemma SweepCleans(c: Cache, at: int)
    requires Distinct(c.lru) && Positive(c.lru)
    ensures var d := AfterSweep(c, at);
            && Positive(d.lru)
            && (forall e :: e in d.lru ==> !Expired(e, at))
            && (c.maxBytes > 0 ==> 5 * Sum(d.lru) <= 4 * c.maxBytes)
  {
    SweepDistinct(c, at);
    var live := Keep(c.lru, ExpiredKeys(c.lru, at));
    KeepSum(c.lru, ExpiredKeys(c.lru, at));
    var kept := AfterSweep(c, at).lru;
    TrimIsPrefix(live, Threshold(c.maxBytes));
    PrefixSum(live, |kept|);
    assert kept == live[..|kept|];
  }

  lemma ShrinkKeepsBudget(c: Cache, gone: set<string>)
    requires Positive(c.lru) && WithinBudget(c)
    ensures var d := c.(lru := Keep(c.lru, gone)); Positive(d.lru) && WithinBudget(d)
  {
    KeepSum(c.lru, gone);
  }

  lemma StepKeepsBudget(c: Cache, op: Op)
    requires Distinct(c.lru) && Positive(c.lru) && WithinBudget(c)
    ensures Positive(Apply(c, op).lru) && WithinBudget(Apply(c, op))
  {
    match op
    case Get(key, at) => GetKeepsBudget(c, key, at);
    case Set(key, resp, ttl, at) => SetKeepsBudget(c, key, resp, ttl, at);
    case Delete(key, _) => ShrinkKeepsBudget(c, {key});
    case DeleteByPrefix(prefix, _) => ShrinkKeepsBudget(c, WithPrefix(c.lru, prefix));
    case Sweep(at) => SweepCleans(c, at);
    case Close(_) =>
  }

  /** Over every history the cache stays within its byte budget, except that a single entry
      larger than the budget is kept on its own. */
  lemma {:induction false} BudgetHolds(c: Cache, ops: seq<Op>)
    requires Distinct(c.lru) && Positive(c.lru) && WithinBudget(c)
    ensures var d := Run(c, ops); Distinct(d.lru) && Positive(d.lru) && WithinBudget(d)
    decreases |ops|
  {
    if ops != [] {
      ApplyDistinct(c, ops[0]);
      StepKeepsBudget(c, ops[0]);
      BudgetHolds(Apply(c, ops[0]), ops[1..]);
    }
  }

  /** The texts one after the other. */
  function Joined(vals: seq<string>): string {
    if vals == [] then "" else vals[0] + Joined(vals[1..])
  }

  function HeaderText(headers: seq<(string, seq<string>)>): string {
    if headers == [] then "" else headers[0].0 + Joined(headers[0].1) + HeaderText(headers[1..])
  }

  /** All bodies and headers the list holds. */
  function Dump(l: seq<Entry>): string {
    if l == [] then "" else l[0].resp.body + HeaderText(l[0].resp.headers) + Dump(l[1..])
  }

  lemma {:induction false} JoinedLength(vals: seq<string>)
    ensures |Joined(vals)| == TotalLength(vals)
  {
    if vals != [] {
      JoinedLength(vals[1..]);
    }
  }

  lemma {:induction false} HeaderLength(headers: seq<(string, seq<string>)>)
    ensures |HeaderText(headers)| == HeaderSize(headers)
  {
    if headers != [] {
      JoinedLength(headers[0].1);
      HeaderLength(headers[1..]);
    }
  }

  predicate TrueSizes(l: seq<Entry>) {
    forall e :: e in l ==> e.size == EntrySize(e.resp)
  }

  lemma {:induction false} RunKeepsSizes(c: Cache, ops: seq<Op>)
    requires Distinct(c.lru) && TrueSizes(c.lru)
    ensures TrueSizes(Run(c, ops).lru) && Run(c, ops).maxBytes == c.maxBytes
    decreases |ops|
  {
    if ops != [] {
      ApplyDistinct(c, ops[0]);
      RunKeepsSizes(Apply(c, ops[0]), ops[1..]);
    }
  }

  lemma {:induction false} SumIsDump(l: seq<Entry>)
    requires TrueSizes(l)
    ensures Sum(l) == |Dump(l)| + 128 * |l|
  {
    if l != [] {
      assert l[0] in l && forall e :: e in l[1..] ==> e in l;
      HeaderLength(l[0].resp.headers);
      SumIsDump(l[1..]);
    }
  }

  /** The budget is one of real bytes: over every history, the bodies and headers in the cache, and
      128 bytes for each entry, are within it, except for a single entry that is larger. */
  lemma BytesWithinBudget(maxBytes: int, ops: seq<Op>)
    requires maxBytes > 0
    ensures var l := Run(Empty(maxBytes), ops).lru; |Dump(l)| + 128 * |l| <= maxBytes || |l| == 1
  {
    var c := Empty(maxBytes);
    BudgetHolds(c, ops);
    RunKeepsSizes(c, ops);
    SumIsDump(Run(c, ops).lru);
  }

  // ---------- evictions ----------

  /** The keys that are in the first list but not in the second, without those of `except`. */
  function Gone(before: seq<Entry>, after: seq<Entry>, except: set<string>): set<string> {
    Keys(before) - Keys(after) - except
  }

  lemma {:induction false} KeyCount(l: seq<Entry>)
    requires Distinct(l)
    ensures |Keys(l)| == |l|
  {
    if l != [] {
      var n := |l| - 1;
      KeyCount(l[..n]);
      assert Keys(l) == Keys(l[..n]) + {l[n].key};
    } else {
      assert Keys(l) == {};
    }
  }

  lemma CountGone(before: seq<Entry>, after: seq<Entry>)
    requires Distinct(before) && Distinct(after) && forall e :: e in after ==> e in before
    ensures |Keys(before) - Keys(after)| == |before| - |after|
  {
    KeyCount(before);
    KeyCount(after);
    forall k | k in Keys(after)
      ensures k in Keys(before)
    {
      var i :| 0 <= i < |after| && after[i].key == k;
      assert after[i] in before;
    }
    assert Keys(before) == Keys(after) + (Keys(before) - Keys(after));
  }

  lemma KeysKept(l: seq<Entry>, key: string)
    ensures Keys(Keep(l, {key})) == Keys(l) - {key}
  {
    KeepMembers(l, {key});
    var kept := Keep(l, {key});
    forall k | k in Keys(l) && k != key
      ensures k in Keys(kept)
    {
      var i :| 0 <= i < |l| && l[i].key == k;
      assert l[i] in kept;
    }
    forall i | 0 <= i < |kept|
      ensures kept[i].key in Keys(l) && kept[i].key != key
    {
      assert kept[i] in kept;
    }
  }

  /** What Set drops for room, and what a sweep drops, is counted as evicted, entry by entry; nothing
      else is. */
  lemma EvictionsAreCounted(c: Cache, op: Op)
    requires Distinct(c.lru)
    ensures var d := Apply(c, op);
            d.evictions - c.evictions ==
              if op.Set? then |Gone(c.lru, d.lru, {op.key})| else if op.Sweep? then |Gone(c.lru, d.lru, {})| else 0
  {
    var d := Apply(c, op);
    if op.Set? {
      SetIsCounted(c, op.key, op.resp, op.ttl, op.at);
    } else if op.Sweep? {
      SweepDistinct(c, op.at);
      CountGone(c.lru, d.lru);
    }
  }

  lemma SetIsCounted(c: Cache, key: string, resp: Response, ttl: int, at: int)
    requires Distinct(c.lru)
    ensures var d := AfterSet(c, key, resp, ttl, at); d.evictions - c.evictions == |Gone(c.lru, d.lru, {key})|
  {
    var size := EntrySize(resp);
    var others, kept := Keep(c.lru, {key}), KeptBySet(c, key, size);
    KeepDistinct(c.lru, {key});
    TrimIsPrefix(others, c.maxBytes - size);
    PrefixDistinct(others, kept);
    CountGone(others, kept);
    KeysKept(c.lru, key);
    KeysWithFront(Entry(key, resp, at + ttl, size), kept);
    SameGone(c.lru, others, kept, [Entry(key, resp, at + ttl, size)] + kept, key);
  }

  lemma KeysWithFront(e: Entry, l: seq<Entry>)
    ensures Keys([e] + l) == Keys(l) + {e.key}
  {
    var m := [e] + l;
    assert m[0] == e && forall i :: 0 <= i < |l| ==> m[i + 1] == l[i];
    forall k | k in Keys(l)
      ensures k in Keys(m)
    {
      var i :| 0 <= i < |l| && l[i].key == k;
      assert m[i + 1].key == k;
    }
  }

  lemma SameGone(before: seq<Entry>, others: seq<Entry>, kept: seq<Entry>, after: seq<Entry>, key: string)
    requires Keys(others) == Keys(before) - {key} && Keys(after) == Keys(kept) + {key}
    ensures Gone(before, after, {key}) == Keys(others) - Keys(kept)
  {
  }

  // ---------- the list is in order of last touch ----------

  /** A Set touches its key, and so does a Get that hits. */
  predicate Touches(c: Cache, op: Op) {
    op.Set? || (op.Get? && GetResult(c, op.key, op.at).Some?)
  }

  /** For each key, the number of the last operation that touched it; `n` numbers the first. */
  function LastTouch(c: Cache, ops: seq<Op>, m: map<string, nat>, n: nat): map<string, nat>
    decreases |ops|
  {
    if ops == [] then m
    else LastTouch(Apply(c, ops[0]), ops[1..],
                   if Touches(c, ops[0]) then m[ops[0].key := n] else m, n + 1)
  }

  /** Every entry was touched before operation `n`, and earlier ones in the list more recently. */
  predicate InTouchOrder(l: seq<Entry>, m: map<string, nat>, n: nat) {
    && (forall i :: 0 <= i < |l| ==> l[i].key in m && m[l[i].key] < n)
    && (forall i, j :: 0 <= i < j < |l| ==> m[l[i].key] > m[l[j].key])
  }

  lemma {:induction false} KeepInOrder(l: seq<Entry>, gone: set<string>, m: map<string, nat>, n: nat)
    requires InTouchOrder(l, m, n)
    ensures InTouchOrder(Keep(l, gone), m, n)
  {
    if l != [] {
      var tail, rest := l[1..], Keep(l[1..], gone);
      TailInOrder(l, m, n);
      KeepInOrder(tail, gone, m, n);
      KeepMembers(tail, gone);
      if l[0].key !in gone {
        PrependInOrder(l[0], rest, m, n);
      }
    }
  }

  lemma TailInOrder(l: seq<Entry>, m: map<string, nat>, n: nat)
    requires l != [] && InTouchOrder(l, m, n)
    ensures InTouchOrder(l[1..], m, n)
    ensures forall o :: o in l[1..] ==> m[o.key] < m[l[0].key]
  {
    var tail := l[1..];
    assert forall i :: 0 <= i < |tail| ==> tail[i] == l[i + 1];
  }

  lemma PrependInOrder(e: Entry, l: seq<Entry>, m: map<string, nat>, n: nat)
    requires InTouchOrder(l, m, n) && e.key in m && m[e.key] < n
    requires forall o :: o in l ==> m[o.key] < m[e.key]
    ensures InTouchOrder([e] + l, m, n)
  {
    var d := [e] + l;
    assert forall i :: 0 < i < |d| ==> d[i] == l[i - 1] && d[i] in l;
  }

  lemma FrontInOrder(e: Entry, l: seq<Entry>, m: map<string, nat>, n: nat)
    requires InTouchOrder(l, m, n) && forall o :: o in l ==> o.key != e.key
    ensures InTouchOrder([e] + l, m[e.key := n], n + 1)
  {
    var d, m' := [e] + l, m[e.key := n];
    forall i | 0 < i < |d|
      ensures m'[d[i].key] == m[l[i - 1].key]
    {
      assert d[i] in l;
    }
  }

  lemma StepInOrder(c: Cache, op: Op, m: map<string, nat>, n: nat)
    requires Distinct(c.lru) && InTouchOrder(c.lru, m, n)
    ensures InTouchOrder(Apply(c, op).lru, if Touches(c, op) then m[op.key := n] else m, n + 1)
  {
    match op
    case Get(key, at) =>
      KeepInOrder(c.lru, {key}, m, n);
      KeepMembers(c.lru, {key});
      LookupIs(c.lru, key);
      if Touches(c, op) {
        FrontInOrder(Lookup(c.lru, key).value, Keep(c.lru, {key}), m, n);
      }
    case Set(key, resp, ttl, at) =>
      SetInOrder(c, key, resp, ttl, at, m, n);
    case Delete(key, _) => KeepInOrder(c.lru, {key}, m, n);
    case DeleteByPrefix(prefix, _) => KeepInOrder(c.lru, WithPrefix(c.lru, prefix), m, n);
    case Sweep(at) =>
      KeepInOrder(c.lru, ExpiredKeys(c.lru, at), m, n);
      TrimIsPrefix(Keep(c.lru, ExpiredKeys(c.lru, at)), Threshold(c.maxBytes));
    case Close(_) =>
  }

  lemma SetInOrder(c: Cache, key: string, resp: Response, ttl: int, at: int, m: map<string, nat>, n: nat)
    requires Distinct(c.lru) && InTouchOrder(c.lru, m, n)
    ensures InTouchOrder(AfterSet(c, key, resp, ttl, at).lru, m[key := n], n + 1)
  {
    var others, kept := Keep(c.lru, {key}), KeptBySet(c, key, EntrySize(resp));
    KeepInOrder(c.lru, {key}, m, n);
    KeepMembers(c.lru, {key});
    TrimIsPrefix(others, c.maxBytes - EntrySize(resp));
    assert forall e :: e in kept ==> e in others;
    FrontInOrder(Entry(key, resp, at + ttl, EntrySize(resp)), kept, m, n);
  }

  /** Over every history, the list is in the order of the last touch. */
  lemma {:induction false} ListIsInTouchOrder(c: Cache, ops: seq<Op>, m: map<string, nat>, n: nat)
    requires Distinct(c.lru) && InTouchOrder(c.lru, m, n)
    ensures InTouchOrder(Run(c, ops).lru, LastTouch(c, ops, m, n), n + |ops|)
    decreases |ops|
  {
    if ops != [] {
      var m' := if Touches(c, ops[0]) then m[ops[0].key := n] else m;
      StepInOrder(c, ops[0], m, n);
      ApplyDistinct(c, ops[0]);
      ListIsInTouchOrder(Apply(c, ops[0]), ops[1..], m', n + 1);
    }
  }

  /** Each victim of a full cache is the least recently touched: what a Set evicts was touched
      before everything it keeps, and keeping one victim more would overflow the budget. */
  lemma EvictsLeastRecentlyTouched(c: Cache, key: string, resp: Response, m: map<string, nat>, n: nat)
    requires Distinct(c.lru) && InTouchOrder(c.lru, m, n)
    ensures var others, kept := Keep(c.lru, {key}), KeptBySet(c, key, EntrySize(resp));
            && kept <= others
            && (forall i :: 0 <= i < |others| ==> others[i].key in m)
            && (forall i, j :: 0 <= i < |kept| <= j < |others| ==> m[others[j].key] < m[others[i].key])
            && (|kept| < |others| ==> Sum(others[..|kept| + 1]) + EntrySize(resp) > c.maxBytes > 0)
  {
    var others, kept := Keep(c.lru, {key}), KeptBySet(c, key, EntrySize(resp));
    KeepInOrder(c.lru, {key}, m, n);
    TrimIsPrefix(others, c.maxBytes - EntrySize(resp));
    if |kept| < |others| {
      TrimIsLongest(others, c.maxBytes - EntrySize(resp), |kept| + 1);
    }
  }

  /** So is each victim of a sweep that evicts for room: of the entries that have not expired it
      drops those touched before all it keeps, and keeping one more would exceed four fifths of the budget. */
  lemma SweepEvictsLeastRecentlyTouched(c: Cache, at: int, m: map<string, nat>, n: nat)
    requires Distinct(c.lru) && InTouchOrder(c.lru, m, n)
    ensures var live, kept := Keep(c.lru, ExpiredKeys(c.lru, at)), AfterSweep(c, at).lru;
            && kept <= live
            && (forall i :: 0 <= i < |live| ==> live[i].key in m)
            && (forall i, j :: 0 <= i < |kept| <= j < |live| ==> m[live[j].key] < m[live[i].key])
            && (|kept| < |live| ==> 5 * Sum(live[..|kept| + 1]) > 4 * c.maxBytes && c.maxBytes > 0)
  {
    var live, kept := Keep(c.lru, ExpiredKeys(c.lru, at)), AfterSweep(c, at).lru;
    KeepInOrder(c.lru, ExpiredKeys(c.lru, at), m, n);
    if c.maxBytes > 0 {
      TrimIsPrefix(live, Threshold(c.maxBytes));
      if |kept| < |live| {
        TrimIsLongest(live, Threshold(c.maxBytes), |kept| + 1);
      }
    }
  }
}
