/** What the response cache is meant to do (internal/cache/memory.go), as functions on values.

    `Cache` is the list of entries, most recently touched first, with its byte budget and
    counters. `Unbounded` is the reference it is measured against: a map with expiry times and no
    size limit. Module MemoryCaches proves the in-place implementation against these functions.
  */
module CacheModel {
  import opened Options

  datatype Response = Response(status: int, headers: seq<(string, seq<string>)>, body: string)

  datatype Entry = Entry(key: string, resp: Response, expiresAt: int, size: int)

  datatype Cache = Cache(
    lru: seq<Entry>,
    maxBytes: int,
    hits: nat,
    misses: nat,
    evictions: int)

  // ---------- sizes ----------

  function TotalLength(vals: seq<string>): nat {
    if vals == [] then 0 else |vals[0]| + TotalLength(vals[1..])
  }

  function HeaderSize(headers: seq<(string, seq<string>)>): nat {
    if headers == [] then 0
    else |headers[0].0| + TotalLength(headers[0].1) + HeaderSize(headers[1..])
  }

  function EntrySize(resp: Response): nat {
    |resp.body| + HeaderSize(resp.headers) + 128
  }

  function Sum(l: seq<Entry>): int {
    if l == [] then 0 else l[0].size + Sum(l[1..])
  }

  // ---------- list operations ----------

  /** The list without the entries whose keys are in `gone`. */
  function Keep(l: seq<Entry>, gone: set<string>): seq<Entry> {
    if l == [] then []
    else if l[0].key in gone then Keep(l[1..], gone)
    else [l[0]] + Keep(l[1..], gone)
  }

  /** Evicts from the back until the rest fits the budget. */
  function TrimTo(l: seq<Entry>, budget: int): seq<Entry> {
    if l == [] || Sum(l) <= budget then l else TrimTo(l[..|l| - 1], budget)
  }

  function Lookup(l: seq<Entry>, key: string): Option<Entry> {
    if l == [] then None
    else if l[0].key == key then Some(l[0])
    else Lookup(l[1..], key)
  }

  function Keys(l: seq<Entry>): set<string> {
    set i | 0 <= i < |l| :: l[i].key
  }

  predicate Distinct(l: seq<Entry>) {
    forall i, j :: 0 <= i < j < |l| ==> l[i].key != l[j].key
  }

  // ---------- the operations ----------

  predicate Expired(e: Entry, now: int) {
    now > e.expiresAt
  }

  function Threshold(maxBytes: int): int {
    maxBytes * 4 / 5
  }

  datatype Op =
    | Get(key: string, at: int)
    | Set(key: string, resp: Response, ttl: int, at: int)
    | Delete(key: string, at: int)
    | DeleteByPrefix(prefix: string, at: int)
    | Sweep(at: int)
    | Close(at: int)

  /** What a Get answers, and leaves, when its key's entry is `e`. */
  function Answer(e: Option<Entry>, now: int): Option<Response> {
    if e.None? || Expired(e.value, now) then None else Some(e.value.resp)
  }

  function AfterFinding(c: Cache, e: Option<Entry>, now: int): Cache {
    if e.None? then c.(misses := c.misses + 1)
    else if Expired(e.value, now) then c.(lru := Keep(c.lru, {e.value.key}), misses := c.misses + 1)
    else c.(lru := [e.value] + Keep(c.lru, {e.value.key}), hits := c.hits + 1)
  }

  function GetResult(c: Cache, key: string, now: int): Option<Response> {
    Answer(Lookup(c.lru, key), now)
  }

  function AfterGet(c: Cache, key: string, now: int): Cache {
    AfterFinding(c, Lookup(c.lru, key), now)
  }

  /** The entries a Set keeps to make room for one of `size` bytes under `key`. */
  function KeptBySet(c: Cache, key: string, size: nat): seq<Entry> {
    var others := Keep(c.lru, {key});
    if c.maxBytes > 0 then TrimTo(others, c.maxBytes - size) else others
  }

  function MakeRoom(c: Cache, key: string, size: nat): Cache {
    var kept := KeptBySet(c, key, size);
    c.(lru := kept, evictions := c.evictions + |Keep(c.lru, {key})| - |kept|)
  }

  function AfterSet(c: Cache, key: string, resp: Response, ttl: int, now: int): Cache {
    var size := EntrySize(resp);
    var room := MakeRoom(c, key, size);
    room.(lru := [Entry(key, resp, now + ttl, size)] + room.lru)
  }

  function WithPrefix(l: seq<Entry>, prefix: string): set<string> {
    set k | k in Keys(l) && prefix <= k
  }

  function ExpiredKeys(l: seq<Entry>, now: int): set<string> {
    set i | 0 <= i < |l| && Expired(l[i], now) :: l[i].key
  }

  function AfterSweep(c: Cache, now: int): Cache {
    var live := Keep(c.lru, ExpiredKeys(c.lru, now));
    var kept := if c.maxBytes > 0 then TrimTo(live, Threshold(c.maxBytes)) else live;
    c.(lru := kept, evictions := c.evictions + |c.lru| - |kept|)
  }

  function Apply(c: Cache, op: Op): Cache {
    match op
    case Get(key, at) => AfterGet(c, key, at)
    case Set(key, resp, ttl, at) => AfterSet(c, key, resp, ttl, at)
    case Delete(key, _) => c.(lru := Keep(c.lru, {key}))
    case DeleteByPrefix(prefix, _) => c.(lru := Keep(c.lru, WithPrefix(c.lru, prefix)))
    case Sweep(at) => AfterSweep(c, at)
    case Close(_) => c.(lru := [])
  }

  // ---------- list lemmas ----------

  lemma {:induction false} KeepMembers(l: seq<Entry>, gone: set<string>)
    ensures forall e :: e in Keep(l, gone) <==> e in l && e.key !in gone
  {
    if l != [] {
      KeepMembers(l[1..], gone);
      assert l == [l[0]] + l[1..];
    }
  }

  lemma {:induction false} KeepDistinct(l: seq<Entry>, gone: set<string>)
    requires Distinct(l)
    ensures Distinct(Keep(l, gone))
  {
    if l != [] {
      KeepDistinct(l[1..], gone);
      KeepMembers(l[1..], gone);
      var rest := Keep(l[1..], gone);
      forall i | 0 <= i < |rest|
        ensures rest[i].key != l[0].key
      {
        assert rest[i] in rest;
      }
    }
  }

  lemma {:induction false} KeepTwice(l: seq<Entry>, a: set<string>, b: set<string>)
    ensures Keep(Keep(l, a), b) == Keep(l, a + b)
  {
    if l != [] {
      KeepTwice(l[1..], a, b);
      if l[0].key !in a {
        var rest := Keep(l[1..], a);
        assert ([l[0]] + rest)[1..] == rest;
      }
    }
  }

  lemma {:induction false} KeepNone(l: seq<Entry>, gone: set<string>)
    requires forall e :: e in l ==> e.key !in gone
    ensures Keep(l, gone) == l
  {
    if l != [] {
      KeepNone(l[1..], gone);
    }
  }

  lemma {:induction false} LookupIs(l: seq<Entry>, key: string)
    requires Distinct(l)
    ensures Lookup(l, key).Some? ==> Lookup(l, key).value in l && Lookup(l, key).value.key == key
    ensures forall e :: e in l && e.key == key ==> Lookup(l, key) == Some(e)
  {
    if l != [] {
      LookupIs(l[1..], key);
      forall e | e in l && e.key == key
        ensures Lookup(l, key) == Some(e)
      {
        if l[0].key != key {
          assert e in l[1..];
        }
      }
    }
  }

  lemma {:induction false} TrimIsPrefix(l: seq<Entry>, budget: int)
    ensures TrimTo(l, budget) <= l
    ensures TrimTo(l, budget) == [] || Sum(TrimTo(l, budget)) <= budget
  {
    if l != [] && Sum(l) > budget {
      TrimIsPrefix(l[..|l| - 1], budget);
    }
  }

  /** Eviction stops as soon as the rest fits: nothing is evicted needlessly. */
  lemma {:induction false} TrimIsLongest(l: seq<Entry>, budget: int, n: nat)
    requires |TrimTo(l, budget)| < n <= |l|
    ensures Sum(l[..n]) > budget
  {
    if n < |l| {
      var front := l[..|l| - 1];
      assert front[..n] == l[..n];
      TrimIsLongest(front, budget, n);
    } else {
      assert l[..n] == l;
    }
  }

  lemma PrefixDistinct(l: seq<Entry>, p: seq<Entry>)
    requires Distinct(l) && p <= l
    ensures Distinct(p)
    ensures forall e :: e in p ==> e in l
  {
  }

  lemma FrontDistinct(e: Entry, l: seq<Entry>)
    requires Distinct(l) && forall o :: o in l ==> o.key != e.key
    ensures Distinct([e] + l)
  {
    var m := [e] + l;
    forall i, j | 0 <= i < j < |m|
      ensures m[i].key != m[j].key
    {
      assert m[j] in l;
    }
  }

  /** What any operation leaves of the list: no new entries but the one a Set stores, in front. */
  lemma ApplyDistinct(c: Cache, op: Op)
    requires Distinct(c.lru)
    ensures Distinct(Apply(c, op).lru)
    ensures forall e :: e in Apply(c, op).lru ==>
              e in c.lru || (op.Set? && e == Entry(op.key, op.resp, op.at + op.ttl, EntrySize(op.resp)))
    ensures op.Set? ==> forall e :: e in Apply(c, op).lru && e.key == op.key ==>
              e == Entry(op.key, op.resp, op.at + op.ttl, EntrySize(op.resp))
    ensures op.Delete? ==> forall e :: e in Apply(c, op).lru ==> e.key != op.key
    ensures op.DeleteByPrefix? ==> forall e :: e in Apply(c, op).lru ==> !(op.prefix <= e.key)
  {
    match op
    case Get(key, at) => GetDistinct(c, key, at);
    case Set(key, resp, ttl, at) => SetDistinct(c, key, resp, ttl, at);
    case Delete(key, _) => KeepMembers(c.lru, {key}); KeepDistinct(c.lru, {key});
    case DeleteByPrefix(prefix, _) => PrefixDeleted(c, prefix);
    case Sweep(at) => SweepDistinct(c, at);
    case Close(_) =>
  }

  lemma GetDistinct(c: Cache, key: string, at: int)
    requires Distinct(c.lru)
    ensures Distinct(AfterGet(c, key, at).lru)
    ensures forall e :: e in AfterGet(c, key, at).lru ==> e in c.lru
  {
    KeepMembers(c.lru, {key});
    KeepDistinct(c.lru, {key});
    LookupIs(c.lru, key);
    var e := Lookup(c.lru, key);
    if e.Some? {
      FrontDistinct(e.value, Keep(c.lru, {key}));
    }
  }

  lemma SetDistinct(c: Cache, key: string, resp: Response, ttl: int, at: int)
    requires Distinct(c.lru)
    ensures var l, e := AfterSet(c, key, resp, ttl, at).lru, Entry(key, resp, at + ttl, EntrySize(resp));
            Distinct(l) && forall o :: o in l ==> o == e || (o in c.lru && o.key != key)
  {
    KeepMembers(c.lru, {key});
    KeepDistinct(c.lru, {key});
    var others, kept := Keep(c.lru, {key}), KeptBySet(c, key, EntrySize(resp));
    TrimIsPrefix(others, c.maxBytes - EntrySize(resp));
    PrefixDistinct(others, kept);
    FrontDistinct(Entry(key, resp, at + ttl, EntrySize(resp)), kept);
  }

  lemma PrefixDeleted(c: Cache, prefix: string)
    requires Distinct(c.lru)
    ensures var l := Keep(c.lru, WithPrefix(c.lru, prefix));
            Distinct(l) && forall e :: e in l <==> e in c.lru && !(prefix <= e.key)
  {
    KeepMembers(c.lru, WithPrefix(c.lru, prefix));
    KeepDistinct(c.lru, WithPrefix(c.lru, prefix));
    forall e | e in c.lru
      ensures e.key in WithPrefix(c.lru, prefix) <==> prefix <= e.key
    {
      var i :| 0 <= i < |c.lru| && c.lru[i] == e;
    }
  }

  lemma SweepDistinct(c: Cache, at: int)
    requires Distinct(c.lru)
    ensures var l := AfterSweep(c, at).lru;
            Distinct(l) && forall e :: e in l ==> e in c.lru && !Expired(e, at)
  {
    var gone := ExpiredKeys(c.lru, at);
    KeepMembers(c.lru, gone);
    KeepDistinct(c.lru, gone);
    var live := Keep(c.lru, gone);
    TrimIsPrefix(live, Threshold(c.maxBytes));
    PrefixDistinct(live, AfterSweep(c, at).lru);
    forall e | e in live
      ensures !Expired(e, at)
    {
      var i :| 0 <= i < |c.lru| && c.lru[i] == e;
    }
  }
}
