/** The in-memory LRU cache as the program updates it (internal/cache/memory.go): a map, a list and
    a running byte count that have to agree. Every method is proved against CacheModel.
  */
module MemoryCaches {
  import opened Options
  import opened CacheModel
  import opened CacheTheorems

  /** The map of a list's entries by their keys. */
  function MapOf(l: seq<Entry>): map<string, Entry> {
    if l == [] then map[] else MapOf(l[1..])[l[0].key := l[0]]
  }

  /** Keys occur once, the map finds exactly the list's entries, and the bytes are theirs. */
  predicate Agree(m: map<string, Entry>, l: seq<Entry>, used: int) {
    Distinct(l) && m == MapOf(l) && used == Sum(l)
  }

  /** entrySize: the lengths of the body and of all header names and values, and an overhead. */
  method SizeOf(resp: Response) returns (size: nat)
    ensures size == EntrySize(resp)
  {
    size := |resp.body|;
    for i := 0 to |resp.headers|
      invariant size + HeaderSize(resp.headers[i..]) == |resp.body| + HeaderSize(resp.headers)
    {
      var (name, vals) := resp.headers[i];
      size := size + |name|;
      ghost var start := size;
      for j := 0 to |vals|
        invariant size + TotalLength(vals[j..]) == start + TotalLength(vals)
      {
        assert vals[j..][0] == vals[j] && vals[j..][1..] == vals[j + 1..];
        size := size + |vals[j]|;
      }
      assert resp.headers[i..][0] == resp.headers[i] && resp.headers[i..][1..] == resp.headers[i + 1..];
    }
    size := size + 128;
  }

  class MemoryCache {
    var entries: map<string, Entry>
    var lruList: seq<Entry>
    const maxBytes: int
    var usedBytes: int
    var hits: nat
    var misses: nat
    var evictions: int

    /** Map and list are in bijection and the byte count is exact. */
    ghost predicate Valid()
      reads `entries, `lruList, `usedBytes
    {
      Agree(entries, lruList, usedBytes)
    }

    function View(): Cache
      reads this
    {
      Cache(lruList, maxBytes, hits, misses, evictions)
    }

    constructor (maxBytes: int)
      ensures Valid() && View() == Empty(maxBytes)
    {
      this.maxBytes := maxBytes;
      entries, lruList, usedBytes := map[], [], 0;
      hits, misses, evictions := 0, 0, 0;
    }

    /** removeLocked: out of the list, the map and the byte count. */
    method RemoveLocked(elem: Entry)
      requires Valid() && elem in lruList
      modifies this
      ensures Valid() && View() == old(View()).(lru := Keep(old(lruList), {elem.key}))
      ensures |lruList| == old(|lruList|) - 1
      ensures entries == old(entries) - {elem.key}
    {
      AgreeRemoved(entries, lruList, usedBytes, elem);
      lruList := Keep(lruList, {elem.key});
      entries := entries - {elem.key};
      usedBytes := usedBytes - elem.size;
    }

    /** evictLRULocked: removes the entry at the back, if there is one. */
    method EvictLRULocked()
      requires Valid()
      modifies this
      ensures Valid()
      ensures old(lruList) == [] ==> View() == old(View())
      ensures old(lruList) != [] ==>
                View() == old(View()).(lru := old(lruList)[..old(|lruList|) - 1], evictions := old(evictions) + 1)
      ensures entries.Keys <= old(entries.Keys)
    {
      if |lruList| == 0 {
        return;
      }
      var back := lruList[|lruList| - 1];
      KeepAllButLast(lruList);
      RemoveLocked(back);
      evictions := evictions + 1;
    }

    method GetEntry(key: string, now: int) returns (r: Option<Response>)
      requires Valid()
      modifies this
      ensures Valid()
      ensures r == old(GetResult(View(), key, now))
      ensures View() == old(AfterGet(View(), key, now))
    {
      AgreeLookup(entries, lruList, usedBytes, key);
      if key !in entries {
        misses := misses + 1;
        return None;
      }
      r := GetPresent(entries[key], now);
    }

    /** The rest of Get, for a key that is in the map. */
    method GetPresent(entry: Entry, now: int) returns (r: Option<Response>)
      requires Valid() && entry in lruList
      modifies this
      ensures Valid()
      ensures r == Answer(Some(entry), now)
      ensures View() == old(AfterFinding(View(), Some(entry), now))
    {
      if now > entry.expiresAt {
        RemoveLocked(entry);
        misses := misses + 1;
        return None;
      }
      MoveToFront(entry);
      hits := hits + 1;
      return Some(entry.resp);
    }

    method MoveToFront(elem: Entry)
      requires Valid() && elem in lruList
      modifies this`lruList
      ensures Valid() && lruList == [elem] + Keep(old(lruList), {elem.key})
    {
      AgreeInFront(entries, lruList, usedBytes, elem);
      lruList := [elem] + Keep(lruList, {elem.key});
    }

    method SetEntry(key: string, resp: Response, ttl: int, now: int)
      requires Valid()
      modifies this
      ensures Valid() && View() == old(AfterSet(View(), key, resp, ttl, now))
    {
      var size := SizeOf(resp);
      EvictFor(key, size);
      Insert(Entry(key, resp, now + ttl, size));
    }

    /** The first half of Set: drop the old entry, then evict until the new one fits. */
    method EvictFor(key: string, size: nat)
      requires Valid()
      modifies this
      ensures Valid() && key !in entries && View() == old(MakeRoom(View(), key, size))
    {
      DeleteEntry(key);
      if maxBytes > 0 {
        TrimList(maxBytes - size);
      }
    }

    /** PushFront of a new entry. */
    method Insert(entry: Entry)
      requires Valid() && entry.key !in entries
      modifies this
      ensures Valid() && View() == old(View()).(lru := [entry] + old(lruList))
    {
      AgreeInserted(entries, lruList, usedBytes, entry);
      lruList, entries, usedBytes := [entry] + lruList, entries[entry.key := entry], usedBytes + entry.size;
    }

    /** The eviction loops of Set and of the sweep. */
    method TrimList(budget: int)
      requires Valid()
      modifies this
      ensures Valid()
      ensures View() == old(View()).(lru := TrimTo(old(lruList), budget),
                                     evictions := old(evictions) + old(|lruList|) - |TrimTo(old(lruList), budget)|)
      ensures entries.Keys <= old(entries.Keys)
    {
      TrimIsPrefix(lruList, budget);
      while usedBytes > budget && |lruList| > 0
        invariant Valid() && lruList <= old(lruList) && entries.Keys <= old(entries.Keys)
        invariant TrimTo(lruList, budget) == TrimTo(old(lruList), budget)
        invariant View() == old(View()).(lru := lruList, evictions := old(evictions) + old(|lruList|) - |lruList|)
        decreases |lruList|
      {
        EvictLRULocked();
      }
    }

    method DeleteEntry(key: string)
      requires Valid()
      modifies this
      ensures Valid() && View() == old(Apply(View(), Delete(key, 0)))
      ensures key !in entries
    {
      AgreeLookup(entries, lruList, usedBytes, key);
      if key in entries {
        RemoveLocked(entries[key]);
      }
    }

    /** Removes the entries collected by the range loops of DeleteByPrefix and the sweep. */
    method RemoveAll(elems: seq<Entry>)
      requires Valid() && (forall e :: e in elems ==> e in lruList) && Distinct(elems)
      modifies this
      ensures Valid() && View() == old(View()).(lru := Keep(old(lruList), Keys(elems)))
    {
      KeepNone(lruList, {});
      assert Keys(elems[..0]) == {};
      for i := 0 to |elems|
        invariant Valid() && View() == old(View()).(lru := Keep(old(lruList), Keys(elems[..i])))
      {
        KeepMembers(old(lruList), Keys(elems[..i]));
        assert elems[i] in elems && elems[i] in lruList by {
          assert elems[i].key !in Keys(elems[..i]);
        }
        RemoveLocked(elems[i]);
        KeepTwice(old(lruList), Keys(elems[..i]), {elems[i].key});
        KeysGrow(elems, i);
      }
      assert elems[..|elems|] == elems;
    }

    method DeleteWithPrefix(prefix: string)
      requires Valid()
      modifies this
      ensures Valid() && View() == old(Apply(View(), DeleteByPrefix(prefix, 0)))
    {
      AgreeOnAll(entries, lruList, usedBytes);
      var toDelete := Collect(entries, prefix);
      CollectedKeys(toDelete, prefix);
      RemoveAll(toDelete);
    }

    lemma CollectedKeys(elems: seq<Entry>, prefix: string)
      requires Valid() && Collected(elems, entries, entries.Keys, prefix)
      ensures Keys(elems) == WithPrefix(lruList, prefix)
    {
      AgreeOnAll(entries, lruList, usedBytes);
      forall k | k in WithPrefix(lruList, prefix)
        ensures k in Keys(elems)
      {
        var i :| 0 <= i < |lruList| && lruList[i].key == k;
        assert lruList[i] in lruList && entries[k] in elems;
      }
      forall k | k in Keys(elems)
        ensures k in WithPrefix(lruList, prefix)
      {
        var i :| 0 <= i < |elems| && elems[i].key == k;
        assert elems[i] in elems;
        var j :| 0 <= j < |lruList| && lruList[j] == entries[k];
      }
    }

    method SweepExpired(now: int)
      requires Valid()
      modifies this
      ensures Valid() && View() == old(AfterSweep(View(), now))
    {
      AgreeOnAll(entries, lruList, usedBytes);
      var expired := Gather(entries, now);
      GatheredKeys(expired, now);
      KeepCount(lruList, expired);
      RemoveAll(expired);
      evictions := evictions + |expired|;
      if maxBytes > 0 {
        TrimList(Threshold(maxBytes));
      }
    }

    lemma GatheredKeys(elems: seq<Entry>, now: int)
      requires Valid() && Gathered(elems, entries, entries.Keys, now)
      ensures Keys(elems) == ExpiredKeys(lruList, now)
    {
      AgreeOnAll(entries, lruList, usedBytes);
      forall k | k in ExpiredKeys(lruList, now)
        ensures k in Keys(elems)
      {
        var i :| 0 <= i < |lruList| && Expired(lruList[i], now) && lruList[i].key == k;
        assert lruList[i] in lruList && entries[k] in elems;
      }
      forall k | k in Keys(elems)
        ensures k in ExpiredKeys(lruList, now)
      {
        var i :| 0 <= i < |elems| && elems[i].key == k;
        assert elems[i] in elems;
        var j :| 0 <= j < |lruList| && lruList[j] == entries[k];
      }
    }

    method CloseCache()
      requires Valid()
      modifies this
      ensures Valid() && View() == old(Apply(View(), Close(0)))
    {
      entries := map[];
      lruList := [];
      usedBytes := 0;
    }
  }

  /** The entries of `seen` keys that have the prefix, each once. */
  ghost predicate Collected(elems: seq<Entry>, m: map<string, Entry>, seen: set<string>, prefix: string) {
    && Distinct(elems)
    && (forall e :: e in elems ==> e.key in seen && e.key in m && m[e.key] == e && prefix <= e.key)
    && (forall k :: k in seen && k in m && prefix <= k ==> m[k] in elems)
  }

  lemma CollectOne(elems: seq<Entry>, m: map<string, Entry>, seen: set<string>, prefix: string, key: string)
    requires Collected(elems, m, seen, prefix) && key in m && key !in seen && m[key].key == key
    ensures Collected(if prefix <= key then elems + [m[key]] else elems, m, seen + {key}, prefix)
  {
  }

  /** The first loop of DeleteByPrefix, over the map. */
  method Collect(m: map<string, Entry>, prefix: string) returns (elems: seq<Entry>)
    requires forall k :: k in m ==> m[k].key == k
    ensures Collected(elems, m, m.Keys, prefix)
  {
    elems := [];
    var todo := m.Keys;
    while todo != {}
      invariant todo <= m.Keys && Collected(elems, m, m.Keys - todo, prefix)
      decreases todo
    {
      var key :| key in todo;
      CollectOne(elems, m, m.Keys - todo, prefix, key);
      assert m.Keys - todo + {key} == m.Keys - (todo - {key});
      if prefix <= key {
        elems := elems + [m[key]];
      }
      todo := todo - {key};
    }
  }

  /** The expired entries of `seen` keys, each once. */
  ghost predicate Gathered(elems: seq<Entry>, m: map<string, Entry>, seen: set<string>, now: int) {
    && Distinct(elems)
    && (forall e :: e in elems ==> e.key in seen && e.key in m && m[e.key] == e && Expired(e, now))
    && (forall k :: k in seen && k in m && Expired(m[k], now) ==> m[k] in elems)
  }

  /** The first loop of evictExpired, over the map. */
  method Gather(m: map<string, Entry>, now: int) returns (elems: seq<Entry>)
    requires forall k :: k in m ==> m[k].key == k
    ensures Gathered(elems, m, m.Keys, now)
  {
    elems := [];
    var todo := m.Keys;
    while todo != {}
      invariant todo <= m.Keys && Gathered(elems, m, m.Keys - todo, now)
      decreases todo
    {
      var key :| key in todo;
      GatherOne(elems, m, m.Keys - todo, now, key);
      assert m.Keys - todo + {key} == m.Keys - (todo - {key});
      if now > m[key].expiresAt {
        elems := elems + [m[key]];
      }
      todo := todo - {key};
    }
  }

  lemma GatherOne(elems: seq<Entry>, m: map<string, Entry>, seen: set<string>, now: int, key: string)
    requires Gathered(elems, m, seen, now) && key in m && key !in seen && m[key].key == key
    ensures Gathered(if Expired(m[key], now) then elems + [m[key]] else elems, m, seen + {key}, now)
  {
  }

  // ---------- map and list ----------

  /** The map of a list holds its entries, each under its own key. */
  lemma {:induction false} MapOfIs(l: seq<Entry>)
    requires Distinct(l)
    ensures forall e :: e in l ==> e.key in MapOf(l) && MapOf(l)[e.key] == e
    ensures forall k :: k in MapOf(l) ==> MapOf(l)[k] in l && MapOf(l)[k].key == k
  {
    if l != [] {
      var rest := l[1..];
      MapOfIs(rest);
      assert l == [l[0]] + rest;
      assert forall e :: e in l <==> e == l[0] || e in rest;
    }
  }

  lemma AgreeOnAll(m: map<string, Entry>, l: seq<Entry>, used: int)
    requires Agree(m, l, used)
    ensures forall e :: e in l ==> e.key in m && m[e.key] == e
    ensures forall k :: k in m ==> m[k] in l && m[k].key == k
  {
    MapOfIs(l);
  }

  lemma {:induction false} MapOfKeep(l: seq<Entry>, gone: set<string>)
    requires Distinct(l)
    ensures MapOf(Keep(l, gone)) == MapOf(l) - gone
  {
    if l != [] {
      var rest := l[1..];
      MapOfKeep(rest, gone);
      if l[0].key !in gone {
        MapOfFront(l[0], Keep(rest, gone));
      }
      MapWithout(MapOf(rest), l[0], gone);
    }
  }

  lemma MapWithout(m: map<string, Entry>, e: Entry, gone: set<string>)
    ensures m[e.key := e] - gone == if e.key in gone then m - gone else (m - gone)[e.key := e]
  {
  }

  lemma MapOfFront(e: Entry, l: seq<Entry>)
    ensures MapOf([e] + l) == MapOf(l)[e.key := e]
  {
    assert ([e] + l)[1..] == l;
  }

  lemma AgreeRemoved(m: map<string, Entry>, l: seq<Entry>, used: int, e: Entry)
    requires Agree(m, l, used) && e in l
    ensures Agree(m - {e.key}, Keep(l, {e.key}), used - e.size) && |Keep(l, {e.key})| == |l| - 1
  {
    MapOfKeep(l, {e.key});
    RemoveSum(l, e);
    KeepDistinct(l, {e.key});
  }

  lemma AgreeInserted(m: map<string, Entry>, l: seq<Entry>, used: int, e: Entry)
    requires Agree(m, l, used) && e.key !in m
    ensures Agree(m[e.key := e], [e] + l, used + e.size)
  {
    MapOfIs(l);
    FrontDistinct(e, l);
    FrontSum(e, l);
    MapOfFront(e, l);
  }

  lemma AgreeInFront(m: map<string, Entry>, l: seq<Entry>, used: int, e: Entry)
    requires Agree(m, l, used) && e in l
    ensures Agree(m, [e] + Keep(l, {e.key}), used)
  {
    AgreeRemoved(m, l, used, e);
    AgreeInserted(m - {e.key}, Keep(l, {e.key}), used - e.size, e);
    MapOfIs(l);
    assert m == (m - {e.key})[e.key := e];
  }

  /** Looking a key up in the map is looking it up in the list. */
  lemma AgreeLookup(m: map<string, Entry>, l: seq<Entry>, used: int, key: string)
    requires Agree(m, l, used)
    ensures Lookup(l, key) == if key in m then Some(m[key]) else None
    ensures if key in m then m[key] in l && m[key].key == key else Keep(l, {key}) == l
  {
    MapOfIs(l);
    LookupIs(l, key);
    if key !in m {
      KeepNone(l, {key});
    }
  }

  // ---------- lists ----------

  lemma {:induction false} KeepAllButLast(l: seq<Entry>)
    requires l != [] && Distinct(l)
    ensures Keep(l, {l[|l| - 1].key}) == l[..|l| - 1]
  {
    var n := |l| - 1;
    if n == 0 {
      assert Keep(l[1..], {l[0].key}) == [];
    } else {
      KeepAllButLast(l[1..]);
      assert l[1..][n - 1] == l[n] && l[..n] == [l[0]] + l[1..][..n - 1];
    }
  }

  lemma KeysGrow(elems: seq<Entry>, i: nat)
    requires i < |elems|
    ensures Keys(elems[..i + 1]) == Keys(elems[..i]) + {elems[i].key}
  {
    var a, b := elems[..i + 1], elems[..i];
    forall k | k in Keys(a)
      ensures k in Keys(b) + {elems[i].key}
    {
      var j :| 0 <= j < |a| && a[j].key == k;
      assert j < i ==> b[j].key == k;
    }
    forall k | k in Keys(b)
      ensures k in Keys(a)
    {
      var j :| 0 <= j < |b| && b[j].key == k;
      assert a[j].key == k;
    }
    assert a[i] == elems[i];
  }

  /** Removing `elems` from a list that holds them shortens it by their number. */
  lemma {:induction false} KeepCount(l: seq<Entry>, elems: seq<Entry>)
    requires Distinct(l) && Distinct(elems) && forall e :: e in elems ==> e in l
    ensures |Keep(l, Keys(elems))| == |l| - |elems|
  {
    if elems == [] {
      KeepNone(l, Keys(elems));
    } else {
      var n := |elems| - 1;
      var head, last := elems[..n], elems[n];
      KeepCount(l, head);
      KeysGrow(elems, n);
      assert elems[..n + 1] == elems;
      KeepTwice(l, Keys(head), {last.key});
      KeepMembers(l, Keys(head));
      KeepDistinct(l, Keys(head));
      assert last in elems && last.key !in Keys(head);
      RemoveSum(Keep(l, Keys(head)), last);
    }
  }
}
