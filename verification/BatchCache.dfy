/** Per-element caching of batch requests (internal/cache/batch.go). A batch is answered from the
    cache only if every element is there; otherwise it goes upstream whole and each successful
    element of the answer is cached under its own key.
  */
module BatchCache {
  import opened Options
  import opened CacheKeys
  import opened CacheModel
  import opened CacheTheorems
  import M = MemoryCaches

  /** What the handler knows of a batch endpoint. The three functions stand for reading JSON:
      the key of a request element, and the status of a response element, if they parse. */
  datatype Endpoint = Endpoint(
    wrapped: bool,
    extractKey: string -> Option<string>,
    statusCode: string -> Option<int>,
    statusText: string -> Option<string>)

  // ---------- the registry ----------

  /** lookupBatchConfig: ranges over the prefixes in whatever order and takes the first that fits. */
  method LookupBatchConfig(registry: map<string, Endpoint>, path: string) returns (cfg: Option<Endpoint>)
    ensures cfg.None? <==> forall p :: p in registry ==> !(p <= path)
    ensures Unambiguous(registry.Keys) ==> forall p :: p in registry && p <= path ==> cfg == Some(registry[p])
  {
    var todo := registry.Keys;
    while todo != {}
      invariant todo <= registry.Keys && forall p :: p in registry && p !in todo ==> !Fits(p, path)
      decreases todo
    {
      var prefix :| prefix in todo;
      if Fits(prefix, path) {
        return Some(registry[prefix]);
      }
      todo := todo - {prefix};
    }
    return None;
  }

  predicate Fits(prefix: string, path: string) {
    prefix <= path
  }

  /** No path has two of the prefixes. */
  ghost predicate Unambiguous(prefixes: set<string>) {
    forall path, p, q :: p in prefixes && q in prefixes && Fits(p, path) && Fits(q, path) ==> p == q
  }

  /** The lookup does not depend on the order of the range if and only if no prefix starts with
      another. */
  lemma UnambiguousIff(prefixes: set<string>)
    ensures Unambiguous(prefixes) <==> forall p, q :: p in prefixes && q in prefixes && p <= q ==> p == q
  {
    forall path, p, q | Fits(p, path) && Fits(q, path)
      ensures Fits(p, q) || Fits(q, p)
    {
      assert p == path[..|p|] && q == path[..|q|];
    }
    forall p, q | Unambiguous(prefixes) && p in prefixes && q in prefixes && p <= q
      ensures p == q
    {
      assert Fits(p, q) && Fits(q, q);
    }
  }

  /** isSuccessElement. */
  predicate IsSuccess(ep: Endpoint, elem: string) {
    if ep.wrapped then ep.statusCode(elem).Some? && 200 <= ep.statusCode(elem).value < 300
    else ep.statusText(elem) == Some("Success")
  }

  /** The upstream's answer to a whole batch; None if its body does not parse. */
  datatype Answer = Answer(status: int, elements: Option<seq<string>>)

  datatype Reply =
    | Hit(elements: seq<string>)
    | Miss(answer: Answer)             // the upstream's answer, passed on

  datatype Request = Request(merchantKey: string, path: string, elements: seq<string>, ttl: int, at: int)

  function KeyOf(ep: Endpoint, r: Request, i: nat): Option<string>
    requires i < |r.elements|
  {
    var suffix := ep.extractKey(r.elements[i]);
    if suffix.None? then None else Some(BatchKey(r.merchantKey, r.path, suffix.value))
  }

  function Stored(elem: string): Response {
    Response(200, [("Content-Type", ["application/json"])], elem)
  }

  // ---------- the lookups ----------

  /** The cache after looking up the first `n` elements. */
  function AfterLookups(c: Cache, ep: Endpoint, r: Request, n: nat): Cache
    requires n <= |r.elements|
  {
    if n == 0 then c
    else
      var before, key := AfterLookups(c, ep, r, n - 1), KeyOf(ep, r, n - 1);
      if key.None? then before else AfterGet(before, key.value, r.at)
  }

  /** What the lookup of element `i` finds. */
  function Found(c: Cache, ep: Endpoint, r: Request, i: nat): Option<Response>
    requires i < |r.elements|
  {
    var key := KeyOf(ep, r, i);
    if key.None? then None else GetResult(AfterLookups(c, ep, r, i), key.value, r.at)
  }

  ghost predicate AllFound(c: Cache, ep: Endpoint, r: Request) {
    forall i :: 0 <= i < |r.elements| ==> Found(c, ep, r, i).Some?
  }

  // ---------- the stores ----------

  predicate Storable(ep: Endpoint, r: Request, answer: seq<string>, i: nat)
    requires i < |answer|
  {
    i < |r.elements| && KeyOf(ep, r, i).Some? && IsSuccess(ep, answer[i])
  }

  /** The cache after storing the first `n` elements of the answer. */
  function AfterStores(c: Cache, ep: Endpoint, r: Request, answer: seq<string>, n: nat): Cache
    requires n <= |answer|
  {
    if n == 0 then c
    else
      var before := AfterStores(c, ep, r, answer, n - 1);
      if Storable(ep, r, answer, n - 1)
      then AfterSet(before, KeyOf(ep, r, n - 1).value, Stored(answer[n - 1]), r.ttl, r.at)
      else before
  }

  predicate Cacheable(a: Answer) {
    200 <= a.status < 300 && a.elements.Some?
  }

  /** The cache after a batch request; `answer` is what the upstream says if it is asked. */
  ghost function AfterBatch(c: Cache, ep: Endpoint, r: Request, answer: Answer): Cache {
    if r.elements == [] then c
    else
      var looked := AfterLookups(c, ep, r, |r.elements|);
      if AllFound(c, ep, r) || !Cacheable(answer) then looked
      else AfterStores(looked, ep, r, answer.elements.value, |answer.elements.value|)
  }

  // ---------- the handler ----------

  /** handleBatchCache and cacheResponseElements. An unparsable or empty batch goes straight
      upstream. */
  method HandleBatch(cache: M.MemoryCache, ep: Endpoint, r: Request, answer: Answer) returns (reply: Reply)
    requires cache.Valid()
    modifies cache
    ensures cache.Valid() && cache.View() == AfterBatch(old(cache.View()), ep, r, answer)
    ensures r.elements != [] && AllFound(old(cache.View()), ep, r) ==>
              && reply.Hit? && |reply.elements| == |r.elements|
              && forall i :: 0 <= i < |r.elements| ==>
                   reply.elements[i] == Found(old(cache.View()), ep, r, i).value.body
    ensures r.elements == [] || !AllFound(old(cache.View()), ep, r) ==> reply == Miss(answer)
  {
    if r.elements == [] {
      return Miss(answer);
    }
    ResultsAre(cache.View(), ep, r, |r.elements|);
    var allCached, bodies := LookUpElements(cache, ep, r);
    if allCached {
      return Hit(bodies);
    }
    if Cacheable(answer) {
      StoreElements(cache, ep, r, answer.elements.value);
    }
    return Miss(answer);
  }

  /** What the first `n` lookups find. */
  ghost function Results(c: Cache, ep: Endpoint, r: Request, n: nat): (found: seq<Option<Response>>)
    requires n <= |r.elements|
    ensures |found| == n
  {
    if n == 0 then [] else Results(c, ep, r, n - 1) + [Found(c, ep, r, n - 1)]
  }

  lemma {:induction false} ResultsAre(c: Cache, ep: Endpoint, r: Request, n: nat)
    requires n <= |r.elements|
    ensures forall k :: 0 <= k < n ==> Results(c, ep, r, n)[k] == Found(c, ep, r, k)
  {
    if n > 0 {
      ResultsAre(c, ep, r, n - 1);
    }
  }

  /** Whether everything was found, and the bodies if so. */
  ghost predicate Sums(found: seq<Option<Response>>, all: bool, bodies: seq<string>) {
    && (all <==> forall k :: 0 <= k < |found| ==> found[k].Some?)
    && (all ==> |bodies| == |found| && forall k :: 0 <= k < |found| ==> bodies[k] == found[k].value.body)
  }

  method LookUpElements(cache: M.MemoryCache, ep: Endpoint, r: Request) returns (allCached: bool, bodies: seq<string>)
    requires cache.Valid()
    modifies cache
    ensures cache.Valid() && cache.View() == AfterLookups(old(cache.View()), ep, r, |r.elements|)
    ensures Sums(Results(old(cache.View()), ep, r, |r.elements|), allCached, bodies)
  {
    ghost var c := cache.View();
    allCached, bodies := true, [];
    for i := 0 to |r.elements|
      invariant cache.Valid() && cache.View() == AfterLookups(c, ep, r, i)
      invariant Sums(Results(c, ep, r, i), allCached, bodies)
    {
      allCached, bodies := LookUpNext(cache, ep, r, i, c, allCached, bodies);
    }
  }

  /** One turn of the loop. */
  method LookUpNext(cache: M.MemoryCache, ep: Endpoint, r: Request, i: nat, ghost c: Cache,
                    all: bool, bodies: seq<string>)
    returns (all': bool, bodies': seq<string>)
    requires i < |r.elements| && cache.Valid() && cache.View() == AfterLookups(c, ep, r, i)
    requires Sums(Results(c, ep, r, i), all, bodies)
    modifies cache
    ensures cache.Valid() && cache.View() == AfterLookups(c, ep, r, i + 1)
    ensures Sums(Results(c, ep, r, i + 1), all', bodies')
  {
    var found := LookUpOne(cache, ep, r, i, c);
    all', bodies' := AddResult(found, all, bodies, Results(c, ep, r, i));
  }

  method AddResult(f: Option<Response>, all: bool, bodies: seq<string>, ghost found: seq<Option<Response>>)
    returns (all': bool, bodies': seq<string>)
    requires Sums(found, all, bodies)
    ensures Sums(found + [f], all', bodies')
  {
    ghost var more := found + [f];
    assert more[|found|] == f && forall k :: 0 <= k < |found| ==> more[k] == found[k];
    if f.Some? {
      return all, bodies + [f.value.body];
    }
    return false, bodies;
  }

  /** The lookup of one element: none if its key cannot be extracted. */
  method LookUpOne(cache: M.MemoryCache, ep: Endpoint, r: Request, i: nat, ghost c: Cache)
    returns (found: Option<Response>)
    requires i < |r.elements| && cache.Valid() && cache.View() == AfterLookups(c, ep, r, i)
    modifies cache
    ensures cache.Valid() && cache.View() == AfterLookups(c, ep, r, i + 1)
    ensures found == Found(c, ep, r, i)
  {
    var key := KeyOf(ep, r, i);
    if key.None? {
      return None;
    }
    found := cache.GetEntry(key.value, r.at);
  }

  method StoreElements(cache: M.MemoryCache, ep: Endpoint, r: Request, answer: seq<string>)
    requires cache.Valid()
    modifies cache
    ensures cache.Valid() && cache.View() == AfterStores(old(cache.View()), ep, r, answer, |answer|)
  {
    ghost var c := cache.View();
    for i := 0 to |answer|
      invariant cache.Valid() && cache.View() == AfterStores(c, ep, r, answer, i)
    {
      StoreOne(cache, ep, r, answer, i, c);
    }
  }

  /** The store of one element, if it has a key and succeeded. */
  method StoreOne(cache: M.MemoryCache, ep: Endpoint, r: Request, answer: seq<string>, i: nat, ghost c: Cache)
    requires i < |answer| && cache.Valid() && cache.View() == AfterStores(c, ep, r, answer, i)
    modifies cache
    ensures cache.Valid() && cache.View() == AfterStores(c, ep, r, answer, i + 1)
  {
    if Storable(ep, r, answer, i) {
      cache.SetEntry(KeyOf(ep, r, i).value, Stored(answer[i]), r.ttl, r.at);
    }
  }

  // ---------- keys ----------

  /** What the keys of a merchant and path start with. */
  function Head(m: string, p: string): string {
    m + ":BATCH:" + p
  }

  /** Two merchants and paths whose element keys cannot meet. */
  predicate Separate(m1: string, p1: string, m2: string, p2: string) {
    Head(m1, p1) != Head(m2, p2) && !Text.Confusable(Head(m1, p1), Head(m2, p2), ':')
  }

  lemma KeyFromHead(m: string, p: string, s: string)
    ensures BatchKey(m, p, s) == Head(m, p) + ":" + s
  {
  }

  /** Two different merchants and paths never share an element key, whatever their elements, if and
      only if neither head is the other or continues it with a colon. Those of one merchant and path
      share it only for one element. */
  lemma BatchKeysAreApartIff(m1: string, p1: string, m2: string, p2: string)
    ensures (m1 == m2 && p1 == p2) || Separate(m1, p1, m2, p2) <==>
            (forall s1, s2 :: BatchKey(m1, p1, s1) == BatchKey(m2, p2, s2) ==> m1 == m2 && p1 == p2 && s1 == s2)
  {
    if (m1 == m2 && p1 == p2) || Separate(m1, p1, m2, p2) {
      forall s1, s2 | BatchKey(m1, p1, s1) == BatchKey(m2, p2, s2)
        ensures m1 == m2 && p1 == p2 && s1 == s2
      {
        KeysMeet(m1, p1, s1, m2, p2, s2);
      }
    } else {
      var h1, h2 := Head(m1, p1), Head(m2, p2);
      var s1 := if h1 + ":" <= h2 then h2[|h1| + 1..] + ":" else "";
      var s2 := if h1 != h2 && !(h1 + ":" <= h2) then h1[|h2| + 1..] + ":" else "";
      KeyFromHead(m1, p1, s1);
      KeyFromHead(m2, p2, s2);
      MeetingKeys(h1, h2, s1, s2);
      assert BatchKey(m1, p1, s1) == BatchKey(m2, p2, s2);
    }
  }

  lemma KeysMeet(m1: string, p1: string, s1: string, m2: string, p2: string, s2: string)
    requires (m1 == m2 && p1 == p2) || Separate(m1, p1, m2, p2)
    requires BatchKey(m1, p1, s1) == BatchKey(m2, p2, s2)
    ensures m1 == m2 && p1 == p2 && s1 == s2
  {
    KeyFromHead(m1, p1, s1);
    KeyFromHead(m2, p2, s2);
    SameHead(Head(m1, p1), s1, Head(m2, p2), s2);
  }

  lemma SameHead(h1: string, s1: string, h2: string, s2: string)
    requires h1 + ":" + s1 == h2 + ":" + s2
    ensures (h1 == h2 && s1 == s2) || (h1 != h2 && Text.Confusable(h1, h2, ':'))
  {
    var k := h1 + ":" + s1;
    assert h1 + ":" <= k && k[|h1| + 1..] == s1 && k[|h2| + 1..] == s2;
    Text.SameOrConfused(h1, h2, s2, ':');
  }

  lemma MeetingKeys(h1: string, h2: string, s1: string, s2: string)
    requires h1 == h2 || Text.Confusable(h1, h2, ':')
    requires s1 == if h1 + ":" <= h2 then h2[|h1| + 1..] + ":" else ""
    requires s2 == if h1 != h2 && !(h1 + ":" <= h2) then h1[|h2| + 1..] + ":" else ""
    ensures h1 + ":" + s1 == h2 + ":" + s2
  {
    if h1 + ":" <= h2 {
      assert h2 == h1 + ":" + h2[|h1| + 1..];
    } else if h1 != h2 {
      assert h1 == h2 + ":" + h1[|h2| + 1..];
    }
  }

  /** Which merchants and paths a run is about. */
  type Scope = (string, string) -> bool

  ghost predicate Apart(scope: Scope) {
    forall m1, p1, m2, p2 :: scope(m1, p1) && scope(m2, p2) ==> (m1 == m2 && p1 == p2) || Separate(m1, p1, m2, p2)
  }

  /** Merchant keys without a slash; paths that start with one and have no colon. */
  predicate Proper(merchantKey: string, path: string) {
    Free(merchantKey, '/') && path != "" && path[0] == '/' && Free(path, ':')
  }

  /** All of these are apart, so the theorems below hold for them. */
  lemma ProperIsApart()
    ensures Apart(Proper)
  {
    forall m1, p1, m2, p2 | Proper(m1, p1) && Proper(m2, p2)
      ensures (m1 == m2 && p1 == p2) || Separate(m1, p1, m2, p2)
    {
      forall s1, s2 | BatchKey(m1, p1, s1) == BatchKey(m2, p2, s2)
        ensures m1 == m2 && p1 == p2 && s1 == s2
      {
        ProperKeysMeet(m1, p1, s1, m2, p2, s2);
      }
      BatchKeysAreApartIff(m1, p1, m2, p2);
    }
  }

  lemma ProperKeysMeet(m1: string, p1: string, s1: string, m2: string, p2: string, s2: string)
    requires Proper(m1, p1) && Proper(m2, p2) && BatchKey(m1, p1, s1) == BatchKey(m2, p2, s2)
    ensures m1 == m2 && p1 == p2 && s1 == s2
  {
    BatchKeyShape(m1, p1, s1);
    BatchKeyShape(m2, p2, s2);
    var r1, r2 := p1[1..] + ":" + s1, p2[1..] + ":" + s2;
    OwnerOfPrefix(m1, "BATCH", r1, m2, "BATCH", r2);
    OwnerOfPrefix(m2, "BATCH", r2, m1, "BATCH", r1);
    Text.FirstField(p1[1..], s1, p2[1..], s2, ':');
    assert p1 == "/" + p1[1..] && p2 == "/" + p2[1..];
  }

  /** Nothing the program stores under another tag has one of their keys. */
  lemma OtherTagsAreApart(m: string, tag: string, rest: string, m2: string, p2: string, s2: string)
    requires Free(m, '/') && Free(tag, '/') && Free(tag, ':') && tag != "BATCH" && Proper(m2, p2)
    ensures KeyFor(m, tag, rest) != BatchKey(m2, p2, s2)
  {
    BatchKeyShape(m2, p2, s2);
    OwnerOfPrefix(m, tag, rest, m2, "BATCH", p2[1..] + ":" + s2);
  }

  // ---------- transparency ----------

  /** The endpoint of each path. */
  type Registry = string -> Endpoint

  /** The upstream's answer to an element depends only on merchant, path and extracted key. */
  type Upstream = (string, string, string) -> string

  /** Everything the theorems are relative to. */
  datatype World = World(scope: Scope, reg: Registry, up: Upstream)

  /** Every batch element in the cache is a successful answer of the upstream. */
  ghost predicate Honest(c: Cache, w: World) {
    forall e, m, p, s :: e in c.lru && w.scope(m, p) && e.key == BatchKey(m, p, s) ==>
      e.resp == Stored(w.up(m, p, s)) && IsSuccess(w.reg(p), w.up(m, p, s))
  }

  /** The answer to `r` gives, position by position, the upstream's answer to that element. */
  ghost predicate Answers(a: Answer, r: Request, w: World) {
    200 <= a.status < 300 && a.elements.Some? ==>
      var extract := w.reg(r.path).extractKey;
      forall i :: 0 <= i < |a.elements.value| && i < |r.elements| && extract(r.elements[i]).Some? ==>
        a.elements.value[i] == w.up(r.merchantKey, r.path, extract(r.elements[i]).value)
  }

  lemma LessIsHonest(c: Cache, d: Cache, w: World)
    requires Honest(c, w) && forall e :: e in d.lru ==> e in c.lru
    ensures Honest(d, w)
  {
  }

  lemma {:induction false} LookupsAreHonest(c: Cache, w: World, ep: Endpoint, r: Request, n: nat)
    requires Distinct(c.lru) && Honest(c, w) && n <= |r.elements|
    ensures Distinct(AfterLookups(c, ep, r, n).lru) && Honest(AfterLookups(c, ep, r, n), w)
  {
    if n > 0 {
      LookupsAreHonest(c, w, ep, r, n - 1);
      var before, key := AfterLookups(c, ep, r, n - 1), KeyOf(ep, r, n - 1);
      if key.Some? {
        GetIsHonest(before, w, key.value, r.at);
      }
    }
  }

  lemma GetIsHonest(c: Cache, w: World, key: string, at: int)
    requires Distinct(c.lru) && Honest(c, w)
    ensures Distinct(AfterGet(c, key, at).lru) && Honest(AfterGet(c, key, at), w)
  {
    GetDistinct(c, key, at);
    LessIsHonest(c, AfterGet(c, key, at), w);
  }

  lemma StoreIsHonest(c: Cache, w: World, m: string, path: string, suffix: string, ttl: int, at: int)
    requires Distinct(c.lru) && Honest(c, w) && Apart(w.scope) && w.scope(m, path)
    requires IsSuccess(w.reg(path), w.up(m, path, suffix))
    ensures var d := AfterSet(c, BatchKey(m, path, suffix), Stored(w.up(m, path, suffix)), ttl, at);
            Distinct(d.lru) && Honest(d, w)
  {
    var key, resp := BatchKey(m, path, suffix), Stored(w.up(m, path, suffix));
    SetDistinct(c, key, resp, ttl, at);
    var d := AfterSet(c, key, resp, ttl, at);
    forall e, m2, p2, s2 | e in d.lru && w.scope(m2, p2) && e.key == BatchKey(m2, p2, s2)
      ensures e.resp == Stored(w.up(m2, p2, s2)) && IsSuccess(w.reg(p2), w.up(m2, p2, s2))
    {
      if e.key == key {
        KeysMeet(m, path, suffix, m2, p2, s2);
      }
    }
  }

  lemma {:induction false} StoresAreHonest(c: Cache, w: World, r: Request, a: Answer, n: nat)
    requires Distinct(c.lru) && Honest(c, w) && Apart(w.scope) && w.scope(r.merchantKey, r.path)
    requires Cacheable(a) && Answers(a, r, w) && n <= |a.elements.value|
    ensures var d := AfterStores(c, w.reg(r.path), r, a.elements.value, n); Distinct(d.lru) && Honest(d, w)
  {
    if n > 0 {
      var ep := w.reg(r.path);
      StoresAreHonest(c, w, r, a, n - 1);
      if Storable(ep, r, a.elements.value, n - 1) {
        StoreIsHonest(AfterStores(c, ep, r, a.elements.value, n - 1), w, r.merchantKey, r.path,
                      ep.extractKey(r.elements[n - 1]).value, r.ttl, r.at);
      }
    }
  }

  lemma BatchKeepsHonest(c: Cache, w: World, r: Request, a: Answer)
    requires Distinct(c.lru) && Honest(c, w) && Apart(w.scope) && w.scope(r.merchantKey, r.path) && Answers(a, r, w)
    ensures var d := AfterBatch(c, w.reg(r.path), r, a); Distinct(d.lru) && Honest(d, w)
  {
    var ep := w.reg(r.path);
    if r.elements != [] {
      LookupsAreHonest(c, w, ep, r, |r.elements|);
      if !AllFound(c, ep, r) && Cacheable(a) {
        StoresAreHonest(AfterLookups(c, ep, r, |r.elements|), w, r, a, |a.elements.value|);
      }
    }
  }

  /** The upstream's answer to element `i`. */
  function Wanted(w: World, r: Request, i: nat): Option<string>
    requires i < |r.elements|
  {
    var key := w.reg(r.path).extractKey(r.elements[i]);
    if key.None? then None else Some(w.up(r.merchantKey, r.path, key.value))
  }

  /** A hit equals the upstream's answer, element by element, and every element is a success by its
      status code if the endpoint wraps its elements, else by its status text. */
  lemma HitIsUpstreamAnswer(c: Cache, w: World, r: Request, i: nat)
    requires Distinct(c.lru) && Honest(c, w) && w.scope(r.merchantKey, r.path)
    requires i < |r.elements| && Found(c, w.reg(r.path), r, i).Some?
    ensures var ep, body := w.reg(r.path), Found(c, w.reg(r.path), r, i).value.body;
            && Wanted(w, r, i) == Some(body)
            && Found(c, ep, r, i) == Some(Response(200, [("Content-Type", ["application/json"])], body))
            && (ep.wrapped ==> ep.statusCode(body).Some? && 200 <= ep.statusCode(body).value < 300)
            && (!ep.wrapped ==> ep.statusText(body) == Some("Success"))
  {
    var ep := w.reg(r.path);
    LookupsAreHonest(c, w, ep, r, i);
    var suffix := ep.extractKey(r.elements[i]);
    HitIsHonest(AfterLookups(c, ep, r, i), w, r.merchantKey, r.path, suffix.value, r.at);
  }

  lemma HitIsHonest(c: Cache, w: World, m: string, p: string, s: string, at: int)
    requires Distinct(c.lru) && Honest(c, w) && w.scope(m, p) && GetResult(c, BatchKey(m, p, s), at).Some?
    ensures GetResult(c, BatchKey(m, p, s), at) == Some(Stored(w.up(m, p, s))) && IsSuccess(w.reg(p), w.up(m, p, s))
  {
    LookupIs(c.lru, BatchKey(m, p, s));
  }

  // ---------- whole runs ----------

  /** What happens to the shared cache: batch requests of any endpoint with the upstream's answer,
      and everything else the program does to it, which never stores under a batch key. */
  datatype Event =
    | Batch(r: Request, answer: Answer)
    | Other(op: Op)

  ghost predicate Fair(ev: Event, w: World) {
    match ev
    case Batch(r, a) => w.scope(r.merchantKey, r.path) && Answers(a, r, w)
    case Other(op) => op.Set? ==> forall m, p, s :: w.scope(m, p) ==> op.key != BatchKey(m, p, s)
  }

  ghost function After(c: Cache, reg: Registry, evs: seq<Event>): Cache
    decreases |evs|
  {
    if evs == [] then c
    else
      var next := match evs[0]
        case Batch(r, a) => AfterBatch(c, reg(r.path), r, a)
        case Other(op) => Apply(c, op);
      After(next, reg, evs[1..])
  }

  lemma OtherKeepsHonest(c: Cache, w: World, op: Op)
    requires Distinct(c.lru) && Honest(c, w) && Fair(Other(op), w)
    ensures Distinct(Apply(c, op).lru) && Honest(Apply(c, op), w)
  {
    ApplyDistinct(c, op);
  }

  lemma {:induction false} RunIsHonest(c: Cache, w: World, evs: seq<Event>)
    requires Distinct(c.lru) && Honest(c, w) && Apart(w.scope) && forall i :: 0 <= i < |evs| ==> Fair(evs[i], w)
    ensures var d := After(c, w.reg, evs); Distinct(d.lru) && Honest(d, w)
    decreases |evs|
  {
    if evs != [] {
      match evs[0] {
        case Batch(r, a) =>
          BatchKeepsHonest(c, w, r, a);
          RunIsHonest(AfterBatch(c, w.reg(r.path), r, a), w, evs[1..]);
        case Other(op) =>
          OtherKeepsHonest(c, w, op);
          RunIsHonest(Apply(c, op), w, evs[1..]);
      }
    }
  }

  /** Batch caching is transparent: after any run from an empty cache, of batches of all endpoints
      and whatever was evicted, deleted or invalidated on the way, a batch of any order, subset or
      overlap of earlier ones that is served from the cache is served what the upstream would
      answer, and never a failed element. */
  lemma BatchesAreTransparent(maxBytes: int, w: World, evs: seq<Event>, r: Request)
    requires Apart(w.scope) && (forall i :: 0 <= i < |evs| ==> Fair(evs[i], w)) && w.scope(r.merchantKey, r.path)
    ensures var c, ep := After(Empty(maxBytes), w.reg, evs), w.reg(r.path);
            AllFound(c, ep, r) ==>
              forall i :: 0 <= i < |r.elements| ==>
                var body := Found(c, ep, r, i).value.body;
                && Wanted(w, r, i) == Some(body)
                && (ep.wrapped ==> ep.statusCode(body).Some? && 200 <= ep.statusCode(body).value < 300)
                && (!ep.wrapped ==> ep.statusText(body) == Some("Success"))
  {
    RunIsHonest(Empty(maxBytes), w, evs);
    var c, ep := After(Empty(maxBytes), w.reg, evs), w.reg(r.path);
    if AllFound(c, ep, r) {
      forall i | 0 <= i < |r.elements|
        ensures var body := Found(c, ep, r, i).value.body;
                && Wanted(w, r, i) == Some(body)
                && (ep.wrapped ==> ep.statusCode(body).Some? && 200 <= ep.statusCode(body).value < 300)
                && (!ep.wrapped ==> ep.statusText(body) == Some("Success"))
      {
        HitIsUpstreamAnswer(c, w, r, i);
      }
    }
  }

  /** An answer that is not a 2xx, or does not parse, leaves nothing in the cache that was not there. */
  lemma FailedAnswerIsNotStored(c: Cache, ep: Endpoint, r: Request, a: Answer)
    requires Distinct(c.lru) && (a.status < 200 || 300 <= a.status || a.elements.None?)
    ensures forall e :: e in AfterBatch(c, ep, r, a).lru ==> e in c.lru
  {
    LookupsAddNothing(c, ep, r, |r.elements|);
  }

  lemma {:induction false} LookupsAddNothing(c: Cache, ep: Endpoint, r: Request, n: nat)
    requires Distinct(c.lru) && n <= |r.elements|
    ensures var d := AfterLookups(c, ep, r, n); Distinct(d.lru) && forall e :: e in d.lru ==> e in c.lru
  {
    if n > 0 {
      LookupsAddNothing(c, ep, r, n - 1);
      var before, k := AfterLookups(c, ep, r, n - 1), KeyOf(ep, r, n - 1);
      if k.Some? {
        GetDistinct(before, k.value, r.at);
      }
    }
  }

  // ---------- what is stored is found again ----------

  /** A batch whose elements all have keys, answered with a 2xx and a success for each of them. */
  predicate FullyAnswered(ep: Endpoint, r: Request, a: Answer) {
    && 200 <= a.status < 300 && a.elements.Some? && |r.elements| <= |a.elements.value|
    && (forall i :: 0 <= i < |r.elements| ==> ep.extractKey(r.elements[i]).Some?)
    && (ep.wrapped ==> forall i :: 0 <= i < |r.elements| ==>
          var code := ep.statusCode(a.elements.value[i]); code.Some? && 200 <= code.value < 300)
    && (!ep.wrapped ==> forall i :: 0 <= i < |r.elements| ==> ep.statusText(a.elements.value[i]) == Some("Success"))
  }

  lemma {:induction false} LookupsHold(c: Cache, ep: Endpoint, r: Request, n: nat, key: string, until: int)
    requires Distinct(c.lru) && c.maxBytes <= 0 && Holds(c, key, until) && n <= |r.elements| && r.at <= until
    ensures var d := AfterLookups(c, ep, r, n); Distinct(d.lru) && d.maxBytes <= 0 && Holds(d, key, until)
  {
    if n > 0 {
      LookupsHold(c, ep, r, n - 1, key, until);
      var before, k := AfterLookups(c, ep, r, n - 1), KeyOf(ep, r, n - 1);
      if k.Some? {
        OpHolds(before, Get(k.value, r.at), key, until);
      }
    }
  }

  lemma {:induction false} LookupsKeepForm(c: Cache, ep: Endpoint, r: Request, n: nat)
    requires Distinct(c.lru) && n <= |r.elements|
    ensures var d := AfterLookups(c, ep, r, n); Distinct(d.lru) && d.maxBytes == c.maxBytes
  {
    if n > 0 {
      LookupsKeepForm(c, ep, r, n - 1);
      var before, k := AfterLookups(c, ep, r, n - 1), KeyOf(ep, r, n - 1);
      if k.Some? {
        GetDistinct(before, k.value, r.at);
      }
    }
  }

  lemma {:induction false} StoresKeepForm(c: Cache, ep: Endpoint, r: Request, answer: seq<string>, n: nat)
    requires Distinct(c.lru) && n <= |answer|
    ensures var d := AfterStores(c, ep, r, answer, n); Distinct(d.lru) && d.maxBytes == c.maxBytes
  {
    if n > 0 {
      StoresKeepForm(c, ep, r, answer, n - 1);
      if Storable(ep, r, answer, n - 1) {
        SetDistinct(AfterStores(c, ep, r, answer, n - 1), KeyOf(ep, r, n - 1).value, Stored(answer[n - 1]),
                    r.ttl, r.at);
      }
    }
  }

  lemma {:induction false} StoresHold(c: Cache, ep: Endpoint, r: Request, answer: seq<string>, n: nat, i: nat)
    requires Distinct(c.lru) && c.maxBytes <= 0 && i < n <= |answer| && Storable(ep, r, answer, i)
    ensures Holds(AfterStores(c, ep, r, answer, n), KeyOf(ep, r, i).value, r.at + r.ttl)
  {
    var before := AfterStores(c, ep, r, answer, n - 1);
    StoresKeepForm(c, ep, r, answer, n - 1);
    if i == n - 1 {
      var d := AfterStores(c, ep, r, answer, n);
      assert d.lru[0] in d.lru;
    } else {
      StoresHold(c, ep, r, answer, n - 1, i);
      if Storable(ep, r, answer, n - 1) {
        OpHolds(before, Set(KeyOf(ep, r, n - 1).value, Stored(answer[n - 1]), r.ttl, r.at), KeyOf(ep, r, i).value,
                r.at + r.ttl);
      }
    }
  }

  lemma BatchHolds(c: Cache, ep: Endpoint, r: Request, a: Answer, i: nat)
    requires Distinct(c.lru) && c.maxBytes <= 0 && i < |r.elements| && !AllFound(c, ep, r) && FullyAnswered(ep, r, a)
    ensures var d := AfterBatch(c, ep, r, a);
            Distinct(d.lru) && d.maxBytes <= 0 && Holds(d, KeyOf(ep, r, i).value, r.at + r.ttl)
  {
    var looked, answer := AfterLookups(c, ep, r, |r.elements|), a.elements.value;
    LookupsKeepForm(c, ep, r, |r.elements|);
    StoresKeepForm(looked, ep, r, answer, |answer|);
    StoresHold(looked, ep, r, answer, |answer|, i);
  }

  lemma HeldIsFound(c: Cache, ep: Endpoint, r: Request, i: nat, until: int)
    requires Distinct(c.lru) && c.maxBytes <= 0 && i < |r.elements| && KeyOf(ep, r, i).Some? && r.at <= until
    requires Holds(c, KeyOf(ep, r, i).value, until)
    ensures Found(c, ep, r, i).Some?
  {
    var key := KeyOf(ep, r, i).value;
    LookupsHold(c, ep, r, i, key, until);
    LookupIs(AfterLookups(c, ep, r, i).lru, key);
  }

  /** The operation does not touch the keys of the batch for the worse. */
  predicate SparesBatch(op: Op, ep: Endpoint, r: Request) {
    forall i :: 0 <= i < |r.elements| && KeyOf(ep, r, i).Some? ==> SparesKey(op, KeyOf(ep, r, i).value, r.at + r.ttl)
  }

  lemma HeldThroughRun(d: Cache, ep: Endpoint, key: string, until: int, between: seq<Op>, again: Request, j: nat)
    requires Distinct(d.lru) && d.maxBytes <= 0 && Holds(d, key, until)
    requires forall k :: 0 <= k < |between| ==> SparesKey(between[k], key, until)
    requires j < |again.elements| && KeyOf(ep, again, j) == Some(key) && again.at <= until
    ensures Found(Run(d, between), ep, again, j).Some?
  {
    RunHolds(d, between, key, until);
    HeldIsFound(Run(d, between), ep, again, j, until);
  }

  /** Element `i` of the batch is in the cache until the end of its TTL. */
  ghost predicate HeldUntilTtl(d: Cache, ep: Endpoint, r: Request, i: nat)
    requires i < |r.elements|
  {
    KeyOf(ep, r, i).Some? && Holds(d, KeyOf(ep, r, i).value, r.at + r.ttl)
  }

  lemma HeldIsServed(d: Cache, ep: Endpoint, r: Request, between: seq<Op>, again: Request, i: nat, j: nat)
    requires Distinct(d.lru) && d.maxBytes <= 0 && i < |r.elements| && HeldUntilTtl(d, ep, r, i)
    requires forall k :: 0 <= k < |between| ==> SparesBatch(between[k], ep, r)
    requires again.merchantKey == r.merchantKey && again.path == r.path && again.at <= r.at + r.ttl
    requires j < |again.elements| && again.elements[j] == r.elements[i]
    ensures Found(Run(d, between), ep, again, j).Some?
  {
    var key := KeyOf(ep, r, i).value;
    assert KeyOf(ep, again, j) == Some(key);
    forall k | 0 <= k < |between|
      ensures SparesKey(between[k], key, r.at + r.ttl)
    {
      assert SparesBatch(between[k], ep, r);
    }
    HeldThroughRun(d, ep, key, r.at + r.ttl, between, again, j);
  }

  lemma AllHeldIsServed(d: Cache, ep: Endpoint, r: Request, between: seq<Op>, again: Request)
    requires Distinct(d.lru) && d.maxBytes <= 0 && forall i :: 0 <= i < |r.elements| ==> HeldUntilTtl(d, ep, r, i)
    requires forall k :: 0 <= k < |between| ==> SparesBatch(between[k], ep, r)
    requires again.merchantKey == r.merchantKey && again.path == r.path && again.at <= r.at + r.ttl
    requires forall x :: x in again.elements ==> x in r.elements
    ensures AllFound(Run(d, between), ep, again)
  {
    forall j | 0 <= j < |again.elements|
      ensures Found(Run(d, between), ep, again, j).Some?
    {
      assert again.elements[j] in r.elements;
      var i :| 0 <= i < |r.elements| && r.elements[i] == again.elements[j];
      HeldIsServed(d, ep, r, between, again, i, j);
    }
  }

  /** Batches do get cached: without a byte limit, a batch that went upstream and was answered with a
      success for each element is served from the cache until its TTL has passed, and so is any order
      or subset of it, whatever else happens to other keys in between. */
  lemma AnsweredIsServed(c: Cache, ep: Endpoint, r: Request, a: Answer, between: seq<Op>, again: Request)
    requires Distinct(c.lru) && c.maxBytes <= 0 && !AllFound(c, ep, r) && FullyAnswered(ep, r, a)
    requires forall i :: 0 <= i < |between| ==> SparesBatch(between[i], ep, r)
    requires again.merchantKey == r.merchantKey && again.path == r.path && again.at <= r.at + r.ttl
    requires forall x :: x in again.elements ==> x in r.elements
    ensures AllFound(Run(AfterBatch(c, ep, r, a), between), ep, again)
  {
    assert r.elements != [];
    BatchHolds(c, ep, r, a, 0);
    forall i | 0 <= i < |r.elements|
      ensures HeldUntilTtl(AfterBatch(c, ep, r, a), ep, r, i)
    {
      BatchHolds(c, ep, r, a, i);
    }
    AllHeldIsServed(AfterBatch(c, ep, r, a), ep, r, between, again);
  }
}
