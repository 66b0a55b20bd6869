/** Cache keys and prefix invalidation (internal/cache/keys.go, internal/cache/invalidation.go,
    internal/cache/batch.go). Keys are readable text so that a mutation can delete by prefix; what
    is proved is that the prefixes reach what they must and nothing of other merchants.
  */
module CacheKeys {
  import opened Options
  import opened Text

  const LISTING_OFFERS := "/batches/products/pricing/v0/listingOffers"

  /** GenerateCacheKey; `sortedQuery` is the output of SortQueryParams. */
  function RequestKey(merchantKey: string, verb: string, path: string, sortedQuery: string, suffix: string): string {
    merchantKey + ":" + verb + ":" + path
      + (if sortedQuery != "" then "?" + sortedQuery else "")
      + (if suffix != "" then ":" + suffix else "")
  }

  /** batchElementCacheKey. */
  function BatchKey(merchantKey: string, path: string, suffix: string): string {
    merchantKey + ":BATCH:" + path + ":" + suffix
  }

  /** The element suffix of a listing offer, as extractListingOffersKey builds it. */
  function ListingSuffix(sku: string, marketplace: string, condition: string, customer: string): string {
    "listingOffers:" + sku + ":" + marketplace + ":" + condition + ":" + customer
  }

  /** ExtractResourcePrefix: the path without its trailing slashes and, when it is deep enough,
      without its last segment. */
  function ResourcePrefix(path: string): string {
    var trimmed := TrimSlashes(path);
    var parts := Split(trimmed, '/');
    if |parts| <= 4 then trimmed else Join(parts[..|parts| - 1], '/')
  }

  /** The prefix InvalidateOnMutation deletes for every mutation. */
  function MutationPrefix(merchantKey: string, path: string): string {
    merchantKey + ":GET:" + ResourcePrefix(path)
  }

  /** The SKU in what follows "/items/": all after the seller's segment. */
  function SkuAfter(rest: string): Option<string> {
    if '/' !in rest then None
    else
      var sku := TrimSlashes(rest[IndexOf(rest, '/') + 1..]);
      if sku == "" then None else Some(sku)
  }

  /** The SKU of a path in which "/items/", `n` characters long, was found at `at`. */
  function SkuAt(path: string, at: Option<nat>, n: nat): Option<string> {
    if at.None? || at.value + n > |path| then None else SkuAfter(path[at.value + n..])
  }

  /** The SKU a listing path names, as invalidateBatchListingOffers reads it. */
  function SkuOf(path: string): Option<string> {
    if !("/listings/" <= path) then None else SkuAt(path, Find(path, "/items/"), 7)
  }

  function SkuPrefix(merchantKey: string, sku: string): string {
    merchantKey + ":BATCH:" + LISTING_OFFERS + ":listingOffers:" + sku + ":"
  }

  // ---------- the resource prefix ----------

  lemma ResourcePrefixIsPrefix(path: string)
    ensures ResourcePrefix(path) <= path
  {
    Text.TrimIsPrefix(path);
    var trimmed := TrimSlashes(path);
    var parts := Split(trimmed, '/');
    if |parts| > 4 {
      JoinSplit(trimmed, '/');
      JoinFront(parts, '/');
    }
  }

  /** The resource prefix of a path below `parent`: the parent itself if the path has four segments or
      more, else the whole path; trailing slashes do not count. */
  lemma ResourcePrefixIs(parent: string, last: string, slashes: string)
    requires last != "" && '/' !in last && forall i :: 0 <= i < |slashes| ==> slashes[i] == '/'
    ensures ResourcePrefix(parent + "/" + last + slashes)
         == if multiset(parent)['/'] >= 3 then parent else parent + "/" + last
  {
    var path := parent + "/" + last;
    assert path[|path| - 1] == last[|last| - 1];
    TrimsAll(path, slashes);
    SplitLast(parent, last, '/');
    SplitCount(parent, '/');
    JoinSplit(parent, '/');
    assert (Split(parent, '/') + [last])[..|Split(parent, '/')|] == Split(parent, '/');
  }

  /** For a path that starts with a slash, the resource prefix does too, unless the path is
      nothing but slashes: then it is empty. */
  lemma ResourcePrefixStart(path: string)
    requires path != "" && path[0] == '/'
    ensures ResourcePrefix(path) == "" <==> forall i :: 0 <= i < |path| ==> path[i] == '/'
    ensures ResourcePrefix(path) != "" ==> ResourcePrefix(path)[0] == '/'
  {
    ResourcePrefixIsPrefix(path);
    Text.TrimIsPrefix(path);
    var trimmed := TrimSlashes(path);
    var parts := Split(trimmed, '/');
    if trimmed == "" {
      assert parts == [""];
    } else if |parts| > 4 {
      assert trimmed[0] == '/';
      assert IndexOf(trimmed, '/') == 0;
      var front := parts[..|parts| - 1];
      assert front[0] == "" && |front| > 1;
      assert Join(front, '/') == "" + ['/'] + Join(front[1..], '/');
    }
  }

  // ---------- whose key is it ----------

  predicate Free(s: string, c: char) { c !in s }

  /** The shape of every cache key: merchant, a tag (a method, BATCH or POST), then a path. */
  function KeyFor(merchantKey: string, tag: string, rest: string): string {
    merchantKey + ":" + tag + ":/" + rest
  }

  lemma BatchKeyShape(m: string, path: string, suffix: string)
    requires path != "" && path[0] == '/'
    ensures BatchKey(m, path, suffix) == KeyFor(m, "BATCH", path[1..] + ":" + suffix)
  {
    assert path == "/" + path[1..];
  }

  /** A prefix of this shape belongs to one merchant and one tag: it can only match keys of the
      same merchant and tag, given merchants and tags without a slash and tags without a colon. */
  lemma OwnerOfPrefix(m1: string, t1: string, r1: string, m2: string, t2: string, r2: string)
    requires Free(m1, '/') && Free(m2, '/') && Free(t1, '/') && Free(t2, '/')
    requires Free(t1, ':') && Free(t2, ':')
    ensures KeyFor(m1, t1, r1) <= KeyFor(m2, t2, r2) <==> m1 == m2 && t1 == t2 && r1 <= r2
  {
    var k1, k2 := KeyFor(m1, t1, r1), KeyFor(m2, t2, r2);
    var h1, h2 := m1 + ":" + t1 + ":", m2 + ":" + t2 + ":";
    assert k1 == h1 + ['/'] + r1 && k2 == h2 + ['/'] + r2;
    if k1 <= k2 {
      var more := k2[|k1|..];
      assert k2 == h1 + ['/'] + (r1 + more);
      FirstField(h1, r1 + more, h2, r2, '/');
      HeadsApart(m1, t1, m2, t2);
    }
  }

  lemma HeadsApart(m1: string, t1: string, m2: string, t2: string)
    requires m1 + ":" + t1 + ":" == m2 + ":" + t2 + ":" && Free(t1, ':') && Free(t2, ':')
    ensures m1 == m2 && t1 == t2
  {
    var a, b := m1 + ":" + t1, m2 + ":" + t2;
    assert (a + ":")[..|a|] == a && (b + ":")[..|b|] == b;
    LastField(m1, t1, m2, t2, ':');
  }

  // ---------- when two requests share a key ----------

  /** The path and query of a request, as its key shows them. */
  function Target(path: string, sortedQuery: string): string {
    if sortedQuery == "" then path else path + "?" + sortedQuery
  }

  /** Paths without a question mark and queries can be told from their target. */
  lemma TargetIsExact(p1: string, q1: string, p2: string, q2: string)
    requires Free(p1, '?') && Free(p2, '?')
    ensures Target(p1, q1) == Target(p2, q2) <==> p1 == p2 && q1 == q2
  {
    if q1 != "" && q2 != "" {
      if Target(p1, q1) == Target(p2, q2) {
        FirstField(p1, q1, p2, q2, '?');
      }
    } else if q1 != "" {
      assert Target(p1, q1)[|p1|] == '?';
    } else if q2 != "" {
      assert Target(p2, q2)[|p2|] == '?';
    }
  }

  /** A question mark in the path can be taken for the start of the query. */
  lemma QuestionMarkInPathCollides()
    ensures Target("/a?x=1", "") == Target("/a", "x=1")
  {
    assert "/a" + "?" + "x=1" == "/a?x=1";
  }

  /** `b` is `a`, a colon and something without one. */
  predicate Continues(a: string, b: string) {
    a + ":" <= b && b[|a| + 1..] != "" && Free(b[|a| + 1..], ':')
  }

  lemma KeyFromTarget(m: string, verb: string, p: string, q: string, suffix: string)
    ensures RequestKey(m, verb, p, q, suffix)
         == m + ":" + verb + ":" + (Target(p, q) + if suffix == "" then "" else ":" + suffix)
  {
  }

  /** What comes after the method: two targets with suffixes are the same text. */
  predicate SameText(t1: string, s1: string, t2: string, s2: string) {
    t1 + (if s1 == "" then "" else ":" + s1) == t2 + (if s2 == "" then "" else ":" + s2)
  }

  lemma SameTextSameTarget(t1: string, s1: string, t2: string, s2: string)
    requires SameText(t1, s1, t2, s2) && Free(s1, ':') && Free(s2, ':')
    ensures (t1 == t2 && s1 == s2) || Continues(t1, t2) || Continues(t2, t1)
  {
    if s1 != "" && s2 != "" {
      assert t1 + [':'] + s1 == t1 + (":" + s1) && t2 + [':'] + s2 == t2 + (":" + s2);
      LastField(t1, s1, t2, s2, ':');
    } else if s1 == "" && s2 != "" {
      assert t1 + "" == t1 && t2 + ":" + s2 == t2 + (":" + s2);
    } else if s1 != "" {
      assert t2 + "" == t2 && t1 + ":" + s1 == t1 + (":" + s1);
    } else {
      assert t1 + "" == t1 && t2 + "" == t2;
    }
  }

  lemma ContinuedCollides(t1: string, t2: string)
    requires Continues(t1, t2)
    ensures exists s :: s != "" && Free(s, ':') && SameText(t1, s, t2, "")
  {
    var s := t2[|t1| + 1..];
    assert t2 == t1 + ":" + s && t1 + ":" + s == t1 + (":" + s);
    assert SameText(t1, s, t2, "");
  }

  /** Two targets never share a key, whatever suffixes without a colon the clients choose, if and only
      if neither continues the other with a colon. One target shares it only for one suffix. */
  lemma TargetsAreApartIff(t1: string, t2: string)
    ensures !Continues(t1, t2) && !Continues(t2, t1) <==>
            (forall s1, s2 :: Free(s1, ':') && Free(s2, ':') && SameText(t1, s1, t2, s2) ==> t1 == t2 && s1 == s2)
  {
    if Continues(t1, t2) {
      ContinuedCollides(t1, t2);
      var s :| s != "" && Free(s, ':') && SameText(t1, s, t2, "");
      assert Free("", ':');
    } else if Continues(t2, t1) {
      ContinuedCollides(t2, t1);
      var s :| s != "" && Free(s, ':') && SameText(t2, s, t1, "");
      assert Free("", ':') && SameText(t1, "", t2, s);
    } else {
      forall s1, s2 | Free(s1, ':') && Free(s2, ':') && SameText(t1, s1, t2, s2)
        ensures t1 == t2 && s1 == s2
      {
        SameTextSameTarget(t1, s1, t2, s2);
      }
    }
  }

  /** So two requests of a merchant and method, with paths without a question mark, share a cached
      response if and only if path, sorted query and suffix are the same, unless one target continues
      the other. */
  lemma RequestKeysAreExact(m: string, verb: string, p1: string, q1: string, s1: string,
                            p2: string, q2: string, s2: string)
    requires Free(p1, '?') && Free(p2, '?') && Free(s1, ':') && Free(s2, ':')
    requires !Continues(Target(p1, q1), Target(p2, q2)) && !Continues(Target(p2, q2), Target(p1, q1))
    ensures RequestKey(m, verb, p1, q1, s1) == RequestKey(m, verb, p2, q2, s2) <==> p1 == p2 && q1 == q2 && s1 == s2
  {
    KeyFromTarget(m, verb, p1, q1, s1);
    KeyFromTarget(m, verb, p2, q2, s2);
    var head := m + ":" + verb + ":";
    var x1 := Target(p1, q1) + if s1 == "" then "" else ":" + s1;
    var x2 := Target(p2, q2) + if s2 == "" then "" else ":" + s2;
    assert (head + x1)[|head|..] == x1 && (head + x2)[|head|..] == x2;
    if x1 == x2 {
      SameTextSameTarget(Target(p1, q1), s1, Target(p2, q2), s2);
    }
    TargetIsExact(p1, q1, p2, q2);
  }

  /** The suffix of a listing offer tells SKU, marketplace, condition and customer type apart, given
      that the first three have no colon. */
  lemma ListingSuffixIsExact(s1: string, m1: string, c1: string, t1: string,
                             s2: string, m2: string, c2: string, t2: string)
    requires Free(s1, ':') && Free(m1, ':') && Free(c1, ':') && Free(s2, ':') && Free(m2, ':') && Free(c2, ':')
    ensures ListingSuffix(s1, m1, c1, t1) == ListingSuffix(s2, m2, c2, t2) <==>
            s1 == s2 && m1 == m2 && c1 == c2 && t1 == t2
  {
    var y1, y2 := c1 + ":" + t1, c2 + ":" + t2;
    var x1, x2 := m1 + ":" + y1, m2 + ":" + y2;
    var l1, l2 := ListingSuffix(s1, m1, c1, t1), ListingSuffix(s2, m2, c2, t2);
    assert l1[14..] == s1 + ":" + x1 && l2[14..] == s2 + ":" + x2;
    if l1 == l2 {
      FirstField(s1, x1, s2, x2, ':');
      FirstField(m1, y1, m2, y2, ':');
      FirstField(c1, t1, c2, t2, ':');
    }
  }

  // ---------- what a mutation reaches ----------

  /** Every GET entry of the merchant for the mutated path, with any query and suffix, has the
      deleted prefix. */
  lemma MutationReachesGets(m: string, path: string, query: string, suffix: string)
    ensures MutationPrefix(m, path) <= RequestKey(m, "GET", path, query, suffix)
  {
    ResourcePrefixIsPrefix(path);
    var head := m + ":GET:";
    var tail := (if query != "" then "?" + query else "") + (if suffix != "" then ":" + suffix else "");
    assert RequestKey(m, "GET", path, query, suffix) == head + path + tail;
  }

  /** Another merchant's keys are out of reach of a mutation's prefix, exactly when the mutated
      path is more than slashes. */
  lemma MutationSparesOthersIff(m: string, path: string)
    requires Free(m, '/') && path != "" && path[0] == '/'
    ensures (exists i :: 0 <= i < |path| && path[i] != '/') <==>
            (forall m2, tag, rest :: Free(m2, '/') && Free(tag, '/') && Free(tag, ':') && m2 != m ==>
               !(MutationPrefix(m, path) <= KeyFor(m2, tag, rest)))
  {
    ResourcePrefixStart(path);
    var rp := ResourcePrefix(path);
    if rp != "" {
      assert MutationPrefix(m, path) == KeyFor(m, "GET", rp[1..]);
      forall m2, tag, rest | Free(m2, '/') && Free(tag, '/') && Free(tag, ':') && m2 != m
        ensures !(MutationPrefix(m, path) <= KeyFor(m2, tag, rest))
      {
        OwnerOfPrefix(m, "GET", rp[1..], m2, tag, rest);
      }
    } else {
      var m2 := m + ":GET:x";
      assert Free(m2, '/') && Free("GET", '/') && Free("GET", ':') && m2 != m;
      assert MutationPrefix(m, path) == m + ":GET:" <= KeyFor(m2, "GET", "");
    }
  }

  /** One text starts with the other. */
  predicate Comparable(a: string, b: string) {
    a <= b || b <= a
  }

  /** What every key of a merchant and tag starts with. */
  function KeyHead(merchantKey: string, tag: string): string {
    merchantKey + ":" + tag + ":/"
  }

  /** A prefix opens some key of a merchant and tag, whatever the merchant keys are made of, if and only
      if it starts with what those keys start with, or the other way round. */
  lemma OpensIff(prefix: string, m2: string, tag: string)
    ensures Comparable(prefix, KeyHead(m2, tag)) <==> exists rest :: prefix <= KeyFor(m2, tag, rest)
  {
    var head := KeyHead(m2, tag);
    if Comparable(prefix, head) {
      var rest := if head <= prefix then prefix[|head|..] else "";
      assert KeyFor(m2, tag, rest) == head + rest;
      assert prefix <= KeyFor(m2, tag, rest);
    }
    forall rest | prefix <= KeyFor(m2, tag, rest)
      ensures Comparable(prefix, head)
    {
      var key := KeyFor(m2, tag, rest);
      assert key == head + rest;
      assert if |prefix| <= |head| then prefix == head[..|prefix|] else head == prefix[..|head|];
    }
  }

  // ---------- listing offers of one SKU ----------

  /** A listing path /listings/{version}/items/{seller}/{sku}, with or without trailing slashes, is read
      back as its SKU. */
  lemma SkuOfListing(version: string, seller: string, sku: string, slashes: string)
    requires Free(version, '/') && version != "items" && Free(seller, '/')
    requires sku != "" && sku[|sku| - 1] != '/' && forall i :: 0 <= i < |slashes| ==> slashes[i] == '/'
    ensures SkuOf("/listings/" + version + "/items/" + seller + "/" + (sku + slashes)) == Some(sku)
  {
    var rest := seller + "/" + (sku + slashes);
    var path := "/listings/" + version + "/items/" + rest;
    ItemsFound(version, rest);
    StartsPath("/listings/", version, "/items/", rest);
    SkuAfterItems(path, 10 + |version|, 7, seller, sku, slashes);
    JoinLast("/listings/" + version + "/items/", seller, "/", sku + slashes);
  }

  lemma JoinLast(a: string, b: string, c: string, d: string)
    ensures a + b + c + d == a + (b + c + d)
  {
  }

  lemma StartsPath(a: string, b: string, c: string, d: string)
    ensures a <= a + b + c + d
  {
  }

  lemma SkuAfterItems(path: string, at: nat, n: nat, seller: string, sku: string, slashes: string)
    requires at + n <= |path| && path[at + n..] == seller + "/" + (sku + slashes)
    requires Free(seller, '/') && sku != "" && sku[|sku| - 1] != '/'
    requires forall i :: 0 <= i < |slashes| ==> slashes[i] == '/'
    ensures SkuAt(path, Some(at), n) == Some(sku)
  {
    AfterSeller(path[at + n..], seller, sku, slashes);
  }

  lemma AfterSeller(rest: string, seller: string, sku: string, slashes: string)
    requires rest == seller + "/" + (sku + slashes)
    requires Free(seller, '/') && sku != "" && sku[|sku| - 1] != '/'
    requires forall i :: 0 <= i < |slashes| ==> slashes[i] == '/'
    ensures SkuAfter(rest) == Some(sku)
  {
    IndexAfterField(seller, sku + slashes, '/');
    assert rest[|seller|] == '/' && rest[|seller| + 1..] == sku + slashes;
    TrimsAll(sku, slashes);
  }

  lemma ItemsFound(version: string, rest: string)
    requires Free(version, '/') && version != "items"
    ensures var path := "/listings/" + version + "/items/" + rest;
            Find(path, "/items/") == Some(10 + |version|) && path[10 + |version| + 7..] == rest
  {
    var path := "/listings/" + version + "/items/" + rest;
    var at := 10 + |version|;
    assert path[at..] == "/items/" + rest;
    NoEarlierItems(version, rest);
    FirstFound(path, "/items/", at);
  }

  lemma ItemsVersion(version: string, tail: string)
    requires Free(version, '/') && "items/" <= version + "/" + tail
    ensures version == "items"
  {
    var s := version + "/" + tail;
    assert s == "items" + "/" + s[6..];
    FirstField(version, tail, "items", s[6..], '/');
  }

  lemma Mismatch(s: string, p: string, i: nat, k: nat)
    requires i + k < |s| && k < |p| && s[i + k] != p[k]
    ensures !(p <= s[i..])
  {
    assert s[i..][k] == s[i + k];
  }

  lemma NoEarlierItems(version: string, rest: string)
    requires Free(version, '/') && version != "items"
    ensures var path := "/listings/" + version + "/items/" + rest;
            forall i :: 0 <= i < 10 + |version| ==> !("/items/" <= path[i..])
  {
    var head, tail := "/listings/", "items/" + rest;
    var path := head + version + "/items/" + rest;
    assert path == head + (version + "/" + tail);
    forall i | 0 <= i < 10 + |version|
      ensures !("/items/" <= path[i..])
    {
      if i == 0 {
        assert path[1] == 'l';
        Mismatch(path, "/items/", 0, 1);
      } else if i < 9 {
        assert path[i] == head[i] && head[i] != '/';
        Mismatch(path, "/items/", i, 0);
      } else if i == 9 {
        NotAtVersion(path, version, tail);
      } else {
        assert path[i] == version[i - 10];
        Mismatch(path, "/items/", i, 0);
      }
    }
  }

  lemma NotAtVersion(path: string, version: string, tail: string)
    requires Free(version, '/') && version != "items"
    requires |path| >= 10 && path[10..] == version + "/" + tail
    ensures !("/items/" <= path[9..])
  {
    if "/items/" <= path[9..] {
      assert "/items/"[1..] == "items/" && path[9..][1..] == path[10..];
      TailIsPrefix("/items/", path[9..]);
      ItemsVersion(version, tail);
    }
  }

  lemma TailIsPrefix(p: string, s: string)
    requires p != "" && p <= s
    ensures p[1..] <= s[1..]
  {
  }

  function OfferHead(m: string): string {
    m + ":BATCH:" + LISTING_OFFERS + ":listingOffers:"
  }

  lemma SkuPrefixShape(m: string, sku: string)
    ensures SkuPrefix(m, sku) == OfferHead(m) + (sku + ":")
  {
  }

  lemma OfferKeyShape(m: string, sku: string, marketplace: string, condition: string, customer: string)
    ensures BatchKey(m, LISTING_OFFERS, ListingSuffix(sku, marketplace, condition, customer))
            == OfferHead(m) + (sku + ":" + (marketplace + ":" + condition + ":" + customer))
  {
    JoinFields("listingOffers:", sku, marketplace, condition, customer);
    SplitFields(m + ":BATCH:" + LISTING_OFFERS, sku + ":" + (marketplace + ":" + condition + ":" + customer));
  }

  lemma JoinFields(a: string, b: string, c: string, d: string, e: string)
    ensures a + b + ":" + c + ":" + d + ":" + e == a + (b + ":" + (c + ":" + d + ":" + e))
  {
  }

  lemma SplitFields(a: string, b: string)
    ensures a + ":" + ("listingOffers:" + b) == a + ":listingOffers:" + b
  {
    assert ":" + "listingOffers:" == ":listingOffers:";
  }

  /** Deleting by the SKU's prefix removes all its listing offers, whatever their marketplace,
      condition and customer type. */
  lemma SkuPrefixReaches(m: string, sku: string, marketplace: string, condition: string, customer: string)
    ensures SkuPrefix(m, sku) <= BatchKey(m, LISTING_OFFERS, ListingSuffix(sku, marketplace, condition, customer))
  {
    OfferKeyShape(m, sku, marketplace, condition, customer);
    SkuPrefixShape(m, sku);
    Extends(OfferHead(m), sku + ":", marketplace + ":" + condition + ":" + customer);
  }

  lemma Extends(a: string, b: string, c: string)
    ensures a + b <= a + (b + c)
  {
  }

  /** And the listing offers of no other SKU that cannot be confused with it. A SKU that it is
      merely a prefix of is not confused with it; one that continues it with a colon is. */
  lemma SkuPrefixIsExact(m: string, sku: string, sku2: string, marketplace: string, condition: string, customer: string)
    requires !Confusable(sku, sku2, ':')
    ensures SkuPrefix(m, sku) <= BatchKey(m, LISTING_OFFERS, ListingSuffix(sku2, marketplace, condition, customer))
            <==> sku == sku2
  {
    OfferKeyShape(m, sku2, marketplace, condition, customer);
    SkuPrefixShape(m, sku);
    FieldOpens(OfferHead(m), sku, sku2, marketplace + ":" + condition + ":" + customer, ':');
  }

  /** That is the exact condition: deleting by one SKU's prefix spares every listing offer of
      another if and only if neither continues the other with a colon. */
  lemma SkuPrefixSparesIff(m: string, sku: string, sku2: string)
    requires sku != sku2
    ensures !Confusable(sku, sku2, ':') <==>
            (forall marketplace, condition, customer ::
               var suffix := ListingSuffix(sku2, marketplace, condition, customer);
               !(SkuPrefix(m, sku) <= BatchKey(m, LISTING_OFFERS, suffix)))
  {
    if Confusable(sku, sku2, ':') {
      var marketplace := if sku + ":" <= sku2 then "" else sku[|sku2| + 1..];
      OfferKeyShape(m, sku2, marketplace, "", "");
      SkuPrefixShape(m, sku);
      ConfusedOffer(sku, sku2, marketplace, ":" + "" + ":" + "");
      assert marketplace + ":" + "" + ":" + "" == marketplace + (":" + "" + ":" + "");
      StillPrefix(OfferHead(m), sku + ":", sku2 + ":" + (marketplace + ":" + "" + ":" + ""));
    } else {
      forall marketplace, condition, customer
        ensures var suffix := ListingSuffix(sku2, marketplace, condition, customer);
                !(SkuPrefix(m, sku) <= BatchKey(m, LISTING_OFFERS, suffix))
      {
        SkuPrefixIsExact(m, sku, sku2, marketplace, condition, customer);
      }
    }
  }

  lemma ConfusedOffer(sku: string, sku2: string, marketplace: string, rest: string)
    requires sku + ":" <= sku2 || (sku2 + ":" <= sku && marketplace == sku[|sku2| + 1..])
    requires rest != "" && rest[0] == ':'
    ensures sku + ":" <= sku2 + ":" + (marketplace + rest)
  {
    var s := sku2 + ":" + (marketplace + rest);
    if sku + ":" <= sku2 {
      assert sku2 <= s;
    } else {
      assert sku == sku2 + ":" + marketplace;
      assert s == sku + ":" + rest[1..];
    }
  }

  lemma StillPrefix(head: string, a: string, b: string)
    requires a <= b
    ensures head + a <= head + b
  {
  }

  /** A colon in a SKU breaks that: mutating SKU "a:b" also deletes an offer of SKU "a". */
  lemma ColonInSkuOverreaches(m: string, customer: string)
    ensures SkuPrefix(m, "a:b") <= BatchKey(m, LISTING_OFFERS, ListingSuffix("a", "b", "New", customer))
  {
    assert BatchKey(m, LISTING_OFFERS, ListingSuffix("a", "b", "New", customer))
        == SkuPrefix(m, "a:b") + ("New:" + customer);
  }
}
