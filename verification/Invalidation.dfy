/** Invalidation of cached responses by mutations (internal/cache/invalidation.go), run on the
    cache itself.
  */
module Invalidation {
  import opened Options
  import opened Text
  import opened CacheKeys
  import C = CacheModel
  import M = MemoryCaches

  function DropPrefix(c: C.Cache, prefix: string): C.Cache {
    c.(lru := C.Keep(c.lru, C.WithPrefix(c.lru, prefix)))
  }

  /** The cache after InvalidateOnMutation. */
  function Invalidated(c: C.Cache, merchantKey: string, verb: string, path: string): C.Cache {
    if verb == "GET" then c
    else
      var d := DropPrefix(c, MutationPrefix(merchantKey, path));
      if (verb == "PUT" || verb == "PATCH") && SkuOf(path).Some?
      then DropPrefix(d, SkuPrefix(merchantKey, SkuOf(path).value))
      else d
  }

  method InvalidateOnMutation(cache: M.MemoryCache, merchantKey: string, verb: string, path: string)
    requires cache.Valid()
    modifies cache
    ensures cache.Valid() && cache.View() == Invalidated(old(cache.View()), merchantKey, verb, path)
  {
    if verb == "GET" {
      return;
    }
    var resourcePrefix := ResourcePrefix(path);
    var prefix := merchantKey + ":GET:" + resourcePrefix;
    cache.DeleteWithPrefix(prefix);
    if verb == "PUT" || verb == "PATCH" {
      InvalidateBatchListingOffers(cache, merchantKey, path);
    }
  }

  method InvalidateBatchListingOffers(cache: M.MemoryCache, merchantKey: string, path: string)
    requires cache.Valid()
    modifies cache
    ensures cache.Valid()
    ensures cache.View() == if SkuOf(path).None? then old(cache.View())
                            else DropPrefix(old(cache.View()), SkuPrefix(merchantKey, SkuOf(path).value))
  {
    var sku := SkuOf(path);
    if sku.Some? {
      cache.DeleteWithPrefix(SkuPrefix(merchantKey, sku.value));
    }
  }

  /** Exactly which entries survive. */
  lemma SurvivorsAre(c: C.Cache, m: string, verb: string, path: string)
    requires C.Distinct(c.lru) && verb != "GET"
    ensures forall e :: e in Invalidated(c, m, verb, path).lru <==>
              && e in c.lru
              && !(MutationPrefix(m, path) <= e.key)
              && ((verb == "PUT" || verb == "PATCH") && SkuOf(path).Some? ==>
                    !(SkuPrefix(m, SkuOf(path).value) <= e.key))
  {
    C.PrefixDeleted(c, MutationPrefix(m, path));
    var d := DropPrefix(c, MutationPrefix(m, path));
    if (verb == "PUT" || verb == "PATCH") && SkuOf(path).Some? {
      C.PrefixDeleted(d, SkuPrefix(m, SkuOf(path).value));
    }
  }

  /** A mutation reaches what it must: afterwards the merchant has no cached GET of the mutated
      path, with any query or suffix. */
  lemma MutationLeavesNoGet(c: C.Cache, m: string, verb: string, path: string, query: string, suffix: string)
    requires C.Distinct(c.lru) && verb != "GET"
    ensures forall e :: e in Invalidated(c, m, verb, path).lru ==> e.key != RequestKey(m, "GET", path, query, suffix)
  {
    SurvivorsAre(c, m, verb, path);
    MutationReachesGets(m, path, query, suffix);
  }

  /** From four segments on it reaches more: writing one resource of a collection leaves no cached GET of
      the collection, of any other resource in it, or of anything below them. */
  lemma MutationLeavesNoSibling(c: C.Cache, m: string, verb: string, parent: string, last: string, slashes: string,
                                more: string, query: string, suffix: string)
    requires C.Distinct(c.lru) && verb != "GET" && multiset(parent)['/'] >= 3
    requires last != "" && '/' !in last && forall i :: 0 <= i < |slashes| ==> slashes[i] == '/'
    ensures forall e :: e in Invalidated(c, m, verb, parent + "/" + last + slashes).lru ==>
              e.key != RequestKey(m, "GET", parent + more, query, suffix)
  {
    ResourcePrefixIs(parent, last, slashes);
    SurvivorsAre(c, m, verb, parent + "/" + last + slashes);
    var head := m + ":GET:";
    var tail := (if query != "" then "?" + query else "") + (if suffix != "" then ":" + suffix else "");
    assert RequestKey(m, "GET", parent + more, query, suffix) == head + parent + (more + tail);
  }

  /** A write outside /listings/, and one that is not a PUT or PATCH, leaves the cached offers alone. */
  lemma OtherWritesSpareOffers(c: C.Cache, m: string, verb: string, path: string, suffix: string)
    requires C.Distinct(c.lru) && verb != "GET" && Free(m, '/')
    requires path != "" && path[0] == '/' && exists i :: 0 <= i < |path| && path[i] != '/'
    requires !("/listings/" <= path) || (verb != "PUT" && verb != "PATCH")
    ensures forall e :: e in c.lru && e.key == BatchKey(m, "/batches/products/pricing/v0/listingOffers", suffix) ==>
              e in Invalidated(c, m, verb, path).lru
  {
    SurvivorsAre(c, m, verb, path);
    BatchKeyIsNotGet(m, path, suffix);
  }

  /** Writing a listing removes all cached offers of its SKU and keeps the cached offers of every
      other SKU, unless one of the two continues the other with a colon. */
  lemma ListingWriteIsExact(c: C.Cache, m: string, verb: string, version: string, seller: string, sku: string,
                            sku2: string, marketplace: string, condition: string, customer: string)
    requires C.Distinct(c.lru) && (verb == "PUT" || verb == "PATCH")
    requires Free(m, '/') && Free(version, '/') && version != "items" && Free(seller, '/')
    requires sku != "" && sku[|sku| - 1] != '/' && !Confusable(sku, sku2, ':')
    ensures var path := "/listings/" + version + "/items/" + seller + "/" + sku;
            var offers := "/batches/products/pricing/v0/listingOffers";
            var key := BatchKey(m, offers, ListingSuffix(sku2, marketplace, condition, customer));
            forall e :: e in c.lru && e.key == key ==>
              (e in Invalidated(c, m, verb, path).lru <==> sku2 != sku)
  {
    var path := "/listings/" + version + "/items/" + seller + "/" + sku;
    var suffix := ListingSuffix(sku2, marketplace, condition, customer);
    SkuOfListing(version, seller, sku, "");
    assert sku + "" == sku;
    SkuPrefixIsExact(m, sku, sku2, marketplace, condition, customer);
    ListingPathStarts(version, seller, sku);
    BatchKeyIsNotGet(m, path, suffix);
    OfferSurvivesIff(c, m, verb, path, sku, BatchKey(m, LISTING_OFFERS, suffix));
  }

  lemma ListingPathStarts(version: string, seller: string, sku: string)
    ensures var path := "/listings/" + version + "/items/" + seller + "/" + sku; |path| > 1 && path[0] == '/' != path[1]
  {
  }

  lemma OfferSurvivesIff(c: C.Cache, m: string, verb: string, path: string, sku: string, key: string)
    requires C.Distinct(c.lru) && (verb == "PUT" || verb == "PATCH")
    requires SkuOf(path) == Some(sku) && !(MutationPrefix(m, path) <= key)
    ensures forall e :: e in c.lru && e.key == key ==>
              (e in Invalidated(c, m, verb, path).lru <==> !(SkuPrefix(m, sku) <= key))
  {
    SurvivorsAre(c, m, verb, path);
  }

  lemma BatchKeyIsNotGet(m: string, path: string, suffix: string)
    requires Free(m, '/') && path != "" && path[0] == '/' && exists i :: 0 <= i < |path| && path[i] != '/'
    ensures !(MutationPrefix(m, path) <= BatchKey(m, LISTING_OFFERS, suffix))
  {
    ResourcePrefixStart(path);
    var rp := ResourcePrefix(path);
    assert MutationPrefix(m, path) == KeyFor(m, "GET", rp[1..]);
    var rest := LISTING_OFFERS[1..] + ":" + suffix;
    BatchKeyShape(m, LISTING_OFFERS, suffix);
    OwnerOfPrefix(m, "GET", rp[1..], m, "BATCH", rest);
  }

  /** A mutation touches nothing of other merchants, for a mutated path that is more than slashes
      and merchant keys without a slash. */
  lemma OthersAreUntouched(c: C.Cache, m: string, verb: string, path: string, m2: string, tag: string, rest: string)
    requires C.Distinct(c.lru) && verb != "GET"
    requires path != "" && path[0] == '/' && exists i :: 0 <= i < |path| && path[i] != '/'
    requires Free(m, '/') && Free(m2, '/') && m2 != m && Free(tag, '/') && Free(tag, ':')
    ensures forall e :: e in c.lru && e.key == KeyFor(m2, tag, rest) ==> e in Invalidated(c, m, verb, path).lru
  {
    SurvivorsAre(c, m, verb, path);
    MutationSparesOthersIff(m, path);
    if SkuOf(path).Some? {
      SkuPrefixSparesOthers(m, SkuOf(path).value, m2, tag, rest);
    }
  }

  lemma SkuPrefixSparesOthers(m: string, sku: string, m2: string, tag: string, rest: string)
    requires Free(m, '/') && Free(m2, '/') && m2 != m && Free(tag, '/') && Free(tag, ':')
    ensures !(SkuPrefix(m, sku) <= KeyFor(m2, tag, rest))
  {
    var suffix := "listingOffers:" + sku + ":";
    BatchKeyShape(m, LISTING_OFFERS, suffix);
    assert SkuPrefix(m, sku) == BatchKey(m, LISTING_OFFERS, suffix);
    OwnerOfPrefix(m, "BATCH", LISTING_OFFERS[1..] + ":" + suffix, m2, tag, rest);
  }

  /** The prefixes a mutation deletes by. */
  function Prefixes(m: string, verb: string, path: string): set<string> {
    {MutationPrefix(m, path)} + if (verb == "PUT" || verb == "PATCH") && SkuOf(path).Some?
                                then {SkuPrefix(m, SkuOf(path).value)} else {}
  }

  /** All cached entries of a merchant and tag survive the mutation, in every cache. */
  ghost predicate Spares(m: string, verb: string, path: string, m2: string, tag: string) {
    forall c, e: C.Entry, rest :: e.key == KeyFor(m2, tag, rest) ==> !Deletes(c, e, m, verb, path)
  }

  /** For any two merchant keys, slashes and colons included: a mutation spares everything of a merchant
      and tag if and only if none of the prefixes it deletes by starts with what those keys start with,
      or the other way round. */
  lemma SparesIff(m: string, verb: string, path: string, m2: string, tag: string)
    requires verb != "GET"
    ensures Spares(m, verb, path, m2, tag) <==>
            forall p :: p in Prefixes(m, verb, path) ==> !Comparable(p, KeyHead(m2, tag))
  {
    if p :| p in Prefixes(m, verb, path) && Comparable(p, KeyHead(m2, tag)) {
      OpensIff(p, m2, tag);
      var rest :| p <= KeyFor(m2, tag, rest);
      Removed(m, verb, path, p, KeyFor(m2, tag, rest));
    } else {
      forall c: C.Cache, e: C.Entry, rest | C.Distinct(c.lru) && e in c.lru && e.key == KeyFor(m2, tag, rest)
        ensures !Deletes(c, e, m, verb, path)
      {
        SurvivorsAre(c, m, verb, path);
        forall p | p in Prefixes(m, verb, path)
          ensures !(p <= e.key)
        {
          OpensIff(p, m2, tag);
        }
        assert MutationPrefix(m, path) in Prefixes(m, verb, path);
      }
    }
  }

  /** No entry whose key one of the prefixes opens survives. */
  lemma Misses(c: C.Cache, m: string, verb: string, path: string, p: string, e: C.Entry)
    requires C.Distinct(c.lru) && verb != "GET" && p in Prefixes(m, verb, path) && p <= e.key
    ensures e !in Invalidated(c, m, verb, path).lru
  {
    SurvivorsAre(c, m, verb, path);
  }

  /** A cache with one entry, which the mutation deletes. */
  lemma Removed(m: string, verb: string, path: string, p: string, key: string)
    requires verb != "GET" && p in Prefixes(m, verb, path) && p <= key
    ensures exists c, e: C.Entry :: Deletes(c, e, m, verb, path) && e.key == key
  {
    var e, c := OneEntry(key);
    Misses(c, m, verb, path, p, e);
    assert Deletes(c, e, m, verb, path);
  }

  ghost predicate Deletes(c: C.Cache, e: C.Entry, m: string, verb: string, path: string) {
    C.Distinct(c.lru) && e in c.lru && e !in Invalidated(c, m, verb, path).lru
  }

  lemma OneEntry(key: string) returns (e: C.Entry, c: C.Cache)
    ensures e.key == key && C.Distinct(c.lru) && e in c.lru
  {
    e := C.Entry(key, C.Response(200, [], ""), 0, 128);
    c := C.Cache([e], 0, 0, 0, 0);
  }
}
