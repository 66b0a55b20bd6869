# smart-proxy, verified

A Dafny model of the stateful core of smart-proxy, the proxy that sits between sellers' applications
and the Selling Partner API, with proofs of what that core promises.

The project covers seven parts of the proxy, each in the form the program has:

- **Admission** (`TokenBucket`, `BucketLives`, `BucketCollection`, `BucketShares`, `RequestHeap`,
  `RequestQueue`, `Admission*`, `Limiter`, `FeedLimiter`). The token bucket, the priority heap with
  back-pointers and the dispatcher's locked sections are classes that update their fields. The
  concurrent protocol of handlers, dispatcher and channels is a state machine cut at every lock and
  channel operation, and so are the race of callers and collector for the table of buckets and the
  buckets a key has over time. The theorems hold for all interleavings, and say both that no more
  is let through than was paid for and that whoever has not failed can still be served.
- **Response cache** (`CacheModel`, `CacheTheorems`, `MemoryCache`). The map, list and byte count of
  the LRU cache are a class, proved against list functions. Over every history of operations these
  refine an unbounded map with expiry.
- **What is cached under which key** (`CacheKeys`, `Invalidation`, `QueryKeys`, `PostKeys`,
  `BatchCache`). Prefix invalidation, query and body normalisation, and the batch handler.
- **Body store** (`BodyNames`, `BodyTiers`, `BodyWriter`, `Rotator`, `SizeEviction`). A state machine
  of writes, hour changes, moves that may stop half-way, deletions and nullified references; the
  writer and the passes of the rotator are methods whose every effect is a run of that machine.
- **Redaction** (`Redaction`, `RedactionTheorems`, `RedactionPaths`, `RedactionEngine`). The path
  parser and the walk over a JSON tree, following sections 2.3.1 to 2.3.3 of RFC 9535 as far as the
  program does.
- **Asynchronous logger** (`AsyncLogger`). The bounded channel, the batching worker and `Close`.
- **LIKE escaping** (`LikeEscape`) against a LIKE matcher with an escape character.

`Text`, `Decimal` and `Options` hold what the parts share. Time is a parameter; in the bucket it is a
`real` number of seconds.

Where the code does less than one would expect, the model follows the code, and a theorem says exactly
when it holds:

- a negative burst starts a bucket below zero (`RangeIffBurstNotNegative`);
- a bucket collected before it is full, or used after it was replaced, gives its key a second burst
  (`RecreationIff`, `TtlIff`, `ReplacedUseIff`);
- Stop misses the dispatcher of a call that is creating an entry (`StopsAllIff`);
- regions ending in a colon and another region share its windows (`KeysAreApartIff`);
- a mutation of a path of slashes reaches other merchants (`MutationSparesOthersIff`), and so can one by
  a merchant whose key has a slash (`SparesIff`);
- a SKU that continues another with a colon is confused with it (`SkuPrefixSparesIff`), and so is a
  query that continues another with a colon (`TargetsAreApartIff`);
- redaction paths that end in a bracket redact nothing (`CompleteIffEndsInField`), and those with two
  brackets in a row are misread (`ParsesBackIff`);
- HASH rules may not run twice, unless another rule erases what they hash (`RedactsTwiceIff`);
- a partly failed body write shifts the references after it (`ReadsBackIff`).

## Model

| member | source | states |
|---|---|---|
| `TokenBuckets.TokenBucket.constructor` | internal/ratelimit/bucket.go:18-30 | a new bucket holds `burst` tokens, whose sign is not checked, and at most burst, or max(rate, 1) if the burst is not positive |
| `TokenBuckets.TokenBucket.DoRefill` | internal/ratelimit/bucket.go:40-45 | the fields become the specified refill of the old ones |
| `TokenBuckets.TokenBucket.TryConsume` | internal/ratelimit/bucket.go:47-58 | grants exactly when the refilled bucket holds a whole token; new state and reported wait as specified |
| `TokenBuckets.TokenBucket.SetRate` | internal/ratelimit/bucket.go:60-64 | changes the rate and nothing else; in particular it does not refill first |
| `TokenBuckets.TokenBucket.CurrentTokens` | internal/ratelimit/bucket.go:66-71 | refills, and returns the tokens |
| `TokenBuckets.EffectiveRate` | internal/ratelimit/bucket.go:32-38 | the rate in force is positive whatever rate and throttle are |
| `TokenBuckets.TokensAreConserved` | internal/ratelimit/bucket.go:40-71 | along any run of TryConsume, Tokens and UpdateRate, tokens granted plus tokens left are at most tokens held plus what the elapsed time can have added |
| `TokenBuckets.RateBound` | internal/ratelimit/bucket.go:40-71 | in any window of operations at most maxTokens + R * length requests are granted, R the largest effective rate a refill of the window uses |
| `TokenBuckets.ConfiguredRateBound` | internal/ratelimit/bucket.go:32-71 | in any window at most maxTokens plus, a second, the largest of rate times throttle over the rates configured and set |
| `TokenBuckets.RefillsCompose` | internal/ratelimit/bucket.go:40-45 | a refill on the way does not change what a later one gives |
| `TokenBuckets.LeftAlone` | internal/ratelimit/bucket.go:32-45 | a bucket that is only looked at, however often, holds what it held and rate times throttle for each second since, up to maxTokens; a billionth a second if that product is not positive |
| `TokenBuckets.RateBoundIsReached` | internal/ratelimit/bucket.go:18-58 | the bound is tight: a new bucket grants its burst at once and then one request each time rate times throttle add up to a token, which is exactly the bound |
| `TokenBuckets.RangeIffBurstNotNegative` | internal/ratelimit/bucket.go:18-71 | the count stays between 0 and maxTokens in every run if and only if the configured burst is not negative |
| `TokenBuckets.WaitIsExact` | internal/ratelimit/bucket.go:47-58 | a refused caller that retries is granted if and only if it comes no earlier than the reported wait |
| `TokenBuckets.StarvesIff` | internal/ratelimit/bucket.go:18-58 | a bucket never grants, in any run, if and only if it cannot hold one token; any other grants a TryConsume that comes late enough |
| `BucketLives.RecreationIff` | internal/ratelimit/limiter.go:35-61 | the bucket that replaces a discarded one is the old one, refilled and at its configured rate, if and only if the old one would be full by then; and if and only if tokens are conserved across the replacement |
| `BucketLives.RateBoundOverLives` | internal/ratelimit/limiter.go:35-167 | in any window of any run of lookups, bucket operations, collector tests and deletions of a key, at most the burst plus the largest rate times the length is granted, if no operation reaches a bucket that has been replaced and each replaced one would be full by then |
| `BucketLives.RateBoundFromStart` | internal/ratelimit/limiter.go:35-167 | the same for the whole run of a key from its first lookup on |
| `BucketCollection.QuietRateBound` | internal/ratelimit/limiter.go:153-167 | the condition on fullness holds, and with it the bound, if a bucket is replaced only after granting nothing for the time it takes to fill |
| `BucketCollection.CollectorIsSafe` | internal/ratelimit/limiter.go:153-167 | with the collector's own test of lastUsed: the bound holds if tokens are granted within some delay of a lookup, no lookup falls between the test and the Delete, no replaced bucket is used, and the TTL exceeds the delay by the time to fill |
| `BucketCollection.PromptIsLawful` | internal/ratelimit/limiter.go:153-167 | such runs meet the conditions of the bound over all lives, from a key's first lookup on |
| `BucketCollection.TtlIff` | internal/ratelimit/limiter.go:153-167 | at the configured rate every bucket the collector may find stale is full if and only if it fills from empty in the TTL less that delay |
| `BucketCollection.RecreatedTooSoon` | internal/ratelimit/limiter.go:153-167 | a run that exceeds the bound when the TTL is below the time to fill |
| `BucketCollection.ServedWhileIdle` | internal/ratelimit/limiter.go:153-167 | a run that exceeds the bound although the TTL is the time to fill: a queue is served without stamping lastUsed, and the entry is collected right after a grant |
| `BucketCollection.RaceReaches` | internal/ratelimit/limiter.go:153-167 | a lookup between the collector's test and its Delete leaves a replaced bucket in use beside the new one |
| `BucketCollection.ReplacedUseIff` | internal/ratelimit/limiter.go:153-167 | from there some run exceeds the bound, although the replaced bucket was full, if and only if the burst is at least one token |
| `BucketShares.SharesAddUp` | internal/ratelimit/queue.go:121-157 | every token a key was granted came from one of the buckets it has had |
| `BucketShares.RateBoundForEach` | internal/ratelimit/limiter.go:35-167 | in every run, whatever is collected when and whoever keeps using a replaced bucket, a key is granted at most the burst plus the rate times the time for each bucket it has had |
| `RequestHeap.Heap.Swap` | internal/ratelimit/queue.go:40-44 | swapping keeps every request's index equal to its position |
| `RequestHeap.Heap.Push` | internal/ratelimit/queue.go:45-49 | a full queue refuses and changes nothing; otherwise exactly this request is added; order, indices and depth bound are kept |
| `RequestHeap.Heap.Pop` | internal/ratelimit/queue.go:50-58 | takes out one request with index -1, and each that stays has a larger priority number, or the same and came no earlier; order, indices and depth bound are kept |
| `RequestHeap.Heap.Remove` | internal/ratelimit/queue.go:113-119 | takes out exactly this request, or nothing at all if it is no longer waiting |
| `RequestHeap.RootIsLeast` | internal/ratelimit/queue.go:34-39 | in an ordered heap nothing has a smaller priority number than the root, or the same and came earlier |
| `RequestQueues.RequestQueue.Enqueue` | internal/ratelimit/queue.go:82-95 | ErrQueueFull exactly at maxDepth, otherwise one more request waits |
| `RequestQueues.RequestQueue.DispatchTurn` | internal/ratelimit/queue.go:121-145 | parks if and only if nothing waits; pops a request with the smallest priority number, the oldest of those, if and only if a token is there; otherwise sleeps, never past the moment a token is due, and if less than the 100 ms cap exactly until then |
| `RequestQueues.PushIsEnqueue` | internal/ratelimit/queue.go:82-95 | what Enqueue does to the waiting requests is the protocol's Push |
| `RequestQueues.TurnIsCheckAndPop` | internal/ratelimit/queue.go:121-145 | what a turn does to them is the protocol's Check, and Pop if it comes to that |
| `Admission.StepKeepsWakeUp` | internal/ratelimit/queue.go:82-157 | every step of handlers and dispatcher keeps the wake-up invariant |
| `Admission.NoLostWakeUp` | internal/ratelimit/queue.go:82-157 | in every interleaving, a dispatcher parked while requests wait has a signal waiting or a handler whose next step sends one |
| `AdmissionAccounting.RunKeepsInv` | internal/ratelimit/queue.go:82-157 | over every run: a queued request is in the heap, popped or taken out, never in two of these places, and ready channels close only for popped requests |
| `AdmissionAccounting.ClosesOnce` | internal/ratelimit/queue.go:102-139 | no run closes a closed ready channel, pops an empty heap or exceeds maxDepth |
| `AdmissionAccounting.EveryForwardIsPaid` | internal/ratelimit/middleware.go:31-106 | in every interleaving each merchant token went to one fast-path forward, one popped request or the dispatcher's hand; no request is popped twice; forwards never exceed grants; each request past the application bucket took exactly one of its tokens; a cancelled request is out of the heap |
| `AdmissionAccounting.ServedInOrder` | internal/ratelimit/queue.go:121-139 | every run keeps first come, first served within a priority, between popped and waiting requests too |
| `AdmissionAccounting.ServedInOrderFromStart` | internal/ratelimit/queue.go:33-58 | the requests of each priority are popped in the order they were enqueued, in every interleaving |
| `AdmissionProgress.PoppedFate` | internal/ratelimit/queue.go:97-157 | in every interleaving a request the dispatcher took out belongs to a handler forwarded with it, about to see it, cancelled, or told that the queue stopped, which is then true |
| `AdmissionProgress.StoppedOnlyByStop` | internal/ratelimit/queue.go:106-171 | nobody is told that the queue stopped, and the dispatcher does not end, unless Stop was called |
| `AdmissionProgress.ReadyIsForwarded` | internal/ratelimit/middleware.go:131-156 | a handler that waits at a closed channel is one step from being forwarded with its own request, and that step changes nothing else |
| `AdmissionProgress.WhyRefused` | internal/ratelimit/middleware.go:64-128 | in every interleaving a request is refused if and only if it is in reject mode and a bucket had no token, or the queue was full or gone, or it gave up on the application bucket |
| `AdmissionProgress.UrgentFirst` | internal/ratelimit/queue.go:14-58 | wherever an interleaving takes a request out, every other one that waits has a larger priority number, or the same and came no earlier |
| `AdmissionProgress.MutexIsLocked` | internal/ratelimit/queue.go:121-145 | the dispatcher takes the mutex by Lock alone and gives it back exactly when it parks, sleeps or has popped |
| `AdmissionProgress.WakeUpsAreSignalled` | internal/ratelimit/queue.go:97-100 | the dispatcher is never woken more often than it was notified |
| `AdmissionProgress.StopReleasesAll` | internal/ratelimit/queue.go:106-171 | after Stop, from any reachable state, the dispatcher can end in five steps and every waiting handler can be told at once |
| `AdmissionService.NobodyIsStuck` | internal/ratelimit/queue.go:82-157 | from every reachable state in which the dispatcher runs, each queued request can be forwarded, in a run in which the bucket itself decides every TryConsume, in a number of steps linear in the queue |
| `AdmissionService.EverybodyCanBeForwarded` | internal/ratelimit/middleware.go:31-156 | and so can every request that has not failed, at whatever stage it is, also when the queue is full |
| `AdmissionRate.GrantsComeFromBucket` | internal/ratelimit/middleware.go:42-58 | the protocol's grants are those of the bucket, whose operations come in time order |
| `AdmissionRate.WindowRate` | internal/ratelimit/middleware.go:31-58 | in any window of any interleaving the merchant bucket hands out at most maxTokens plus the largest rate times the length |
| `AdmissionRate.WhatRefills` | internal/ratelimit/middleware.go:42-58 | the steps that bring the bucket up to date are its TryConsumes and the readings of its tokens; no other touches what it holds |
| `AdmissionRate.ForwardRate` | internal/ratelimit/middleware.go:23-156 | from the start of any interleaving, no more requests are forwarded than the burst plus rate times time |
| `AdmissionRate.ConfiguredForwardRate` | internal/ratelimit/middleware.go:23-156 | the same in the configured numbers: rate times throttle for each second |
| `AdmissionRate.ForwardRateOverLives` | internal/ratelimit/middleware.go:23-156 | over all entries a key has had, each an interleaving of its own and overlapping as they may, no more requests are forwarded than the burst plus the rate times the time, if no operation reaches a bucket that has been replaced and each would be full by then |
| `AdmissionRate.ForwardsArePaid` | internal/ratelimit/middleware.go:23-156 | every request forwarded by a handler of any of the key's entries was paid with a token of the key |
| `AdmissionRate.ForwardRateForEach` | internal/ratelimit/middleware.go:23-156 | without these conditions, no more than that for each entry the key has had |
| `Limiters.StepKeepsInv` | internal/ratelimit/limiter.go:35-61 | every step keeps an entry in the table once, or owned by one call, never both; what the collector deletes is what it stopped |
| `Limiters.NoLeakedDispatcher` | internal/ratelimit/limiter.go:35-167 | in every interleaving of callers, collector and Stop, a running dispatcher belongs to an entry of the table or to a call about to store or stop it; an entry is stopped before it is deleted |
| `Limiters.StopsAllIff` | internal/ratelimit/limiter.go:179-193 | in every run in which no call creates an entry any more, nothing runs once Stop has returned, if and only if no call holds an entry of its own |
| `Limiters.StoredAfterStop` | internal/ratelimit/limiter.go:179-193 | the run that leaks: an entry created, Stop over an empty table, the entry stored |
| `Limiters.CreatedAfterStop` | internal/ratelimit/limiter.go:35-61 | a call that misses after Stop leaks its dispatcher too |
| `Limiters.LeakLasts` | internal/ratelimit/limiter.go:179-193 | after Stop nothing but the collector ever stops a dispatcher that still runs |
| `Limiters.CallersAgree` | internal/ratelimit/limiter.go:35-61 | until the collector discards a key's entry, all calls for the key return that one entry, whether they hit, missed or lost the race |
| `Limiters.CallReturns` | internal/ratelimit/limiter.go:35-61 | wherever a call is, it returns by at most four steps of its own: the entry of the table if there is one or the endpoint is known, and otherwise none, having created none |
| `Limiters.LoadedWhileCollected` | internal/ratelimit/limiter.go:153-167 | a call that loads an entry between the collector's test and its Delete goes on with an entry that is not in the table |
| `FeedLimiters.FeedLimiter.Allow` | internal/ratelimit/feedlimit.go:40-68 | other feed types always pass; a JSON_LISTINGS_FEED submission is refused exactly when five live timestamps remain; the new map as specified |
| `FeedLimiters.PruneInPlace` | internal/ratelimit/feedlimit.go:52-58 | the loop that reuses the slice it reads leaves exactly the live timestamps, in order |
| `FeedLimiters.LiveIsExact` | internal/ratelimit/feedlimit.go:52-58 | pruning keeps every timestamp after the cutoff as often as it occurs, and no other |
| `FeedLimiters.HeldIsRecentAccepted` | internal/ratelimit/feedlimit.go:50-58 | for the submissions of one key: what is held shows, for every later time, exactly the accepted submissions inside the window |
| `FeedLimiters.EntryIsHeld` | internal/ratelimit/feedlimit.go:40-68 | after any history of calls by all sellers, the entry of a seller and region is what their own submissions left |
| `FeedLimiters.AllowedIsAccepted` | internal/ratelimit/feedlimit.go:40-68 | the submissions the limiter lets through are those the sliding-window rule accepts, for each seller and region |
| `FeedLimiters.RefusedIffFiveInWindow` | internal/ratelimit/feedlimit.go:40-68 | after any history of all sellers a submission is refused if and only if five of the seller's own in that region were let through inside the window that ends with it |
| `FeedLimiters.OtherFeedsPass` | internal/ratelimit/feedlimit.go:40-43 | after any history other feed types pass and leave all windows alone |
| `FeedLimiters.SixSpanTheWindow` | internal/ratelimit/feedlimit.go:40-68 | in any history of all sellers, six consecutive submissions of one seller and region that were let through span at least the window |
| `FeedLimiters.KeysAreApartIff` | internal/ratelimit/feedlimit.go:48-48 | sellers of two regions never share a window if and only if neither region ends with a colon and the other |
| `FeedLimiters.ColonInRegionMergesWindows` | internal/ratelimit/feedlimit.go:48-48 | two different seller and region pairs with one key |
| `MemoryCaches.MemoryCache.GetEntry` | internal/cache/memory.go:45-65 | result and new state are those of the list model; map and list stay in bijection and the byte count stays exact |
| `MemoryCaches.MemoryCache.SetEntry` | internal/cache/memory.go:67-91 | as GetEntry, for Set with its replacement and eviction |
| `MemoryCaches.SizeOf` | internal/cache/memory.go:194-204 | the loops over headers and values add up to the specified size |
| `MemoryCaches.MemoryCache.DeleteEntry` | internal/cache/memory.go:93-101 | as GetEntry, for Delete |
| `MemoryCaches.MemoryCache.DeleteWithPrefix` | internal/cache/memory.go:103-117 | as GetEntry, for DeleteByPrefix, in whatever order the map is ranged over |
| `MemoryCaches.MemoryCache.CloseCache` | internal/cache/memory.go:132-140 | as GetEntry, for Close |
| `MemoryCaches.MemoryCache.RemoveLocked` | internal/cache/memory.go:142-146 | removes one entry from list, map and byte count alike |
| `MemoryCaches.MemoryCache.EvictLRULocked` | internal/cache/memory.go:148-155 | removes the entry at the back, if there is one, and counts it |
| `MemoryCaches.MemoryCache.SweepExpired` | internal/cache/memory.go:171-192 | as GetEntry, for the background sweep and its eviction to the threshold |
| `CacheTheorems.StepRefines` | internal/cache/memory.go:45-140 | each operation keeps every entry of the cache what the unbounded map with expiry holds for its key |
| `CacheTheorems.HitsAreExact` | internal/cache/memory.go:45-192 | over every history a hit returns exactly what the unbounded map would; eviction only turns hits into misses |
| `CacheTheorems.UnlimitedIsExact` | internal/cache/memory.go:45-192 | without a byte limit the cache and the unbounded map answer every Get of every history alike |
| `CacheTheorems.EveryGetIsCounted` | internal/cache/memory.go:45-65 | over every history hits are the Gets that returned a response and hits plus misses are all Gets |
| `CacheTheorems.BudgetHolds` | internal/cache/memory.go:67-91 | over every history the bytes are within the budget, or exactly one entry is held |
| `CacheTheorems.BytesWithinBudget` | internal/cache/memory.go:67-204 | over every history the bodies and headers in the cache, written one after the other, and 128 bytes for each entry are within the budget, or exactly one entry is held |
| `CacheTheorems.EvictionsAreCounted` | internal/cache/memory.go:67-192 | the eviction counter grows by the entries a Set or a sweep dropped, and by nothing else |
| `CacheTheorems.SweepCleans` | internal/cache/memory.go:171-192 | after a sweep nothing expired is left and the bytes are within four fifths of the budget |
| `CacheTheorems.ListIsInTouchOrder` | internal/cache/memory.go:62-91 | over every history the list is in the order of the last Set or hit |
| `CacheTheorems.EvictsLeastRecentlyTouched` | internal/cache/memory.go:76-78 | what a Set evicts was touched before all it keeps, and keeping one victim more would overflow the budget |
| `CacheTheorems.SweepEvictsLeastRecentlyTouched` | internal/cache/memory.go:187-191 | what a sweep evicts for room was touched before all it keeps, and keeping one more would exceed four fifths of the budget |
| `CacheKeys.ResourcePrefixIsPrefix` | internal/cache/invalidation.go:65-72 | the resource prefix of a path is a prefix of it |
| `CacheKeys.ResourcePrefixIs` | internal/cache/invalidation.go:65-72 | trailing slashes aside, the resource prefix of a path is its parent if it has four segments or more, else the path itself |
| `CacheKeys.TargetIsExact` | internal/cache/keys.go:13-22 | path and query can be told from their text, for paths without a question mark |
| `CacheKeys.QuestionMarkInPathCollides` | internal/cache/keys.go:13-22 | with one in the path they cannot |
| `CacheKeys.TargetsAreApartIff` | internal/cache/keys.go:13-22 | two targets never share a key, whatever suffixes without a colon, if and only if neither continues the other with a colon and something without one |
| `CacheKeys.RequestKeysAreExact` | internal/cache/keys.go:13-22 | otherwise two requests of a merchant and method share a key if and only if path, sorted query and suffix are the same |
| `CacheKeys.ListingSuffixIsExact` | internal/cache/batch.go:104-124 | the element suffix of a listing offer tells SKU, marketplace, condition and customer type apart, for the first three without a colon |
| `CacheKeys.MutationReachesGets` | internal/cache/invalidation.go:13-28 | the deleted prefix opens the key of every GET of the path, with any query and suffix |
| `CacheKeys.OwnerOfPrefix` | internal/cache/keys.go:13-22 | for merchant keys without a slash, a key prefix opens a key if and only if merchant and tag agree and the rest is a prefix |
| `CacheKeys.MutationSparesOthersIff` | internal/cache/invalidation.go:13-28 | a mutation's prefix opens no key of another merchant if and only if the path is more than slashes |
| `CacheKeys.OpensIff` | internal/cache/keys.go:13-22 | a prefix opens some key of a merchant and tag, whatever the merchant key is made of, if and only if one starts with the other's fixed part |
| `CacheKeys.SkuOfListing` | internal/cache/invalidation.go:33-58 | the SKU read out of a listing path, with any number of trailing slashes, is the one it was written with |
| `CacheKeys.SkuPrefixReaches` | internal/cache/invalidation.go:33-58 | a SKU's prefix opens all its listing offers, of any marketplace, condition and customer type |
| `CacheKeys.SkuPrefixIsExact` | internal/cache/batch.go:104-124 | and none of a SKU that cannot be confused with it, among them those it is only a prefix of |
| `CacheKeys.SkuPrefixSparesIff` | internal/cache/invalidation.go:33-58 | another SKU's offers are all spared if and only if neither SKU continues the other with a colon |
| `CacheKeys.ColonInSkuOverreaches` | internal/cache/invalidation.go:33-58 | writing SKU a:b deletes an offer of SKU a |
| `Invalidation.InvalidateOnMutation` | internal/cache/invalidation.go:13-28 | what the method leaves in the cache, as a function of verb and path |
| `Invalidation.InvalidateBatchListingOffers` | internal/cache/invalidation.go:33-58 | deletes by the SKU's prefix when the path names a SKU, and otherwise nothing |
| `Invalidation.SurvivorsAre` | internal/cache/invalidation.go:13-58 | exactly which entries survive a mutation |
| `Invalidation.MutationLeavesNoGet` | internal/cache/invalidation.go:13-28 | after a mutation the merchant has no cached GET of the path |
| `Invalidation.MutationLeavesNoSibling` | internal/cache/invalidation.go:13-72 | a mutation of a path of four segments or more leaves no cached GET of its collection or of anything in it |
| `Invalidation.OtherWritesSpareOffers` | internal/cache/invalidation.go:13-58 | a write outside /listings/, or other than PUT and PATCH, leaves cached offers alone |
| `Invalidation.ListingWriteIsExact` | internal/cache/invalidation.go:33-58 | PUT or PATCH of a listing removes a cached offer of the merchant if and only if it is of that SKU, for SKUs neither of which continues the other with a colon |
| `Invalidation.OthersAreUntouched` | internal/cache/invalidation.go:13-58 | a mutation of a path that is more than slashes leaves all entries of other merchants in place, for merchant keys without a slash |
| `Invalidation.SparesIff` | internal/cache/invalidation.go:13-58 | for any two merchant keys, a mutation spares all entries of a merchant and tag, in every cache, if and only if none of the prefixes it deletes by starts with what those keys start with, or the other way round |
| `QueryKeys.SortQueryParams` | internal/cache/keys.go:25-48 | an empty query and one that does not parse are returned as they are; otherwise the text is the join of the names in their one sorted order, each with its sorted values, whatever order the map is ranged over |
| `QueryKeys.LeIsBytewise` | internal/cache/keys.go:37-42 | names and values are ordered by the first character in which they differ, smaller first |
| `QueryKeys.QueryKeyIsExact` | internal/cache/keys.go:25-48 | two queries give one text if and only if they hold the same parameters, order aside, for names and values without separators |
| `QueryKeys.SeparatorInValueCollides` | internal/cache/keys.go:25-48 | with a separator in a value two different queries give one text |
| `PostKeys.StripNonIdentityFields` | internal/cache/postcache.go:143-158 | the recursive deletion in any map order computes the stripped object |
| `PostKeys.StripIsExact` | internal/cache/postcache.go:125-158 | two bodies have one normal form if and only if they agree at every place no Identifier or clientReferenceDetails leads to |
| `PostKeys.StripIsIdempotent` | internal/cache/postcache.go:125-158 | normalising twice is normalising once |
| `PostKeys.StripKeepsForm` | internal/cache/postcache.go:125-158 | normalising leaves a body whose leaves are JSON values one |
| `PostKeys.KeysMatchIdentity` | internal/cache/postcache.go:112-121 | for one merchant and path, object bodies whose leaves are JSON values share a key if and only if they differ in nothing but tracking fields |
| `PostKeys.OtherBodiesMatchText` | internal/cache/postcache.go:112-140 | two arrays, or two bodies that do not parse, share a key if and only if their texts are the same |
| `PostKeys.PostKeysAreApart` | internal/cache/postcache.go:112-121 | two merchants and paths never share a key, for merchant keys without a slash and digests without a colon |
| `PostKeys.ArraysAreNotStripped` | internal/cache/postcache.go:143-158 | inside an array the tracking fields still tell keys apart |
| `BatchCache.HandleBatch` | internal/cache/batch.go:241-322 | a hit if and only if every element is found, with the found bodies in request order; otherwise the upstream's answer; the new cache as specified |
| `BatchCache.LookupBatchConfig` | internal/cache/batch.go:67-74 | finds an endpoint if and only if some prefix fits, and the same one in any map order when no path has two prefixes |
| `BatchCache.UnambiguousIff` | internal/cache/batch.go:35-64 | no path has two prefixes if and only if no prefix starts with another |
| `BatchCache.LookUpElements` | internal/cache/batch.go:266-290 | the loop finds all elements exactly when each single lookup does |
| `BatchCache.StoreElements` | internal/cache/batch.go:353-394 | stores exactly the successful elements that have a key |
| `BatchCache.BatchKeysAreApartIff` | internal/cache/batch.go:232-234 | two merchants and paths never share an element key, whatever the elements, if and only if neither key head is the other or continues it with a colon |
| `BatchCache.ProperIsApart` | internal/cache/batch.go:232-234 | merchant keys without a slash and paths without a colon are all apart in that sense |
| `BatchCache.OtherTagsAreApart` | internal/cache/keys.go:13-22 | nothing stored under another tag has the key of a batch element |
| `BatchCache.BatchKeepsHonest` | internal/cache/batch.go:353-394 | a batch of any endpoint keeps every cached element, of whatever endpoint, a successful upstream answer for its own key |
| `BatchCache.HitIsUpstreamAnswer` | internal/cache/batch.go:451-468 | an element served from the cache equals the upstream's answer to it, as a 200 JSON response, and its status code is a 2xx if the endpoint wraps its elements, else its status text is Success |
| `BatchCache.BatchesAreTransparent` | internal/cache/batch.go:241-394 | after any run of batches of all endpoints and other cache operations, every batch served from the cache is served what the upstream would answer, element by element, each with a 2xx status code or the status text Success |
| `BatchCache.FailedAnswerIsNotStored` | internal/cache/batch.go:353-394 | an answer that is not a 2xx or does not parse leaves nothing in the cache that was not there |
| `BatchCache.AnsweredIsServed` | internal/cache/batch.go:241-449 | without a byte limit, a batch that went upstream and was answered with a 2xx and a success for each element is a hit until its TTL has passed, in any order or subset, whatever happens to other keys in between |
| `LikeEscape.PrefixFilterIsExact` | internal/storage/sqlite.go:301-334 | the escaped text followed by % matches a value if and only if the value starts with the text, in LIKE's letter case rule |
| `LikeEscape.RawWildcardOvermatches` | internal/storage/sqlite.go:301-309 | without the escaping it would not |
| `JsonTree.SightDecides` | internal/pii/jsonpath.go:56-84 | documents that show the same at every place are equal |
| `Redaction.WalkIsExact` | internal/pii/jsonpath.go:56-110 | what one rule leaves visible at every place of the document |
| `RedactionTheorems.RedactionIsComplete` | internal/pii/engine.go:28-67 | after the whole rule list every place any rule points at shows the marker, the digest of some value or nothing |
| `RedactionTheorems.RedactionIsFramed` | internal/pii/engine.go:28-67 | a place at or above which no rule points shows what it showed |
| `RedactionTheorems.CompleteIffEndsInField` | internal/pii/jsonpath.go:56-110 | a path redacts all it points at, in every document, if and only if it ends in a field or can point at nothing |
| `RedactionTheorems.RedactionIsIdempotent` | internal/dashboard/logs.go:303-337 | with REDACT and OMIT rules a second pass changes nothing |
| `RedactionTheorems.IdempotentIff` | internal/pii/engine.go:28-67 | one rule can be applied twice without effect, in every document, if and only if it is not HASH or redacts nothing, for a digest that tells texts apart |
| `RedactionTheorems.RedactsTwiceIff` | internal/dashboard/logs.go:303-337 | a whole rule list can run twice without effect, in every document, if and only if every place a HASH rule points at is at or below one that a REDACT or OMIT rule points at, for a digest that tells texts apart |
| `RedactionTheorems.ProgramTellsTextsApart` | internal/pii/engine.go:138-151 | the program's digest tells texts apart if its hash function does, though not a text from the value with that JSON text |
| `RedactionTheorems.NotFoundIsUnchanged` | internal/pii/jsonpath.go:50-110 | a rule that reports no match has changed nothing |
| `RedactionTheorems.FindsIff` | internal/pii/jsonpath.go:50-110 | a rule reports a match if and only if its path ends in a field and points at a place of the document |
| `RedactionPaths.ParsePath` | internal/pii/jsonpath.go:10-46 | the loop over the dotted parts computes the segments |
| `RedactionPaths.ParseRendered` | internal/pii/jsonpath.go:10-110 | a written path without adjacent brackets parses to its own selectors |
| `RedactionPaths.ParsesBackIff` | internal/pii/jsonpath.go:10-110 | of the paths that can be written, exactly those without two brackets in a row parse back |
| `RedactionPaths.AdjacentBracketsAreLost` | internal/pii/jsonpath.go:10-110 | [i][j] is read as one segment that selects nothing |
| `RedactionPaths.SignedIndices` | internal/pii/jsonpath.go:88-110 | a negative number in brackets selects nothing, one with a plus sign is an index |
| `RedactionPaths.OtherBracketsSelectNothing` | internal/pii/jsonpath.go:88-110 | so does anything in brackets but a star or a number |
| `RedactionEngine.ApplyRules` | internal/pii/engine.go:39-58 | the loop over the rules leaves the document of all rules in turn and reports whether any matched |
| `RedactionEngine.RedactForLogging` | internal/pii/engine.go:28-67 | unparsable bodies are left alone; otherwise the fully redacted document and whether anything matched |
| `RedactionEngine.RedactRequestBody` | internal/pii/engine.go:80-126 | a "$" rule replaces the whole body; otherwise as RedactForLogging |
| `RedactionEngine.WholeBodyRuleNeedsRequestSide` | internal/pii/engine.go:80-126 | on the response side a "$" rule redacts nothing |
| `RedactionEngine.ConfiguredRuleRedacts` | internal/pii/engine.go:28-67 | from configured text to logged document: a rule with a simple path ending in a field leaves nothing readable where it points, whatever other rules run |
| `AsyncLogger.RunWorker` | internal/logging/logger.go:91-116 | the loop, with one buffer used again after every flush, does what the event function says |
| `AsyncLogger.RunConserves` | internal/logging/logger.go:63-116 | every run keeps what was accepted equal to what is flushed, batched and in the channel, in order |
| `AsyncLogger.NoEntryIsLost` | internal/logging/logger.go:63-116 | in every interleaving of Log, worker, ticker and Close each call is dropped and counted, or its entry is flushed exactly once, in order, in batches of at most 100; after Close nothing is pending |
| `AsyncLogger.DroppedOnlyForWantOfRoom` | internal/logging/logger.go:63-77 | over every run the calls counted as dropped are those that found the channel closed, or full with nobody waiting at it; the entries of all others are accepted, in order |
| `AsyncLogger.LogNeverBlocks` | internal/logging/logger.go:63-77 | in any state a Log call returns at once, its entry on the channel or counted as dropped |
| `AsyncLogger.FlushesAtHundred` | internal/logging/logger.go:91-116 | a received entry is flushed at once exactly when it is the hundredth of its batch |
| `AsyncLogger.TickFlushesAll` | internal/logging/logger.go:91-116 | in any run a tick leaves nothing received unflushed |
| `AsyncLogger.CloseCanReturn` | internal/logging/logger.go:79-116 | from any state in which the worker runs Close can return, in one step for each entry left and three more |
| `BodyNames.NamesAreApart` | internal/bodies/writer.go:93-95 | two hours have one file name if and only if they are the same hour |
| `BodyNames.NameReadsBack` | internal/bodies/writer.go:93-95 | the layout of a name, for years of four digits: year, month, day and hour stand where YYYY-MM-DD-HH.jsonl has them |
| `BodyNames.EarlierIsByNumber` | internal/bodies/writer.go:93-95 | the order of hours is that of the numbers YYYYMMDDHH |
| `BodyNames.HourlyIsBodyFile` | internal/bodies/rotator.go:308-325 | every hourly name is recognised as a body file |
| `BodyNames.BaseNameOfKey` | internal/bodies/rotator.go:353-365 | from any key of a file, in any tier and codec, baseFileName gives back the name in the metadata |
| `BodyNames.KeysAreApart` | internal/bodies/reader.go:36-97 | two keys have one text if and only if they are the same key |
| `BodyWriters.Writer.RotateIfNeeded` | internal/bodies/writer.go:68-91 | the file of the hour is open, created if missing, with the offset at its end unless it was open already; if it cannot be opened nothing changes |
| `BodyWriters.Writer.Write` | internal/bodies/writer.go:35-56 | succeeds exactly if the file opens, the entry marshals and the whole line is taken; then directory, handle and offset change as the Write step says and the returned reference is the one it logs; the reference lies before its line by exactly the bytes failed writes left behind |
| `BodyWriters.ReadsBackIff` | internal/bodies/writer.go:49-54 | the reference of the k-th line after a failed write reads it back if and only if that write left nothing behind, or an earlier line ends like it where the reference points; for the next line, only if nothing was left |
| `BodyTiers.WriteLandsAtOffset` | internal/bodies/writer.go:35-91 | in every reachable state the returned offset is the end of all that was written to the file |
| `BodyTiers.ReadBody` | internal/bodies/reader.go:36-82 | the probing loop finds what the first tier holding the file has |
| `BodyTiers.RunKeepsInv` | internal/bodies/rotator.go:129-251 | every run of writes, moves, crashes and deletions keeps the store's invariant |
| `BodyTiers.ReadIsRight` | internal/bodies/reader.go:36-82 | reading a past write finds its own line, or no copy of the file at all |
| `BodyTiers.BodiesAreDurable` | internal/bodies/rotator.go:129-226 | every reference ever returned reads back its line after any run, moves stopped half-way included, until purge or eviction deletes a copy of its file, and never reads anything else |
| `BodyTiers.CopiesNeverDiverge` | internal/bodies/rotator.go:129-226 | in every reachable state all copies of a file decode to the same bytes |
| `BodyTiers.NoDanglingReference` | internal/bodies/rotator.go:229-292 | in every reachable state a row's file has a copy, or is waiting for its notification |
| `BodyTiers.UnnotifiedDeletionDangles` | internal/bodies/rotator.go:367-374 | the run in which a failed notification leaves a row without a copy |
| `BodyTiers.RowsReadTheirBody` | internal/storage/sqlite.go:148-167 | in every reachable state the row of a file that was never deleted has the reference its write returned and reads back its body; the row of a deleted file has none once that was notified; a reference that is left reads back its body, or its file is waiting for its notification |
| `BodyTiers.RemovedByDeletion` | internal/bodies/rotator.go:229-292 | a file counts as deleted if and only if some purge or eviction step of the run named it |
| `BodyTiers.BodiesAreAsOldAsTheirFile` | internal/bodies/rotator.go:167-251 | retention: in every reachable state a copy older than some age holds no body younger than it, so what goes for its age was written that long ago |
| `BodyTiers.PromotionCanBeFinished` | internal/bodies/rotator.go:129-163 | wherever a crash or failure stops the rotator, every past local file can still be promoted, with all that was written to it |
| `BodyTiers.ArchivingCanBeFinished` | internal/bodies/rotator.go:167-226 | and every recent/ object archived, in any codec |
| `Rotators.Rotator.PromoteCurrentToRecent` | internal/bodies/rotator.go:129-163 | a run of upload and remove steps; a local file goes only once recent/ has it; on success only the active file is left |
| `Rotators.Rotator.CompressToArchive` | internal/bodies/rotator.go:167-226 | a run of compress and delete steps; a recent/ object goes only if it is old enough, and once an archive in the configured codec is there; on success none is left that is old enough |
| `Rotators.Rotator.PurgeExpired` | internal/bodies/rotator.go:229-251 | without an error it has deleted exactly the archive objects that are too old; if the notification, whose failure is only logged, succeeded too, no more files are outstanding than before |
| `SizeEviction.SortIsStable` | internal/bodies/rotator.go:345-347 | objects of one age stay in the order they were listed |
| `SizeEviction.SizeInventory` | internal/bodies/rotator.go:304-349 | lists every object of every tier once, oldest first, those of one age tier by tier, with their true total |
| `SizeEviction.EvictOldest` | internal/bodies/rotator.go:257-292 | the loop deletes the candidates among the items it passed, each while the rest was over budget |
| `SizeEviction.EvictionDone` | internal/bodies/rotator.go:257-292 | when the loop stops, the deleted objects are the shortest prefix of the candidates that fits the budget, or all; the tracked total is the true size of what is left; the active file survives |
| `SizeEviction.EvictBySize` | internal/bodies/rotator.go:257-292 | all of that for the method; if the notification succeeded too, no more files are outstanding than before |
| `SizeEviction.FitsOrActive` | internal/bodies/rotator.go:257-292 | after an eviction the store fits its budget or holds nothing but the active hour's file |
| `SizeEviction.RunOnce` | internal/bodies/rotator.go:85-110 | whatever fails, a pass is a run of store steps; unless a deletion or notification failed, no more notifications are outstanding than before, even if a promotion or compression failed; without an error only the active file is left locally, recent/ and archive/ hold nothing past its age, and the store fits its budget or holds nothing but the active hour's file |
| `SizeEviction.PassKeepsReferences` | internal/storage/sqlite.go:148-167 | a pass keeps the store's invariant; with no notification outstanding every reference has a copy of its file; and the rows of files not deleted keep the references their writes returned |

## Left out

- BodyTiers.BodiesAreDurable: runs of whole writes; what a partial write does to later references is stated by BodyWriters.ReadsBackIff.
- PostKeys.KeysMatchIdentity: takes it that the serialiser tells apart bodies whose leaves are JSON values; JSON text is not modelled.
- QueryKeys.QueryKeyIsExact: for names and values without the separators only; decoded values are joined unescaped, and which texts then collide has no shorter description than the texts themselves.
- Rounding of floating-point tokens and of waits to nanoseconds; the bucket computes in real numbers.
- The sweep threshold is the exact integer part of four fifths of the budget.
- The tables of endpoints, rates, tiers and redaction rules, and the resolution of throttle mode, timeout, priority and TTL: parameters of the model, decided by reading a few branches.
- The heap algorithms of the Go library are modelled from their documented behaviour.
- HTTP handling, headers, metrics, the dashboard and the web interface.
- JSON text, SHA-256, gzip, zstd and URL decoding: the model starts from parsed values and takes digest and codecs as functions, with the law decode(encode(x)) = x.
- The key extractors of the batch endpoints and the parsing and wrapping of batch bodies: functions of the endpoint; one time is used for all lookups and stores of a batch.
- The S3 and local backends and SQL execution: maps; an upload is all or nothing, and a write and its log row are one step.
- The rotator's store is one value its methods replace, so aliasing of file handles is not captured; foreign files in the local directory are not modelled.
- Rules with a mode other than REDACT, HASH and OMIT, which the program counts as matched and leaves unapplied.
- The redaction callback edits maps in place; the model computes the edited tree, and sharing inside a document does not arise.
- The flush of the logger: redaction of its entries, body writes and the metadata batch.
- Freshness of reads that overlap a mutation: invalidation runs before the upstream call, so the cache theorems are about histories of whole operations.
- Restricted data tokens, their caches and single flight: plain expiring maps around network calls.
