# Verified model of the RDAP/WHOIS lookup service

A Dafny model of the service's core: the two-tier cache with request coalescing, the per-address
rate limiter, the bootstrap index, the retrying RDAP client, the batch workers, and the parsing loops
of the WHOIS side. `dafny verify dfyconfig.toml` checks the whole project.

## How the model is organised

| file | what it models |
|---|---|
| MemoryCache.dfy | the LRU list, the state of the in-memory tier and its laws, and the class that updates it in place |
| TieredCache.dfy | histories of the two tiers (staleness, agreement), the second tier, and the class that joins both |
| Flight.dfy | any number of interleaved callers of both fetch entry points, one access per step |
| FetchThrough.dfy | the two fetch entry points as single uncontended calls on the class |
| Errors.dfy, RdapClient.dfy, DomainLookup.dfy | error trees, classification of one query, the retry loop, the WHOIS fallback, and where "not found" can come from |
| RateLimiter.dfy | the limiter as interleaved map and counter accesses, and the class that makes them in one go |
| Batch.dfy | the semaphore-bounded workers of a batch and its statistics |
| AsnText.dfy, Bootstrap.dfy, AddressIndex.dfy, DnsBootstrap.dfy | parsing and printing of AS numbers, and the three bootstrap indexes |
| WhoisText.dfy, LineParsers.dfy | the bounded chunked read, the field extractor, and the two section parsers |
| Text.dfy, DomainNames.dfy | string operations, domain validation and the two TLD extractors |
| Progress.dfy | the termination measure that callers and workers share |

Where the source mutates an object, the model is a class whose methods state the whole new state by
a function of the old one; the laws are lemmas about those functions and hold over whole runs. Where
several goroutines interleave, the model is a step system and the laws hold over every interleaving.

## What is assumed

- LRU list: the callback runs when a new key pushes out the coldest one, on removing the oldest
  entry, on removing a key and on purging; it does not run when an existing key is overwritten.
- Coalescing group: one call per key runs at a time, callers that arrive meanwhile wait for it and
  get its result.
- Atomicity: in `TierModel` one tiered operation, including its promotion, is one step. In `Flight`
  each read or write of a tier is a step of its own, and between any two of them the clock advances,
  either tier drops entries, second-tier accesses fail and callers are cancelled.
- Second tier: a map with expiry; a positive TTL ends at store time plus TTL, any other never. An
  entry is readable up to and including its expiry. A write may be made, lost, or made but reported
  as failed; a read may fail.
- The first tier may lose any entries at any time (`Lose`), which covers eviction and the moment
  between reading an expired entry and removing its key.
- Time is an integer that never goes back in `Flight` and the limiter; `TierModel` does not need that.
- Text is ASCII: lower-casing, trimming and lengths act on single characters.
- Date parsing is a parameter of the WHOIS parsers, prefix parsing one of the address index. JSON and URL decoding happen before the model.

## Results that correct a first impression

- The byte counter of the in-memory tier is not the number of resident bytes. Some entries are
  subtracted twice. `CounterExactExactlyWhen` says for every run when the two agree,
  `FittingRunsRespectBudget` bounds the resident bytes by the limit plus the gap, and
  `BudgetMultiplied` shows that the gap can grow to any number of limits, by expired Gets alone, with
  positive TTLs and a clock that never goes back. The field is commented as the maximum size in bytes (internal/cache/memory.go:18,29).
- With a second tier, one non-positive TTL makes entries live for ever there;
  `StalenessBoundedExactlyWhen` is the exact condition on the configuration.
- A failed second-tier Set, Delete or Clear that leaves an older entry behind can be seen later
  (`LostWriteVisibleExactlyWhen`), and then again from the first tier (`OlderItemRepeated`). In every
  history all hits serve the latest item exactly when no Get that misses the first tier reads an older
  entry in the second (`HitsAgreeExactlyWhen`).
- With the two tiers accessed step by step, no failed write is needed for that: a caller may promote
  what it read before a newer item was stored (`OlderReplacesNewer`). Staleness stays bounded, by TTL
  plus promotion TTL plus the delay between that read and the promotion (`StepStaleness`).
- "Readable in some tier at every moment" does not keep a fetch from starting, because an entry may
  change tiers between the two looks of a double check (`ReadableSomewhereNotEnough`).
  `FetchStartsExactlyWhen` is the exact condition; `NoFetchWhileReadable` is what holds per tier.
- `GetOrFetch` ignores the negative flag, so next to `GetOrFetchWithNegative` on the same key it can
  return the empty value of a negative entry as a success (`AbsenceServedAsSuccess`). When it cannot
  is decided by `SuccessesFetchedExactlyWhen`.
- The WHOIS client declares an error for a missing domain (internal/whois/client.go:23-24) that
  nothing returns, and every parser fills a record. A name that WHOIS calls free therefore becomes a
  positive entry that every caller is served as a success (`FreeNameServedAsSuccess`,
  `FreeNameIsCached`), and only RDAP makes a domain not-found (`NotFoundExactlyWhenRdapSays`). The
  latter rests on the type `Exchange`, which has no not-found outcome because the client has none;
  `AnswersExactlyWhen` spells out what that type allows.
- The cleaner of the limiter can delete an address that was used a moment ago, because it judges and
  deletes in two steps (`UsedEntryDeleted`). `UsedEntryDeletedExactlyWhen` says when, in every run.
- Skipping undisclosed values of a .eu response covers key/value lines. A colon-free one in a DNSSEC
  section is read as "not signed" (`UndisclosedReachesRecord`, `UndisclosedChangesExactlyWhen`).
- For AS-number ranges that overlap, the early stop can miss an answer; `CompleteExactlyWhen` says for
  which sorted lists it cannot.

## Model

| member | source | states |
|---|---|---|
| MemoryCache.MemoryCache.Get | internal/cache/memory.go:65-87 | a Get moves the state by the Get of the model: touch and hit, miss, or removal of an expired entry, subtracted by the callback and once more by Get |
| MemoryCache.MemoryCache.Set | internal/cache/memory.go:90-120 | the new state after discounting a replaced value, evicting from the cold end until the value fits, inserting and counting; it keeps exactly the entries warmer than those that had to go, and all of them when the value fits |
| MemoryCache.MemoryCache.OnEvict | internal/cache/memory.go:57-62 | the callback takes the value's length off the counter and counts an eviction |
| MemoryCache.MemoryCache.Delete | internal/cache/memory.go:123-133 | the new state after removing a key, subtracted twice |
| MemoryCache.MemoryCache.Clear | internal/cache/memory.go:136-144 | the new state: nothing resident, counter zero, every entry counted as evicted |
| MemoryModel.ApplyKeepsValid | internal/cache/memory.go:65-144 | every operation keeps entry map and recency list in agreement, free of duplicates and within capacity |
| MemoryModel.DriftStep | internal/cache/memory.go:57-133 | conservation law: how far each operation moves the counter away from the resident bytes |
| MemoryModel.InsertAccounting | internal/cache/memory.go:112-117 | an insertion accounts for its value and for what it displaces, but not for a value it overwrites |
| MemoryModel.MakeRoomDropsShortestPrefix | internal/cache/memory.go:108-113 | eviction drops exactly the shortest cold prefix that makes room, or everything |
| MemoryModel.OwnKeyEvictedExactlyWhen | internal/cache/memory.go:103-113 | a replacing Set evicts the entry it replaces exactly when what is kept warmer than it leaves no room |
| MemoryModel.CounterExactExactlyWhen | internal/cache/memory.go:57-133 | over every run with a size limit the counter never exceeds the resident bytes, and equals them exactly when nothing since the last Clear was a Delete, expired Get or self-evicting Set of a non-empty entry |
| MemoryModel.SetRespectsBudget | internal/cache/memory.go:103-117 | after every Set under a limit the counter is within it or the new entry is alone |
| MemoryModel.RunsRespectBudget | internal/cache/memory.go:57-144 | over every run the counter is within the limit or one entry too large for it stands alone |
| MemoryModel.FittingRunsRespectBudget | internal/cache/memory.go:57-144 | over every run in which every value fits the counter is within the limit, the resident bytes exceed it by the drift at most, and without drift not at all |
| MemoryModel.SetShape | internal/cache/memory.go:90-120 | a Set leaves its entry as the warmest and changes no other entry that survives |
| MemoryModel.SetFrame | internal/cache/memory.go:103-117 | a Set keeps exactly the entries warmer than those it pushes out, which are the fewest that make room and, at capacity, the coldest left; if there is a place and room for the value, every other entry stays |
| MemoryModel.HitWarms | internal/cache/memory.go:65-87 | a Get of a resident entry up to and including its last instant hands it out, makes its key the warmest, and changes nothing else but the count of hits |
| MemoryModel.RecencyIsLastUse | internal/cache/memory.go:65-120 | over every run the recency list holds the resident keys in the order of their last use, a hit or a Set |
| MemoryModel.StatisticsAddUp | internal/cache/memory.go:57-144 | over every run hits are the Gets of resident live entries, hits and misses add up to the Gets, and every entry that came in is resident or counted as evicted |
| MemoryModel.BudgetMultiplied | internal/cache/memory.go:75-83 | for every limit and every n within capacity a run ends within the counted budget with n times the limit resident; Deletes do that, and so do Gets of expired entries alone, with positive TTLs and a clock that never goes back |
| TierModel.RemoteRoundTrip | internal/cache/redis.go:86-124 | behind any history, once the first-tier copy is gone, a Get brings back what a Set put into the second tier exactly when the write reached it, the read succeeds and a positive TTL is not over; if the write did not reach it, what was there before |
| TieredCache.TieredCache.New | internal/cache/tiered.go:75-97 | a new tiered cache has an empty first tier and the remote store's content as second; it fails exactly on a non-positive number of entries or an unreachable remote store |
| TieredCache.TieredCache.Get | internal/cache/tiered.go:121-169 | answers from the first tier, else from the second, and promotes; a first-tier hit loses no entry, a miss only an expired copy of the key, and a promotion what one store pushes out; the state is that of the history step up to eviction |
| TieredCache.TieredCache.PromoteToL1 | internal/cache/tiered.go:172-194 | the promoted entry, for the promotion TTL or, when negative, the smaller of it and the negative TTL; if it fits every other entry stays, and otherwise those warmer than what it pushes out |
| TieredCache.TieredCache.Set | internal/cache/tiered.go:197-227 | stores in the first tier and, when there is one and writes are on, in the second; if the value fits every other entry stays, and otherwise those warmer than what it pushes out |
| TieredCache.TieredCache.SetWithDefaultTTL | internal/cache/tiered.go:230-236 | the same with the negative TTL for negative and the default TTL for other entries |
| TieredCache.TieredCache.Delete | internal/cache/tiered.go:239-251 | removes the key, and nothing else, from both tiers and reports the failure of the second |
| TieredCache.TieredCache.Clear | internal/cache/tiered.go:254-264 | empties both tiers and reports the second tier's failure |
| TieredCache.RunsAreHistories | internal/cache/tiered.go:121-264 | the tiers after every run of these methods are those after a history |
| TieredCache.MethodAnswers | internal/cache/tiered.go:121-264 | what a Get answers in a run of these methods was stored at most one lifetime ago, and is the latest item if no failed write left an older entry behind |
| TierModel.StalenessBound | internal/cache/tiered.go:121-236 | in every history a hit has an earlier store of the same key, value and flag, and comes at most TTL plus promotion TTL after it, however often it is promoted again |
| TierModel.DefaultStaleness | internal/cache/tiered.go:172-178 | with default TTLs: at most default TTL plus promotion TTL for positive, and at most negative TTL plus each of negative and promotion TTL for negative entries (a negative promotion TTL counts as zero) |
| TierModel.StalenessBoundReached | internal/cache/tiered.go:140-178 | for every configuration whose TTLs run out a history attains the bound, with the same TTLs spelled out |
| TierModel.StalenessBoundedExactlyWhen | internal/cache/tiered.go:31-57 | the bound holds of every history with default TTLs exactly for configurations whose TTLs run out |
| TierModel.HitsServeLatest | internal/cache/tiered.go:121-264 | if no failed second-tier write leaves an older entry behind, every hit serves the latest Set of its key not deleted since, across eviction, expiry, failed reads and promotion |
| TierModel.ReadYourWrites | internal/cache/tiered.go:121-264 | right behind a Set, whatever became of the second-tier write, a Get within the TTL is served the item just stored; right behind a Delete or Clear that reached the second tier, nothing |
| TierModel.OthersUntouched | internal/cache/tiered.go:121-251 | a Get, Set or Delete of one key changes no entry of another in either tier |
| TierModel.HitsAgreeExactlyWhen | internal/cache/tiered.go:121-264 | over every history at all, every hit serves the latest item if and only if no Get that misses the first tier reads a second-tier entry that is not the latest item |
| TierModel.OlderItemRepeated | internal/cache/tiered.go:140-194 | after a lost Set such a read promotes the older item, and the next Get serves it again from the first tier |
| TierModel.ServesOtherExactlyWhen | internal/cache/tiered.go:121-169 | after any history, a Get right after the loss of the first-tier copy serves something other than the latest item exactly when the second tier holds a readable entry that differs from it |
| TierModel.LostWriteVisibleExactlyWhen | internal/cache/tiered.go:197-264 | when exactly a lost Set, a lost Delete and a lost Clear show after the first-tier copy is gone |
| FetchThrough.GetOrFetch | internal/cache/tiered.go:317-363 | one uncontended call in plain terms: the first look that finds an entry gives its value, otherwise the fetched value is stored with the default TTL and returned, or the very error of the fetch is returned and nothing stored; cached exactly when the probe hit; the negative flag is not looked at; each look and the store lose no more of the first tier than they must |
| FetchThrough.GetOrFetchWithNegative | internal/cache/tiered.go:370-427 | the same, except that a negative entry is answered with the plain not-found error, and that an error of the fetch which means not-found is replaced by it and stored as a negative entry with the negative TTL |
| Flight.RunsKeepFlightsTracked | internal/cache/tiered.go:317-427 | over every interleaving open flights and leading callers correspond, and waiters wait for a leader of their own key |
| Flight.AtMostOneFetch | internal/cache/tiered.go:317-427 | at most one fetch per key runs at any moment, across both entry points |
| Flight.NoFetchWhileReadable | internal/cache/tiered.go:334-349 | after a flight stored an entry no fetch for its key starts while one tier goes on holding it readably |
| Flight.FetchStartsExactlyWhen | internal/cache/tiered.go:334-341 | in every run a flight starts a fetch exactly when its look at the first tier and its later look at the second both missed |
| Flight.ReadableSomewhereNotEnough | internal/cache/tiered.go:334-341 | a run in which the stored entry is always readable somewhere, no read fails, and a fetch still starts |
| Flight.StepStaleness | internal/cache/tiered.go:140-194 | in every run of the single steps, a servable first-tier entry was put into a tier at most TTL + max(0, promotion TTL + delay) ago, with delay the longest time between a second-tier read and its promotion; a servable second-tier entry at most one TTL ago |
| Flight.StepStalenessReached | internal/cache/tiered.go:140-194 | for any delay, value and three callers of one key a run serves the value TTL + promotion TTL + delay after its only store |
| Flight.OlderReplacesNewer | internal/cache/tiered.go:140-194 | for any four callers of one key a run without failing access or lost write in which an older item replaces a newer one in the first tier and is served while the second tier holds the newer |
| Flight.Provenance | internal/cache/tiered.go:317-427 | every cached item and every reply comes from a fetch for that key or was there at the start |
| Flight.ErrorsAreFetched | internal/cache/tiered.go:343-344 | in every run an error that a caller is told is the very error of a fetch for its key; the plain not-found error may instead stand for a fetch through the negative entry point that failed with an error meaning not-found, or for a negative entry that was there at the start |
| Flight.LeaderConcludes | internal/cache/tiered.go:343-351 | in every run, from the return of its fetch on, a leader has exactly this outcome: the value handed over and stored, or the very error and nothing stored, or through the negative entry point, for an error meaning not-found, the plain one and a stored absence |
| Flight.StoresWrite | internal/cache/tiered.go:197-236 | what the two stores of a flight write: value, flag, and expiry by default or negative TTL; no other key is touched |
| Flight.CacheHitTells | internal/cache/tiered.go:372-395 | what a look that finds an entry tells: not-found exactly for a negative entry through the negative entry point, else the value |
| Flight.AbsenceServedAsSuccess | internal/cache/tiered.go:319-322 | for any two callers of one key through different entry points a run in which no access fails, no fetch succeeds, and the caller of GetOrFetch is still handed the empty value as a success |
| Flight.SuccessesFetchedExactlyWhen | internal/cache/tiered.go:317-427 | from empty tiers every run hands over only fetched values exactly when no key is asked for through both entry points or negative entries can never be read |
| Flight.OneValueEverywhere | internal/cache/tiered.go:317-427 | if all fetches for a key succeed with one value, in every run both tiers hold only that value for it and every caller is told that it succeeded with it |
| Flight.NegativeEntryHasNotFoundFetch | internal/cache/tiered.go:396-405 | a negative entry comes from a fetch for that key that failed with not-found |
| Flight.JoinedCallersShareReply | internal/cache/tiered.go:327-351 | a caller that joined a flight waits until it ends and then has the leader's reply |
| Flight.SameFlightSameReply | internal/cache/tiered.go:327-351 | all callers of one flight return the same |
| Flight.CancelInvisible | internal/cache/tiered.go:328-332 | cancelling a caller past its probe changes no possible run, no tier, no flight and no reply |
| Flight.RunsAreBounded | internal/cache/tiered.go:317-427 | no run takes more than ten protocol steps per caller |
| Flight.NobodyIsStuck | internal/cache/tiered.go:317-427 | a caller that has not returned can move, or the leader it waits for can |
| RdapClient.NotFoundOnlyIfSaid | internal/rdap/client.go:401-507 | one query is not-found exactly when the server answered that the object does not exist |
| RdapClient.QueryOutcome | internal/rdap/client.go:401-507 | one query succeeds exactly with the object of a 200 answer, and otherwise its error is of exactly the kinds that a plain table gives for the answer |
| RdapClient.BackoffClosedForm | internal/rdap/client.go:51-66 | the backoff of r retries: 100(2^r - 1) ms up to six, then 3200 ms for each further one |
| RdapClient.ScheduleIsServerMajor | internal/rdap/client.go:347-352 | attempt j of server i is number i(maxRetries + 1) + j |
| RdapClient.FirstDecisiveDecides | internal/rdap/client.go:370-391 | the outcome is the verdict of the first decisive attempt, and none is made after it |
| RdapClient.FirstStopDecides | internal/rdap/client.go:342-391 | in terms of the answers alone: the first attempt, in the order of servers and retries, that answers with an object, says not-found or carries the end of the context decides; its object, or an error of exactly its kinds, is the result, and attempt j of server i is then query number i(maxRetries + 1) + j + 1 |
| RdapClient.NothingStopsExhausts | internal/rdap/client.go:342-397 | if no attempt does, all are made and "all servers failed" wraps exactly the kinds of error of the last one |
| RdapClient.QueryWithRetry | internal/rdap/client.go:342-397 | the nested loop hands over the outcome of the first attempt whose answer stops it, makes exactly the attempts up to it, and asks for no more backoff than the closed form; an exhausted loop made all of them; with a negative number of retries none is made |
| RdapClient.ExhaustedCarriesNoVerdict | internal/rdap/client.go:392-396 | "all servers failed" never wraps not-found or the end of the context |
| DomainLookup.RetryNotFoundExactlyWhen | internal/rdap/client.go:342-397 | the retry loop ends in not-found exactly when its first decisive attempt is a server saying so |
| DomainLookup.FetchNotFoundExactlyWhen | internal/api/lookup.go:198-277 | fetching a domain ends in not-found exactly when an RDAP server or the WHOIS side reported it |
| DomainLookup.FetchSucceedsExactlyWhen | internal/api/lookup.go:198-277 | exactly when fetching a domain succeeds, and with which bytes: the encoded object of the first RDAP answer that ends the query, or, for a name without RDAP server, the encoded WHOIS record |
| DomainLookup.FetchFailsExactlyWith | internal/api/lookup.go:198-277 | which kinds of error a failed fetch has, for every kind, in terms of the answers |
| NegativeCaching.NegativeEntriesAreReported | internal/cache/tiered.go:397-405 | over every interleaving, whatever is fetched for other keys, a negative entry for a domain's key is in a tier only if an RDAP server or the WHOIS side reported not-found for that key |
| WhoisFallback.FetchDomainViaWHOIS | internal/api/lookup.go:234-277 | querying, parsing and encoding: an answer of the modelled registries always ends in its record, never in not-found |
| WhoisFallback.FreeNameSucceeds | internal/api/lookup.go:254-276 | a response that says the name is free is a success with a record of that name and low confidence |
| WhoisFallback.FreeNameFetched | internal/api/lookup.go:198-277 | the whole fetch for a name without RDAP server whose WHOIS response says it is free succeeds with the bare record |
| NegativeCaching.FreeNameServedAsSuccess | internal/cache/tiered.go:317-427 | over every interleaving, if each fetch for a key is for such a name, the tiers hold only the positive entry of the bare record, and every caller through either entry point is told that it succeeded |
| NegativeCaching.FreeNameIsCached | internal/cache/tiered.go:344-351 | from any state in which such a fetch runs: it stores that entry, and a later caller within the TTL, through either entry point, is served it as a success |
| WhoisFallback.AnswersExactlyWhen | internal/whois/client.go:23-24 | what the next result assumes of the WHOIS side: a query may fail, but not with not-found, and an answer is always parsed |
| WhoisFallback.NotFoundExactlyWhenRdapSays | internal/api/lookup.go:198-277 | with such WHOIS answers a domain is not-found exactly when an RDAP server says so first |
| NegativeCaching.NegativeEntriesComeFromRdap | internal/cache/tiered.go:397-405 | so a negative entry for a domain's key always goes back to an RDAP server |
| RateLimiter.RunsKeepInvariant | internal/api/ratelimit.go:73-242 | conservation and capacity hold in every reachable state |
| RateLimiter.CountersConserved | internal/api/ratelimit.go:109-113 | each map holds its counter plus inserts not yet counted minus deletions not yet counted |
| RateLimiter.CountersExactWhenQuiescent | internal/api/ratelimit.go:202-227 | counters and maps agree in every quiescent state |
| RateLimiter.CapacityBound | internal/api/ratelimit.go:73-174 | with at most N calls in flight neither map exceeds its limit - 1 + N |
| RateLimiter.CapacityBoundAttained | internal/api/ratelimit.go:96-113 | a run attains that bound for the address map, for every limit and every N |
| RateLimiter.SubnetBoundAttained | internal/api/ratelimit.go:142-174 | a run attains that bound for the subnet map, given as many callers from different subnets |
| RateLimiter.UsedEntryDeletedExactlyWhen | internal/api/ratelimit.go:193-213 | in every run, each deletion of an address follows a judgement that it is stale, and the deleted entry is a recently used one exactly when the last call to touch it in between began recently |
| RateLimiter.UsedEntryDeleted | internal/api/ratelimit.go:202-213 | a run deletes an address at the very moment of its last use, for every address and all limits |
| IPRateLimiter.IPRateLimiter.constructor | internal/api/ratelimit.go:55-69 | a new limiter is empty and has the configured limits |
| IPRateLimiter.IPRateLimiter.GetLimiter | internal/api/ratelimit.go:73-115 | which limiter an address gets and what is stored; refused exactly when it and its subnet are unknown and both maps are full; the accesses are a run of the step system |
| IPRateLimiter.IPRateLimiter.GetSubnetLimiter | internal/api/ratelimit.go:142-174 | the same for the subnet fallback |
| IPRateLimiter.IPRateLimiter.Cleanup | internal/api/ratelimit.go:193-242 | one pass keeps exactly the entries used in the last ten minutes in both maps |
| IPRateLimiter.IPRateLimiter.GetThenCleanup | internal/api/ratelimit.go:73-242 | an address let in, or its subnet, left alone and then swept is kept exactly if at most ten minutes have passed |
| Batch.HoldersBounded | internal/api/lookup.go:525-538 | never more than the configured number of workers hold a slot |
| Batch.FinishedWritesEachSlotOnce | internal/api/lookup.go:528-562 | when the wait ends slot i was written exactly once, with query i's type and value: the outcome of looking query i up in that run, or the timeout if the deadline passed |
| Batch.FinishedResultsTell | internal/api/lookup.go:588-650 | when the wait ends each slot holds what looking its query up gave: data and cache flag, the text for its error by a plain table, or why it was not looked up; or, past the deadline, the timeout |
| Batch.NeverStuck | internal/api/lookup.go:528-564 | with a positive concurrency, or past the deadline, no unfinished batch is stuck |
| Batch.StepsMakeProgress | internal/api/lookup.go:528-564 | every step of the batch brings it closer to its end |
| Batch.RunsAreBounded | internal/api/lookup.go:528-564 | no run takes more than six steps per query and one to end |
| Batch.NoSlotsOnlyTimeouts | internal/api/lookup.go:533-546 | with no slots at all every result is the timeout |
| Batch.CalculateStats | internal/api/lookup.go:566-577 | the counts are the numbers of slots without error, with error and from the cache |
| Batch.FinishedStatsAddUp | internal/api/lookup.go:564-577 | for every finished batch the counts fit the queries and cache hits are successes |
| AsnText.ParsePrint | internal/bootstrap/loader.go:367-394 | parsing a 32-bit number inverts printing it in decimal |
| AsnText.ParseASNInvertsPrint | pkg/rdaplookup/standalone.go:753-764 | parsing an AS number inverts printing it, with or without the prefix, on 1 to 2^32 - 1 |
| AsnText.ParseRangeInvertsPrint | internal/bootstrap/loader.go:367-394 | parsing a range inverts printing its bounds; bounds in the wrong order are refused |
| AsnText.ParsedRangeIsOrdered | internal/bootstrap/loader.go:385-391 | a parsed range is ordered and within 32 bits |
| AsnText.ParsesExactlyDecimals | internal/bootstrap/loader.go:372-390 | a number is accepted exactly as zeros and its decimal form, up to 32 bits |
| AsnText.ParsesExactlyASNs | pkg/rdaplookup/standalone.go:753-764 | an AS number is accepted exactly as a positive number with an optional prefix in any letter case and space around it |
| AsnText.ParsesExactlyRanges | internal/bootstrap/loader.go:367-394 | a range is accepted exactly as one number, or as two in order with a hyphen between |
| AsnBootstrap.ParseServiceEntry | internal/bootstrap/loader.go:330-364 | the texts of the first list are the keys and those of the second the URLs, in order, whatever else stands between them; nothing exactly when a list or all its texts are missing |
| AsnBootstrap.ServiceExactlyWhen | internal/bootstrap/loader.go:330-364 | a service gives these keys and URLs if and only if its lists spell them, and nothing if and only if it is malformed |
| AsnBootstrap.ASNBootstrap.LoadASN | internal/bootstrap/loader.go:243-286 | the index is sorted and holds exactly the ranges of the file |
| AsnBootstrap.ASNBootstrap.ResolveASN | internal/bootstrap/resolver.go:172-201 | sound on any sorted list; the answer is that of the range starting last before the number, and the backward loop looks at one range at most |
| AsnBootstrap.LookupRefinesScan | internal/bootstrap/resolver.go:180-200 | without overlap that answer is the answer of a linear scan of the file |
| AsnBootstrap.CompleteExactlyWhen | internal/bootstrap/resolver.go:187-200 | on any sorted list the lookup is complete for all numbers exactly when no range shadows a gap that an earlier one covers |
| AsnBootstrap.NonDecreasingEndsSuffice | internal/bootstrap/resolver.go:187-200 | ends that never decrease are enough for that |
| AsnBootstrap.LoadAndResolve | internal/bootstrap/loader.go:243-286 | for any file without overlapping ranges: a number gets exactly the URLs of the service that lists a range with it, and the index is uninitialized exactly when no service lists a range |
| AddressIndex.GetAfterInsert | internal/bootstrap/types.go:254-270 | the prefix index holds for each network what was last inserted |
| AddressIndex.ContainingIsExact | internal/bootstrap/resolver.go:87-90 | the containing networks of an address are exactly its inserted prefixes |
| AddressIndex.LinearBestIsLongest | internal/bootstrap/resolver.go:91-109 | the reference scan finds the longest inserted prefix of the address |
| AddressIndex.NoneCoversExactlyWhen | internal/bootstrap/resolver.go:91-93 | not-found exactly when no inserted prefix covers the address |
| AddressIndex.EqualLengthCoversAgree | internal/bootstrap/types.go:254-270 | two prefixes of equal length that cover one address are the same network |
| AddressIndex.IPBootstrap.Load | internal/bootstrap/loader.go:127-182 | the index holds the prefixes of the file in file order; malformed service entries and keys that are no prefix of the family are skipped |
| AddressIndex.IPBootstrap.ResolveIP | internal/bootstrap/resolver.go:123-159 | the answer is that of the reference longest-prefix scan, with the error cases, for both address widths |
| AddressIndex.LoadAndResolve | internal/bootstrap/resolver.go:123-159 | for any file and either width: an address gets exactly the URLs of the last service that lists the longest prefix covering it; each error in exactly its case |
| DnsBootstrap.DNSBootstrap.LoadDNS | internal/bootstrap/loader.go:93-124 | the table answers each label with the last service entry that lists it, in any letter case |
| DnsBootstrap.DNSBootstrap.ResolveDomain | internal/bootstrap/resolver.go:21-46 | the answer and every error of resolving by the last label |
| DnsBootstrap.LoadAndResolve | internal/bootstrap/resolver.go:21-46 | for any file: an accepted name gets exactly the URLs of the last service that lists its last label, in any letter case; it is never invalid, and the table is uninitialized exactly when every service is malformed |
| WhoisReader.ReadResponse | internal/whois/client.go:246-279 | for any split into chunks: too large exactly when the stream exceeds the limit, otherwise the read error or the whole stream; never more than the limit is held |
| FieldExtractor.Extract | internal/whois/parser.go:91-115 | the first match, line by line and pattern by pattern, or the empty text |
| FieldExtractor.ExtractAll | internal/whois/parser.go:119-145 | every match once, in order of first occurrence |
| FieldExtractor.ExtractIsHeadOfAll | internal/whois/parser.go:91-145 | the first gives the head of the second or nothing; the second repeats no value and misses none |
| FieldExtractor.FindsExactlyWhen | internal/whois/parser.go:91-115 | a pattern finds a value exactly in a line that writes it behind its first colon and mentions the pattern with a colon |
| FieldExtractor.ExtractsFirstNamed | internal/whois/parser.go:91-115 | from a response of fields, the value extracted is that of the first field whose key ends with one of the patterns, in any letter case, and nothing if there is none |
| Sections.GoverningStep | internal/whois/parsers/eu.go:79-110 | keeping one current section line by line finds the section of the most recent header not ended since |
| Sections.GovernsExactlyWhen | internal/whois/parsers/eu.go:90-110 | which section governs a line, both ways |
| Sections.PairsComeFromLines | internal/whois/parsers/de.go:67-124 | a section gets exactly the key/value lines that it governs |
| WhoisRecord.ContactHolds | internal/whois/parsers/de.go:164-189 | a contact exists exactly when its section has a line, and holds the last value given for each field |
| WhoisRecord.AddressHolds | internal/whois/parsers/de.go:170-175 | its address is all its address lines joined in order |
| DEParser.MainHolds | internal/whois/parsers/de.go:135-161 | what each top-level field holds in terms of the lines with its key |
| DEParser.FlagHolds | internal/whois/parsers/de.go:154-159 | the DNSSEC flag is that of the last line that sets it, and absent if none does |
| DEParser.ContactAddress | internal/whois/parsers/de.go:164-189 | the joined address for every response |
| DEParser.PairStep | internal/whois/parsers/de.go:95-123 | a key/value line extends the folds of the sections that hold its governing one, and no other |
| DEParser.Parse | internal/whois/parsers/de.go:43-132 | each part of the record is the in-order fold of exactly its sections' key/value lines; the confidence is low exactly for the three phrases that say the name is free, and then the record is the bare name |
| DEParser.HeadingsName | internal/whois/parsers/de.go:88-118 | for a response of one section, written out: which contact its heading fills in, whatever its lines |
| DEParser.ContactKeysMean | internal/whois/parsers/de.go:164-189 | which field of a contact each key sets, in any letter case, and that no other key sets any |
| DEParser.MainKeysMean | internal/whois/parsers/de.go:135-161 | the same for the keys outside any section |
| DEParser.NameserverRead | internal/whois/parsers/de.go:218-229 | a host is read in lower case, without the dot at its end and without the address behind it |
| DEParser.LineKinds | internal/whois/parsers/de.go:67-79 | blank lines and comments say nothing; a line is a heading exactly when it stands in brackets |
| EUParser.ContentStep | internal/whois/parsers/eu.go:105-162 | a content line extends the part that its governing section makes, and no other |
| EUParser.Parse | internal/whois/parsers/eu.go:56-171 | each part of the record comes from exactly the lines its section governs; the confidence is low exactly for the three phrases that say the name is available, and then the record is the bare name |
| EUParser.HeadingsName | internal/whois/parsers/eu.go:90-162 | for a response of one section, written out: which contact its heading fills in, whatever its lines, and that the section of keys changes nothing |
| EUParser.ContactKeysMean | internal/whois/parsers/eu.go:188-202 | which field of a contact each key sets, in any letter case, and that no other key sets any |
| EUParser.RegistrarKeysMean | internal/whois/parsers/eu.go:204-212 | the same for the registrar |
| EUParser.MainKeysMean | internal/whois/parsers/eu.go:174-185 | the same for the top level |
| EUParser.SectionLinesMean | internal/whois/parsers/eu.go:113-161 | what a line of the nameserver section adds, and which texts of the DNSSEC section say signed |
| EUParser.LineKinds | internal/whois/parsers/eu.go:79-110 | blank lines and comments say nothing; a heading ends with its only colon; exactly the indented other lines stay in their section |
| EUParser.MainHolds | internal/whois/parsers/eu.go:174-185 | what name, status and date hold in terms of the top-level lines with their keys |
| EUParser.FlagHolds | internal/whois/parsers/eu.go:122-161 | the DNSSEC flag is that of the last line of a DNSSEC section, and absent if there is none |
| EUParser.NameserverComesFromLine | internal/whois/parsers/eu.go:114-121 | the nameservers are exactly the usable colon-free lines of nameserver sections |
| EUParser.NothingUndisclosed | internal/whois/parsers/eu.go:132-134 | no key/value line with an empty or undisclosed value is handed to a section |
| EUParser.UndisclosedChangesExactlyWhen | internal/whois/parsers/eu.go:113-134 | an undisclosed line leaves the record as it is, except that a colon-free one in a DNSSEC section says that the domain is not signed |
| EUParser.UndisclosedReachesRecord | internal/whois/parsers/eu.go:113-127 | the response of a DNSSEC heading and an indented line "NOT DISCLOSED!" is parsed to a record that says the domain is not signed |
| DomainNames.ValidateDomain | internal/validate/input.go:50-92 | accepts exactly the acceptable names and otherwise says what is wrong with the first bad label |
| DomainNames.SpelledAlike | internal/validate/input.go:55-59 | letter case and one dot at the end make no difference to which names are accepted |
| DomainNames.AcceptedNamesRouteAlike | internal/whois/discovery.go:298-315 | both TLD extractors find the same non-empty last label of an accepted name |
| DomainNames.ExtractorsAgreeExactlyWhen | internal/bootstrap/resolver.go:206-221 | on any text the two extractors differ exactly by the space that one of them trims |

## Left out

- The replacement of a non-positive fetch timeout by a default when a tiered cache is made.
- Integer widths of the counters in the cache and the limiter: sizes and counts are unbounded.
- The second-tier store itself: the class is a stand-in with the behaviour stated above.
- Second-tier details: rounding of TTLs to milliseconds, the special meaning of a TTL of minus one nanosecond, key prefixes and scanning.
- Metrics, logging, HTTP routing and responses, the server allowlist, and the entity and IP lookups of the API, which repeat the domain path.
- Filling of token buckets, and the warnings near capacity: the limiter hands out an entry and that is where the model ends.
- Touching an entry that the cleaner has just deleted: the model finds such an entry no longer, the source updates a detached one.
- Classifying an address into its subnet is a parameter of the limiter.
- The prefix ranger is a bit trie with the contract the source relies on; host bits in its keys and IPv4 addresses mapped into IPv6 are not part of this model.
- The order in which sorting leaves ranges with equal starts: any order is allowed.
- Sub-records of a parsed WHOIS answer are values inside the record, not separate objects; the two loops of each parser share the fold of key/value lines, and each line is classified before it is handled.
- `Extract` and `ExtractAll` share one function that finds a pattern in a line, including the test for skipped lines.
- Regular expressions and Unicode: the label pattern is a predicate and text is ASCII.
- The raw response text and the error list of a WHOIS parse result.
- WhoisFallback.FetchDomainViaWHOIS: covers the two modelled registries; the parsers of the others fill a record in the same way but are not part of this model.
- WhoisFallback.NotFoundExactlyWhenRdapSays: assumes that a WHOIS query never reports a missing domain, which is how the client is written, not something the parsers prove.
- NegativeCaching.NegativeEntriesComeFromRdap: makes the same assumption.
- RateLimiter.UsedEntryDeletedExactlyWhen: states it for the address map; the subnet map is judged and deleted in the same two steps.
- The remaining WHOIS parsers, the standalone client's own cache path and the command-line tools, which would add members of the same shape.
- FetchThrough.GetOrFetch: one uncontended call; interleaved callers are the subject of `Flight`.
- FetchThrough.GetOrFetchWithNegative: the same.
- Flight.NobodyIsStuck: says that a step is possible, not that the scheduler takes it.
- Batch.NeverStuck: without slots and before the deadline workers can only wait, as in the source; configurations with no slots are rejected elsewhere.
