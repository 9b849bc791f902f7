# Albion REST API: a verified model

A Dafny model of the parts of the Albion REST API where several steps have to fit together: the batch
trade query, the registry swap with its caches, the rate limiter, the batch, scan and paging logic of
the trade endpoints, the quote batching of the order lists, and the rewrite of the YAML settings.
`dafny verify dfyconfig.toml` checks the whole project.

## What the files hold

- `SlidingWindow.dfy`, `RateLimiter.dfy`, `RateHeaders.dfy`: the specification is a limiter that keeps
  every admission for ever and counts those of the last sixty seconds. The class `RateLimiter` is the
  limiter as built (one deque, a map of deques, a clean-up on every 1024th per-key call) and is proved to
  answer every call as the specification does; `Serve` states this over whole runs in which global and
  per-key checks interleave freely. Safety, independence of keys and the truth of the headers are proved
  of the specification. Instants are nanoseconds and are arguments of the calls; they never run backwards
  under one lock, because the clock is read while the lock is held. `CheckWindow` is the part the global
  and the per-key check have in common. The wall clock is a second argument, in nanoseconds; the header shows
  whole seconds of it. Where the two clocks are compared, the wall clock is taken to run evenly.
- `RegistryModel.dfy`, `RegistryInvariant.dfy`, `RegistryTheorems.dfy`, `RegistrySteps.dfy`,
  `RegistryHistory.dfy`: the swap of the provider as a step system. A step is what happens between two suspension points. Handlers that take
  the read lock before they look into a cache (`Guarded`) run beside handlers that take it only inside the
  fetch (`Unguarded`), any number of registry updates (`Writer`), and eight caches that may forget any
  entry at any time. The lock is first come, first served, as tokio's is, which matters for deadlock.
  Invalidation clears one cache per step. Each cached value is tagged with the provider version it was
  fetched from, or as coming from the direct fetcher, which is fixed at startup.
- `OrderTables.dfy`, `TakeAttribution.dfy`, `ClearPairing.dfy`, `TradeId.dfy`, `TradeGrouping.dfy`,
  `BatchFetch.dfy`, `DirectTruth.dfy`: the batch trade query as relations over tables, its answer as any
  arrangement the `ORDER BY` permits, and the loop that groups it. The `order_add_events` part is folded
  into the join conditions that read it. `SELECT DISTINCT` gives a set, `UNION ALL` a sum of multisets.
- `AppCache.dfy`, `RegistryServer.dfy`, `TradesBatch.dfy`: the caches as objects that may forget, where what
  they forget at each use is given and everything is proved for whatever it is; a server of
  cached endpoints whose provider can be replaced, for requests one after another; and the batch endpoint,
  with the direct fetcher and the library as its two sources. The contract of the batch endpoint says what
  is served and what is put into the cache whatever the sources answer; when that is true is a second step,
  and `DirectTruth.SourcesAreTrueIff` says exactly when both sources are.
- `OrderScan.dfy`, `TradePages.dfy`, `TradesByAddress.dfy`, `TradesByTx.dfy`: reading all orders page by
  page, the stable sort and the cut of a page, and the totals of a transaction over exact rationals.
- `QuoteBatch.dfy`, `OrderQuotes.dfy`: quotes fetched chain by chain and put back at the places of their
  orders, and the order lists built on them.
- `Metaboards.dfy`: the rewrite of the settings as a two-state transducer over lines.
- `Wrappers.dfy`, `Multisets.dfy`: optional values and results; lists with the same elements.

Methods follow the code where it changes state in loops; each is proved against a function or a relation
whose own properties are proved beside it.

## Where the code does less than one might expect

Each of these is proved, together with the exact condition under which the expected property holds.

- A batch trade query can give the take of one order to another: the additions it considers are those of
  the requested orders only, so of two requested orders with the same owner and nonce the later addition
  wins. `TakeAttribution.BatchIsExactIff` says exactly when the batch agrees with the single queries;
  `TakeAttribution.SharedNonceLosesRow` is an instance where it does not. The clear parts always agree.
- The direct fetcher is set up for the first configured orderbook only (`src/main.rs:288-334`), while the
  library searches all of them. An order of another orderbook is answered, and cached, as having no trades:
  `DirectTruth.DirectIsTrueIff` is the exact condition, `DirectTruth.OtherOrderbookIsMissed` says what every
  such request comes to, and `DirectTruth.SecondOrderbookIsNotCovered` is an instance with two orderbooks.
- `docs/src/rate-limiting.md` and `docs/src/errors.md` promise that waiting 60 seconds after a 429 is
  enough. It is, unless the oldest admission counted at the rejection was made at the very instant of the
  rejection (`RateHeaders.RetryAfterSixtySeconds`, `RateHeaders.RetryAfterSixtyCanFail`).
- The instant in `X-RateLimit-Reset` is too early: a retry at it is always rejected. A second later it is
  admitted if and only if the parts below a second that the header cuts off, of the time of day and of the
  time left, add up to less than a second, and two seconds later it always is
  (`RateHeaders.RetryAtResetIff`, `RateHeaders.RetryAtResetCanFail`). The instant can lie before the answer
  (`RateHeaders.ResetWithinAMinute`).
- `neutralize_metaboards` is idempotent unless a copied line ends in a carriage return of its own
  (`Metaboards.IdempotentIff`, `Metaboards.SecondPassCanChange`). A `metaboards:` section is left in force,
  with its entries, if and only if an odd number of such sections precede it with nothing in between
  (`Metaboards.SectionKeptIff`, `Metaboards.MiddleSectionSurvives`).
- A lookup that fails in the orderbook that holds an order is passed over, and the order is reported, and
  cached, as having no trades (`TradesBatch.LibraryIsTrueIff`, `TradesBatch.FailedLookupIsCached`).
- The two caches whose handlers take the lock late can keep a value of an old provider after an update has
  been answered (`RegistryHistory.UnguardedCanStayStale`). A value in them is of an old provider exactly if a
  fill that had fetched its version was in flight at a swap (`RegistryHistory.StaleIffInFlight`).
- Page 0 of the trades of an owner is page 1 under another number and claims that there are more pages
  whenever there are trades (`TradePages.PageZeroRepeats`).
- A trade without output is shown with ratio 0 while its input still counts in the average. The average lies
  between the ratios shown if no trade has input and no output, and every such trade spoils it in some company
  (`TradesByTx.AverageIsBetween`, `TradesByTx.HarmlessIff`, `TradesByTx.NoOutputBreaksBound`).
- A hash repeated in one batch request comes back empty from the second time on; the first time it comes
  back as cached or fetched (`TradesBatch.ProcessTradesBatch`).

## Model

| member | source | states |
|---|---|---|
| SlidingWindow.NeverOverLimit | src/fairings/rate_limiter.rs:67-155 | over every run and every closed interval of sixty seconds anywhere in time, admissions stay within the limit, overall and per key |
| SlidingWindow.RejectedIffFull | src/fairings/rate_limiter.rs:81-103 | in every run a call is turned away exactly when the limit's worth of admissions lies in the sixty seconds up to it |
| SlidingWindow.ScopesAreIndependent | src/fairings/rate_limiter.rs:129-133 | the verdicts a key (or the global limit) sees in any run are those of the run with only its own calls |
| SlidingWindow.SpreadBoundsEveryWindow | src/fairings/rate_limiter.rs:80-82 | if any n+1 successive admissions span more than a minute, no closed minute holds more than n |
| SlidingWindow.AdmissionKeepsSpread | src/fairings/rate_limiter.rs:78-82 | admitting only when fewer than n admissions are recent keeps that spread |
| RateLimiting.PruneWindow | src/fairings/rate_limiter.rs:45-49 | popping from the front leaves exactly the window from the first instant not older than the cutoff |
| RateLimiting.ComputeReset | src/fairings/rate_limiter.rs:51-65 | the front of the deque leaves the window within the second that follows the seconds added to the time of day; never more than sixty, none once it has left |
| RateLimiting.RetainFresh | src/fairings/rate_limiter.rs:122-127 | keeps exactly the keys whose pruned window is not empty, with that window |
| RateLimiting.PruneKeepsHold | src/fairings/rate_limiter.rs:79-80 | pruning at any instant loses no admission that any later call could count |
| RateLimiting.CheckAgrees | src/fairings/rate_limiter.rs:78-103 | the check on the deque gives the verdict, headers included, of counting the full log |
| RateLimiting.CheckKeepsHold | src/fairings/rate_limiter.rs:80-82 | after the check the deque still stands for the full log, at every later instant |
| RateLimiting.RetainKeepsKeys | src/fairings/rate_limiter.rs:122-127 | the clean-up loses nothing that a later call of any key could count |
| RateLimiting.RateLimiter.constructor | src/fairings/rate_limiter.rs:35-43 | the empty limiter stands for the empty log |
| RateLimiting.RateLimiter.CheckGlobal | src/fairings/rate_limiter.rs:67-104 | same decision, remaining and reset as the limiter that never forgets; windows stay sorted and within the limit |
| RateLimiting.RateLimiter.CleanUp | src/fairings/rate_limiter.rs:122-127 | after a clean-up every stored key has an admission in the last sixty seconds, and no key has lost one |
| RateLimiting.RateLimiter.CheckPerKey | src/fairings/rate_limiter.rs:106-155 | same for the per-key check; the clean-up on every 1024th call cannot be observed |
| RateLimiting.StorageIsBounded | src/fairings/rate_limiter.rs:118-133 | stored keys are bounded by the keys with an admission in the minute before the last clean-up plus the calls since |
| RateLimiting.Serve | src/fairings/rate_limiter.rs:67-155 | whole runs of interleaved checks are answered call by call as by the limiter that never forgets |
| RateHeaders.VerdictMeans | src/fairings/rate_limiter.rs:67-104 | no headers exactly without a limit; admission exactly if fewer than the limit are recent; the headers name the limit and what is left of it, nothing after a rejection; only admissions are kept |
| RateHeaders.ResetMeans | src/fairings/rate_limiter.rs:82-102 | the reset of every answer, admitted or rejected, names the second in which the first admission now counted leaves the window |
| RateHeaders.FirstIsOldest | src/fairings/rate_limiter.rs:56-61 | in every run that first admission is the oldest one counted |
| RateHeaders.ResetWithinAMinute | src/fairings/rate_limiter.rs:51-65 | the advertised instant lies less than a second before the answer and at most sixty seconds after it, and before it exactly if it names the current second and that second has begun |
| RateHeaders.RemainingIsExact | src/fairings/rate_limiter.rs:81-92 | after an admission reporting r remaining, exactly r more calls at that instant succeed |
| RateHeaders.RetryAdmittedIff | src/fairings/rate_limiter.rs:80-103 | with nothing admitted in between, a retry succeeds exactly when the oldest counted admission has left the window |
| RateHeaders.OffsetIsOneSecondEarly | src/fairings/rate_limiter.rs:57-61 | counted from the rejection on the monotonic clock, a retry after the header's offset is always rejected, a second later always admitted |
| RateHeaders.RetryAtResetIff | src/fairings/rate_limiter.rs:52-61 | by the wall clock, a retry at the advertised instant is always rejected, one second after it admitted if and only if the cut-off fractions add up to less than a second, two seconds after it always admitted |
| RateHeaders.RetryAtResetCanFail | src/fairings/rate_limiter.rs:52-61 | a run in which a retry one second after the advertised instant is rejected again |
| RateHeaders.RetryAfterSixtySeconds | src/error.rs:103-105 | a retry after exactly sixty seconds succeeds if and only if the oldest counted admission predates the rejection; after longer, always |
| RateHeaders.RetryAfterSixtyCanFail | src/error.rs:103-105 | a run in which a retry after exactly sixty seconds is rejected again |
| RegistryInvariant.NextKeepsInv | src/routes/admin.rs:53-76 | every step of every process keeps the lock, queue, flight, version, setting and cache invariants |
| RegistryInvariant.RunKeepsInv | src/routes/admin.rs:53-76 | they hold in every state reachable from startup |
| RegistryInvariant.EveryCacheIsRegistered | src/main.rs:138-146 | no cache is missing from the group that an update clears |
| RegistryTheorems.StaleOnlyUntilCleared | src/routes/admin.rs:65-76 | a value of version e in a lock-first cache implies that no installer of a later version has cleared that cache yet |
| RegistryTheorems.AnsweredUpdateIsSeen | src/routes/trades.rs:696-701 | once an update is answered, a handler holding the lock finds nothing older in its cache |
| RegistryTheorems.QuietCaches | src/cache.rs:78-82 | with all updates finished every cached value was inserted under the live version, and in lock-first caches is of the live version |
| RegistryTheorems.SettingMatchesProvider | src/routes/admin.rs:65-75 | whenever nobody holds the write lock the stored registry url is the live provider's |
| RegistryTheorems.FailedUpdateChangesNothing | src/routes/admin.rs:58-72 | a failed update installed nothing and the setting is never left at its url |
| RegistryTheorems.GuardedWaitsOnHolder | src/cache.rs:33-40 | a handler waiting for a flight with the lock in hand waits for one that holds the lock too |
| RegistryTheorems.NoDeadlock | src/routes/swap/quote.rs:41-50 | in every reachable state with an unfinished process some process can move |
| RegistryTheorems.RunsEnd | src/routes/admin.rs:53-76 | every run makes at most as many moves as its processes have steps |
| RegistrySteps.HitIsServed | src/cache.rs:33-40 | a cached value is served without touching anything shared |
| RegistrySteps.MissStartsFlight | src/cache.rs:33-40 | a miss without a flight starts exactly one |
| RegistrySteps.MissWaitsForFlight | src/cache.rs:33-40 | a miss behind a flight waits for it |
| RegistrySteps.WaiterGoesOnAfterFlight | src/cache.rs:33-40 | a waiter can go on exactly when the flight is over |
| RegistrySteps.OneFlightPerSlot | src/cache.rs:33-40 | in every reachable state a slot has at most one leader |
| RegistrySteps.LeaderFillsCache | src/routes/trades.rs:696-701 | a lock-first leader that fetches caches what it fetched, tagged with the live version, and ends the flight |
| RegistrySteps.PutFillsCache | src/routes/trades.rs:842-846 | so does a handler that fetches for many slots |
| RegistrySteps.LateFillIsCached | src/routes/order/get_order.rs:43-52 | a handler that has let go of the lock caches what it fetched, tagged with the version it saw |
| RegistrySteps.FailedFetchLeavesNothing | src/cache.rs:33-40 | a failed fetch caches nothing, ends its flight, and fails its handler or is passed over |
| RegistrySteps.EntryPersists | src/cache.rs:29-43 | a cached value goes only by forgetting or clearing and is replaced only by a later fill |
| RegistrySteps.GrantMeans | src/routes/admin.rs:53-65 | the head of the queue gets the lock exactly when no writer has it and, for a writer, no reader either; readers share it |
| RegistrySteps.WriterIsAlone | src/routes/admin.rs:65-75 | in every reachable state a writer holds the lock alone |
| RegistrySteps.FinishedIsAtRest | src/routes/admin.rs:53-76 | when everything has finished the lock is free, nobody waits and no flight is left |
| RegistrySteps.AnsweredUpdateIsInstalled | src/routes/admin.rs:74-82 | an update answered with success has installed its own provider |
| RegistrySteps.EmptyUrlIsRefused | src/routes/admin.rs:47-51 | in every run an update with an empty url gets nowhere |
| RegistrySteps.FailingUpdateStops | src/routes/admin.rs:58-72 | an update that fails to load or to store ends, without the lock, and changes neither setting nor provider nor caches |
| RegistrySteps.LockFirstCacheIsFilled | src/routes/trades.rs:696-701 | a finished run that leaves a value in a lock-first cache |
| RegistryHistory.RunExplained | src/routes/order/get_order.rs:43-52 | over every run, each fetched or cached value was in flight at every swap it missed |
| RegistryHistory.StaleIffInFlight | src/routes/order/get_order.rs:43-52 | with all updates finished, a cached value is behind the live provider if and only if some fill that fetched its version was in flight at a swap; one such fill was in flight at every swap it missed |
| RegistryHistory.UnguardedCanStayStale | src/routes/order/get_order.rs:43-52 | a run of one handler and one update that ends with a stale value in the order cache |
| OrderTables.LatestExists | src/direct_trades.rs:340-350 | the NOT EXISTS condition leaves a winner whenever some addition is eligible |
| TakeAttribution.OneRowPerTake | src/direct_trades.rs:323-353 | a take has exactly one row if a requested addition with its owner and nonce is at or before it, else none, and the row is that of the latest one |
| TakeAttribution.TakeRowMeans | src/direct_trades.rs:323-353 | column by column: a take has one row exactly if an addition claims it, with the hash of the latest claim, the take's transaction, the taker's output as input and the taker's input as output |
| TakeAttribution.BatchContained | src/direct_trades.rs:313-353 | for all tables, the take rows a batch gives an order are contained in those of its own query |
| TakeAttribution.BatchIsExactIff | src/direct_trades.rs:313-353 | they are equal for all requested orders if and only if no take can be claimed by additions of two requested orders |
| TakeAttribution.SharedNonceLosesRow | src/direct_trades.rs:320-353 | two orders sharing owner and nonce, where the batch drops a row of the first |
| ClearPairing.RowsExplained | src/direct_trades.rs:354-437 | a clear side has a row exactly if it was requested, its order was added by then, and an after-clear event follows |
| ClearPairing.ClearRowsMean | src/direct_trades.rs:354-437 | column by column: the rows of either side are those of the claimed sides, Alice's with her amounts and Bob's with his, taken from the first after-clear event beyond the clear |
| ClearPairing.ClearsIgnoreOthers | src/direct_trades.rs:371-379 | the clear rows of an order in a batch are those of its own query, for all tables and requests |
| ClearPairing.PairingIsSoundIff | src/direct_trades.rs:384-391 | pairing by least later log index is total and injective if and only if each clear is answered before the next |
| ClearPairing.PairedWithOwn | src/direct_trades.rs:384-391 | if clears and after-clears alternate, each clear is paired with its own after-clear |
| ClearPairing.OneRowPerSide | src/direct_trades.rs:354-437 | then each requested side with a prior addition has exactly one row, with the amounts of its own after-clear |
| TradeId.IdReadsBack | src/direct_trades.rs:445 | transaction hash (in lower case) and any 64-bit log index can be read back from the 82-character identifier |
| TradeId.IdIsInjective | src/direct_trades.rs:445 | two identifiers are equal exactly for the same log of the same transaction |
| TradeId.IdIsLowerHex | src/direct_trades.rs:445 | the identifier is `0x` and eighty hexadecimal digits in lower case |
| TradeGrouping.SameAsOwnIff | src/direct_trades.rs:438-453 | an order's rows in the whole answer are contained in its own answer, and equal exactly if its take rows are |
| TradeGrouping.BatchReplacesSinglesIff | src/direct_trades.rs:311-455 | one query replaces the single queries for all orders if and only if no take can be claimed twice |
| TradeGrouping.ListsAreNewestFirst | src/direct_trades.rs:453 | within an order, rows come by timestamp, then log index, both descending |
| TradeGrouping.ListOrderMeans | src/direct_trades.rs:453 | within an order a row is never followed by one with a later timestamp, or the same timestamp and a higher log index |
| TradeGrouping.AnswerMeans | src/direct_trades.rs:446-452 | an answer holds exactly the rows of the claimed takes and of the claimed sides of clears, and as many as there are of them |
| TradeGrouping.AnswerExists | src/direct_trades.rs:453 | for all tables and requests the rows can be arranged as the query demands |
| TradeGrouping.PossibleAnswerIff | src/direct_trades.rs:438-453 | what a batch holds of an order is itself a possible answer to the order's own query if and only if it has its take rows |
| TradeGrouping.SameList | src/direct_trades.rs:453 | without ties the order's list in the batch is its own list, element by element |
| BatchFetch.BatchFetch | src/direct_trades.rs:65-163 | fails exactly if the query or a row fails; otherwise the list of each hash has one entry for each well-formed row of that hash, in order, and no other row is well-formed; each entry carries the parsed hashes and sender, the formatted input and minus one times the output |
| BatchFetch.ConvertMeans | src/direct_trades.rs:247-270 | field by field, when a row converts and to what |
| BatchFetch.EntriesArePicked | src/direct_trades.rs:130-147 | which rows a list is made of, and that all others are of another order or malformed |
| BatchFetch.ListedIff | src/direct_trades.rs:133-147 | an entry is listed for an order exactly if some row of the answer converts to it |
| BatchFetch.TakeEntryMeans | src/direct_trades.rs:330-331 | the entry of a take in terms of the take: its input is what the taker got out, its output minus what the taker put in |
| BatchFetch.ClearEntryMeans | src/direct_trades.rs:361-404 | the entry of a side of a clear in terms of the clear and its after-clear event |
| BatchFetch.ListIsRowsFor | src/direct_trades.rs:133-147 | the list of an order is the conversion of exactly its own rows |
| BatchFetch.ListedLikeOwn | src/direct_trades.rs:65-163 | end to end, the list a batch holds for an order is one its own query can give: the same entries as any list it gives, and the same list if no rows tie |
| DirectTruth.NothingElsewhere | src/direct_trades.rs:313-322 | an orderbook that does not hold an order answers nothing for it, whatever else was asked |
| DirectTruth.DirectIsTrueIff | src/main.rs:288-334 | the direct fetcher is a true source if and only if every order it answers for is held by the first orderbook or has no trades |
| DirectTruth.SourcesAreTrueIff | src/routes/trades.rs:837-880 | both sources are true if and only if in addition every order whose lookup fails where it is held has no trades |
| DirectTruth.OtherOrderbookIsMissed | src/routes/trades.rs:841-846 | every answered request for an uncached order with trades of another orderbook returns and inserts an empty list |
| DirectTruth.SecondOrderbookIsNotCovered | src/main.rs:288-334 | two orderbooks and one order in the second, where that happens |
| AppCache.AppCache.Get | src/cache.rs:25-27 | returns what is stored and not forgotten at this use, and changes nothing else |
| AppCache.AppCache.Insert | src/cache.rs:29-31 | the entry is stored unless it is forgotten at this use, with all others that are not |
| AppCache.AppCache.GetOrTryInsert | src/cache.rs:33-40 | a hit is served as stored, a fetched value is inserted, a failed fetch inserts nothing |
| RegistryServer.Server.constructor | src/cache.rs:70-76 | every cache that is built is registered with the group, each once |
| RegistryServer.Server.AskEndpoint | src/cache.rs:33-40 | a cached endpoint answers exactly what the live provider would, failures included, and fetches exactly if the value is not cached or forgotten |
| RegistryServer.Server.PutRegistry | src/routes/admin.rs:47-76 | a failed update changes nothing; after a successful one setting and provider are the new ones and no cache holds anything old |
| RegistryServer.Serve | src/routes/admin.rs:34-86 | any sequence of requests and updates is answered as a server without caches answers it |
| AppCache.CacheGroup.InvalidateAll | src/cache.rs:78-82 | empties every registered cache and touches no other |
| TradesBatch.ProcessTradesBatch | src/routes/trades.rs:810-901 | one entry per hash in request order: an order that stays cached is served from the cache and not fetched, a miss as fetched, a repeat empty; exactly the fetches that did not fail are inserted and stay unless forgotten; with true sources first occurrences are true (empty only where the library failed) and the cache stays coherent |
| TradesBatch.PostTradesBatch | src/routes/trades.rs:933-955 | an empty request is answered empty, more than fifty hashes are refused untouched, all others served likewise |
| TradesBatch.LookUp | src/routes/trades.rs:818-830 | every hash is found, with what was cached, or missing, and it is missing only if it was not cached or was forgotten meanwhile; nothing else leaves the cache |
| TradesBatch.StoreDirect | src/routes/trades.rs:842-846 | every miss gets its group of the answer or an empty list, all of these are inserted in order, and nothing else is |
| TradesBatch.StoreLibrary | src/routes/trades.rs:853-864 | every miss gets the library's list or an empty one, exactly the lists that did not fail are inserted in order |
| TradesBatch.FetchMisses | src/routes/trades.rs:837-884 | the misses are served by the direct query if it answers and by the library otherwise |
| TradesBatch.CacheStaysTrue | src/routes/trades.rs:837-884 | an entry that was not cached before comes from an answered direct query or a library query that did not fail; with true sources the cache stays coherent |
| TradesBatch.Collect | src/routes/trades.rs:886-892 | request order, each list served once |
| TradesBatch.FindOrder | src/routes/trades.rs:142-164 | the first orderbook that has the order decides; failing orderbooks are passed over |
| TradesBatch.FirstFoundMeans | src/routes/trades.rs:148-164 | the order is that of the first orderbook that has one, and none exactly if no orderbook has one |
| TradesBatch.UntrueIff | src/routes/trades.rs:798-808 | wrong trades are reported as a success exactly if the lookup failed in the orderbook that holds the order and it has trades |
| TradesBatch.LibraryIsTrueIff | src/routes/trades.rs:142-164 | the library is a true source if and only if every order whose lookup fails where it is held has no trades |
| TradesBatch.FailedLookupIsCached | src/routes/trades.rs:868-879 | without a direct fetcher, every request for an uncached such order returns and inserts an empty list |
| OrderScan.FetchAllOrders | src/routes/trades.rs:310-336 | for every source: at most 65534 pages, up to the first failure or completion, and all their orders or the failure; from a faithful source, exactly the prefix of min(n, 65534*50) orders |
| OrderScan.StopsOnce | src/routes/trades.rs:322-332 | the page at which the scan stops is determined by the source alone |
| OrderScan.ScanReadsList | src/routes/trades.rs:310-336 | the gathered pages are that prefix, and the last page read was needed |
| TradePages.SortNewestFirst | src/routes/trades.rs:523 | the result is newest first and ties keep their order |
| TradePages.StableSortIsUnique | src/routes/trades.rs:523 | no other list satisfies that |
| TradePages.SortedMeans | src/routes/trades.rs:523 | the order in full: by timestamp, then block number, the latest first |
| TradePages.SortKeepsTrades | src/routes/trades.rs:523 | sorting loses no trade and adds none |
| TradePages.ListingMeans | src/routes/trades.rs:525-559 | field by field: page, size, total, the least number of pages that holds all, whether more follow, and the items from the start of the page on |
| TradePages.OffsetFits | src/routes/trades.rs:534-539 | offset and end of a page stay below 2^64 for all 32-bit parameters |
| TradePages.FollowingReadsAll | src/routes/trades.rs:525-559 | following the pages while there are more yields the whole sorted list once, in exactly total_pages requests (one if empty) |
| TradePages.PageZeroRepeats | src/routes/trades.rs:534 | page 0 holds the items of page 1 and claims more whenever there are trades |
| TradesByAddress.LoadTrades | src/routes/trades.rs:338-360 | all trades of all orders in order, or an error exactly if one order fails |
| TradesByAddress.TradesInOrder | src/routes/trades.rs:352-357 | trades are collected order after order, each order's as the library returns them |
| TradesByAddress.Report | src/routes/trades.rs:497-521 | fails exactly if a timestamp or block number exceeds 64 bits |
| TradesByAddress.ProcessTradesByAddress | src/routes/trades.rs:478-561 | the requested page (defaults 1 and 20) of the stable sort of all loaded trades, or an error exactly if a step fails |
| TradesByAddress.RequestsShareOneList | src/routes/trades.rs:523 | requests against the same trades cut their pages from one list |
| TradesByTx.CheckIndexState | src/routes/trades.rs:211-252 | not yet indexed exactly if every one of some orderbooks times out; an error exactly if an orderbook breaks before another is decisive |
| TradesByTx.ProcessTradesByTx | src/routes/trades.rs:362-476 | entries with their own ratios in order, exact sums and average if every computation, hash and number is usable, an internal error exactly if not; the answers for no trades |
| TradesByTx.AnswerableMeans | src/routes/trades.rs:398-475 | every computation an answer needs, one by one |
| TradesByTx.TotalsIgnoreOrder | src/routes/trades.rs:398-428 | totals and average depend only on the multiset of trades |
| TradesByTx.AverageIsBetween | src/routes/trades.rs:445-455 | if no trade has input and no output, the average ratio lies between those of two of the trades |
| TradesByTx.HarmlessIff | src/routes/trades.rs:304-306 | a trade leaves that bound intact in every company of trades with output if and only if it has output or no input |
| TradesByTx.NoOutputBreaksBound | src/routes/trades.rs:304-306 | a trade without output can push the average above every reported ratio |
| QuoteBatch.GroupByChain | src/routes/orders/mod.rs:137-143 | the groups are exactly the places of each chain's orders, in order |
| QuoteBatch.PlacesAscend | src/routes/orders/mod.rs:137-143 | a place is in the group of its own chain, once, and in no other |
| QuoteBatch.PlaceAtRank | src/routes/orders/mod.rs:148-165 | an order is found in its group at the number of its chain's orders before it |
| QuoteBatch.Scatter | src/routes/orders/mod.rs:164-166 | answers go to the places of their orders, the shorter side decides, nothing else is touched |
| QuoteBatch.FillGroup | src/routes/orders/mod.rs:148-187 | fills only slots still empty, each with its order's answer, by batch or by fallback |
| QuoteBatch.GetOrderQuotesBatch | src/routes/orders/mod.rs:129-198 | one result per order, at its place: its own batch quotes, its own fallback, or an error if its batch came back too short |
| QuoteBatch.SlotMeans | src/routes/orders/mod.rs:156-197 | chain by chain: the batch's own quotes one by one, an error where it does not reach, the single answers if it fails |
| QuoteBatch.RefinesPlain | src/routes/orders/mod.rs:57-66 | if the library's batches are true, the result is that of one call per order |
| QuoteBatch.UnansweredIff | src/routes/orders/mod.rs:189-197 | the orders without an answer of their own are exactly those past the end of their chain's quotes |
| OrderQuotes.SelectQuotable | src/routes/orders/get_by_token.rs:88-104 | exactly the orders with positive output balance, with their places, in order |
| OrderQuotes.PlaceRatios | src/routes/orders/get_by_token.rs:117-144 | each ratio at its order, a dash elsewhere; success, empty and error counts add up to the quotable orders |
| OrderQuotes.RatioMeans | src/routes/orders/get_by_token.rs:121-143 | the ratio of the first quote if it has data, a dash otherwise, and which outcome is counted |
| OrderQuotes.CountMeans | src/routes/orders/get_by_token.rs:118-136 | the count of an outcome is the number of orders that had it |
| OrderQuotes.CountsAddUp | src/routes/orders/get_by_token.rs:118-144 | every answer is counted under exactly one outcome |
| OrderQuotes.ProcessOrders | src/routes/orders/get_by_token.rs:76-178 | one summary per listed order with the ratio found at its place, size capped at 50; an error exactly if the listing or some order's vaults fail |
| OrderQuotes.RatiosAreOwn | src/routes/orders/get_by_owner.rs:84-101 | with true batches every listed ratio is that of the order on its own |
| Metaboards.NeutralizeMetaboards | src/raindex/config.rs:19-46 | the loop computes the line transducer |
| Metaboards.BlockIsReplaced | src/raindex/config.rs:24-43 | lines around a block are kept verbatim and in order; the block becomes the header and the dummy entry |
| Metaboards.BlockInCharacters | src/raindex/config.rs:24-43 | the same on characters: a block is its header and all blank lines and lines indented by a space or a tab |
| Metaboards.NoHeaderKeepsLines | src/raindex/config.rs:23-43 | without a header only line terminators can change |
| Metaboards.SectionSurvivesIff | src/raindex/config.rs:24-39 | some header is copied exactly if two headers have only entries between them |
| Metaboards.SectionKeptIff | src/raindex/config.rs:24-43 | a section is output verbatim, entries and all, if and only if an odd number of headers precede it with only entries between, otherwise it becomes header and dummy entry |
| Metaboards.MiddleSectionSurvives | src/raindex/config.rs:24-43 | three sections in a row, of which the second stays in force |
| Metaboards.RewriteTwice | src/raindex/config.rs:19-46 | on lines, rewriting twice is rewriting once |
| Metaboards.LinesOfUnlines | src/raindex/config.rs:23-43 | reading back written lines strips one carriage return from each |
| Metaboards.LastLineIsRead | src/raindex/config.rs:23 | a last line without a terminator is read as it is |
| Metaboards.StrippedLines | src/raindex/config.rs:23 | reading strips one carriage return before a line feed and nothing else |
| Metaboards.IdempotentIff | src/raindex/config.rs:19-46 | a second pass changes nothing if and only if no copied line ends in a carriage return |
| Metaboards.SecondPassCanChange | src/raindex/config.rs:19-46 | a document that every pass changes again |

## Left out

- Poisoned mutexes, an `Instant` earlier than one minute after boot, and overflow of the 64-bit call counter of the rate limiter.
- Cancellation of a request or a crash between persisting the setting and swapping the provider; the model's updates run to their end.
- How the provider is loaded, and writing the setting at startup: setting and provider are taken to agree when serving begins.
- Time-to-live and capacity of the caches: they only decide what is forgotten, and the model forgets arbitrarily.
- AppCache.CacheGroup.InvalidateAll: groups caches of one type, since the group's members differ only in types that clearing ignores; its interleaving with other processes is in the registry model.
- AppCache.AppCache.GetOrTryInsert: models one caller; the single flight between several is in the registry model.
- RegistryServer.Serve: requests one after another; overlapping ones are in the registry model.
- NULL, collations and type affinity of SQLite, and the indexes created at startup: columns are integers and strings compared exactly.
- Rounding and encoding of the float library: its operations are functions that may refuse (`BatchFetch`) or exact arithmetic on rationals that may refuse (`TradesByTx`).
- TradesByTx.ProcessTradesByTx: compares with zero exactly, where the code takes a comparison that fails for equality with zero.
- `fetch_taker_tx_hashes` and the taker endpoint: a grouped selection and the same paging once more.
- The pagination cache keys, the request guards, authentication, OpenAPI, CORS, logging and the command line.
- Symbols, addresses and the other fields of summaries and trades that are copied through unchanged.
- TradePages.FollowingReadsAll: assumes that the last page has a 32-bit number, as it could not be requested otherwise.
- QuoteBatch.GetOrderQuotesBatch: visits the groups in any order, where the code takes chains in ascending order; the result does not depend on it.
- DirectTruth.DirectIsTrueIff: takes an order to be added in one orderbook at most, and owner and nonce to tell the orders of the first orderbook apart at its takes; without the latter `TakeAttribution.BatchIsExactIff` applies.
- TradesBatch.ProcessTradesBatch: asks the library for one order after the other, where the code awaits all of them together.
- Swap calldata, swap quotes, order cancellation, tokens, health and the unimplemented routes: single-branch code.
