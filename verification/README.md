# A verified model of the x402 facilitator

The facilitator takes a payment from a caller, settles it on Stellar at most once, tells the
seller, lists what was paid for and keeps all of this within limits. This project models the
parts of it whose correctness is not visible in any one function, and proves what they promise:

- **Text and numbers.** Canonical JSON (sections 3.2.2 and 3.2.3 of RFC 8785), SEP-0007 `pay`
  URIs with percent-encoding (section 2.1 of RFC 3986), stroop amounts, IPv6 text and CIDR
  matching (section 2.2 of RFC 4291), and the client address behind proxies.
- **Settlement.** The event log and its fold, the hand-written SQL read model, the claims of
  idempotency keys, and every interleaving of `POST /settle` handlers.
- **Notification.** The transactional outbox: claims, leases, pollers that crash anywhere.
- **Catalog and its cache.** LRU with time-to-live, a versioned read-through cache with
  single-flight and a lossy second tier, the catalog's counters and background embeddings.
- **Limits.** Counters merged across regions, fixed-window limits with eviction, and the
  circuit breaker with its retry loop.

`dafny verify dfyconfig.toml` checks everything.

## How it is built

Code that is an expression is a function. Code that changes state is a class or method, proved
equal to a function of the old state; protocols are step systems over the same functions (`Do`
takes one step between two awaits, `After` a run), so what is proved of runs is about what the
methods do. A main theorem says what holds after every run from the start state. Strings that
go through JSON, URIs and addresses are sequences of UTF-16 code units; integers are unbounded,
as BigInt is, and counts stay far below 2^53. Time, randomness and the answers of the network are parameters.

| file | models |
|---|---|
| `Text`, `Decimals`, `Bits` | strings, numbers in keys, BigInt shifts and masks |
| `CanonicalJson`, `CanonicalJsonTheorems` | `src/pact-scheme.js`, `canonicalize` |
| `PercentCoding`, `Sep7`, `Sep7Theorems`, `Sep7Rules` | `src/sdk/sep7.js` |
| `Amounts` | `src/sdk/validation.js`, `src/sdk/index.js`, the decimal text of `src/sdk/sep7.js` |
| `IpAddress`, `IpSpelling`, `ClientIp` | `src/trust-proxy.js` |
| `Settlements`, `SettlementTables` | `src/eventstore`, `src/store` |
| `Idempotency`, `SettleHandler`, `SettleTheorems`, `SettleReplies` | `src/idempotency.js`, the `/settle` handler of `src/app.js` |
| `Outbox`, `OutboxRuns` | `src/outbox`, `settleAndEnqueue` |
| `LruCache`, `SearchCache`, `SearchCacheTheorems`, `SearchFloors` | `src/catalog/cache.js` |
| `SearchKey` | `searchCacheKey` of `src/catalog/search.js`, the filters of `src/catalog/memory.js` |
| `Catalog`, `CatalogTheorems` | `src/catalog/memory.js` |
| `CachedCatalog` | the catalog with its cache in front |
| `Buckets`, `Crdt`, `CrdtRuns` | `src/crdt-rate-limit-store.js` |
| `RateLimit`, `RateLimitRuns`, `RateLimitAnswers` | `src/rate-limit-store.js`, `src/rate-limit.js` |
| `RpcBreaker`, `BreakerRuns` | `src/rpc-retry.js` |

## Where the code does less than it says

Each of these is a theorem: the code is kept as it is, and it is proved exactly when it falls short.

- A sparse array prints its holes as nothing, not as `null`, so `[,]` canonicalizes like `[]`
  (`SparseArraysExactly`).
- `toStroops` documents that it throws on negatives; a negative BigInt passes (`NegativeExactly`).
- `buildPayUri` promises a URI its parser accepts. It does not when a value is empty or the URI
  is longer than 8192 units (`RoundTripExactly`), and it throws a URIError on a lone surrogate
  (`EncodesExactlyWellFormed`).
- `ipMatchesCidr` says an IPv4 address matches an IPv4-mapped network; its prefix is then read
  as one of 32 bits (`MappedNetworkAgreesExactly`).
- A response JavaScript holds false is stored in the event but not in the row
  (`UpdateKeepsExactly`).
- A request that times out before it submitted frees its claim while it may still settle
  (`EarlyTimeoutsExactly`).
- `markFailed` checks no status, so a published row is final only once no poll has it in hand
  (`PublishedFinalExactly`, with a run in `LateMarkUndoesPublished`), and a failed one only once no
  poll has it whose publish may still succeed (`FailedFinalExactly`).
- The search cache says no read can be served from a stale generation. It is true exactly under
  three conditions, and each fails in the code (`LinearizableExactly`):
  - a change that bumps no version must take no answer away, but a vector that lands and a listing
    that expires do (`VectorLandsSilently`, `ListingExpiresSilently`);
  - parameters with one key must search alike, but `searchCacheKey` trims the filters that the
    store compares as they are, so an unpadded search is served the answer to a padded one
    (`PaddedAnswerServed`); where any search may be made the condition holds only of a store that
    looks at no listing (`KeyTellsExactly`). Parameters filter as their key says exactly when they
    are tidy (`NormalFiltersExactly`), and among tidy ones only the spelling of query and cursor
    is left (`TidyKeysTell`);
  - a search of two states must be a search of one, but the store takes the listings, awaits the
    query's embedding and then reads the listings' vectors (`SearchTears`, `TornSearchServed`).

  What a stale reply can show is bounded by `StaleRepliesOnlyDrift`.
- The cache says its floor keeps a slow read from bringing a retired version back. A load that was
  live when the version was announced still does (`AnnouncedRetiresExactly`).
- A listing whose `payTo` changes stays counted under the old one (`OverwriteKeepsExactly`).
- The regional counters' comment says the merge may overcount. It never does; it undercounts,
  by up to a factor of the regions and by what a region counts while its own sync is under way,
  which the sync's return writes over (`SeenIsBetween`, `RegionsAdmitAtMost`, `RegionsCanSpendAll`,
  `ReturnLosesExactly`, `LossesAreSpent`). And it says the counters converge when connectivity
  returns, but a region that lost an answer never syncs again, unless a sync of its own was still
  under way (`DegradedIsForever`, `ConvergesExactly`).
- A check reserves nothing, so callers that check together pass together, up to a bound that is
  met (`WindowsAreBounded`, `CapIsMet`).
- The breaker's gate is documented to run before each dial; it runs once a call, and redials
  pass it by (`UngatedDialsExactly`, `GateMissesDialsExactly`).
- A half-open breaker waits for its probe to be recorded. A probe that ends in an error that is
  not retryable records nothing, and then only a dial already on its way can end the wait
  (`RecoversExactly`, `ProbeErrorSticks`).

## Model

| member | source | states |
|---|---|---|
| `CanonicalJsonTheorems.QuoteRoundTrip` | src/pact-scheme.js:59 | a quoted string is read back to itself, whatever follows it, lone surrogates included |
| `CanonicalJsonTheorems.EscapedExactly` | src/pact-scheme.js:59 | a unit is escaped exactly when it is a control, a quote, a backslash or a lone surrogate, in two units where there is a short form, else in six with lower-case digits |
| `CanonicalJsonTheorems.PrintsItselfExactly` | src/pact-scheme.js:59 | a string prints as itself exactly when no unit of it must be escaped, and longer else |
| `CanonicalJsonTheorems.ParseCanonicalText` | src/pact-scheme.js:57-73 | parsing the canonical text of a hole-free value gives its meaning: undefined fields dropped, undefined slots null, key order gone |
| `CanonicalJsonTheorems.CanonicalIffSameMeaning` | src/pact-scheme.js:57-75 | two hole-free values have one canonical text if and only if they have one meaning |
| `CanonicalJsonTheorems.SameMeaningSameText` | src/pact-scheme.js:68-72 | the UTF-16 key sort makes the text independent of key order |
| `CanonicalJsonTheorems.KeysInUnitOrder` | src/pact-scheme.js:68-72 | an object prints exactly its live members, each under its quoted key, by code units: a key before those it begins, else by the first unit that differs |
| `CanonicalJsonTheorems.CanonDefined` | src/pact-scheme.js:61-75 | the TypeError comes exactly for a non-finite number, undefined at the top, or an unsupported type somewhere live |
| `CanonicalJsonTheorems.FillLength` | src/pact-scheme.js:65-67 | every hole is four units short of the `null` it should print |
| `CanonicalJsonTheorems.SparseArraysExactly` | src/pact-scheme.js:65-67 | a value agrees with all hole-free values of its meaning if and only if it has no hole |
| `PercentCoding.DecodeEncode` | src/sdk/sep7.js:213-240 | decodeURIComponent undoes encodeURIComponent on every string it accepts, through UTF-8 and surrogate pairs |
| `PercentCoding.EncodedUnits` | src/sdk/sep7.js:240 | encoded text holds only unreserved units and escapes, so no separator survives |
| `PercentCoding.EncodesUpperCase` | src/sdk/sep7.js:240 | encoded text is the kept letters, digits and marks, and percent signs each with two upper-case digits |
| `PercentCoding.EncodesExactlyWellFormed` | src/sdk/sep7.js:240 | encoding throws exactly on a lone surrogate |
| `Sep7.ParsePayUri` | src/sdk/sep7.js:163-222 | the parser's loop gives the parameters or all the problems of the specification, in order |
| `Sep7Theorems.ReadsExactlyClean` | src/sdk/sep7.js:187-217 | no pair is reported if and only if each is well-formed, known, non-empty, decodable and comes once; then every value is under its property |
| `Sep7Theorems.AnyOrder` | src/sdk/sep7.js:224-229 | pairs in any order give the same parameters |
| `Sep7Theorems.ParsedValuesNonEmpty` | src/sdk/sep7.js:204-207 | no accepted parameter is empty |
| `Sep7Theorems.RoundTripExactly` | src/sdk/sep7.js:163-242 | a built URI parses back to its parameters if and only if it has at most 8192 units and no empty value; whenever it parses, they are the same |
| `Sep7Theorems.NormaliserIsIdempotent` | src/sdk/sep7.js:224-242 | parse then build keeps the parameters, and fails to build exactly when a value has a lone surrogate |
| `Sep7Theorems.RequestedStroopsSurvive` | src/sdk/sep7.js:254-262 | the amount a wallet parses from a payment request is the requested stroop count again; a negative count is refused |
| `Sep7Rules.AmountAcceptedExactly` | src/sdk/validation.js:28-45 | a text is an amount exactly when it is digits with an optional point and more digits and no minus sign |
| `Sep7Rules.MemoRuleExactly` | src/sdk/sep7.js:138-152 | a memo is accepted exactly by the rule of its kind: at most 28 bytes, counted by units and pairs; an unsigned 64-bit number; 43 units of base64 and one sign |
| `Sep7Rules.AcceptedExactly` | src/sdk/sep7.js:79-136 | parameters, parsed or supplied, have no problem exactly when they keep every rule |
| `Sep7Rules.ParsesExactly` | src/sdk/sep7.js:163-222 | a URI parses exactly when it has the scheme in any case, the operation, a query and no fragment within 8192 units, its pairs are good and new, and its parameters keep every rule |
| `Sep7Rules.BuiltInOrder` | src/sdk/sep7.js:224-242 | a built query names its parameters as the standard does, in the canonical order |
| `Amounts.StroopsExact` | src/sdk/index.js:20-30 | toStroops is the integer part of the amount times 10^7, for text of any length |
| `Amounts.StroopsMonotone` | src/sdk/index.js:20-30 | a greater amount never has fewer stroops |
| `Amounts.PayAmountRoundTrip` | src/sdk/sep7.js:256-261 | for every count the decimal text is valid, has at most seven decimals, and means the count |
| `Amounts.PayAmountIsShortest` | src/sdk/sep7.js:256-261 | the text has no zero in front but a single one, none behind its decimals, and a point exactly when the count is no whole number of units |
| `Amounts.PayAmountAcceptedIff` | src/sdk/validation.js:28-45 | the text is accepted if and only if the count is not negative |
| `Amounts.NegativeExactly` | src/sdk/index.js:25 | a negative result comes out exactly for a negative BigInt |
| `IpAddress.Ipv6ToBigInt` | src/trust-proxy.js:130-158 | the loop computes the value of the text, or null for a wrong number of groups |
| `IpSpelling.EverySpellingReads` | src/trust-proxy.js:130-158 | leading zeros, any one run of zeros as "::", dotted last 32 bits: every legal spelling is read as the sum of its groups times 2^(16(7-i)) |
| `IpAddress.GroupReads` | src/trust-proxy.js:130-158 | a group is read as its hexadecimal digits say by their places, in either case, and no other text is |
| `IpAddress.MaskIsPrefix` | src/trust-proxy.js:200-201 | the mask test holds if and only if the addresses agree after division by 2^(bits-prefix) |
| `IpAddress.ShorterPrefixMatchesMore` | src/trust-proxy.js:174-202 | a shorter prefix matches everything a longer one does, IPv4, IPv6 and across the two |
| `IpAddress.MatchesExactly` | src/trust-proxy.js:174-202 | an address matches a network of its family exactly by its first bits; across the families an IPv4-mapped one stands for what it carries, and no other matches; a prefix that is no number, negative or too long matches nothing |
| `IpAddress.MappedMatchesAsDotted` | src/trust-proxy.js:185-187 | against an IPv4 CIDR a mapped address matches exactly as its dotted form |
| `IpAddress.MappedNetworkAgreesExactly` | src/trust-proxy.js:188-201 | against a mapped network the two forms agree exactly when a prefix up to 32 takes the dotted one in, or one past 96 leaves the mapped one out |
| `IpSpelling.SpelledMatch` | src/trust-proxy.js:174-202 | however address and network are spelled, the match is the division test on their numbers |
| `ClientIp.WalkProxies` | src/trust-proxy.js:335-342 | the walk over the reversed chain ends at the untrusted entry closest to the peer, or the leftmost |
| `ClientIp.ResolveClientIp` | src/trust-proxy.js:295-343 | the method computes the client address of its specification in every trust mode |
| `ClientIp.ResolvesExactly` | src/trust-proxy.js:295-343 | whose address a request has: what a Cloudflare peer says and nobody else's CF-Connecting-IP; the peer where nobody is trusted; the entry as many hops from the right; the last entry the list does not trust |
| `ClientIp.HeaderIsRead` | src/trust-proxy.js:256-262 | a header of entries with white space around them and commas between is read as those entries |
| `ClientIp.PrependingIgnoredExactly` | src/trust-proxy.js:256-343 | any text put before X-Forwarded-For is without effect if and only if the chain is decided: an edge address, an untrusted entry, or as many entries as hops |
| `ClientIp.HopModeBelieves` | src/trust-proxy.js:319-329 | in hop mode the answer is the peer or one of the last n entries; text put in front can change it exactly when there are fewer entries than hops, and then it is the peer as the header stands |
| `Settlements.ProjectSettlement` | src/eventstore/projection.js:84-90 | the loop is the fold of the events |
| `Settlements.FoldSays` | src/eventstore/projection.js:16-90 | read off the events: a record exists exactly if one is known; the last gives state and time, the first the creation, the last initiation the parties, and hash, reason and response are the last given since |
| `Settlements.MemorySettlementStore.Append` | src/store/memory.js:49-59 | the event goes to the end of its key's stream, numbered by position |
| `Settlements.MemorySettlementStore.Get` | src/store/memory.js:61-70 | the answer is the fold of the key's stream |
| `Settlements.MemorySettlementStore.Save` | src/store/memory.js:72-84 | appends the initiating event and answers the new fold |
| `Settlements.MemorySettlementStore.UpdateState` | src/store/memory.js:86-95 | appends the outcome, or changes nothing for a key nobody initiated |
| `Settlements.MemorySettlementStore.SettleAndEnqueue` | src/store/memory.js:120-123 | settles and says that nothing was enqueued with it |
| `SettlementTables.PostgresSettlementStore.NextNumber` | src/store/postgres.js:311-314 | one more than the greatest number of the key's events |
| `SettlementTables.PostgresSettlementStore.Save` | src/store/postgres.js:306-367 | event and upsert: all of the row but its key and creation time is overwritten |
| `SettlementTables.PostgresSettlementStore.UpdateState` | src/store/postgres.js:377-420 | event and coalescing update, both or neither |
| `SettlementTables.PostgresSettlementStore.RebuildProjection` | src/store/postgres.js:608-643 | the row becomes the fold of the ordered log |
| `SettlementTables.SaveKeeps` | src/store/postgres.js:306-344 | a save keeps every row the fold of its log, on every key |
| `SettlementTables.UpdateKeepsExactly` | src/store/postgres.js:377-420 | an update keeps it if and only if its response is null or truthy |
| `SettlementTables.RebuildChangesNothing` | src/store/postgres.js:608-649 | rebuilding a consistent row is the identity |
| `SettlementTables.ReadModelIsTheFold` | src/store/postgres.js:306-430 | after any calls on any keys: rows exist exactly for non-empty logs, are the fold of logs numbered 1..n at version n, and both stores answer get alike up to time |
| `Idempotency.MemoryIdempotencyStore.Begin` | src/idempotency.js:47-53 | the first caller owns the claim, others see it pending or replay the answer; only an owner changes the record |
| `Idempotency.MemoryIdempotencyStore.Fail` | src/idempotency.js:60-63 | only a pending claim is released, and no other record moves |
| `SettleTheorems.StepKeeps` | src/app.js:706-1021 | every step of every handler keeps the invariant: one owner, one result, honest records |
| `SettleTheorems.AtMostOneSettlement` | src/app.js:696-1022 | over every interleaving with timeouts only after submission: at most one call at a time, at most one returns, and every reply with a result carries that one |
| `SettleReplies.ReadTells` | src/app.js:706-760 | a retry is told what the events of its key say: the recorded response of a settlement or of a final failure, an unknown outcome where none was recorded; it settles only after one of five reasons or for another caller's record |
| `SettleReplies.RecordedIsReplayed` | src/app.js:706-760 | in every timely run a retry whose record has a final response is replied that response, the one result there is, and never settles, whatever follows |
| `SettleReplies.RecordsTellTheTruth` | src/app.js:850-1014 | in every run, timely or not, events tell what happened: successes as settled, other results as failed, errors by their reason, submissions without a result as unknown; and each recorded result has its event |
| `SettleReplies.SettlesOnceAndTells` | src/app.js:765-960 | where nobody holds the claim an undisturbed request settles once, records it, and is told the result; whoever claims the key after it is told the same |
| `SettleReplies.OthersConflict` | src/app.js:800-809 | while a handler owns the claim, whoever else claims the key is told of a conflict |
| `SettleReplies.NoteDecides` | src/app.js:991-1014 | after a submission without a result the retry is told the outcome is unknown; after another error it settles anew exactly for one of the five reasons |
| `SettleReplies.ErrorFreesClaim` | src/app.js:962-1014 | an error before anything settled frees the claim and is what the caller is told |
| `SettleReplies.CompletedStays` | src/idempotency.js:47-63 | a completed claim is never free again, in any run |
| `SettleTheorems.EarlyTimeoutBreaks` | src/app.js:936-1007 | every such run followed by one timeout before submission goes on, with no other timeout, to two returned results |
| `SettleTheorems.EarlyTimeoutsExactly` | src/app.js:936-1007 | a step of such a run leaves at most one settlement on every such way on if and only if it is no timeout before submission |
| `SettleTheorems.ExposedSettlesTwice` | src/app.js:746-755 | a freed claim with a retryable record lets a second request settle |
| `Outbox.OutboxStore.InsertEvent` | src/outbox/store.js:66-73 | inserts once per event id |
| `Outbox.OutboxStore.ClaimBatch` | src/outbox/store.js:86-105 | claims the oldest claimable rows, as many as the limit allows, and no others change |
| `Outbox.ClaimedByAge` | src/outbox/store.js:86-105 | a claimable row is claimed when fewer rows than the batch holds are at least as old, and if it is claimed fewer are older |
| `Outbox.OutboxStore.MarkPublished` | src/outbox/store.js:112-123 | the row is published and unclaimed, whatever its status was |
| `Outbox.OutboxStore.MarkFailed` | src/outbox/store.js:129-140 | one attempt more, then pending again or failed, whatever its status was |
| `Outbox.PollOutboxOnce` | src/outbox/worker.js:33-94 | claims a batch and marks each row as its publish went; the two counters add up to the batch |
| `Outbox.PollShrinks` | src/outbox/worker.js:51-94 | a poll in which all is delivered takes exactly min(batch, backlog) rows off the backlog |
| `Outbox.PollsDrain` | src/outbox/worker.js:33-94 | k such polls leave the backlog less k batches, or nothing |
| `OutboxRuns.NoNotificationLost` | src/store/postgres.js:454-528 | in every run with crashes anywhere a settlement committed with an event has a row for good: published only if accepted, failed only after maxAttempts, else claimable when the lease is over; a rollback leaves neither |
| `OutboxRuns.EventsAreCommitted` | src/store/postgres.js:454-528 | in every run an event is in the table only if a settlement that had been initiated was committed with it |
| `OutboxRuns.FailsAfterExactly` | src/outbox/store.js:129-140 | in every run a failed mark ends a row exactly when it is at least the maxAttempts-th, and else leaves it to be claimed at once |
| `OutboxRuns.QueueDrains` | src/outbox/worker.js:33-94 | from every reachable state, rounds of claim, publish and mark after the leases empty the queue if and only if their batches add up to the backlog, and lose no row |
| `OutboxRuns.LeaseExclusivity` | src/outbox/store.js:86-140 | over every run whose pollers act within their lease and whose failed updates changed nothing: one live holder a row, published and failed are final, and the broker accepts an event at most once more than faults and lapses between publish and mark |
| `OutboxRuns.StepLeased` | src/outbox/store.js:86-140 | each orderly step keeps every live holder's claim the one on the row |
| `OutboxRuns.PublishedFinalExactly` | src/outbox/store.js:112-140 | a published row stays published in every run if and only if no poll has it in hand |
| `OutboxRuns.FailedFinalExactly` | src/outbox/store.js:112-140 | in a sound state a failed row stays failed in every run if and only if no poll holds it whose publish has not failed |
| `OutboxRuns.LateMarkUndoesPublished` | src/outbox/store.js:129-140 | such a run from the start: a mark after the lease takes back a publication |
| `LruCache.LruTtlCache.Get` | src/catalog/cache.js:86-97 | a live entry moves to the end and is returned, an expired one is dropped |
| `LruCache.LruTtlCache.Set` | src/catalog/cache.js:99-107 | the entry goes to the end and the coldest go until the capacity holds |
| `LruCache.SmallerIsIncluded` | src/catalog/cache.js:86-115 | for capacities m <= n and the same read-throughs, sets, deletes and clears, even with different lifetimes, the small cache's keys are the most recent of the large one's, and neither outgrows its capacity |
| `LruCache.HoldsTheMostRecent` | src/catalog/cache.js:86-107 | under reads through and sets alone the keys are exactly the last used ones, as many as fit |
| `LruCache.HitIsTheLastStored` | src/catalog/cache.js:86-107 | what is held under a key is what was last stored there, and a get hits exactly while that is less than the lifetime ago |
| `LruCache.PlainGetKeepsExactly` | src/catalog/cache.js:86-97 | a get that is no read-through keeps the inclusion if and only if both caches hit or both miss, or the large one alone hits and nothing else is left in the small one |
| `LruCache.PlainGetCanBreak` | src/catalog/cache.js:86-107 | for any two sizes 1 <= m < n, after m + 1 keys were read a get of the first ends the inclusion |
| `SearchCache.CatalogSearchCache.Search` | src/catalog/cache.js:276-305 | up to the first await: a new version retires the first tier; then hit, join or start, and the whole new state |
| `SearchCache.CatalogSearchCache.Invalidate` | src/catalog/cache.js:343-346 | raises the floor, notes the version, empties the first tier |
| `SearchCache.CatalogSearchCache.OnMessage` | src/catalog/cache.js:386-400 | a peer's newer version raises the floor and empties the first tier; an older one does nothing |
| `SearchCacheTheorems.KeyInjective` | src/catalog/cache.js:229-231 | a cache key determines version and query key |
| `SearchCacheTheorems.RepliesAreSearches` | src/catalog/cache.js:276-330 | in every run, with losses, messages, failures and silent changes, each reply is the store's search, for parameters with the request's query key, of the listings of a state current between arrival and reply, or earlier at the version of arrival, with the vectors of a state between that one and the reply |
| `SearchCacheTheorems.Linearizable` | src/catalog/cache.js:276-330 | in every run: if for this request states of one version, parameters of its query key and torn reads search alike in the run's history, its reply is the search of one state current between arrival and reply |
| `SearchCacheTheorems.LinearizableExactly` | src/catalog/cache.js:276-330 | all runs whose changes without a version are of some kind serve only searches of one state of the request's own time, if and only if changes of that kind take no answer away, parameters sharing a query key search alike, and a search of two states is one of either |
| `SearchCacheTheorems.OneLoadPerKey` | src/catalog/cache.js:295-301 | at most one load, so one store search, is under way for a key |
| `SearchCacheTheorems.JoinedExactly` | src/catalog/cache.js:295-301 | in every run a request joins a load exactly while one for its key is under way, and none that settled or failed |
| `SearchCacheTheorems.NewVersionEmpties` | src/catalog/cache.js:276-287 | the first request at another version empties the first tier and raises the floor |
| `SearchCacheTheorems.AnswerIsKept` | src/catalog/cache.js:321-328 | a live load leaves the store's answer in the first tier |
| `SearchCacheTheorems.SharedAnswerIsKept` | src/catalog/cache.js:307-320 | and the answer it read in the second tier |
| `SearchFloors.AnnouncedRetiresExactly` | src/catalog/cache.js:307-400 | once a version is announced no run serves an older version's answer from the first tier, if and only if no live load of the catalog's own, older version is still to store |
| `SearchFloors.OldNewsIgnored` | src/catalog/cache.js:343-400 | in every run a message of a version seen or announced before changes nothing, and a search at a version just announced here empties nothing more |
| `SearchCacheTheorems.SilentChangeServesStale` | src/catalog/cache.js:276-330 | whenever a change without a new version takes an answer away, some run serves it to a request that came after |
| `SearchCacheTheorems.SharedKeyServesOther` | src/catalog/cache.js:276-305 | whenever parameters share a query key and search differently, some run serves the answer to the ones to a request for the others, the catalog never changing |
| `SearchCacheTheorems.TornSearchServed` | src/catalog/memory.js:393-427 | whenever listings of one state and vectors of another give what neither gives, some run answers with it |
| `SearchKey.KeysAgreeExactly` | src/catalog/search.js:62-83 | two searches share a key if and only if they ask the same query up to case and padding, for the same page under the same normal filters: the printed array tells its parts apart |
| `SearchKey.SpellingsShareKey` | src/catalog/search.js:62-83 | spellings of one question share its key: default limit and offset left out or given, extensions in any order, padding and case |
| `SearchKey.FiltersAlikeExactly` | src/catalog/memory.js:323-337 | two searches let the same listings pass if and only if their filters, read with JavaScript truth, are the same |
| `SearchKey.NormalFiltersExactly` | src/catalog/search.js:62-83 | a search filters as its key says if and only if no scoped value is padded or repeated, no extension has a comma, and the extensions are not one empty text |
| `SearchKey.TidyFilterAlike` | src/catalog/search.js:62-83 | such searches that share a key let the same listings pass |
| `SearchKey.PaddingKeepsKey` | src/catalog/search.js:73-76 | padding the network keeps the key and lets no listing pass with a shorter network |
| `Catalog.MemoryCatalogStore.UpsertResource` | src/catalog/memory.js:120-190 | refused at a cap with nothing changed, or merged, counted, versioned and scheduled |
| `Catalog.MemoryCatalogStore.ScheduleEmbed` | src/catalog/memory.js:212-244 | keeps a vector of the same fingerprint, else drops it at once and queues a job |
| `Catalog.MemoryCatalogStore.Land` | src/catalog/memory.js:226-243 | the vector lands on the entry the job was started for |
| `Catalog.MemoryCatalogStore.DeleteResource` | src/catalog/memory.js:303-317 | the listing goes with one decrement and one version, or nothing changes |
| `Catalog.MemoryCatalogStore.PruneExpired` | src/catalog/memory.js:377-391 | exactly the expired listings go, each with its decrement; the version moves if any did |
| `CatalogTheorems.KeyTellsListings` | src/catalog/memory.js:90-92 | where no url holds "::" two resources are one listing exactly when url and tool are the same |
| `CatalogTheorems.WriteTells` | src/catalog/memory.js:147-184 | after a stored write what it says of a property holds, other properties stay, and only a verify of what was never settled is provisional, for the fixed time |
| `CatalogTheorems.RefusedExactly` | src/catalog/memory.js:127-143 | a write is refused exactly when it would be one listing more than its payTo or the catalog may have, and then changes nothing |
| `CatalogTheorems.SettlePromotes` | src/catalog/memory.js:153-173 | after a settlement's or hand's write a listing is listed in every run that does not delete it by its key |
| `CatalogTheorems.VerifyExpiresExactly` | src/catalog/memory.js:94-108 | a listing only verified is listed exactly until its time is over, sweeps or none, unless written again or deleted |
| `CatalogTheorems.NoStaleVectors` | src/catalog/memory.js:212-271 | over every run a listing's vector is of a text with its own text's fingerprint, of its own text where fingerprints tell them apart |
| `CatalogTheorems.VectorKeptExactly` | src/catalog/memory.js:212-224 | a write keeps the vector if and only if the fingerprint stays; it leaves one of other text exactly on a collision |
| `CatalogTheorems.VersionMovesExactly` | src/catalog/memory.js:180-184 | the version moves, by one, if and only if the map of listings is written |
| `CatalogTheorems.SilentStepsDrift` | src/catalog/memory.js:94-108 | while the version stays reads see the same listings, but for provisional ones that expired and embeddings that landed; only a vector or the clock changes anything |
| `CatalogTheorems.ListingExpiresSilently` | src/catalog/memory.js:98-108 | a reachable listing leaves the reads by the clock alone, at one version |
| `CatalogTheorems.VectorLandsSilently` | src/catalog/memory.js:226-243 | a reachable listing changes by a vector that lands, at one version |
| `CatalogTheorems.SearchTears` | src/catalog/memory.js:393-427 | a search that takes the listings before its await and their vectors after it can read what the catalog held at no moment |
| `CachedCatalog.CatalogIsFree` | src/catalog/cache.js:212-220 | in every reachable state of catalog and cache together the catalog can do whatever it can alone: the composition restricts nothing |
| `CachedCatalog.StaleRepliesOnlyDrift` | src/catalog/cache.js:276-330 | over every run of catalog and cache together a reply is the search, under the request's key, of listings current while it was pending, or of earlier ones that are the arrival's but for provisional ones expired since and for vectors; the vectors are those of the same entries at some time before the reply |
| `CachedCatalog.KeyTellsExactly` | src/catalog/search.js:62-83 | where any search may be made, searches with one key have the same answers if and only if answers do not depend on what is listed |
| `CachedCatalog.PaddedAnswerServed` | src/catalog/search.js:73-76 | whatever the store answers where nothing is listed is served, in some run, to a search that finds something: a padded one under the same key came first |
| `CachedCatalog.TidyKeysTell` | src/catalog/search.js:62-83 | where all searches are tidy, searches with one key have the same answers if and only if the spelling of query and cursor makes no difference |
| `CatalogTheorems.NeverDemoted` | src/catalog/memory.js:153-173 | until deleted by key a settled or manual listing stays, keeps its source and first-seen time, and is never provisional again |
| `CatalogTheorems.OverwriteKeepsExactly` | src/catalog/memory.js:147-178 | a write over a listing keeps the accounting if and only if it keeps the payTo |
| `CatalogTheorems.AccountsBalance` | src/catalog/memory.js:110-190 | over every run without payTo changes: each counter is the number of its listings and within its cap, as is the catalog; a listing is provisional exactly when a verify made it, and then expires the fixed time after it was last seen |
| `Buckets.ShedOldest` | src/rate-limit-store.js:59-69 | sheds the buckets that expire first, as many as the store is over its size |
| `Buckets.ShedsLiveExactly` | src/rate-limit-store.js:59-69 | a live bucket is shed if and only if the live ones outnumber the room |
| `Crdt.SharedTable.Upsert` | src/crdt-rate-limit-store.js:149-162 | the statement is the merge, and returns a count exactly when it wrote |
| `Crdt.CrdtRateLimitStore.Increment` | src/crdt-rate-limit-store.js:240-266 | adds to a live bucket or starts over, then sheds |
| `Crdt.CrdtRateLimitStore.Sync` | src/crdt-rate-limit-store.js:141-174 | gives buckets their turn until an answer is lost; all of them, if none is |
| `Crdt.CrdtRateLimitStore.Get` | src/crdt-rate-limit-store.js:182-231 | the greater count within a window, the shared row when there is no live bucket |
| `CrdtRuns.ReadsTheGreater` | src/crdt-rate-limit-store.js:182-231 | in every run in which live buckets fit, a region reads of a live bucket the greater of its own count and the table's where it asks and is answered, and else its own |
| `CrdtRuns.SentIsSeen` | src/crdt-rate-limit-store.js:141-231 | once a region's statement is executed, every read that asks the table in that window, by any region, is at least the count it sent |
| `Crdt.SweepChangesNothing` | src/crdt-rate-limit-store.js:240-275 | increments start a bucket over exactly when a sweep would remove it |
| `Crdt.RowLastsLonger` | src/crdt-rate-limit-store.js:185-206 | in the second its window ends a bucket is still read from the table, though a sweep would remove it |
| `Crdt.RowIsGreatest` | src/crdt-rate-limit-store.js:149-161 | the shared row is the lexicographic (reset_at, count) maximum of all writes |
| `Crdt.OrderDoesNotMatter` | src/crdt-rate-limit-store.js:134-161 | so their order and repetition do not matter |
| `Crdt.TwoRoundsConverge` | src/crdt-rate-limit-store.js:141-168 | after increments stop, two rounds in any order bring the row to the greatest count among row and regions that sync; a region ends there if and only if it syncs or was there |
| `CrdtRuns.SeenIsBetween` | src/crdt-rate-limit-store.js:141-266 | over every run in which live buckets fit, whatever comes between a sync's statements, what a region sees is at least its own increments less those its own syncs wrote over, and at most all regions' together |
| `CrdtRuns.RegionsAdmitAtMost` | src/crdt-rate-limit-store.js:141-266 | R regions that check and record together admit at most R times the limit in a window and what their syncs wrote over, each at most the limit and what its own did |
| `CrdtRuns.RegionsCanSpendAll` | src/crdt-rate-limit-store.js:182-266 | and a run without losses exists in which they admit exactly R times the limit |
| `CrdtRuns.ReturnLosesExactly` | src/crdt-rate-limit-store.js:149-168 | from when a sync reads a bucket's count, and no other sync of the region returns, the live bucket is that count and the increments since; when the sync returns they are lost, exactly they |
| `CrdtRuns.LossesAreSpent` | src/crdt-rate-limit-store.js:149-168 | for every n a run exists in which one region admits n + 1 limits in a window, having lost n |
| `CrdtRuns.DegradedIsForever` | src/crdt-rate-limit-store.js:117-174 | a region that lost an answer is cut off in every run from there, its syncs doing nothing and its reads its own bucket, if and only if none of its syncs was still under way |
| `CrdtRuns.ConvergesExactly` | src/crdt-rate-limit-store.js:134-174 | with connectivity back and increments and earlier syncs over, after two rounds of syncs a region agrees with the table if and only if it never lost an answer or already held the greatest count |
| `RateLimit.BucketIdInjective` | src/rate-limit.js:126-130 | an id names one owner, kind, window length and start, whatever colons the owner has |
| `RateLimit.MemoryStore.Get` | src/rate-limit-store.js:40-44 | only a live bucket is seen |
| `RateLimit.MemoryStore.Increment` | src/rate-limit-store.js:51-72 | grows a live bucket or starts one, then sheds |
| `RateLimit.MemoryStore.Sweep` | src/rate-limit-store.js:74-81 | exactly the expired buckets go |
| `RateLimit.RateLimiter.Check` | src/rate-limit.js:155-179 | decides on the count before the sweep |
| `RateLimitAnswers.ChecksExactly` | src/rate-limit.js:155-179 | after every run in which live buckets fit a check is allowed exactly when what the log has in the window and what it asks for are within the limit; it answers what is then left, until the window's end |
| `RateLimit.RateLimiter.CheckSettle` | src/rate-limit.js:234-265 | first refusal of minute, hour, day, then the fee ceiling, else the tightest |
| `RateLimit.SettleDecision` | src/rate-limit.js:247-264 | allowed exactly when all four are, and then the least remaining; the fee ceiling is the reason exactly when the counters pass |
| `RateLimitAnswers.SettleAllowedExactly` | src/rate-limit.js:234-265 | a settlement is allowed exactly when one more fits the minute, the hour and the day and the greatest fee the day's ceiling; the answer is the least left, or the first limit that does not hold |
| `RateLimit.RateLimiter.RecordSettle` | src/rate-limit.js:275-284 | one in each of the three windows, and the fee in the day's |
| `RateLimitAnswers.SettleRecordedAgrees` | src/rate-limit.js:275-284 | after it every counter's bucket agrees with a log of one for the minute, the hour and the day, and the fee in the day's fees |
| `RateLimit.RateLimiter.CheckVerify` | src/rate-limit.js:192-200 | the minute's decision, with its reason |
| `RateLimitAnswers.VerifyAllowedExactly` | src/rate-limit.js:192-200 | allowed exactly when one more fits the minute by the log |
| `RateLimitAnswers.WindowIsFixed` | src/rate-limit-store.js:51-72 | a bucket begun anew counts all that comes before the end it was begun with |
| `RateLimitRuns.RecordAgrees` | src/rate-limit.js:137-149 | a record keeps the live bucket equal to what was recorded in its window, and leaves other counters alone |
| `RateLimitRuns.WindowsAreBounded` | src/rate-limit.js:155-301 | with at most m callers between check and record each window records at most limit + (m-1) reservations, the limit itself for m = 1, and any span of that length twice it; counts and fees alike |
| `RateLimitRuns.CapIsMet` | src/rate-limit.js:155-179 | where a check just fits, m callers that pass it together reach that bound exactly |
| `RpcBreaker.HostBreaker.Gate` | src/rpc-retry.js:287-299 | who passes, and the state it leaves |
| `RpcBreaker.HostBreaker.RecordFailure` | src/rpc-retry.js:263-272 | counts, and opens at the threshold or from half-open |
| `RpcBreaker.HostBreaker.RecordSuccess` | src/rpc-retry.js:274-281 | closes and starts the count over |
| `RpcBreaker.ExpDelayDoubles` | src/rpc-retry.js:126 | the first step is the base, each next one twice the last, until the cap |
| `RpcBreaker.BackoffBounds` | src/rpc-retry.js:115-132 | a delay is its doubling step or less than a jitter above it, never above the cap; the jitter is within maxJitterMs, or is bounded by the option alone where that is a number |
| `RpcBreaker.EveryDelayIsDrawn` | src/rpc-retry.js:115-132 | every whole number of ms below the jitter is drawn |
| `RpcBreaker.RetryingFetch` | src/rpc-retry.js:301-383 | gate and loop compute the outcome, dials, sleeps and breaker of the specification |
| `RpcBreaker.FetchBounded` | src/rpc-retry.js:301-383 | at most `attempts` dials, no sleep begun that ends past the deadline, refused without a dial exactly at a closed gate, a response exactly from the last dial |
| `RpcBreaker.AttemptsBounded` | src/rpc-retry.js:325-380 | all dials before the last broke retryably, and sleeps lie between them |
| `RpcBreaker.GivesUpExactly` | src/rpc-retry.js:325-380 | each sleep begins before the deadline, lasts its attempt's backoff and ends in time; a call gives up on a retryable error only at its last attempt or for its deadline |
| `RpcBreaker.DeadlineExactly` | src/rpc-retry.js:301-383 | without a deadline, or with one of 0, it gives up only on an error not to be retried or after all attempts |
| `BreakerRuns.OpensExactly` | src/rpc-retry.js:263-299 | in every interleaving the breaker is not closed if and only if max(1, threshold) retryable failures came since the last response; half-open means a probe is marked; no call exceeds attempts or deadline |
| `BreakerRuns.OpenedWaitsExactly` | src/rpc-retry.js:263-299 | a breaker that opens in a run, from closed or by its probe, admits no unprotected call for a cooldown by the run's clock while no response comes, and the first one exactly from then on |
| `BreakerRuns.AdmissionsApart` | src/rpc-retry.js:287-299 | without a response, unprotected calls pass a cooldown after the opening and a cooldown apart |
| `BreakerRuns.AdmissionRate` | src/rpc-retry.js:287-299 | so at most 1 + T / cooldown of them in a span T |
| `BreakerRuns.RecoversExactly` | src/rpc-retry.js:263-299 | some run without new protected calls leaves half-open if and only if a dial is under way or will come of a sleep within its deadline |
| `BreakerRuns.ProbeErrorSticks` | src/rpc-retry.js:345-350 | so where the probe's is the only dial, after it ends in an error that is not retryable no unprotected call passes again |
| `BreakerRuns.UngatedDialsExactly` | src/rpc-retry.js:283-330 | while the gate refuses, the unprotected dials that begin are exactly the redials of sleepers due within their deadline, never an arrival's |
| `BreakerRuns.GateMissesDialsExactly` | src/rpc-retry.js:283-330 | a reachable dial begins while the gate refuses if and only if calls are retried at all |

## Left out

- `conditionHash`: SHA-256 of the canonical text is an outside function.
- Number printing in canonical JSON is the text Number::toString gives, taken as it is; equal numbers have equal texts.
- `toJSON`, getters and proxies on canonicalized objects are not modelled.
- Key, account, URL and domain grammars of SEP-0007 and `net.isIP` are parameters; IPv6 zone ids and the trimming before `net.isIP` are not modelled.
- `compileTrustList` and Cloudflare's ranges are a predicate; hop counts that are not whole numbers are not modelled.
- Settlement: the `/settle` handler is modelled with the memory stores, which do not throw, and without rate-limit refusals, cataloging, webhooks, audit and spans; the facilitator throws only when it did not settle.
- A caller's keys: one Idempotency-Key of one caller is modelled, under any store keys the handlers derive.
- `PostgresIdempotencyStore` replays a row without response as a success; it is not part of this model.
- Replica reads, degraded fallbacks to memory, and the second write to the memory store after each Postgres statement are not part of this model.
- `settlement-cqrs.js` and the projection worker compare per-settlement numbers as if global, so their catch-up has no theorem here.
- Outbox: one clock for database and pollers; a statement is one step, so `SKIP LOCKED` has nothing to skip; dead letters and payloads are left out.
- Search: scoring and embeddings are floating point; the store gives one of the answers that listings which pass, query, limit and cursor allow, so an embedder or reranker that fails is some such answer. What filters look at is a function of a listing's properties, and lower-casing is an outside function. Recency decays the scores of all listings by one factor as time passes, which leaves their order, so answers have no clock.
- Search: an answer names listings in an order, and is taken through JSON unchanged by the second tier; vectors that land in an entry after it was named, and show when it is printed, are not part of it.
- Search parameters: limit and offset are whole numbers or absent, extensions an array of texts or absent, as the route makes them.
- Search cache: one process, with second-tier keys written only by it; `stop`, counters and connection handling are left out.
- Catalog: entries are ids into a heap of objects, so sharing between catalog and jobs is kept, but a caller's own writes to a returned entry are not modelled; `flush`, listing and filtering are left out.
- Catalog: a resource is its string properties; a property explicitly set to undefined is not modelled.
- Regional counters: one clock, a read of the table as one step, rows whose numbers arrive as numbers.
- Rate limits: stores other than the memory store, the allowlist bypass, the headers derived after a record, and a failing store are left out; a record is at most what its check reserved.
- Breaker: one host, one clock, abort signals as errors that are not retryable.
- `asset-cache.js`, the dead-letter store, key manager, multi-signer, lock and extension responses would only add easier members.
