# A verified model of the wallet API's market data

The service shows the tokens of a wallet with market data from CoinGecko and CoinMarketCap. This
project models the parts of it that are hard to get right, as Dafny classes, methods, functions and
state machines, and proves what its callers rely on. `dafny verify dfyconfig.toml` checks it all.

**The compare-and-set script.** Two caches share a Lua program that decides whether a write may
replace a stored record. Lua numbers are doubles, so the program brings its own decimal arithmetic,
its own RFC 3339 parser (section 5.6 of that standard) and a closed-form calendar. `Decimal` and
`LuaDecimal` give digit texts their values and prove the loops exact; every sum, product and floored
quotient has the type `LuaInt`, the integers up to 2^53 either way, which doubles hold exactly. The
quotients under the floor are rounded; `LuaDecimal.FloorOfRounded` proves that the floor hides it.
`Calendar` proves the closed form equal to a sum of year and month lengths. `Rfc3339` says what a
timestamp text denotes and proves the parser exact, in both directions; `TimestampPrinter` closes
the round trip with the printer. On top, `CasRegister` runs the script on one Redis and proves that
over whole runs of batches and passing time each key is an integer register that holds the newest
instant, and `MarketReader` relates what the script takes as current to what the Go side reads back.

**The lookup cascade.** `PipelineSpec` gives the reference, what one key gets when it is looked up
alone, and a monitor that says which effect a run may perform, and when. `MarketPipeline` is the
imperative cascade itself: Redis, PostgreSQL, provider, with its negative cache, its grouping by
identifier, its sorted batches, and cancellation that may be raised during any call. Its invariant
keeps the trace of effects within the monitor, the completed keys equal to those of applied records,
and the output array equal to the trace written out. `PipelineTheorems` reads the properties of
whole runs off that trace, and a reference plan gives the one sequence of publications, fetches and
saves that a run follows until a cancellation stops it. The environment of a run is an oracle: it
answers each load, each batch and each save, and raises a cancellation after whichever effects it
likes, so a theorem about all environments is a theorem about all failures. `Requests`,
`CoinGeckoMarket` and `CoinMarketCapMarket` are the callers: they resolve tokens to keys and
identifiers, and render records into slots.

**The comparison.** `ProgressState` models the deep copies on the heap, with slots, objects and
cells of their own, so that sharing would be visible; `ComparisonSlots` proves that a run publishes
a growing sequence of partial columns. `CompareRuns` interleaves the two provider goroutines (the
live check, the publication and closing the done channel are separate steps), the deadline and the
answering goroutine (which reads the two snapshots one after the other), and proves what every
schedule keeps. `ComparisonHeap` drives the objects of `ProgressState` through such a schedule and
proves that they show its response and go on showing it. `CompareLookups` and `CompareMarkets`
compose the comparison with the cascade.

**Balances, catalogs, transfers.** `Balance` and `Wallet` prove that a scaled balance denotes its
number exactly, and say exactly when a chain of overlays keeps it. `CoinGeckoCatalog`,
`CoinMarketCapCatalog` and `CatalogLifecycle` prove indexes equal to linear scans and keep installed
and durable rows in step; `CatalogListings` goes from the provider's listing all the way to what a
lookup resolves, and `TokenListings` to what a token resolves to. `Transfers` proves that merging
two most-recent listings gives the most recent of both.

## Where the code does not do what one might expect

- Scaling a balance prints the fraction with a width the formatter only honours up to 1,000,000;
  past that the text is not the number. `Balance.ScaledReadsBack` gives the exact condition, and
  `Balance.WidthNotHonoured` an input.
- The comment above the scaling function says that texts without a 0x prefix are read in base 10; a
  leading zero selects base 8 (`Balance.LeadingZeroIsOctal`). The model follows the code.
- CoinGecko tokens of one key share an identifier if and only if no contract of the list reads like
  the key of a native token that has another (`CoinGeckoMarket.TokensAgree`,
  `CoinGeckoMarket.PosingTokenDisagrees`). A contract at "native:ETH" is one, beside the native
  token ETH (`CoinGeckoMarket.ClashIsReached`, `CoinGeckoMarket.PosingSymbol`). The CoinMarketCap
  side drops such tokens instead.
- A CoinGecko contract whose address reads "native" (`CatalogListings.MarkerIsReached`) is taken for
  a native row: it is lost as a contract (`CatalogListings.MarkerAddressIsLost`) and may be found
  as, or compete with, the native coin of its symbol (`CatalogListings.MarkedCoinIsNative`).
  `CatalogListings.ContractOfListing` and `CatalogListings.NativeOfListing` say exactly when that
  matters.
- Lookup keys, Redis keys and transfer identities join texts without escaping. A "|" in a text may
  make two transfers one (`Transfers.CollidingTransfers`); without it none is lost
  (`Transfers.IdentityIsExact`). A NUL in a platform name may mix contracts up
  (`CatalogListings.NamesShareKeys`), and a colon in a chain name makes different records share a
  Redis key exactly when one chain name begins with another and a colon
  (`CasRegister.ChainsShareKeys`, `CasRegister.CollidingKeys`).
- A remaining lifetime is exact only while it fits a duration (`MarketKey.RemainingIsExact`).
- A run cancelled while it saves or publishes may still save misses, but only for a batch that
  applied nothing; the monitor in `PipelineSpec` says so.
- A payload whose CoinMarketCap identifier is a positive number not written as an int64 (0.5, 1.0,
  1e2 or 2^63) is current to the script and malformed to the Go side (`MarketReader.LiteralDecides`,
  `MarketReader.UnreadLiterals`); `MarketReader.VersionIsRead` gives the exact condition.

## Model

| member | source | states |
|---|---|---|
| `LuaDecimal.DecimalParts` | internal/rediscache/cache.go:64-89 | accepts exactly the optionally signed digit texts, and returns their sign (none for zero) and canonical digits of the same value |
| `LuaDecimal.CompareUnsigned` | internal/rediscache/cache.go:130-144 | on canonical digit texts of any length, the sign of the difference of their values |
| `Decimal.CanonicalOrder` | internal/rediscache/cache.go:130-144 | why comparing lengths first and bytes second is right: for canonical digit texts, that order is the order of their values, and equal values are equal texts |
| `LuaDecimal.CompareDecimals` | internal/rediscache/cache.go:91-128 | the integer order on every pair of optionally signed digit texts, leading zeros and minus zero included; nothing for anything else |
| `LuaDecimal.CanonicalInt64` | internal/rediscache/cache.go:146-185 | accepts a value exactly when it is the printed form of one of the 2^64 int64 integers |
| `LuaDecimal.Int64TextShape` | internal/rediscache/cache.go:146-185 | the 19-digit boundary tests of the script describe exactly the printed int64 integers |
| `LuaDecimal.StripZeros` | internal/rediscache/cache.go:187-193 | the canonical text of the same value |
| `LuaDecimal.IntegerString` | internal/rediscache/cache.go:195-206 | the canonical digits of every non-negative integer a double holds exactly |
| `LuaDecimal.AddUnsigned` | internal/rediscache/cache.go:208-227 | the exact sum, canonical, for digit texts of any lengths |
| `LuaDecimal.SubtractUnsigned` | internal/rediscache/cache.go:229-250 | the exact difference, canonical, for digit texts of any lengths with left at least right |
| `LuaDecimal.MultiplyUnsignedByInteger` | internal/rediscache/cache.go:252-267 | the exact product, canonical; every intermediate is at most ten times the multiplier, so within 2^53 for the nanosecond factor |
| `LuaDecimal.ParseDigits` | internal/rediscache/cache.go:269-282 | the value of one to nine digits at a place, or nothing when the text is short or holds a non-digit there |
| `LuaDecimal.FloorOfRounded` | internal/rediscache/cache.go:195-267 | a quotient rounded to a double, floored, is the exact floored quotient, for every integer up to 2^53 either way and every divisor (at the two ends unless the remainder is the largest) |
| `Calendar.EraFormIsDayNumber` | internal/rediscache/cache.go:361-375 | the closed-form era count equals the sum of year and month lengths from 1970-01-01, for every date of every year, negative ones included |
| `Calendar.DayNumberIsOrder` | internal/rediscache/cache.go:361-375 | the closed form is strictly increasing and injective on valid dates |
| `Rfc3339.ParseClock` | internal/rediscache/cache.go:292-313 | accepts exactly the texts whose fixed columns hold a valid date and time, and returns those fields |
| `Rfc3339.ParseFraction` | internal/rediscache/cache.go:315-336 | finds the fraction and its nanoseconds, or proves that no one-to-nine-digit fraction and zone can follow |
| `Rfc3339.ParseZone` | internal/rediscache/cache.go:338-359 | finds the zone that ends the text and its offset, or proves that no zone does |
| `Rfc3339.CivilSeconds` | internal/rediscache/cache.go:361-376 | the exact seconds since 1970 of a date, time and offset, before and after the epoch |
| `Rfc3339.NanosText` | internal/rediscache/cache.go:377-390 | the canonical decimal of seconds times 10^9 plus nanoseconds for either sign, borrow of a negative second with a fraction included |
| `Rfc3339.TimestampUnixNano` | internal/rediscache/cache.go:288-391 | accepts exactly the texts that denote a stamp (years 0000-9999, any offset, zero to nine fraction digits, point or comma) and returns the canonical decimal of exactly the instant denoted |
| `Rfc3339.RenderInjective` | internal/rediscache/cache.go:288-391 | a text denotes at most one stamp, so the parser has no choice |
| `TimestampPrinter.FormatRoundTrip` | internal/rediscache/cache.go:560-573 | printing an int64 instant at any offset, trailing fraction zeros dropped, and parsing the text with the script gives the same instant |
| `TimestampPrinter.KnownInstants` | internal/rediscache/cache.go:288-391 | a known timestamp names a known instant, at any offset |
| `CasRegister.ProviderValidation` | internal/rediscache/cache.go:433-451 | the spliced validation of each provider accepts exactly the payloads with a usable identifier and the required texts |
| `CasRegister.ValidEnvelope` | internal/rediscache/cache.go:393-406 | accepts exactly the payloads that have a version: both times name one int64 instant, and chain, token and identifier are as expected |
| `CasRegister.PayloadVersion` | internal/rediscache/cache.go:560-573 | the payload Go writes has the record's instant as its version if and only if chain, token and identifier are usable |
| `CasRegister.PayloadFields` | internal/rediscache/cache.go:560-573 | what a written payload holds, name by name: chain, token, identifier, both times, and otherwise the record's market fields as they are |
| `CasRegister.Redis.Eval` | internal/rediscache/cache.go:408-418 | stores payload and expiry unless a live well-formed envelope is strictly newer; a refused write changes nothing |
| `CasRegister.Redis.SaveRecord` | internal/rediscache/cache.go:556-574 | one queued write with a positive lifetime; others are skipped |
| `CasRegister.Redis.SaveMarketData` | internal/rediscache/cache.go:553-581 | a batch acts as its writes one after the other |
| `CasRegister.SaveIsRegisterStep` | internal/rediscache/cache.go:408-418 | seen through its version, the digit-string script is one step of an integer register, from any content |
| `CasRegister.RegisterHoldsNewest` | internal/rediscache/cache.go:408-418 | over every run of saves and passing time, from any content: a key is empty exactly when nothing was offered since it last was, else it holds the newest offer's payload and expiry, ties to the last writer |
| `CasRegister.NeverOlder` | internal/rediscache/cache.go:408-418 | while a key stays live its instant never goes back, and whatever changed its payload or expiry was a write of exactly the instant it now holds |
| `CasRegister.AcceptedExpires` | internal/rediscache/cache.go:567-570 | a save no newer envelope refuses expires after its lifetime in whole milliseconds, rounded down, and after one at least |
| `CasRegister.HeldWithinLifetime` | internal/rediscache/cache.go:408-418 | in every run, what a key holds is what it began with, or the payload of a save of exactly the instant held, made no longer ago than that save's lifetime |
| `CasRegister.HeldUntilExpired` | internal/rediscache/cache.go:567-570 | from any state, a usable record that was just accepted is held exactly until its lifetime has passed |
| `CasRegister.RedisKeyInjective` | internal/rediscache/cache.go:506-508 | records of different keys never share a Redis key, if neither chain name begins with the other and a colon; records of different providers never do |
| `CasRegister.CoinGeckoKeyIsStable` | internal/rediscache/cache.go:506-508 | the keys of a contract and of a native token, letter by letter |
| `CasRegister.CoinMarketCapKeyIsStable` | internal/rediscache/cache.go:600-602 | the keys of a contract and of a native token, letter by letter |
| `CasRegister.ChainsShareKeys` | internal/rediscache/cache.go:506-508 | two different chain names share a Redis key, for some tokens, if and only if one begins with the other and a colon |
| `CasRegister.CollidingKeys` | internal/rediscache/cache.go:506-508 | token "native:X" on chain "a" and token "X" on chain "a:native" do |
| `CasRegister.BatchIsRunPerKey` | internal/rediscache/cache.go:553-581 | whatever else a batch holds, each key sees a run of its own writes, in order |
| `CasRegister.Redis.Serve` | internal/rediscache/cache.go:553-581 | batches and passing time act on the one Redis in the order they come |
| `CasRegister.RunPerKey` | internal/rediscache/cache.go:553-581 | over any run of batches and passing time, each key sees exactly the run of its own events |
| `CasRegister.ServerHoldsNewest` | internal/rediscache/cache.go:408-418 | over any run of batches and passing time on one Redis, from any contents, the key of each record holds the newest offer made to that very chain and token, or nothing if there was none since it last was empty, whatever else is written on chains apart from its own |
| `MarketReader.VersionIsRead` | internal/rediscache/cache.go:583-598 | an envelope the script takes as current reads on the Go side, with the same instant, if and only if its market fields are acceptable, its identifier is written as an int64 literal and its timestamp is read alike |
| `MarketReader.ReadIsVersion` | internal/rediscache/cache.go:583-598 | what reads on the Go side under a non-empty key is current to the script exactly when its timestamp is an int64 instant the script reads too |
| `MarketReader.DecodedInFull` | internal/rediscache/cache.go:583-598 | all it takes for a payload to read with an instant, field by field, for both providers |
| `MarketReader.ZeroTimeIs` | internal/rediscache/cache.go:588-591 | the zero time, which never reads, is the midnight that begins year 1 |
| `MarketReader.ScriptLibraryIsLawful` | internal/rediscache/cache.go:583-598 | a time library as the round trips below assume it exists: one that reads timestamps as the script does |
| `MarketReader.WrittenIsRead` | internal/rediscache/cache.go:553-598 | a usable record reads back with its own instant |
| `MarketReader.HeldIsRead` | internal/rediscache/cache.go:553-598 | after any run of usable saves from an empty key, whatever the register holds reads back with the instant the register compares by |
| `MarketReader.LiteralDecides` | internal/rediscache/cache.go:433-451 | put any positive number literal in place of a written identifier: the script still takes the payload as current, and Go reads it if and only if the literal is a printed positive int64 |
| `MarketReader.UnreadLiterals` | internal/rediscache/cache.go:673-688 | 0.5, 1.0, 1e2 and 2^63 are literals on which the two readings differ |
| `MarketKey.RemainingIsExact` | internal/marketkey/marketkey.go:48-59 | the remaining lifetime is the exact positive part of ttl minus age if and only if that fits a duration; beyond it a record reads as expired |
| `MarketKey.FreshIsYoung` | internal/marketkey/marketkey.go:48-59 | a record is fresh while its age is below its lifetime, unless stamped further in the future than a duration reaches |
| `MarketPipeline.Cascade.Run` | internal/marketpipeline/pipeline.go:93-168 | the whole cascade over a provider whose every call may fail or raise cancellation: completed keys are sound; the stale record of every other key is the newest of the tiers looked at, cancelled or not; the sequence of publications, promotions, fetches, miss, store and cache saves is a prefix of the reference plan, and the whole plan without cancellation, when complete are all keys with an outcome; output and effects stay on the monitored trace |
| `MarketPipeline.Cascade.CacheTier` | internal/marketpipeline/pipeline.go:104-126 | applies exactly the fresh usable matching cache records |
| `MarketPipeline.Cascade.StoreTier` | internal/marketpipeline/pipeline.go:128-167 | looks at exactly the incomplete keys, applies what counts, publishes it, and promotes exactly the records with lifetime left in one cache write, each with its remaining lifetime, unless cancelled on the way |
| `MarketPipeline.Cascade.FetchMissing` | internal/marketpipeline/pipeline.go:174-291 | batch by batch, provides for exactly the unsuppressed unresolved keys whose batch answered, and follows the reference plan of fetches, publications and saves, to its end unless cancelled |
| `MarketPipeline.Cascade.Persist` | internal/marketpipeline/pipeline.go:258-289 | publishes what a batch applied, then saves its misses, then stores its records, then caches them: exactly these, in this order, as far as cancellation lets it |
| `MarketPipeline.Cascade.BuildGroups` | internal/marketpipeline/pipeline.go:188-206 | groups exactly the unresolved, unsuppressed keys by identifier |
| `MarketPipeline.Cascade.Consider` | internal/marketpipeline/pipeline.go:107-117 | one key of a local tier: an expired record is noted as stale, a fresh one applied, nothing else happens |
| `PipelineSpec.Lookup.StaysSound` | internal/marketpipeline/pipeline.go:93-291 | every allowed effect keeps the invariant that completed keys are those of applied records and every applied record is its key's own outcome |
| `PipelineSpec.Lookup.AllProvided` | internal/marketpipeline/pipeline.go:93-291 | when every batch is dealt with, complete are exactly the requested keys to which a one-key-at-a-time cascade gives a record |
| `PipelineSpec.Lookup.NextBatch` | internal/marketpipeline/pipeline.go:208-220 | the next consecutive slice is a batch of the reference, and the only one that holds its identifiers |
| `PipelineTheorems.NothingStartsAfterCancel` | internal/marketpipeline/pipeline.go:121-289 | once a cancellation is raised during any effect, no store load, miss load, fetch, store save or cache save starts |
| `PipelineTheorems.CallsArePublished` | internal/marketpipeline/pipeline.go:121-289 | at every provider call everything applied so far has been published |
| `PipelineTheorems.ProvidedIsSaved` | internal/marketpipeline/pipeline.go:224-289 | in a run that follows the whole plan, every record the provider gives a key is in a store save, directly followed by the cache save of exactly the same records at the full lifetime |
| `PipelineTheorems.FetchedForAre` | internal/marketpipeline/pipeline.go:233-257 | the records of that store save are exactly those provided for the pending keys of its batch |
| `PipelineTheorems.MissIsSaved` | internal/marketpipeline/pipeline.go:224-271 | in a run that follows the whole plan, every pending key whose batch answered and held nothing for it is in that batch's miss save |
| `PipelineTheorems.MissedForAre` | internal/marketpipeline/pipeline.go:234-244 | a batch's miss save holds exactly the pending keys it was answered without data for |
| `PipelineTheorems.ServedIsPromoted` | internal/marketpipeline/pipeline.go:129-163 | in a run that follows the whole plan, every record the store serves is in a cache write with its remaining lifetime |
| `PipelineTheorems.PromotionsAre` | internal/marketpipeline/pipeline.go:149-151 | the promotions are exactly the served store records, each with its remaining lifetime |
| `PipelineTheorems.StaleIsOwn` | internal/marketpipeline/pipeline.go:112-143 | in every run, cancelled at any point, a stale record is an expired matching cache or store record of that very key |
| `PipelineTheorems.TiersAreLoaded` | internal/marketpipeline/pipeline.go:124-131 | the number of tiers the stale records are the newest of: one while the store was not loaded, both once the incomplete keys were |
| `PipelineTheorems.WrittenWasPublished` | internal/marketpipeline/pipeline.go:107-289 | every record handed to a store or cache write is its own key's outcome, was applied in that run, and was followed by a progress call before the write |
| `PipelineTheorems.CacheWriteKinds` | internal/marketpipeline/pipeline.go:153-289 | a cache write is a promotion of store records with exactly their positive remaining lifetime before any fetch, or directly follows the attempt to store the same fetched records |
| `PipelineTheorems.MissIsSound` | internal/marketpipeline/pipeline.go:235-267 | a key saved as a miss belongs to a batch that answered without error and held nothing for its identifier, was not suppressed, and is never completed in that run |
| `PipelineTheorems.SuppressionIsExact` | internal/marketpipeline/pipeline.go:178-201 | a live miss stops the provider and nothing else: a tier's record is served whatever the negative cache says |
| `PipelineTheorems.LocalIs` | internal/marketpipeline/pipeline.go:104-152 | on the loads' answers themselves: a key gets the cache's matching, fresh and usable record, else the store's |
| `PipelineTheorems.ProvidedIs` | internal/marketpipeline/pipeline.go:174-256 | on the miss load and the fetches themselves: otherwise, with a live miss nothing, and without one what the one batch of its identifier was answered for it |
| `PipelineTheorems.FetchedWithoutMiss` | internal/marketpipeline/pipeline.go:186-224 | every fetched identifier is that of a requested key that is not in an answered miss set and for which neither load answered a record that counts |
| `PipelineTheorems.WithoutMissIsFetched` | internal/marketpipeline/pipeline.go:186-224 | in a run that follows the whole plan, the identifier of every such key is in a fetch |
| `PipelineTheorems.SavedMissIsNew` | internal/marketpipeline/pipeline.go:235-267 | no key that is saved as a miss was in an answered miss set, and a miss is saved for its own lifetime |
| `PipelineTheorems.FetchesAreNeeded` | internal/marketpipeline/pipeline.go:188-226 | every fetched identifier is one of an unresolved unsuppressed key, no batch is over the limit, and no identifier is fetched twice |
| `PipelineTheorems.BatchesAreSlices` | internal/marketpipeline/pipeline.go:208-220 | the batches put together are the distinct unresolved identifiers in increasing order; only the last may be short |
| `PipelineTheorems.SlotsWrittenOnce` | internal/marketpipeline/pipeline.go:107-255 | with disjoint index lists, in any run each output slot is written at most once, with its key's outcome, and any other slot is untouched |
| `PipelineTheorems.OneWriteASlot` | internal/marketpipeline/pipeline.go:107-255 | no two applications of a run write the same slot, and none writes it twice |
| `PipelineTheorems.EverySlotIsFinalOrUntouched` | internal/marketpipeline/pipeline.go:107-255 | at every point of every run each slot is as it was or as it will be at the end, and completed keys stay completed |
| `PipelineTheorems.CompleteGrows` | internal/marketpipeline/pipeline.go:107-255 | no run ever loses a completed key |
| `Sorting.ChunksPartition` | internal/marketpipeline/pipeline.go:208-220 | slicing by a limit loses and repeats nothing, and no slice is over it |
| `Requests.CollectStep` | internal/marketdata/service.go:358-398 | collecting one more token keeps: keys listed once, each fed by exactly its own tokens in order, the first deciding the identifier |
| `Requests.CollectedIsDisjoint` | internal/marketdata/service.go:358-398 | the collected keys are distinct and their index lists disjoint and in bounds |
| `CoinGeckoMarket.Resolve` | internal/marketdata/service.go:358-398 | the request lists each resolved key once and feeds it exactly the tokens with that key |
| `CoinGeckoMarket.TokensAgree` | internal/marketdata/service.go:358-398 | every fed token resolves to the identifier expected for its key if and only if no native token and contract of the list share a key with different identifiers |
| `TokenListings.CoinGeckoToken` | internal/marketdata/service.go:358-398 | from a token and the provider's listing to key and identifier: the one allowed coin of the symbol, or the one coin that lists the contract, or nothing |
| `CoinGeckoMarket.PosingTokenDisagrees` | internal/marketdata/service.go:358-398 | wherever a list holds such a clash, both tokens are fed by one key and one of them does not resolve to its identifier |
| `CoinGeckoMarket.ClashIsReached` | internal/marketdata/service.go:358-398 | on every platform, for every upper-case symbol, a native token of that symbol and a contract at "native:" and the symbol clash in a catalog of two rows |
| `CoinGeckoMarket.PosingSymbol` | internal/marketkey/marketkey.go:27-32 | "ETH" is such a symbol, the address then "native:ETH" |
| `CoinGeckoMarket.OutcomeIsOwn` | internal/marketdata/service.go:169-188 | whatever a lookup gives a key carries that key and its expected identifier, and is within its lifetime or is field by field what one of the run's own batches answered for that identifier |
| `CoinGeckoMarket.OutcomeInFull` | internal/marketdata/service.go:169-230 | on the calls' answers themselves, the whole of what a key gets: the cache's record, the store's, nothing under a live miss, or the price fields its batch was answered, at the time of the answer |
| `CoinGeckoMarket.CallsAsConfigured` | internal/marketdata/service.go:169-188 | no batch is over a hundred identifiers; misses are saved for the miss lifetime, fetched records for the market lifetime, promoted ones for what is left of it |
| `CoinGeckoMarket.SlotIsOwn` | internal/marketdata/service.go:86-108 | a filled slot shows its token's own key's current record, of the token's own identifier if the list holds no clash, and was written once |
| `CoinGeckoMarket.FetchRecords` | internal/marketdata/service.go:212-230 | one record per asked and answered identifier, under that identifier |
| `CoinGeckoMarket.LookupFresh` | internal/marketdata/service.go:86-108 | each slot is empty or has the identifier, the price and the change of the outcome of its token's key, of the token's own identifier if the list holds no clash, exactly when there is an outcome if not cancelled; it is the output of a run on the monitored plan, and the progress callbacks saw that run's output as it stood at each call |
| `CoinGeckoMarket.EnrichTokens` | internal/marketdata/service.go:232-271 | keeps length and order; a token shows its key's outcome, or else the newest stale record of the tiers looked at, in every run, cancelled or not, or else is untouched |
| `CoinGeckoMarket.PriceIsNeverStale` | internal/marketdata/service.go:449-473 | identity fields never change, the other market fields are the record's, and a changed price is the price of the key's outcome, never of an expired record |
| `CoinGeckoMarket.EnrichedShows` | internal/marketdata/service.go:449-473 | the whole enriched token: change, market value and printed market time of the outcome, and its price, in place of any price there was; of a stale record all but the price; or nothing new |
| `CoinGeckoMarket.ExpiredInFull` | internal/marketdata/service.go:407-412 | on the loads' answers themselves: the records of a key that are past their lifetime |
| `CoinGeckoMarket.StaleIsNewest` | internal/marketdata/service.go:407-412 | the stale record of a key is the newest expired matching record of the tiers looked at, and there is none exactly when none has one |
| `CoinGeckoMarket.FallbackIsNewest` | internal/marketdata/service.go:232-271 | an enriched token whose key is not completed keeps its identity and price and shows that newest record, or is untouched if there is none |
| `CoinMarketCapMarket.Resolve` | internal/cmcmarket/service.go:208-244 | the request lists each resolved key once and feeds it exactly its tokens that agree with the first |
| `CoinMarketCapMarket.TokensAgree` | internal/cmcmarket/service.go:208-244 | a token is fed if and only if it resolves to the identifier its key expects, and only by its own key |
| `TokenListings.CoinMarketCapToken` | internal/cmcmarket/service.go:208-244 | from a token and the provider's listing to key and identifier: the configured native coin, or the one coin that lists the contract, else the one with the symbol |
| `CoinMarketCapMarket.FetchRecords` | internal/cmcmarket/service.go:143-161 | one record per asked identifier whose answer names that same identifier |
| `CoinMarketCapMarket.OutcomeIsOwn` | internal/cmcmarket/service.go:180-187 | whatever a lookup gives a key carries that key and its expected identifier, has something to show, and is within its lifetime or is field by field what one of the run's own batches answered for that identifier |
| `CoinMarketCapMarket.OutcomeInFull` | internal/cmcmarket/service.go:143-187 | on the calls' answers themselves, the whole of what a key gets: the cache's record, the store's, nothing under a live miss, or the price fields its batch was answered, at the time of the answer |
| `CoinMarketCapMarket.CallsAsConfigured` | internal/cmcmarket/service.go:180-187 | no batch is over fifty identifiers; misses are saved for the miss lifetime, fetched records for the market lifetime, promoted ones for what is left of it |
| `CoinMarketCapMarket.SlotIsOwn` | internal/cmcmarket/service.go:78-102 | a filled slot shows its token's own key's current record, of the token's own identifier, and was written once |
| `CoinMarketCapMarket.LookupFresh` | internal/cmcmarket/service.go:78-102 | each slot is empty or has the identifier, the price and the change of the outcome of its token's key, of the token's own identifier, exactly when there is an outcome if not cancelled; it is the output of a run on the monitored plan, and the progress callbacks saw that run's output as it stood at each call |
| `ComparisonSlots.PublishedGrows` | internal/marketpipeline/pipeline.go:333-337 | in any lookup run, each progress call shows slot by slot nothing or what the answer will show, and never takes back what an earlier one showed |
| `ComparisonSlots.LookupColumn` | internal/cmcmarket/service.go:78-102 | the lookup behind a column: its answer is the output of a monitored run on the plan, returned with that run |
| `ComparisonSlots.ColumnsGrow` | internal/marketpipeline/pipeline.go:333-337 | what the progress calls of that run showed, and its answer, grow slot by slot, each a column for all tokens |
| `ComparisonSlots.FilledIsFed` | internal/marketpipeline/pipeline.go:107-255 | a filled slot of the answer shows the outcome of the key that feeds it, and no two applications wrote it |
| `ProgressState.Slice.Clone` | internal/marketcompare/service.go:119-148 | a deep copy shows the same and shares no slot, object or cell with anything that existed before |
| `ProgressState.Progress.Publish` | internal/marketcompare/service.go:106-111 | replaces the snapshot by a copy of the slice, writing no object that existed before |
| `ProgressState.Progress.Snapshot` | internal/marketcompare/service.go:113-117 | a copy of the snapshot that shares nothing with it |
| `ProgressState.Exchange.Apply` | internal/cmcmarket/service.go:194-206 | a provider that goes on filling its slice changes only the named slots, neither what was published nor what a response holds |
| `ProgressState.Exchange.Publish` | internal/marketcompare/service.go:54-58 | publishing shows the slice as it stands and leaves a response's column as it was |
| `ProgressState.Exchange.Respond` | internal/marketcompare/service.go:90-95 | a response's column is the last publication, and its own |
| `CompareRuns.Merge` | internal/marketcompare/service.go:150-160 | both columns side by side, as far as each reaches |
| `ComparisonHeap.Advance` | internal/marketcompare/service.go:49-75 | one step of a provider or of the response on the heap keeps objects and abstract state in agreement: what is published, what the response read, what is about to be published |
| `ComparisonHeap.Race.Do` | internal/marketcompare/service.go:34-91 | one step of the interleaving on two providers' objects, which share nothing, moves the heap to the next state of the comparison |
| `ComparisonHeap.Race.Follow` | internal/marketcompare/service.go:34-160 | through any continuation of a schedule; a returned response keeps its pointers and everything they show, whatever the providers still fill, publish or close |
| `ComparisonHeap.Race.Compare` | internal/marketcompare/service.go:34-160 | from the start through any schedule, the returned objects show exactly the response of that schedule |
| `ComparisonHeap.Race.ResponseIs` | internal/marketcompare/service.go:150-160 | the objects a response points to show its abstract pairs |
| `CompareRuns.Comparison.ResponseIsPartial` | internal/marketcompare/service.go:34-96 | in every interleaving each column of a response is nil or one its provider published, each slot is empty or that provider's final answer, and the response came when both were done or the deadline had passed |
| `CompareRuns.Comparison.InTimeIsFull` | internal/marketcompare/service.go:49-96 | a provider that closes before the deadline is shown in full, even if the deadline passes before the response notices |
| `CompareRuns.Comparison.NothingIsLost` | internal/marketcompare/service.go:34-96 | whatever a provider had published when its column was still to be read, the response shows |
| `CompareRuns.Comparison.ReturnedStays` | internal/marketcompare/service.go:34-96 | no step after the return is one of the response: it is given once; `ComparisonHeap.Race.Follow` says the same of the objects |
| `CompareRuns.Comparison.NeverBlocks` | internal/marketcompare/service.go:84-96 | once the deadline has passed or both are done, the response needs no further step of a provider |
| `CompareRuns.Comparison.AbsentShowsNothing` | internal/marketcompare/service.go:49-78 | an absent provider takes no step and shows nothing |
| `CompareRuns.Comparison.AbsentNeedNoDeadline` | internal/marketcompare/service.go:49-91 | with both absent the response comes without the deadline |
| `CompareRuns.Comparison.LateIsDropped` | internal/marketcompare/service.go:52-59 | once the deadline has passed, a provider publishes at most the one column whose check came in time |
| `CompareLookups.ResponseShowsOutcomes` | internal/marketcompare/service.go:34-96 | in every interleaving of two real lookups and the deadline, a slot shows nothing or the outcome that a lookup of its token's key alone would give, and nothing if no requested key feeds it |
| `CompareLookups.LookupInTimeIsFull` | internal/marketcompare/service.go:34-96 | an uncancelled lookup of either provider that closes in time is shown exactly: an outcome wherever there is one, nothing in any other slot |
| `CompareMarkets.PairsShowRecords` | internal/marketcompare/service.go:34-160 | in every interleaving, each half of a pair is empty or has the identifier, price and change of its key's outcome, and is empty if no requested key feeds it |
| `Balance.ScaledReadsBack` | internal/wallet/normalize.go:31-44 | the text reads back as n over 10^decimals without superfluous zeros if and only if the width is one the formatter honours or there is no fraction |
| `Balance.MinimalUnique` | internal/wallet/normalize.go:31-44 | there is only one such text for a number at a scale |
| `Balance.CanonicalReparses` | internal/wallet/normalize.go:18-30 | the canonical raw text parses back to the number it prints |
| `Balance.WidthNotHonoured` | internal/wallet/normalize.go:42 | one unit at 1,000,001 decimals is not printed as such |
| `Balance.LeadingZeroIsOctal` | internal/wallet/normalize.go:22-26 | digits after a leading zero are read in base eight, and fail on an 8 or 9 |
| `Balance.LeadParses` | internal/wallet/normalize.go:22-26 | 0x, 0b, 0o, a leading zero or nothing select the base; what follows parses exactly if it is digits of that base with single underscores between them, in either case and with leading zeros, and to the number it writes |
| `Balance.SignParses` | internal/wallet/normalize.go:22-30 | one sign in front negates a number or leaves it; two are no number |
| `Wallet.NormalizeTokens` | internal/wallet/service.go:193-215 | all tokens or none; each token's balance is the scaling of the amount its raw text stands for, and denotes that amount if and only if the formatter honours its decimals or no fraction is left; a raw text that writes n, in whatever base and spelling, becomes the decimal of n |
| `Wallet.SpelledAmount` | internal/wallet/normalize.go:17-30 | a text that writes a number in some base, with spaces around it, stands for that number |
| `Wallet.BlankAndNegative` | internal/wallet/normalize.go:18-30 | blank text stands for zero, and a minus sign in front of any other number fails |
| `Wallet.RescaledHolds` | internal/wallet/service.go:264-269 | a change of decimals keeps the amount exactly when the formatter honours it or no fraction is left |
| `Wallet.AnyChainHolds` | internal/wallet/service.go:252-298 | through any chain of both overlays a token keeps its raw text, and the amount it holds if and only if no override took effect or the last decimals are ones the formatter honours or leave no fraction |
| `Wallet.AnyChainScales` | internal/wallet/service.go:252-298 | from any balance text: once an override took effect the balance is the scaling of the raw amount at the last decimals, whatever the earlier ones were; before that it is untouched |
| `Wallet.OverlayReplaces` | internal/wallet/service.go:252-298 | an overlay replaces exactly the texts it has, field by field, the list entry alone the coin key and price, and no overlay touches identity or market data |
| `Wallet.FilterTokens` | internal/wallet/service.go:220-242 | the loop keeps what the one-token filter keeps, in order |
| `Wallet.FilteredIsOverlaid` | internal/wallet/service.go:220-242 | a native takes the native entry, a listed token its list entry, an unlisted one a valid verdict; nothing else is kept |
| `Wallet.FilterKeepsAmounts` | internal/wallet/service.go:220-242 | kept are exactly natives, listed tokens and valid unlisted ones, in their order, each as the filter leaves it, under its own address and still the scaling of its own base units |
| `Transfers.DedupeTransfers` | internal/alchemy/client.go:249-261 | the first transfer of each identity, in order |
| `Transfers.IdentityIsExact` | internal/alchemy/client.go:253 | for texts without "|", two transfers are one exactly if hash, both addresses, asset and value agree |
| `Transfers.CollidingTransfers` | internal/alchemy/client.go:253 | with "|" in a text, two that differ may be one |
| `Transfers.KeptOnce` | internal/alchemy/client.go:249-261 | every transfer is kept exactly once, the first of those that agree in these five |
| `Transfers.BlockIsHex` | internal/alchemy/client.go:264-270 | a hex block number, in either case, after 0x or not, is read; one over 64 bits counts as zero |
| `Transfers.NoBlock` | internal/alchemy/client.go:264-270 | any other text counts as block zero |
| `Transfers.GetTransfers` | internal/alchemy/client.go:199-216 | the merged page, or the failure of either direction |
| `Transfers.MergedIsMostRecent` | internal/alchemy/client.go:208-215 | if each direction lists its limit most recent transfers, the page lists the limit most recent of the union: newest block first, identities distinct, and what is left out is no newer than everything shown and left out only by a full page |
| `Transfers.ShownUnlessCrowded` | internal/alchemy/client.go:199-216 | a transfer that differs from all listed before it is on the page, unless the page is full of transfers at least as new |
| `Transfers.TiesKeepOrder` | internal/alchemy/client.go:208-211 | transfers of one block keep the order of the listings |
| `CoinGeckoCatalog.BuildMappings` | internal/marketdata/catalog.go:31-81 | exactly the rows the usable coins yield, each as often as they yield it, in row order |
| `CoinGeckoCatalog.YieldsInFull` | internal/marketdata/catalog.go:31-68 | the rows of a coin, field by field: one per platform with a name and an address, or a native one for a coin with a symbol and no contract |
| `CoinGeckoCatalog.NewCatalog` | internal/marketdata/catalog.go:89-106 | the index answers every key with exactly the rows of that key |
| `CoinGeckoCatalog.ResolveContract` | internal/marketdata/catalog.go:119-150 | what a linear uniqueness scan over the set of rows gives |
| `CoinGeckoCatalog.ResolveNative` | internal/marketdata/catalog.go:126-150 | what a linear uniqueness scan over the allowed native rows gives |
| `CoinMarketCapCatalog.BuildMappings` | internal/cmcmarket/catalog.go:33-65 | exactly the rows the usable coins yield, each as often as they yield it, in row order |
| `CoinMarketCapCatalog.RowOrderIs` | internal/cmcmarket/catalog.go:55-63 | rows go by identifier, then platform, then address |
| `CoinMarketCapCatalog.YieldsInFull` | internal/cmcmarket/catalog.go:33-54 | the row of an active coin with an address on a supported platform, field by field |
| `CoinMarketCapCatalog.SymbolMatchesIs` | internal/cmcmarket/catalog.go:106-112 | a symbol admits a row with that symbol but for the case of letters; none admits all |
| `CoinMarketCapCatalog.NewCatalog` | internal/cmcmarket/catalog.go:73-80 | the index answers every key with exactly the rows of that key |
| `CoinMarketCapCatalog.UniqueIDs` | internal/cmcmarket/catalog.go:106-120 | the distinct identifiers the symbol admits, sorted; one exactly when the set has one |
| `CoinMarketCapCatalog.ResolveContract` | internal/cmcmarket/catalog.go:87-104 | what a linear scan gives: the one identifier of the contract, else the one among the rows with the symbol |
| `CatalogListings.ContractOfListing` | internal/marketdata/catalog.go:31-150 | through building, indexing and resolving, for every listing: a contract resolves to the one identifier among the coins that name it (none at the marker address) and those mixed up with it, whose joined lookup key is the same; and the exact condition for that to be what the listing names |
| `CatalogListings.NamesInFull` | internal/marketdata/catalog.go:31-150 | what naming a contract or a native coin takes, in the listing's own terms |
| `CatalogListings.ContractOfPlainListing` | internal/marketdata/catalog.go:31-150 | if no platform name begins with the chain's and a NUL, or the other way round: a contract resolves to a coin exactly when the listing names it for that one identifier and no other, if and only if its address is not the marker or names no one coin |
| `CatalogListings.NamesShareKeys` | internal/marketdata/catalog.go:115-117 | names that do begin so have two contracts with one lookup key |
| `CatalogListings.NativeOfListing` | internal/marketdata/catalog.go:31-150 | for every listing: a native symbol resolves to the one allowed identifier among contract-less and marker-addressed coins of that symbol, and as if only the former counted exactly when the latter add none, or several already compete, or there are none of the former and several of the latter |
| `CatalogListings.MarkerAddressIsLost` | internal/marketdata/catalog.go:94-100 | a contract whose address reads as the marker of native rows is named by the listing and not resolved |
| `CatalogListings.MarkerIsReached` | internal/marketdata/catalog.go:94-100 | "native" is such an address |
| `CatalogListings.MarkedCoinIsNative` | internal/marketdata/catalog.go:94-100 | such a coin resolves as the native coin of its symbol instead |
| `CatalogListings.ContractOfMap` | internal/cmcmarket/catalog.go:33-120 | a contract resolves to the one identifier whose listing names it, else to the one among those with the symbol |
| `CatalogListings.ListsInFull` | internal/cmcmarket/catalog.go:33-120 | what listing a contract takes, in the listing's own terms |
| `MarketKey.NormalFormsAreNormal` | internal/marketkey/marketkey.go:19-43 | normalising an address, a chain name or a symbol twice is normalising it once |
| `MarketKey.SameAddress` | internal/marketkey/marketkey.go:37-43 | two addresses are one exactly if, spaces around them aside, they are the same text or both hex and differ in the case of letters at most |
| `MarketKey.SameKeys` | internal/marketkey/marketkey.go:18-32 | two native tokens, or two contracts, share a key exactly if chain and symbol, or chain and address, are the same in that way |
| `MarketKey.TrimSplits` | internal/marketkey/marketkey.go:18-43 | every text is its trimmed form between spaces |
| `CatalogLifecycle.Source.Bootstrap` | internal/marketcatalog/refresher.go:29-57 | a fetched and stored catalog is installed, else non-empty durable rows, else nothing changes |
| `CatalogLifecycle.Source.Refresh` | internal/marketcatalog/refresher.go:75-87 | both sides move to the fetched rows, or nothing changes |
| `CatalogLifecycle.InstalledIsDurable` | internal/marketcatalog/refresher.go:29-87 | in every run of cycles an installed catalog is non-empty, equals the durable rows up to order, and never goes away; a failed refresh changes neither side |
| `CatalogLifecycle.LastSuccessDecides` | internal/marketcatalog/refresher.go:29-87 | after any run, the last cycle that fetched and stored decides both sides: its rows are durable, and installed up to order |
| `CatalogLifecycle.Source.Follow` | internal/marketcatalog/refresher.go:29-87 | a run of cycles, one after the other |
| `CatalogLifecycle.ResolveCoinGecko` | internal/marketdata/catalog.go:83-150 | after any run of cycles, the index built from what is installed resolves every contract and native symbol to what a linear scan over the durable rows gives; without a catalog, to nothing |
| `CatalogLifecycle.ResolveCoinMarketCap` | internal/cmcmarket/catalog.go:67-104 | after any run of cycles, the index built from what is installed resolves every contract and symbol to what a linear scan over the durable rows gives; without a catalog, to nothing |
| `CatalogLifecycle.FetchPages` | internal/cmcmarket/refresher.go:49-61 | the page walk returns the whole listing, nothing skipped or repeated, and fails exactly when a page it needs fails |
| `CatalogLifecycle.FetchCoinMarketCap` | internal/cmcmarket/refresher.go:49-66 | the fetch answers exactly the rows the whole listing yields, each as often as it is yielded, never none, and fails exactly when a page it needs fails or no row is usable |

## Left out

- HTTP clients, retries, JSON encoding, request building and logging: their results are parameters.
- SQL: the durable store is an atomic map; its own "not older" guard and its microsecond times are not modelled.
- Redis connections and pipelining: the script body is atomic, one key is optional content with an expiry, and decoding a stored string is a parameter.
- MarketReader.WrittenIsRead: what the Go time library makes of a timestamp is a parameter; only for timestamps with a point before the fraction is it taken to be the instant denoted, because the library's parser is not part of this model.
- MarketReader.ReadIsVersion: takes Lua to read a positive int64 literal as a positive number, because the JSON decoder inside Redis is not part of this model.
- CasRegister.ServerHoldsNewest: takes the record's chain name to be apart from the others written, because the code joins chain and token with a colon; `CasRegister.ChainsShareKeys` says exactly which names are not.
- LuaDecimal.MultiplyUnsignedByInteger: takes multipliers of which ten times is at most 2^53, because that is where doubles stop being exact; the script uses 10^9.
- LuaDecimal.FloorOfRounded: takes a double quotient to be within one part in 2^53 and exact when whole, as IEEE 754 (section 4.3) rounds it.
- CompareRuns.Comparison.ResponseIsPartial: the columns a provider hands out are fixed per run rather than chosen step by step; being stated for all of them, it covers those a late deadline would have changed.
- Transfers.MergedIsMostRecent: takes an identity to fix its block, and each direction to list its most recent transfers, as the remote service promises.
- Case folding beyond ASCII, and locale order of texts: texts are compared by bytes.
- Floating-point market fields and number validation: optional values carried along; an invalid number is an absent one.
- Provider objects are a record of pure functions and an environment, because the effects of a run are what the trace holds; nil callbacks are ones that do nothing.
- The ticker loop of the catalog refresh: a run is any sequence of cycles. Concurrent writers to the durable catalog and the fetch time of its rows are not modelled.
- The normalisation the token list applies to an address it looks up, transfer mapping and filtering, token validation and the token list cache.
- API handlers, routing, configuration and wiring.
