# TryIt, modelled and proved

TryIt lets a shopper see a product on a photo of themselves. A widget collects consent and a photo, an API
runs each request through security and policy gates, a router picks an image provider, a cache keeps results,
and an audit ledger is what the monthly budget is read from. This project models the parts of that system
where a promise spans several functions or a whole run, and proves the promises.

How to read it: each module models one source file or component. Where the source changes state step by step,
there is a class or a method with a loop, proved equal to a specification function; the lemmas are then about
that function, over all inputs and all runs.

| module | component |
|---|---|
| `JsStrings`, `Decimals`, `JsNumbers`, `Int32`, `Sorting`, `Collections`, `Results` | what JavaScript itself supplies: UTF-16 strings and their UTF-8 bytes, printed numbers, 32-bit operators, the library sort |
| `CanonicalJson`, `CacheKey` | canonical JSON and the tenant-namespaced cache key |
| `CacheStore`, `ResultCache` | the LRU store with time-to-live, the read-through cache |
| `RateLimit` | the two-bucket sliding-window limiter |
| `ImageDimensions` | image header parsers for PNG, JPEG and WebP |
| `StableRequestHash` | the request fingerprint |
| `Router`, `TimedRace`, `RoutedRace`, `ProviderRegistry` | candidate ordering and the fall-through loop, an attempt raced against timer and caller, the loop over such races, the deployed providers |
| `Pipeline`, `PipelineProperties` | the request pipeline, its ledger and its stored jobs |
| `Admission`, `Budget`, `Idempotency`, `Provenance` | over whole runs of the pipeline: the limiter's cap, the budget guard, replays, and where results come from |
| `Caching` | the result cache over whole runs of the pipeline: which later runs are hits, and free |
| `Scenarios` | runs that do happen, the witnesses for what concurrency and shared index keys lead to |
| `Polling`, `Widget` | the two pollers, the widget's state machine and the loader that drives it |
| `KnownAnswers` | literal inputs with their literal results |

## Main results

- **Canonical text is a faithful name.** For every two JSON values with a JSON form, with any finite numbers
  and any strings, the printed texts are equal exactly when the values are equal up to member order at every
  depth (`CanonicalJson.Faithful`). It is proved by a parser that recovers the value from the text
  (`RoundTrip`), down to escapes, surrogate pairs and the four layouts of a printed number.
- **What a run hands out is its own tenant's.** Over every interleaving of requests, evictions, cache hits and
  replays, whatever job a run ends with holds a provider's answer to a run of the tenant that made the request
  (`Provenance.HandedStaysWithTenant`). Nothing is assumed of the hash; the one condition, that no registered id
  followed by a NUL starts another, is exact (`Idempotency.LeaksIffNested`). If the hash does not collide, a
  fresh or cached job answers the very request the run began with (`Provenance.SuccessAnswersTheRun`).
- **A smaller LRU cache is always contained in a larger one**, in order, entry for entry, with every hit the
  same hit (`CacheStore.Inclusion`); an entry survives until `capacity` distinct other keys are used
  (`Retention`), and is found exactly until its time-to-live is over (`LivesThroughRun`).
- **An answer is paid for once while it is cached.** A run admitted while its cache key has an answer, with fewer
  than 1000 distinct other keys used since, is handed the latest one at no cost, whatever interleaves
  (`Caching.CachedRunIsFree`).
- **The rate cap holds in every 60-second window of every run** of the limiter (`RateLimit.WindowCap`) and of
  the whole pipeline (`Admission.AdmissionsWithinCap`). The limiter that forgets old hits decides as one that
  remembers everything (`RefinesFullHistory`), and what its retry hint is worth is known for any history of caps
  (`RetryHintWorth`).
- **The JPEG walk accepts exactly a grammar** (`ImageDimensions.JpegExact`), and for every format printing a
  header and reading it gives the dimensions back, through JavaScript's signed 32-bit arithmetic.
- **The timed race settles once, with the first event**, over every interleaving of attempt, timer and abort
  (`TimedRace.FirstEventDecides`). The router's loop over such races refines the plain loop
  (`RoutedRace.RouteRefines`), and once the caller has aborted no further attempt is started
  (`AbortStopsAttempts`).
- **Spend is bounded by budget, price and concurrency.** With no price above `c` and at most `n` runs in flight,
  it stays below the budget less the guard's estimate plus `n` times `c` (`Budget.BudgetPotential`). That is
  attained (`OvershootIsAttained`), so the budget holds exactly when `n` times `c` is at most the estimate
  (`BudgetHoldsIff`). For the deployed providers that is one run at a time with fal, five with the self-hosted
  provider alone, any number with neither (`ProviderRegistry.SafeConcurrency`). The ledger always equals the sum
  over stored jobs (`PipelineProperties.LedgerConservation`).
- **Every request gets the refusal it should.** Each gate is said in the request's own fields and the tenant's
  caps, in order, with what it writes to the audit trail (`Admission.ArrivalGoes`).
- **Consent holds on every widget run**, also under the network loader (`Widget.LoaderPhotoIsConsented`).

Some promises of the source's own comments are false of the code. The code is kept; a lemma gives the failing
case, and another one says exactly when the promise holds.

- `cache-key.ts`: distinct strings with lone surrogates hash alike (`CacheKey.LoneSurrogatesMerge`); hashed bytes
  are equal exactly for requests that agree once lone surrogates are replaced (`PreimageSeparates`).
- `cache-store.ts`: expired entries are said not to occupy capacity, but they do until touched
  (`CacheStore.DeadOutlivesLive`); `EvictsOldest` says exactly which entry goes.
- `rate-limit.ts`: waiting out the retry hint need not be enough once a cap was lowered
  (`RateLimit.LoweredCapOutlastsHint`). It is enough exactly when both buckets have room at the hinted moment
  (`HintKeptIff`); with one full bucket, when fewer than cap of its hits are later than its oldest
  (`OneFullBucket`); and always under fixed caps (`RetryHintExact`).
- `rate-limit.ts`: colons in ids make shoppers of two tenants share a bucket (`ColonsShareBuckets`). One tenant's
  requests can change another's decisions exactly when one id, followed by a colon, starts the other
  (`InterferesIffNested`).
- `router.ts`: the deterministic provider is called the terminal fallback, but its cost of 0 puts it first
  (`ProviderRegistry.DeterministicGoesFirst`). It is last exactly when no other provider is permitted
  (`LastResortIffAlone`).
- `pipeline.ts`: a retry is promised no second charge. It is a replay exactly when the first job is already
  recorded (`Idempotency.ReplayedIff`), so not while that run is in flight (`KeyWaitsForItsJob`).
- `pipeline.ts`: the budget guard does not see runs in flight. It suffices exactly when the runs in flight
  together cost at most the estimate of one (`Budget.BudgetHoldsIff`, `ProviderRegistry.DeploymentHoldsIff`).
- `runtime.ts`: the NUL that joins an index key is said not to occur in ids, but nothing enforces it, and with it
  a run of one tenant can end with another's job (`Idempotency.NulJoinsTenants`). That can happen exactly when one
  id, followed by a NUL, starts the other (`LeaksIffNested`).
- `router_timeout.ts`: a timer that fires after `clearTimer` would abort a controller whose attempt had won;
  `TimedRace.LateTimerOnlyAborts` says when it does.

## Model

| member | source | states |
|---|---|---|
| CanonicalJson.Faithful | packages/cache/src/canonical-json.ts:41-86 | two representable values have equal text exactly when they are equal up to member order at every depth |
| CanonicalJson.RoundTrip | packages/cache/src/canonical-json.ts:37-86 | a parser recovers every printed value from its text, members in key order, with nothing left over |
| CanonicalJson.EncodesRepresentable | packages/cache/src/canonical-json.ts:53-85 | encoding succeeds exactly when no part is non-finite, undefined, a function or a symbol |
| CanonicalJson.NormalDecides | packages/cache/src/canonical-json.ts:69-82 | sorting members everywhere is a normal form of equality up to member order |
| CanonicalJson.PrintedKeysAscend | packages/cache/src/canonical-json.ts:69-82 | an object is printed with all its members, each key ascending from the one before by UTF-16 code units |
| CanonicalJson.EncodeIsWellFormed | packages/cache/src/canonical-json.ts:48-50 | the printed text has no lone surrogate, whatever the strings in the value hold |
| JsNumbers.NumberRoundTrip | packages/cache/src/canonical-json.ts:52-59 | a printed finite number is read back exactly, whichever of the four layouts it has and whatever may follow it |
| JsNumbers.ExponentIff | packages/cache/src/canonical-json.ts:52-59 | a number is printed with an exponent exactly from 1e21 on and below 1e-6 |
| JsNumbers.PointIff | packages/cache/src/canonical-json.ts:52-59 | and with a decimal point exactly where digits follow it |
| CanonicalJson.SortMembers | packages/cache/src/canonical-json.ts:71-72 | sorting keeps exactly the members there were |
| JsStrings.LessTotal | packages/cache/src/canonical-json.ts:71 | UTF-16 code unit order compares any two different keys one way |
| JsStrings.LessIsAscending | packages/cache/src/canonical-json.ts:31 | that order is: a proper prefix first, else the smaller code unit at the first difference |
| JsStrings.Utf8RoundTrip | packages/cache/src/cache-key.ts:86 | decoding the UTF-8 bytes of a string gives it back with lone surrogates replaced |
| JsStrings.Utf8Separates | packages/cache/src/cache-key.ts:86 | two strings have equal bytes exactly when they agree after that replacement |
| CacheKey.DeriveCacheKey | packages/cache/src/cache-key.ts:59-75 | the digest fed field by field gives the key of the specification, or the encoder's error |
| CacheKey.Hash.HashField | packages/cache/src/cache-key.ts:85-89 | one field adds its byte length, a colon and its bytes to what is hashed, and nothing else |
| CacheKey.PrefixRoundTrip | packages/cache/src/cache-key.ts:99-101 | the escaped tenant id has no colon and unescapes to the tenant id |
| CacheKey.KeyNamesTenant | packages/cache/src/cache-key.ts:72-74 | the tenant id can be read off any key |
| CacheKey.TenantsNeverShareKeys | packages/cache/src/cache-key.ts:8-15 | equal keys force equal tenant ids, even under two different hash functions |
| CacheKey.ReadFieldBytes | packages/cache/src/cache-key.ts:77-89 | a length-prefixed field is read back from the front of whatever follows it |
| CacheKey.PreimageSeparates | packages/cache/src/cache-key.ts:62-69 | the hashed bytes are equal exactly when all fields agree and params are equal up to member order, wherever field boundaries fall |
| CacheKey.PreimageReads | packages/cache/src/cache-key.ts:62-69 | the hashed bytes read as exactly five fields: the domain tag, tenant, image hash, product, params, in this order |
| CacheKey.KeyText | packages/cache/src/cache-key.ts:72-74 | a key is the escaped tenant up to its first colon, and then the hash of those bytes |
| CacheKey.KeySeparates | packages/cache/src/cache-key.ts:59-75 | unless the hash collides, keys are equal exactly for the same request |
| CacheKey.KeySeparatesWellFormed | packages/cache/src/cache-key.ts:59-75 | for well-formed strings that is equality of every field |
| CacheKey.LoneSurrogatesMerge | packages/cache/src/cache-key.ts:86 | two different product ids with lone surrogates get one key |
| CacheStore.InMemoryCacheStore.Get | packages/cache/src/cache-store.ts:70-83 | a hit moves to the recent end and an expired entry is dropped, as the step function says; keys stay distinct and the size within capacity |
| CacheStore.InMemoryCacheStore.Put | packages/cache/src/cache-store.ts:85-91 | stores at the recent end and evicts; a bad TTL changes nothing |
| CacheStore.InMemoryCacheStore.Has | packages/cache/src/cache-store.ts:93-103 | answers liveness without touching recency, dropping an expired entry |
| CacheStore.InMemoryCacheStore.Delete | packages/cache/src/cache-store.ts:105-114 | removes the key and reports false for a dead entry |
| CacheStore.InMemoryCacheStore.EvictIfNeeded | packages/cache/src/cache-store.ts:135-143 | the loop drops exactly the oldest entries above capacity |
| CacheStore.CreateStore | packages/cache/src/cache-store.ts:61-68 | a store is made exactly for an integer capacity of at least 1 |
| CacheStore.PutRefusedIff | packages/cache/src/cache-store.ts:116-123 | a put is refused exactly for a TTL that is negative or not finite, and then changes nothing |
| CacheStore.LivesForItsTtl | packages/cache/src/cache-store.ts:116-133 | what is put is found exactly at times up to the put plus its TTL, without a TTL always |
| CacheStore.AnswersAgree | packages/cache/src/cache-store.ts:93-114 | get, has and delete agree on what is live; has changes nothing then, and delete leaves nothing |
| CacheStore.RunKeepsShape | packages/cache/src/cache-store.ts:47-55 | after any run keys are distinct and the size is within capacity |
| CacheStore.Inclusion | packages/cache/src/cache-store.ts:70-143 | after any run the smaller store is a subsequence of the larger, the gap is bounded, and every hit in it is the same hit in the larger |
| CacheStore.InclusionStep | packages/cache/src/cache-store.ts:70-143 | one operation keeps that relation between any two related stores |
| CacheStore.HitIsLatestPut | packages/cache/src/cache-store.ts:70-91 | a value returned is that of the latest put of the key and has not expired |
| CacheStore.Sound | packages/cache/src/cache-store.ts:70-143 | whatever a bounded store holds is what an unbounded one would hold |
| CacheStore.Retention | packages/cache/src/cache-store.ts:47-55 | a live key is still returned unless `capacity` distinct other keys were put or hit since it was |
| CacheStore.LivesThroughRun | packages/cache/src/cache-store.ts:70-143 | over any run that does not put or delete the key again, and touches fewer than `capacity` other keys, a put value is found exactly until its TTL is over |
| CacheStore.EvictsOldest | packages/cache/src/cache-store.ts:135-143 | a put makes another key go exactly when the store is full, the key is new and the other is least recently used, dead or alive |
| CacheStore.DeadOutlivesLive | packages/cache/src/cache-store.ts:50-54 | an expired entry can occupy a slot while a live one is evicted |
| ResultCache.ResultCache.GetOrCompute | packages/cache/src/result-cache.ts:60-72 | one call: compute runs exactly on a miss, its value is stored, a throw stores nothing, key errors change nothing |
| ResultCache.CallHitsIff | packages/cache/src/result-cache.ts:60-71 | a call is answered from the store exactly when it holds the key unexpired, and otherwise computes once |
| ResultCache.Transparent | packages/cache/src/result-cache.ts:50-72 | with any calls suspended at once and any eviction, expiry or throw, every answer is what computing would give |
| ResultCache.ComputesAreMisses | packages/cache/src/result-cache.ts:55-58 | calls split into cached answers and computations, and every computation is suspended or answered once |
| ResultCache.ResolveStores | packages/cache/src/result-cache.ts:69-71 | a computed value is in the store when its call is answered |
| RateLimit.RateLimiter.CheckRequest | packages/security/src/rate-limit.ts:72-108 | decision and both buckets are those of the specification, on allow, on deny and under a non-positive cap |
| RateLimit.ComputeRetryAfterMs | packages/security/src/rate-limit.ts:121-134 | the loop gives the later of the two waits, at least 1 |
| RateLimit.RefinesFullHistory | packages/security/src/rate-limit.ts:81-88 | pruning never loses a hit: every decision and hint is that of a limiter remembering all allowed requests |
| RateLimit.AllowedIff | packages/security/src/rate-limit.ts:72-108 | a request is allowed exactly when its caps are positive and, in both buckets, fewer than cap requests were allowed in the 60 s before it |
| RateLimit.WindowCap | packages/security/src/rate-limit.ts:4-10 | in every half-open 60 s window of every run, the allowed requests of a tenant or shopper number at most the cap of the last allowed one there |
| RateLimit.RetryHintRange | packages/security/src/rate-limit.ts:116-134 | with positive caps the hint lies in 1..60000 and is the wait for some bucket's oldest hit, so the floor never matters |
| RateLimit.RetryHintWorth | packages/security/src/rate-limit.ts:90-100 | for any caps before and nothing allowed meanwhile: a denied request is denied at every time before the hint; at the hinted moment it is allowed exactly when both buckets have room then; if so, ever after |
| RateLimit.HintKeptIff | packages/security/src/rate-limit.ts:116-120 | the request is allowed at exactly the times from the hint on if and only if, in both buckets, fewer than cap of the last-minute hits are later than the hinted moment less a minute |
| RateLimit.OneFullBucket | packages/security/src/rate-limit.ts:127-132 | with a single full bucket that is: fewer than cap of its hits are later than its oldest |
| RateLimit.RetryHintExact | packages/security/src/rate-limit.ts:90-100 | under caps that never change it always is so, whenever the request comes again with nothing allowed meanwhile |
| RateLimit.LoweredCapOutlastsHint | packages/security/src/rate-limit.ts:90-100 | once a cap is lowered, waiting out the hint need not be enough |
| RateLimit.LoweredCapIsReached | packages/security/src/rate-limit.ts:102-107 | the buckets of that case are reached by two allowed requests |
| RateLimit.DecisionIsOwn | packages/security/src/rate-limit.ts:81-82 | unless another tenant's id and a colon start this tenant's id, or the reverse, a decision is the one made without any other tenant's requests |
| RateLimit.InterferesIffNested | packages/security/src/rate-limit.ts:81-82 | requests of one tenant can change a decision of another exactly when one id, followed by a colon, starts the other |
| RateLimit.ColonsShareBuckets | packages/security/src/rate-limit.ts:81 | two (tenant, shopper) pairs with colons fill one bucket, and one is denied for the other |
| ImageDimensions.ParseJpeg | packages/security/src/image-dimensions.ts:98-119 | the loop terminates, reads in bounds and gives the result of the recursive walk |
| ImageDimensions.MarkersAgree | packages/security/src/image-dimensions.ts:92-110 | frame markers are 0xC0 to 0xCF but 0xC4, 0xC8 and 0xCC; those without a length are 0x01 and 0xD0 to 0xD9 |
| ImageDimensions.JpegExact | packages/security/src/image-dimensions.ts:92-119 | dimensions are returned exactly when the bytes from offset 2 are standalone markers and length-delimited segments, then a frame header under a frame marker with them, both nonzero |
| ImageDimensions.WalkReads | packages/security/src/image-dimensions.ts:98-119 | from any accepted bytes the segments and the frame are recovered |
| ImageDimensions.JpegRoundTrip | packages/security/src/image-dimensions.ts:37-40 | printing any segment list and frame, then sniffing and parsing, gives the dimensions back |
| ImageDimensions.SniffExact | packages/security/src/image-dimensions.ts:22-56 | each format is recognised by exactly its magic bytes |
| ImageDimensions.WebpExact | packages/security/src/image-dimensions.ts:128-157 | the chunk name picks the lossy, lossless or extended reading |
| ImageDimensions.U16Value | packages/security/src/image-dimensions.ts:59-62 | the signed or of shifted bytes is the big-endian number |
| ImageDimensions.U32Value | packages/security/src/image-dimensions.ts:65-72 | so it is for four bytes, also when the first is 0x80 or more |
| ImageDimensions.U24Value | packages/security/src/image-dimensions.ts:122-125 | and for three bytes in little-endian order |
| ImageDimensions.PackedWord | packages/security/src/image-dimensions.ts:145 | the packed VP8L word is the little-endian number as a signed integer |
| ImageDimensions.ShiftedField | packages/security/src/image-dimensions.ts:147 | shifting a negative word right and masking gives the unsigned field |
| ImageDimensions.PngExact | packages/security/src/image-dimensions.ts:75-90 | PNG dimensions are returned exactly for IHDR with two nonzero words |
| ImageDimensions.Vp8Exact | packages/security/src/image-dimensions.ts:133-140 | lossy dimensions are the nonzero low 14 bits of two words |
| ImageDimensions.Vp8lExact | packages/security/src/image-dimensions.ts:142-149 | lossless dimensions are the two 14-bit fields plus one, exactly under the signature byte |
| ImageDimensions.Vp8xExact | packages/security/src/image-dimensions.ts:151-156 | extended dimensions are the two 24-bit fields plus one |
| ImageDimensions.PngRoundTrip | packages/security/src/image-dimensions.ts:21-36 | every size in 1..2^32-1 is read back from a PNG header |
| ImageDimensions.Vp8RoundTrip | packages/security/src/image-dimensions.ts:133-140 | every size in 1..16383 from a lossy WebP header, whatever the scale bits |
| ImageDimensions.Vp8lRoundTrip | packages/security/src/image-dimensions.ts:142-149 | every size in 1..16384 from a lossless WebP header, whatever the flag bits |
| ImageDimensions.Vp8xRoundTrip | packages/security/src/image-dimensions.ts:151-156 | every size in 1..2^24 from an extended WebP header |
| StableRequestHash.CanonicalIsEncoded | packages/engine/src/internal/stable_request_hash.ts:18-30 | the request text is the cache encoder's text once what JSON cannot say is null |
| StableRequestHash.CanonicalTextDecides | packages/engine/src/internal/stable_request_hash.ts:14-30 | two requests have one text exactly when they are equal up to member order and that nulling |
| StableRequestHash.Fnv1a32 | packages/engine/src/internal/stable_request_hash.ts:42-51 | the signed 32-bit loop equals unsigned FNV-1a over the low bytes |
| StableRequestHash.MultiplyUndone | packages/engine/src/internal/stable_request_hash.ts:47 | multiplying by 0x359C449B modulo 2^32 undoes the multiplication by the prime |
| StableRequestHash.StepInjective | packages/engine/src/internal/stable_request_hash.ts:44-48 | with equal results, equal hashes and equal bytes imply each other |
| StableRequestHash.OneByteChangesHash | packages/engine/src/internal/stable_request_hash.ts:42-51 | texts whose low bytes differ at exactly one place get different hashes |
| StableRequestHash.ComputeStableRequestHash | packages/engine/src/internal/stable_request_hash.ts:60-66 | the two passes give the digest of the specification |
| StableRequestHash.DigestHalves | packages/engine/src/internal/stable_request_hash.ts:65 | the digest is sixteen hex digits, and its halves read back as the two hashes |
| StableRequestHash.OneByteChangesDigest | packages/engine/src/internal/stable_request_hash.ts:56-66 | such texts differ in both halves of the digest |
| StableRequestHash.SameRequestSameDigest | packages/engine/src/internal/stable_request_hash.ts:14-17 | requests equal up to member order have one digest |
| KnownAnswers.SortedObject | packages/cache/src/canonical-json.ts:69-82 | an object with `b` before `a` is printed `a` first, spelled out |
| KnownAnswers.Escapes | packages/cache/src/canonical-json.ts:48-50 | the short escapes, the hexadecimal one, and what is printed as it is |
| KnownAnswers.Numbers | packages/cache/src/canonical-json.ts:52-59 | numbers at the edges of the four layouts, spelled out |
| KnownAnswers.EscapedPrefix | packages/cache/src/cache-key.ts:99-101 | a percent sign becomes `%25`, a colon `%3A`, nothing else changes |
| KnownAnswers.Hashes | packages/engine/src/internal/stable_request_hash.ts:32-51 | the hashes of the empty string and of `a` |
| KnownAnswers.EmptyDigest | packages/engine/src/internal/stable_request_hash.ts:60-66 | the digest of the empty text, in lower-case hexadecimal |
| Router.OrderCandidates | packages/engine/src/router_ordering.ts:37-59 | the loop over the allow-list and the sort give the specified order |
| Router.OrderIsSortedIntersection | packages/engine/src/router_ordering.ts:29-36 | the candidates are exactly allow-list, routing and registry together, strictly sorted by cost, priority, id |
| Router.OrderIsCanonical | packages/engine/src/router_ordering.ts:61-71 | permuting or repeating allow-list entries changes nothing |
| Router.BeforeIff | packages/engine/src/router_ordering.ts:61-71 | the order is by cost, then priority, then the code units of the id |
| Router.RoutingFromConfigs | packages/engine/src/router.ts:58-73 | a provider's metadata is that of its last enabled configuration |
| Router.LastEnabledIs | packages/engine/src/router.ts:58-73 | priority, cost and timeout are those of the last enabled configuration |
| Router.HasMetadataIff | packages/engine/src/router.ts:62-65 | and there are any exactly when some configuration is enabled |
| Router.Route | packages/engine/src/router.ts:106-176 | the loop gives the first success stamped, or the right error, and tries exactly the candidates up to it |
| Router.RouteFindsBest | packages/engine/src/router.ts:99-105 | the outcome is ok exactly when some permitted provider works, and then it is the stamped result of the least such one |
| Router.BestIsUnique | packages/engine/src/router_ordering.ts:61-71 | there is only one such provider |
| Router.SucceedsIff | packages/engine/src/router.ts:127-155 | a provider works exactly when its attempt fulfils under the timeout of the call, else its own, else the default, and the result is valid |
| Router.OutcomeSays | packages/engine/src/router.ts:140-155 | a routed result has the winner's URL, id and cost, its latency never negative, and is not cached |
| Router.ErrorsAre | packages/engine/src/router.ts:112-176 | no provider is permitted exactly when none is; all failed exactly when some are and none works |
| Router.TriedOnce | packages/engine/src/router.ts:122-165 | each provider is tried at most once and none after the winner |
| Router.TriedExactly | packages/engine/src/router.ts:122-165 | a candidate is tried exactly when none before it succeeded, and in its place |
| ProviderRegistry.BuildProviderRegistry | apps/api/app/_lib/provider-registry.ts:42-70 | the registered providers and their metadata, by credentials; each registered one has metadata |
| ProviderRegistry.RoutedWithinCap | apps/api/app/_lib/provider-registry.ts:46-68 | no routed result costs more than the deployment's dearest provider, which is less than the guard's estimate |
| ProviderRegistry.ChargedByWinner | apps/api/app/_lib/provider-registry.ts:46-68 | a routed result costs 0.04 from fal, 0.01 from the self-hosted provider, nothing from the deterministic one |
| ProviderRegistry.SelfHostedBeforeFal | apps/api/app/_lib/provider-registry.ts:50-68 | where both are candidates, the self-hosted provider is asked before fal, against their priorities |
| ProviderRegistry.GrantedTimeouts | apps/api/app/_lib/provider-registry.ts:46-68 | the deterministic provider gets five seconds, the others thirty |
| ProviderRegistry.DeployedSpendIsBounded | apps/api/app/_lib/provider-registry.ts:46-68 | with the router's own costs, spend and what is in flight stay below the budget less the estimate plus n times the dearest price |
| ProviderRegistry.DeploymentHoldsIff | apps/api/app/_lib/pipeline.ts:169-173 | a deployment keeps every budget at concurrency n exactly when n calls of its dearest provider cost at most the estimate |
| ProviderRegistry.SafeConcurrency | apps/api/app/_lib/provider-registry.ts:46-68 | that is n at most 1 with fal, at most 5 with the self-hosted provider alone, any n with neither |
| ProviderRegistry.DeterministicGoesFirst | apps/api/app/_lib/provider-registry.ts:46-48 | where permitted, the deterministic provider heads the order and, when it succeeds, is the only one tried |
| ProviderRegistry.LastResortIffAlone | packages/engine/src/router.ts:4-10 | where permitted, it ends the order exactly when no other provider is permitted |
| TimedRace.Race.constructor | packages/engine/src/router_timeout.ts:62-97 | the promise's executor: an aborted caller is cancelled before the attempt starts |
| TimedRace.Race.FinishWith | packages/engine/src/router_timeout.ts:64-74 | settles at most once, clearing timer and listener |
| TimedRace.Race.OnCallerAbort | packages/engine/src/router_timeout.ts:76-80 | aborts the controller, then cancels |
| TimedRace.Race.OnTimer | packages/engine/src/router_timeout.ts:82-86 | aborts the controller, then times out |
| TimedRace.Race.OnAttempt | packages/engine/src/router_timeout.ts:97-100 | settles with the attempt's own outcome |
| TimedRace.Race.Deliver | packages/engine/src/router_timeout.ts:82-100 | an event reaches its callback only while its source is live |
| TimedRace.FirstEventDecides | packages/engine/src/router_timeout.ts:56-102 | over every interleaving: one settlement, by the first event; afterwards nothing is live; the controller is aborted exactly when timer or caller won; no attempt for an aborted caller |
| TimedRace.LateTimerOnlyAborts | packages/engine/src/router_timeout.ts:65-69 | a timer firing after it was cleared never settles again, and exactly when it misreports the winner |
| RoutedRace.RunRace | packages/engine/src/router_timeout.ts:56-102 | delivering events one by one to the race object gives the specified state |
| RoutedRace.Route | packages/engine/src/router.ts:106-176 | the loop, each attempt raced under the caller's one signal, gives the specified outcome and started attempts |
| RoutedRace.NothingAfterAbort | packages/engine/src/router.ts:122-165 | once the caller has aborted, no attempt is started and the outcome is that all providers failed |
| RoutedRace.AbortStopsAttempts | packages/engine/src/router.ts:53-54 | an abort during one candidate's race lets no later candidate's attempt start |
| RoutedRace.AbortDecidesRoute | packages/engine/src/router.ts:122-176 | and the route then ends with all providers failed exactly when the races up to that one all end without success |
| RoutedRace.RouteRefines | packages/engine/src/router.ts:122-165 | a raced route that settles ends as the plain loop does over the attempts the races make |
| Pipeline.Runtime.RunTryOn | apps/api/app/_lib/pipeline.ts:102-177 | the gates in order, up to the first suspension, change the state as specified |
| Pipeline.Runtime.LimitAndAdmit | apps/api/app/_lib/pipeline.ts:155-176 | limiter, budget guard and cache lookup |
| Pipeline.Runtime.DenyRun | apps/api/app/_lib/pipeline.ts:109-115 | a refusal appends one deny event and ends the run |
| Pipeline.Runtime.RouteSucceeds | apps/api/app/_lib/pipeline-execute.ts:82-89 | a provider's answer goes to the cache and the run waits to be recorded |
| Pipeline.Runtime.RouteFails | apps/api/app/_lib/pipeline-execute.ts:90-98 | a provider failure appends one error event and stores no job |
| Pipeline.Runtime.RecordAndStore | apps/api/app/_lib/pipeline-execute.ts:100-153 | appends the allow event with its cost, stores the job with its request, result and key, and indexes it |
| Pipeline.SumTenantSpendUsd | apps/api/app/_lib/pipeline-errors.ts:43-51 | the loop sums exactly the tenant's allow events with a cost |
| PipelineProperties.LedgerConservation | apps/api/app/_lib/pipeline-execute.ts:100-122 | in every reachable state a tenant's ledger sum is the summed cost of its stored jobs |
| PipelineProperties.OneEventPerRun | apps/api/app/_lib/pipeline.ts:12-13 | each finished run left one audit event, as it ended; replays and runs in flight none |
| PipelineProperties.JobsBelongToRuns | apps/api/app/_lib/pipeline-execute.ts:130-153 | the stored jobs are exactly those the successful runs ended with, each keeping that run's own request |
| PipelineProperties.BeganOnce | apps/api/app/_lib/pipeline.ts:102-107 | a run began with one request only |
| Admission.BucketsAreTheLimiters | apps/api/app/_lib/pipeline.ts:155-167 | the pipeline's buckets are those of the limiter run on just the requests that pass the earlier gates |
| Admission.AdmissionsWithinCap | apps/api/app/_lib/pipeline.ts:155-167 | in every 60 s window of every pipeline run, a tenant's or shopper's admitted runs number at most the tenant's cap |
| Admission.AdmittedByHistory | apps/api/app/_lib/pipeline.ts:155-176 | past the earlier gates, a request is admitted exactly when a limiter remembering everything allows it and the tenant's stored jobs leave room for an estimate |
| Admission.ArrivalGoes | apps/api/app/_lib/pipeline.ts:102-177 | which refusal a request gets, gate by gate in the source's order, that it is admitted exactly past all of them, and the one deny event a refusal writes |
| Admission.AdmittedImages | apps/api/app/_lib/pipeline.ts:82-94 | an admitted run has an accepted person image and, if any, an accepted garment image |
| Idempotency.IndexNamesJobs | apps/api/app/_lib/pipeline-execute.ts:147-151 | every index entry names a stored job with that tenant and key |
| Idempotency.ReplayIsOwnJob | apps/api/app/_lib/pipeline-execute.ts:45-59 | unless another registered id and a NUL start the asking tenant's, or the reverse, a lookup finds that tenant's own stored job under that very key |
| Idempotency.HandedIsOwn | apps/api/app/_lib/pipeline.ts:134-140 | where ids do not nest, whatever job a run ends with is a stored job of the tenant it began for: for that very request when fresh, under that very key when replayed |
| Idempotency.LeaksIffNested | apps/api/app/_lib/runtime.ts:41-48 | for an owner whose requests can pass the gates, some run of another tenant ends with a job of the owner exactly when that tenant is registered and one id, followed by a NUL, starts the other |
| Idempotency.NulJoinsTenants | apps/api/app/_lib/runtime.ts:46-48 | with a NUL inside, two (tenant, key) pairs share an index key, and a run of one tenant ends with the other's job |
| Idempotency.ReplayForever | apps/api/app/_lib/pipeline.ts:134-140 | once a key is recorded, every later verified run under it only replays |
| Idempotency.ReplayedIff | apps/api/app/_lib/pipeline.ts:137-140 | a verified run is a replay exactly when its key has been recorded |
| Idempotency.KeyWaitsForItsJob | apps/api/app/_lib/pipeline.ts:15-17 | while the first run under a key is in flight, a second one is no replay |
| Budget.BudgetPotential | apps/api/app/_lib/pipeline.ts:169-173 | with no price above c and at most n runs in flight, spend plus c for each of them stays below the budget less the estimate plus n times c, in every reachable state |
| Budget.SequentialStaysInBudget | apps/api/app/_lib/pipeline.ts:169-173 | at prices up to the estimate, a tenant whose runs do not overlap never exceeds its budget |
| Budget.OvershootIsAttained | apps/api/app/_lib/pipeline.ts:169-176 | for every n, every c and every tenant whose requests can pass the gates, some such run spends exactly that bound |
| Budget.BudgetHoldsIff | apps/api/app/_lib/pipeline.ts:169-173 | at prices up to c, a concurrency of n never exceeds the budget exactly when n times c is at most the estimate |
| Budget.BudgetHoldsIffSequential | apps/api/app/_lib/pipeline.ts:55 | for prices up to the full estimate that is when runs do not overlap |
| Provenance.EverythingIsSourced | apps/api/app/_lib/pipeline-execute.ts:80-122 | whatever the cache holds was answered to a run with that key; what a run in flight carries or a job holds was answered to a run with the key of its own request, and to itself unless it was a hit |
| Provenance.ResultsStayWithTenant | packages/cache/src/result-cache.ts:13-16 | over all interleavings each stored job holds an answer to a run of the tenant it was stored for |
| Provenance.HandedStaysWithTenant | apps/api/app/_lib/pipeline.ts:134-140 | where ids do not nest, whatever a run ends with, fresh, cached or replayed, was answered to a run of the tenant that made the request |
| Provenance.ResultsAnswerTheRequest | apps/api/app/_lib/pipeline-execute.ts:72-90 | without hash collisions each job holds an answer to a run with the same tenant, image, product and params as the request stored in the job |
| Provenance.SuccessAnswersTheRun | apps/api/app/_lib/pipeline-execute.ts:122-140 | what a successful run is handed was stored for the request it began with and answers that request |
| Caching.SlotsAreTheStores | apps/api/app/_lib/pipeline-execute.ts:80-89 | the cache of a run is a store of capacity 1000 after just these operations: a get for each admission, a put for each provider's answer |
| Caching.AdmittedHits | packages/cache/src/result-cache.ts:60-72 | an admitted run is suspended as a hit with the latest answer for its key if fewer than 1000 other keys were used since, and goes to a provider if there is none |
| Caching.RecordWrites | apps/api/app/_lib/pipeline-execute.ts:100-153 | recording appends one allow event with the cost and one job with the URL, a hit free and marked as cached, which a lookup under its idempotency key then finds |
| Caching.FailureWrites | apps/api/app/_lib/pipeline-execute.ts:90-98 | a failure writes one error event and leaves jobs and cache alone |
| Caching.CachedRunIsFree | apps/api/app/_lib/pipeline-execute.ts:100-122 | a run admitted on a cached answer ends, whenever it is recorded, with that image, marked as cached, at cost 0 |
| Polling.WaitForJob | packages/sdk-node/src/client.ts:176-197 | terminates; bad options are refused before any read; otherwise the first terminal job, the failing read's error, or a timeout |
| Polling.ReadsBounded | packages/sdk-node/src/client.ts:185-196 | at most floor(timeout / poll) + 1 reads |
| Polling.ExactReads | packages/sdk-node/src/client.ts:190-195 | with exact sleeps no read starts after the deadline, and an endless job is read exactly that often |
| Polling.StopsByElapsedTime | packages/sdk-node/src/client.ts:184-195 | polling goes on exactly while the time since before the first read leaves room for another interval, however long reads take |
| Polling.StopsOnce | packages/sdk-node/src/client.ts:186-196 | where a poller stops is determined |
| Polling.PollToTerminal | packages/widget/src/embed.ts:202-223 | terminates after at most 61 reads with the first terminal job, or nothing on a failed read or timeout |
| Polling.StopsAfterAMinute | packages/widget/src/embed.ts:208-222 | the loader polls on exactly while less than 60 s have passed since it began |
| Widget.ReachableIsConsistent | packages/widget/src/state.ts:85-190 | on any events each screen has exactly its data: consent past the gate, a photo from uploading on, result and error only on their screens, idle empty |
| Widget.ConsentWasGiven | packages/widget/src/state.ts:95-104 | past the gate an acceptance was given, and the widget has not been idle since |
| Widget.PhotoWasStagedAfterConsent | packages/widget/src/state.ts:105-110 | a held photo was staged after the acceptance that still stands |
| Widget.HeldPhotoIsLast | packages/widget/src/state.ts:105-124 | a held photo is the last one staged, and nothing has cleared, rejected or closed it away since |
| Widget.StagedLastIsHeld | packages/widget/src/state.ts:105-190 | and what was so staged is held, on every later screen |
| Widget.Journey | packages/widget/src/state.ts:85-158 | the way from opening to a result or an error shows exactly these states |
| Widget.Leaves | packages/widget/src/state.ts:95-124 | closing forgets everything on any screen, declining too; a rejected file shows its code |
| Widget.RetryReturns | packages/widget/src/state.ts:150-190 | a retry keeps consent and photo and nothing else |
| Widget.LoaderNeverJumpsTheGate | packages/widget/src/embed.ts:131-165 | however shopper, page and network interleave, create calls come only from the uploading screen, and no more often than submissions |
| Widget.LoaderRunsTheMachine | packages/widget/src/embed.ts:172-195 | the loader moves the widget only through its transitions |
| Widget.LoaderPhotoIsConsented | packages/widget/src/embed.ts:131-135 | under the loader too, a held photo follows a standing acceptance |
| Widget.LoaderServes | packages/widget/src/embed.ts:143-195 | a submission makes one create call, and each way it can end shows its screen |

## Left out

- SHA-256, the API key verification, image validation, UUIDs and timestamps: parameters, verdicts in a request, or counters. Ids are fresh by construction.
- Provider adapters, HTTP routes, fetch clients, CORS, connectors, the Python service, DOM rendering, the cart and logging: input and output with no hard property.
- Numbers in JSON are named by their shortest decimal, which the language picks; which double that is, is not modelled. -0 prints as 0 and is not told apart from it. Sparse arrays, bigint and objects with getters are not modelled.
- A JavaScript Map is a sequence of slots in insertion order, and its order is part of the model.
- Store clock and TTL are exact reals; limiter, race and pollers use integer milliseconds, and the retry hint's range is for integer clocks.
- Costs are exact reals; rounding of floating point is not modelled.
- `s:` and `t:` in front of bucket keys are the two constructors of a bucket key; what follows them is the source's own string.
- Caps are integers, as the tenant configuration's schema makes them; the schemas themselves (Zod) are not part of this model.
- Each rate-limit claim over a run asks for a clock that does not go back among the requests that reach the limiter.
- An attempt is taken to return a promise: one that throws synchronously would reject the race without `finish`, leaving timer and listener live.
- In `Router` the attempts are a parameter; `RoutedRace` makes them races. What happens during a race is any list of events; the effect of an aborted signal inside a provider is not modelled.
- Idempotency keys are taken as the pipeline receives them. The HTTP route trims them first, so an owner's key that must start with white space does not arrive that way.
- The runs that attain the budget bound space requests a minute apart, keep them in flight together however long that takes, and use cache keys of their own making: the router's timers, which end a run after about a minute, and key derivation are not part of those runs.
- The audit event's provider field, the redacted message and the job's timestamps are not modelled. A job keeps its whole run input as its request.
- A request whose params have no JSON form ends in an error without an audit event; the pipeline's request carries its cache key, so it stands for requests accepted by the contract.
- ResultCache computes once per miss, not once per key: concurrent misses of one key each compute, and no single-flight claim is made.
- A cached result is not claimed to be the uncached one for the whole request: the key leaves out the shopper.
- Polling.WaitForJob: asks that each sleep take at least `pollMs`; with a clock that stands still the loop does not end.
- Polling.PollToTerminal: asks the same of its one-second interval.
- The loader is not claimed to reach a terminal screen when CLOSE arrives in mid-flight. Mutation observer timing is any interleaving of its events.
- The host's `resolveOptions`, `mount` and `mountAll` read the page and are left out.
