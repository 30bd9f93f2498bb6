# BestStories core, modelled in Dafny

BestStories serves the best Hacker News stories ranked by score. This project
models the core of that path:

- **the raw item record** (`HackerNewsData.HackerNewsStory`). Its string
  properties are `Option<string>`, because the JSON deserialiser can store
  null in them despite their empty-string initialisers.
- **the mapper** `MapToBestStory` (`Mapping`). A null record throws. A null
  title, URL or author becomes "Untitled", "No URL" or "Anonymous". Score and
  comment count are copied. The Unix time goes through
  `DateTimeOffset.FromUnixTimeSeconds`, modelled with its exact range and
  tick arithmetic; a time out of range throws.
- **the service** `HackerNewsService` (`Services`, with its value-level
  meaning in `Resolution`):
  - the once-set static configuration: `??=` for the endpoints, "set while
    zero" for the expirations;
  - the shared memory cache, holding the per-story entries and the
    "TopStories" list object;
  - `GetTopStoriesAsync`;
  - `FetchBestStoriesV2`, with its buffer, slot positions, per-item
    read-through cache and exception bag;
  - the uncached `FetchBestStories`, kept as an independent reference that
    the cached variant is proved to agree with.
- **the use case** `GetTopStoriesUseCase` (`UseCases`): the count guard; `Sort`
  as the stable descending sort; `SortV2` as an in-place insertion sort on the
  very list object the service returned.

The upstream API is not called. Each operation takes its responses as
parameters:

- `idList: IdListResponse`: the id list request threw, returned JSON null, or
  returned a list of ids.
- `details: int32 -> ItemResponse`: the item request for each id threw,
  returned JSON null, or returned a record.

A ghost `log` of `Event`s on the service records:

- every cache lookup;
- every cache write;
- every upstream request.

This log is what lets contracts say that each task looks its own id up in the
item cache exactly once (`EveryIdProcessedOnce`) and that a cache hit makes no
request (`ReadThrough`). A repeated id is not deduplicated: when its first
response was null or a failure, nothing was cached, so a later task with the
same id requests it again, and gets the same response, since each id's
response is one parameter value. That sentence holds for the sequential model. When
the tasks really run at once, two tasks for the same id can both miss the
item cache and both request it.

The concurrent tasks of `FetchBestStoriesV2` are run one after another, in
id order, so in the model task i takes position i and fills slot i. In the
program each task takes its position with `Interlocked.Increment` when it
starts running, not when it is dispatched. So the slot order, and with it the
order of the list before ranking, can differ from the id order.

The cached list is held as an `array<Story>`. When `SortV2` ranks the list
that a cache hit returned, it ranks the object the cache holds, and
`ExecuteAsync`'s contract states this.

Where a test and the code disagree, the model follows the code.
`HackerNewsServiceTests.cs:146-150` expects an empty result when every item
request throws. The code at `HackerNewsService.cs:170-171`, however, throws an
`AggregateException` holding every recorded exception. The model returns
`Failure(Aggregate(...))`.

Exceptions are the `Common.Error` cases:

| case | .NET exception |
|---|---|
| `ArgumentError` | `ArgumentException`, with its parameter name if one is given |
| `ArgumentNull` | `ArgumentNullException` |
| `ArgumentOutOfRange` | `ArgumentOutOfRangeException`, from `FromUnixTimeSeconds` or from a `MemoryCacheEntryOptions` expiration that is not positive |
| `Overflow` | `OverflowException`, from allocating an array with a negative length |
| `HttpFailure` | a transport error, a non-success status or malformed JSON |
| `Aggregate` | `AggregateException` |

`MemoryCacheEntryOptions` rejects a sliding or relative absolute expiration
that is not positive: its setter throws `ArgumentOutOfRangeException`. The
expirations are the static settings, which stay 0 when the configuration
leaves them out. So the model carries an `Expiration` value and its
`Accepted()` test. An item write with rejected expirations makes its task
record `ArgumentOutOfRange`, with nothing cached and the slot left empty. A
list write with rejected expirations makes `GetTopStoriesAsync` throw
`ArgumentOutOfRange`, with nothing cached.

The specification functions `ResolveItem`, `FetchV2`, `Payloads`, `FetchV1`,
`AdoptUnset` and `IsNullOrEmpty` carry no contract of their own. The lemmas and methods named in their rows below state them.

## Model

| member | source | states |
|---|---|---|
| HackerNewsData.NewHackerNewsStory | BestStories.Infrastructure/Data/HackerNewsStory.cs:5-14 | A new record has every string property "" and every number 0. |
| HackerNewsData.WithNumbersOnly | BestStories.Infrastructure/Data/HackerNewsStory.cs:5-14 | A record whose numeric properties alone were assigned keeps "" in every string property. |
| Mapping.FromUnixTimeSeconds | BestStories.Infrastructure/Mapping/HackerNewsStoryMapping.cs:23 | The conversion succeeds exactly when the seconds lie in DateTimeOffset's range. It then yields a non-negative tick count. |
| Mapping.FromUnixTimeSecondsRoundTrip | BestStories.Infrastructure/Mapping/HackerNewsStoryMapping.cs:23 | Converting an in-range Unix time to an instant and back gives the same seconds. |
| Mapping.FromUnixTimeSecondsIsMonotonic | BestStories.Infrastructure/Mapping/HackerNewsStoryMapping.cs:23 | A later Unix time gives a later instant. |
| Mapping.MapToBestStory | BestStories.Infrastructure/Mapping/HackerNewsStoryMapping.cs:13-27 | Null throws ArgumentNull("story"). A time out of range throws ArgumentOutOfRange. It succeeds iff the record is present and its time is in range. Each null string takes its default and each present string is kept. Score and comment count are copied. The instant converts back to the record's time. |
| Mapping.DefaultsOnlyReplaceNull | BestStories.Infrastructure/Mapping/HackerNewsStoryMapping.cs:20-22 | A mapped field equals its default iff the record's field was null or already held that default. |
| Mapping.UnsetStringsMapToEmpty | BestStories.Infrastructure/Mapping/HackerNewsStoryMapping.cs:18-26 | A record whose strings were never assigned maps to empty strings, not to the defaults. |
| Mapping.MapPreservesTimeOrder | BestStories.Infrastructure/Mapping/HackerNewsStoryMapping.cs:23 | Mapping preserves the order of creation times. |
| Resolution.ReadThrough | BestStories.Infrastructure/Services/HackerNewsService.cs:133-153 | For one task: a cache hit fills the slot from the cache, fetches nothing and writes nothing. A null payload leaves the slot empty and writes nothing. A thrown request records HttpFailure. A record in range, with expirations the entry options accept, is mapped, written to the cache and put in the slot. With rejected expirations it records ArgumentOutOfRange, leaves the slot empty and writes nothing. A record out of range records ArgumentOutOfRange and is not cached. |
| Resolution.ItemLooksUpItsId | BestStories.Infrastructure/Services/HackerNewsService.cs:133 | Each task makes exactly one item-cache lookup, for its own id. |
| Resolution.EveryIdProcessedOnce | BestStories.Infrastructure/Services/HackerNewsService.cs:122-165 | The item-cache lookups are exactly the ids handed in, once each and in order. |
| Resolution.OnlyGivenIdsTouched | BestStories.Infrastructure/Services/HackerNewsService.cs:122-165 | The loop looks up, fetches and caches only the ids handed in. It never touches the id list or the top-stories entry. |
| Resolution.ResolveItemKeepsEntries | BestStories.Infrastructure/Services/HackerNewsService.cs:133-150 | One task keeps every existing cache entry. A story it puts in its slot ends up cached under its id. |
| Resolution.CacheOnlyGrows | BestStories.Infrastructure/Services/HackerNewsService.cs:133-150 | After the loop every previous entry is unchanged. Every new entry belongs to one of the ids. |
| Resolution.SlotsHoldCachedStories | BestStories.Infrastructure/Services/HackerNewsService.cs:152-153 | Every filled slot i holds the story cached under id i afterwards. |
| Resolution.CachedIdsAreNotRefetched | BestStories.Infrastructure/Services/HackerNewsService.cs:133 | When every id is already cached: nothing is fetched, written or recorded, and slot i holds id i's cached story. |
| Resolution.FetchV2Bounds | BestStories.Infrastructure/Services/HackerNewsService.cs:107-173 | A result holds at most as many stories as there are ids, and at most count of them. An AggregateException holds between 1 and min(count, \|ids\|) exceptions. |
| Resolution.Take | BestStories.Infrastructure/Services/HackerNewsService.cs:91 | Take(count) keeps min(count, \|ids\|) ids, or none when count is not positive. |
| Resolution.MapAll | BestStories.Infrastructure/Services/HackerNewsService.cs:99 | A successful mapping yields one story per record. |
| Resolution.MapAllPayloadsSucceeds | BestStories.Infrastructure/Services/HackerNewsService.cs:99 | Mapping the non-null payloads succeeds iff every record's time is in range. |
| Resolution.UncachedSucceedsUnlessAnItemFails | BestStories.Infrastructure/Services/HackerNewsService.cs:91-99 | FetchBestStories succeeds iff no item request throws and no record is out of range. |
| Resolution.ResolveItemCoherent | BestStories.Infrastructure/Services/HackerNewsService.cs:133-153 | Assume every cached story is what its id's record maps to. Then one task keeps the cache in that state. With accepted expirations it fails iff its item fails and fills its slot with the mapped payload. |
| Resolution.ResolveAllKeepsCoherent | BestStories.Infrastructure/Services/HackerNewsService.cs:143-148 | The loop only caches what the upstream delivers, so the cache stays in that state. |
| Resolution.ResolveAllFailsIffItemFails | BestStories.Infrastructure/Services/HackerNewsService.cs:156-171 | With such a cache and accepted expirations, the exception bag is empty iff no id's item fails. |
| Resolution.ResolveAllMatchesPayloads | BestStories.Infrastructure/Services/HackerNewsService.cs:122-173 | With such a cache and accepted expirations, a loop without failures yields the mapped non-null payloads in id order. |
| Resolution.CachedFetchMatchesUncached | BestStories.Infrastructure/Services/HackerNewsService.cs:85-174 | With such a cache, accepted expirations and count >= 0, FetchBestStoriesV2 succeeds iff FetchBestStories does, with the same stories in the same order. The order holds for the sequential model only, where task i fills slot i. |
| Resolution.RejectedExpirationCachesNothing | BestStories.Infrastructure/Services/HackerNewsService.cs:143-148 | With expirations the entry options reject, the loop leaves the item cache as it was and writes nothing. Each slot holds its id's cached story or nothing. Each uncached id that delivers a record puts ArgumentOutOfRange in the bag. |
| Resolution.RejectedExpirationFailsOnUncachedRecord | BestStories.Infrastructure/Services/HackerNewsService.cs:143-171 | With rejected expirations, FetchBestStoriesV2 throws as soon as one taken id is uncached and delivers a record, and it caches nothing. |
| Resolution.ResolveItem | BestStories.Infrastructure/Services/HackerNewsService.cs:131-153 | No contract. ReadThrough, ItemLooksUpItsId, ResolveItemKeepsEntries and ResolveItemCoherent state it. |
| Resolution.ResolveAll | BestStories.Infrastructure/Services/HackerNewsService.cs:122-168 | One slot per id, and at most one exception per id. EveryIdProcessedOnce, OnlyGivenIdsTouched, CacheOnlyGrows, SlotsHoldCachedStories, CachedIdsAreNotRefetched, ResolveAllKeepsCoherent, ResolveAllFailsIffItemFails, ResolveAllMatchesPayloads and RejectedExpirationCachesNothing state it. |
| Resolution.FetchV2 | BestStories.Infrastructure/Services/HackerNewsService.cs:107-174 | No contract. FetchV2Bounds, CachedFetchMatchesUncached and RejectedExpirationFailsOnUncachedRecord state it. HackerNewsService.FetchBestStoriesV2 is proved to compute it. |
| Resolution.FetchV1 | BestStories.Infrastructure/Services/HackerNewsService.cs:85-100 | No contract. UncachedSucceedsUnlessAnItemFails and CachedFetchMatchesUncached state it. |
| Resolution.Payloads | BestStories.Infrastructure/Services/HackerNewsService.cs:91-99 | No contract. MapAllPayloadsSucceeds and ResolveAllMatchesPayloads state it. |
| Resolution.Present | BestStories.Infrastructure/Services/HackerNewsService.cs:173 | The non-null slots, no more than there are slots. A story is in the list iff some slot holds it. |
| Services.AdoptUnset | BestStories.Infrastructure/Services/HackerNewsService.cs:41-47 | No contract. SetFieldsAreNeverOverwritten, FirstEndpointWins and HackerNewsService.constructor state it. |
| Common.IsNullOrEmpty | BestStories.Infrastructure/Services/HackerNewsService.cs:52-54 | No contract. HackerNewsService.GetTopStoriesAsync states its use: a null or "" endpoint throws ArgumentError naming that endpoint. |
| Services.MemoryCache.constructor | BestStories.Infrastructure/Services/HackerNewsService.cs:29 | The shared IMemoryCache starts with no story entries and no list entry. |
| Services.SetFieldsAreNeverOverwritten | BestStories.Infrastructure/Services/HackerNewsService.cs:41-47 | Later constructions never overwrite a static setting that is already set. This includes an endpoint set to "". |
| Services.FirstEndpointWins | BestStories.Infrastructure/Services/HackerNewsService.cs:41 | The first construction whose settings name a best-stories endpoint fixes it for good. |
| Services.StaticSettings.constructor | BestStories.Infrastructure/Services/HackerNewsService.cs:21-26 | The static settings start null and zero. |
| Services.HackerNewsService.constructor | BestStories.Infrastructure/Services/HackerNewsService.cs:33-48 | Stores the cache. The static settings become AdoptUnset(old settings, config): an endpoint only if it was null, an expiration only if it was 0. |
| Services.HackerNewsService.ResolveStory | BestStories.Infrastructure/Services/HackerNewsService.cs:131-150 | The item cache and the log change exactly as ResolveItem says. The slot value and failure are ResolveItem's. |
| Services.HackerNewsService.RunTask | BestStories.Infrastructure/Services/HackerNewsService.cs:127-165 | One task: writes only its own slot, with ResolveItem's value, and hands back ResolveItem's failure. |
| Services.HackerNewsService.RunTasks | BestStories.Infrastructure/Services/HackerNewsService.cs:114-168 | After the loop the buffer equals ResolveAll's slots. The exceptions, the cache and the log also equal ResolveAll's. |
| Services.HackerNewsService.FilledSlots | BestStories.Infrastructure/Services/HackerNewsService.cs:173 | Returns a new list of the filled slots, in order. |
| Services.HackerNewsService.FetchBestStoriesV2 | BestStories.Infrastructure/Services/HackerNewsService.cs:107-174 | The result, the item cache and the log are FetchV2's. A success is a new list. A null details endpoint gives a new empty list (a success). A failure is an Overflow for a negative count or an Aggregate of every recorded exception. |
| Services.HackerNewsService.GetTopStoriesAsync | BestStories.Infrastructure/Services/HackerNewsService.cs:50-83 | A missing endpoint throws ArgumentError naming it, and nothing is looked up. A list-cache hit returns the cached list object, whatever the count, and makes no request. On a miss the id list is fetched. A thrown request passes through. A null or empty id list returns a new empty list that is not cached. Otherwise the call is FetchBestStoriesV2, whose failure passes through. On success with accepted list expirations the new list is cached and returned. With rejected list expirations the call throws ArgumentOutOfRange and nothing is cached. |
| Services.HackerNewsService.FetchAndStoreList | BestStories.Infrastructure/Services/HackerNewsService.cs:72-82 | The item cache and log follow FetchV2. A fetch failure passes through. Rejected list expirations throw ArgumentOutOfRange. Otherwise the new list is stored under "TopStories", the write is logged, and the list is returned. Each failure leaves the list entry as it was. |
| Services.RepeatedRequestIsServedFromCache | BestStories.Infrastructure/Services/HackerNewsService.cs:57-61 | Once a call found or stored a list, the next call returns that same list, whatever its count. Its only interaction is the list-cache lookup. |
| UseCases.InsertByScore | BestStories.Application/UseCases/GetTopStoriesUseCase.cs:28 | Inserting a story adds exactly that story to the multiset. |
| UseCases.InsertKeepsRanked | BestStories.Application/UseCases/GetTopStoriesUseCase.cs:28 | Inserting into a list ranked by score keeps it ranked. |
| UseCases.SortByScoreDescending | BestStories.Application/UseCases/GetTopStoriesUseCase.cs:26-30 | The result is a permutation of the input, ranked by score, highest first. |
| UseCases.InsertKeepsTieOrder | BestStories.Application/UseCases/GetTopStoriesUseCase.cs:28 | The inserted story goes ahead of the stories it ties with, which keep their order. |
| UseCases.SortIsStable | BestStories.Application/UseCases/GetTopStoriesUseCase.cs:28 | For every score, the stories with that score keep their input order, as OrderByDescending promises. |
| UseCases.SortOfRankedIsIdentity | BestStories.Application/UseCases/GetTopStoriesUseCase.cs:28 | Sorting an already ranked list returns it unchanged. |
| UseCases.ScoreBagFollowsStoryBag | BestStories.Application/UseCases/GetTopStoriesUseCase.cs:38 | Permuting the stories permutes their scores. |
| UseCases.DescendingWithSameBagAreEqual | BestStories.Application/UseCases/GetTopStoriesUseCase.cs:38 | Two descending score lists that hold the same scores are equal. |
| UseCases.RankingsAgreeOnScores | BestStories.Application/UseCases/GetTopStoriesUseCase.cs:38 | Any two rankings of the same stories agree score by score, so SortV2 and Sort agree up to ties. |
| UseCases.Swap | BestStories.Application/UseCases/GetTopStoriesUseCase.cs:38 | Exchanges two elements, leaves the rest alone and keeps the multiset. |
| UseCases.InsertIntoRankedPrefix | BestStories.Application/UseCases/GetTopStoriesUseCase.cs:38 | Grows the ranked prefix by one and keeps the multiset. |
| UseCases.SortV2 | BestStories.Application/UseCases/GetTopStoriesUseCase.cs:35-41 | Returns the same list object, ranked in place and a permutation of its old contents. Its score sequence equals that of the stable Sort. An already ranked list keeps its scores. |
| UseCases.GetTopStoriesUseCase.constructor | BestStories.Application/UseCases/GetTopStoriesUseCase.cs:5-7 | Keeps the service it is given. |
| UseCases.GetTopStoriesUseCase.ExecuteAsync | BestStories.Application/UseCases/GetTopStoriesUseCase.cs:13-21 | A count <= 0 throws ArgumentError with no parameter name, and the service is not called. Any list returned is ranked by score. A missing endpoint throws ArgumentError. Both failures leave the cache, the list it holds and the log unchanged. A list-cache hit ranks the cached list in place and returns it. A miss with ids passes through a fetch failure, throws ArgumentOutOfRange with nothing cached when the list expirations are rejected, and otherwise returns FetchBestStoriesV2's stories ranked, and that ranked list is what the cache holds. On every path with a positive count and the configuration present, the item cache and the log are exactly what GetTopStoriesAsync leaves: a hit keeps the item cache and logs only the list lookup; a miss logs the lookup and the id-list request, then FetchV2's events and the list write; a failed fetch leaves the list entry empty. A miss without ids passes through the request error or an empty list. |

## Left out

- Concurrency. `Task.Run`, `SemaphoreSlim(10)`, `Interlocked.Increment` and `ConcurrentBag` are not modelled. The tasks run one after another, in id order, so task i takes position i. In the program a task takes its position when it starts running, so the slots, and the list FetchBestStoriesV2 returns before ranking, can be in another order than the ids. Two tasks for a repeated id can also both miss the item cache and both request it. The exception bag is ordered in id order, whereas a real bag is unordered.
- HTTP and JSON. Each id's response is a parameter that yields a thrown request, JSON null, or a value; every request for the same id gets that response, so a repeated request cannot succeed where an earlier one failed. `EnsureSuccessStatusCode`, malformed JSON and transport errors are all `HttpFailure`. The format string for the details URL is not modelled.
- Cache entry options. Expiry over time, `Size` and the cache's `SizeLimit` are not modelled, so entries never expire or get evicted. Only the options' rejection of an expiration that is not positive is modelled.
- Logging (`ILogger.LogError`). It has no effect on results.
- `IHttpClientFactory`, `IBestStoriesConfig` and the dependency wiring. The settings arrive as a `Settings` value.
- `IHackerNewsService`. The use case holds the concrete service.
- The controller, `Program.cs` and the `JsonDateTimeConverter`. They are outside the core.
- BestStories.Domain is not part of this model. `BestHackerNewsStory` is rebuilt from its use in the mapper: title, URI, author, time, score and comment count.
- `DateTime` is its tick count alone. `Kind` is always UTC, and calendar fields are not modelled.
- UseCases.SortV2: `List.Sort` is an unstable introsort, and its tie order is not modelled. The contract states the result is ranked, a permutation, and equal score by score to the stable `Sort`. It does not state the order among stories with equal scores.
- Resolution.CachedFetchMatchesUncached: stated for count >= 0 only. For a negative count `FetchBestStories` takes no ids and returns [], but `FetchBestStoriesV2` throws while allocating its buffer. `ExecuteAsync` never passes such a count.
- Resolution.ResolveItemCoherent, Resolution.ResolveAllFailsIffItemFails, Resolution.ResolveAllMatchesPayloads: the iff, slot and payload clauses are stated for accepted expirations only. With rejected ones a record is not cached and its task fails although its item does not; RejectedExpirationCachesNothing states that case.
- Resolution.CachedFetchMatchesUncached: also stated for accepted expirations only. With rejected ones `FetchBestStories`, which writes no cache entries, can succeed where `FetchBestStoriesV2` throws (RejectedExpirationFailsOnUncachedRecord).
- Resolution.FetchV2Bounds: bounds the number of stories by count only when count >= 0. A negative count never succeeds with a details endpoint.
