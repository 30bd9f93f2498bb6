/** The value-level meaning of HackerNewsService's story fetching, with the
    task machinery removed: the ids are resolved one after another, the i-th
    id owning slot i of the buffer. FetchV2 specifies FetchBestStoriesV2
    (item cache, collected failures); FetchV1 is the uncached
    FetchBestStories, kept as an independent reference. */
module Resolution {
  import opened Common
  import opened HackerNewsData
  import opened Mapping

  /** What one item-detail request yields: an exception (transport error,
      non-success status, malformed JSON), a JSON null, or a record. */
  datatype ItemResponse = ItemFailed | NullPayload | Raw(item: HackerNewsStory)

  /** What the id-list request yields. */
  datatype IdListResponse = IdsFailed | NullIds | Ids(ids: seq<int32>)

  /** Keys of the shared memory cache: "StoryDetails_" + id and "TopStories". */
  datatype CacheKey = ItemKey(id: int32) | TopStoriesKey

  /** The service's observable interactions with the cache and the upstream API. */
  datatype Event =
    | CacheLookup(key: CacheKey)
    | CacheSet(key: CacheKey)
    | FetchIdList
    | FetchItem(id: int32)

  /** The expirations, in minutes, a cache entry is written with. */
  datatype Expiration = Expiration(slidingMinutes: int32, absoluteMinutes: int32) {
    /** The MemoryCacheEntryOptions setters for SlidingExpiration and
        AbsoluteExpirationRelativeToNow throw ArgumentOutOfRangeException
        unless the time span is positive. */
    predicate Accepted() {
      slidingMinutes > 0 && absoluteMinutes > 0
    }
  }

  function Min(a: int, b: int): int {
    if a < b then a else b
  }

  function FailureList(e: Option<Error>): seq<Error> {
    if e.Some? then [e.value] else []
  }

  // ---------------------------------------------------------------------------
  // One task of FetchBestStoriesV2: per-item read-through
  // ---------------------------------------------------------------------------

  /** The effect of one task: what it writes to its slot, the exception it
      records, the item cache afterwards and its interactions. */
  datatype ItemResolution = ItemResolution(
    slot: Option<Story>,
    failure: Option<Error>,
    cache: map<int32, Story>,
    events: seq<Event>)

  /** Item-cache hit: use the cached story. Miss: fetch; a record is mapped
      and cached; a null payload leaves the slot empty; an exception, from the
      request, the mapper or the entry options, is recorded instead. */
  function ResolveItem(cache: map<int32, Story>, id: int32, expiry: Expiration, details: int32 -> ItemResponse): ItemResolution
  {
    if id in cache then
      ItemResolution(Some(cache[id]), None, cache, [CacheLookup(ItemKey(id))])
    else
      var fetched := [CacheLookup(ItemKey(id)), FetchItem(id)];
      match details(id)
      case ItemFailed => ItemResolution(None, Some(HttpFailure), cache, fetched)
      case NullPayload => ItemResolution(None, None, cache, fetched)
      case Raw(item) =>
        match MapToBestStory(Some(item))
        case Failure(e) => ItemResolution(None, Some(e), cache, fetched)
        case Success(story) =>
          if !expiry.Accepted() then ItemResolution(None, Some(ArgumentOutOfRange), cache, fetched)
          else ItemResolution(Some(story), None, cache[id := story], fetched + [CacheSet(ItemKey(id))])
  }

  /** The read-through rules of one task, case by case. */
  lemma ReadThrough(cache: map<int32, Story>, id: int32, expiry: Expiration, details: int32 -> ItemResponse)
    ensures var r := ResolveItem(cache, id, expiry, details);
      && (id in cache ==>
            r.slot == Some(cache[id]) && r.failure.None? && r.cache == cache
            && FetchItem(id) !in r.events && CacheSet(ItemKey(id)) !in r.events)
      && (id !in cache && details(id).NullPayload? ==>
            r.slot.None? && r.failure.None? && r.cache == cache && CacheSet(ItemKey(id)) !in r.events)
      && (id !in cache && details(id).ItemFailed? ==>
            r.slot.None? && r.failure == Some(HttpFailure) && r.cache == cache)
      && (id !in cache && details(id).Raw? && InUnixRange(details(id).item.time) && !expiry.Accepted() ==>
            r.slot.None? && r.failure == Some(ArgumentOutOfRange) && r.cache == cache
            && r.events == [CacheLookup(ItemKey(id)), FetchItem(id)])
      && (id !in cache && details(id).Raw? && InUnixRange(details(id).item.time) && expiry.Accepted() ==>
            var story := MapToBestStory(Some(details(id).item)).value;
            r.slot == Some(story) && r.failure.None? && r.cache == cache[id := story]
            && r.events == [CacheLookup(ItemKey(id)), FetchItem(id), CacheSet(ItemKey(id))])
      && (id !in cache && details(id).Raw? && !InUnixRange(details(id).item.time) ==>
            r.slot.None? && r.failure == Some(ArgumentOutOfRange) && r.cache == cache)
  {
  }

  // ---------------------------------------------------------------------------
  // The loop of FetchBestStoriesV2
  // ---------------------------------------------------------------------------

  /** Buffer, exception bag, item cache and interactions after every task has run. */
  datatype Batch = Batch(
    cache: map<int32, Story>,
    slots: seq<Option<Story>>,
    failures: seq<Error>,
    events: seq<Event>)

  /** Runs the tasks for `ids` in order; task i fills slot i. */
  function ResolveAll(cache: map<int32, Story>, ids: seq<int32>, expiry: Expiration, details: int32 -> ItemResponse): (b: Batch)
    ensures |b.slots| == |ids|
    ensures |b.failures| <= |ids|
  {
    if ids == [] then Batch(cache, [], [], [])
    else
      var prev := ResolveAll(cache, ids[..|ids| - 1], expiry, details);
      var item := ResolveItem(prev.cache, ids[|ids| - 1], expiry, details);
      Batch(item.cache, prev.slots + [item.slot], prev.failures + FailureList(item.failure),
            prev.events + item.events)
  }

  /** One more task extends the batch by that task's slot, failure and events. */
  lemma ResolveAllAppend(cache: map<int32, Story>, ids: seq<int32>, id: int32, expiry: Expiration, details: int32 -> ItemResponse)
    ensures var prev := ResolveAll(cache, ids, expiry, details);
      var item := ResolveItem(prev.cache, id, expiry, details);
      ResolveAll(cache, ids + [id], expiry, details)
        == Batch(item.cache, prev.slots + [item.slot], prev.failures + FailureList(item.failure),
                 prev.events + item.events)
  {
    assert (ids + [id])[..|ids|] == ids;
  }

  /** stories.Where(s => s != null).ToList(): the filled slots, in slot order. */
  function Present(slots: seq<Option<Story>>): (r: seq<Story>)
    ensures |r| <= |slots|
    ensures forall s :: s in r <==> Some(s) in slots
  {
    if slots == [] then []
    else
      var last := slots[|slots| - 1];
      assert slots == slots[..|slots| - 1] + [last];
      Present(slots[..|slots| - 1]) + (if last.Some? then [last.value] else [])
  }

  /** The observable outcome of one call: its result, the item cache and the interactions. */
  datatype Fetched = Fetched(result: Result<seq<Story>>, cache: map<int32, Story>, events: seq<Event>)

  /** FetchBestStoriesV2(count, storyIds). A null details endpoint gives [];
      a negative count makes the buffer allocation throw; otherwise the first
      min(count, |ids|) ids are resolved, and any recorded exception makes
      the call throw them all together. */
  function FetchV2(detailsEndpoint: Option<string>, cache: map<int32, Story>, count: int32,
                   ids: seq<int32>, expiry: Expiration, details: int32 -> ItemResponse): Fetched
  {
    if detailsEndpoint.None? then Fetched(Success([]), cache, [])
    else if Min(count, |ids|) < 0 then Fetched(Failure(Overflow), cache, [])
    else
      var b := ResolveAll(cache, ids[..Min(count, |ids|)], expiry, details);
      Fetched(if b.failures == [] then Success(Present(b.slots)) else Failure(Aggregate(b.failures)),
              b.cache, b.events)
  }

  // ---------------------------------------------------------------------------
  // Properties of the loop
  // ---------------------------------------------------------------------------

  /** The item ids the interactions are about, in order. */
  function LookedUp(events: seq<Event>): seq<int32> {
    if events == [] then []
    else
      var e := events[|events| - 1];
      LookedUp(events[..|events| - 1]) + (if e.CacheLookup? && e.key.ItemKey? then [e.key.id] else [])
  }

  lemma LookedUpConcat(u: seq<Event>, v: seq<Event>)
    ensures LookedUp(u + v) == LookedUp(u) + LookedUp(v)
    decreases |v|
  {
    if v == [] {
      assert u + v == u;
    } else {
      assert (u + v)[..|u + v| - 1] == u + v[..|v| - 1];
      LookedUpConcat(u, v[..|v| - 1]);
    }
  }

  lemma ItemLooksUpItsId(cache: map<int32, Story>, id: int32, expiry: Expiration, details: int32 -> ItemResponse)
    ensures LookedUp(ResolveItem(cache, id, expiry, details).events) == [id]
  {
    var ev := ResolveItem(cache, id, expiry, details).events;
    var lookup := [CacheLookup(ItemKey(id))];
    assert LookedUp(lookup) == [id] by {
      assert lookup[..0] == [];
    }
    if ev != lookup {
      var fetch := [FetchItem(id)];
      assert LookedUp(fetch) == [] by {
        assert fetch[..0] == [];
      }
      LookedUpConcat(lookup, fetch);
      if ev != lookup + fetch {
        var set_ := [CacheSet(ItemKey(id))];
        assert LookedUp(set_) == [] by {
          assert set_[..0] == [];
        }
        assert ev == (lookup + fetch) + set_;
        LookedUpConcat(lookup + fetch, set_);
      }
    }
  }

  /** The interaction is about an item key or item id among `ids`. */
  predicate Touches(e: Event, ids: seq<int32>) {
    match e
    case CacheLookup(key) => key.ItemKey? && key.id in ids
    case CacheSet(key) => key.ItemKey? && key.id in ids
    case FetchIdList => false
    case FetchItem(id) => id in ids
  }

  /** Only item keys of the given ids are looked up, fetched or set; the id
      list and the top-stories entry are never touched. */
  ghost predicate TouchesOnly(events: seq<Event>, ids: seq<int32>) {
    forall e :: e in events ==> Touches(e, ids)
  }

  /** Every id is processed exactly once and in order: each task looks its id
      up once. */
  lemma {:induction false} EveryIdProcessedOnce(cache: map<int32, Story>, ids: seq<int32>, expiry: Expiration, details: int32 -> ItemResponse)
    ensures LookedUp(ResolveAll(cache, ids, expiry, details).events) == ids
    decreases |ids|
  {
    if ids != [] {
      var init, id := ids[..|ids| - 1], ids[|ids| - 1];
      var prev := ResolveAll(cache, init, expiry, details);
      var item := ResolveItem(prev.cache, id, expiry, details);
      var b := ResolveAll(cache, ids, expiry, details);
      assert b.events == prev.events + item.events;
      EveryIdProcessedOnce(cache, init, expiry, details);
      LookedUpConcat(prev.events, item.events);
      ItemLooksUpItsId(prev.cache, id, expiry, details);
      SplitLast(ids);
      calc {
        LookedUp(b.events);
        LookedUp(prev.events) + LookedUp(item.events);
        init + [id];
        ids;
      }
    }
  }

  lemma SplitLast(s: seq<int32>)
    requires s != []
    ensures s == s[..|s| - 1] + [s[|s| - 1]]
  {
  }

  /** Only the ids handed in are touched: only their item keys are looked up
      or set and only they are fetched. */
  lemma {:induction false} OnlyGivenIdsTouched(cache: map<int32, Story>, ids: seq<int32>, expiry: Expiration, details: int32 -> ItemResponse)
    ensures TouchesOnly(ResolveAll(cache, ids, expiry, details).events, ids)
    decreases |ids|
  {
    if ids != [] {
      var init, id := ids[..|ids| - 1], ids[|ids| - 1];
      var prev := ResolveAll(cache, init, expiry, details);
      var item := ResolveItem(prev.cache, id, expiry, details);
      OnlyGivenIdsTouched(cache, init, expiry, details);
      assert ids == init + [id];
      forall e | e in prev.events + item.events ensures Touches(e, ids) {
        if e in prev.events {
          assert Touches(e, init);
        }
      }
    }
  }

  /** One task keeps every cached entry and, when it fills its slot, leaves
      that story cached under its id. */
  lemma ResolveItemKeepsEntries(cache: map<int32, Story>, id: int32, expiry: Expiration, details: int32 -> ItemResponse)
    ensures var r := ResolveItem(cache, id, expiry, details);
      && (forall k :: k in cache ==> k in r.cache && r.cache[k] == cache[k])
      && (forall k :: k in r.cache ==> k in cache || k == id)
      && (r.slot.Some? ==> id in r.cache && r.cache[id] == r.slot.value)
  {
  }

  /** Entries already cached are kept as they are; new entries belong to the ids. */
  lemma {:induction false} CacheOnlyGrows(cache: map<int32, Story>, ids: seq<int32>, expiry: Expiration, details: int32 -> ItemResponse)
    ensures var b := ResolveAll(cache, ids, expiry, details);
      && (forall id :: id in cache ==> id in b.cache && b.cache[id] == cache[id])
      && (forall id :: id in b.cache ==> id in cache || id in ids)
    decreases |ids|
  {
    if ids != [] {
      var init, id := ids[..|ids| - 1], ids[|ids| - 1];
      CacheOnlyGrows(cache, init, expiry, details);
      ResolveItemKeepsEntries(ResolveAll(cache, init, expiry, details).cache, id, expiry, details);
      assert ids == init + [id];
    }
  }

  /** A filled slot holds exactly the story the item cache ends up holding for
      that slot's id: each id writes at most its own slot, with the story it
      read from or put into the cache. */
  lemma {:induction false} SlotsHoldCachedStories(cache: map<int32, Story>, ids: seq<int32>, expiry: Expiration, details: int32 -> ItemResponse)
    ensures var b := ResolveAll(cache, ids, expiry, details);
      forall i :: 0 <= i < |ids| && b.slots[i].Some? ==> ids[i] in b.cache && b.cache[ids[i]] == b.slots[i].value
    decreases |ids|
  {
    if ids != [] {
      var init, id := ids[..|ids| - 1], ids[|ids| - 1];
      var prev := ResolveAll(cache, init, expiry, details);
      var item := ResolveItem(prev.cache, id, expiry, details);
      SlotsHoldCachedStories(cache, init, expiry, details);
      ResolveItemKeepsEntries(prev.cache, id, expiry, details);
      var b := ResolveAll(cache, ids, expiry, details);
      assert b.slots == prev.slots + [item.slot] && b.cache == item.cache;
      forall i | 0 <= i < |ids| && b.slots[i].Some?
        ensures ids[i] in b.cache && b.cache[ids[i]] == b.slots[i].value
      {
        if i < |ids| - 1 {
          assert b.slots[i] == prev.slots[i] && ids[i] == init[i];
        }
      }
    }
  }

  /** Ids that are all cached already are served from the cache: nothing is
      fetched, set or recorded, and each slot holds its id's cached story. */
  lemma {:induction false} CachedIdsAreNotRefetched(cache: map<int32, Story>, ids: seq<int32>, expiry: Expiration, details: int32 -> ItemResponse)
    requires forall id :: id in ids ==> id in cache
    ensures var b := ResolveAll(cache, ids, expiry, details);
      && b.cache == cache && b.failures == []
      && (forall e :: e in b.events ==> e.CacheLookup?)
      && (forall i :: 0 <= i < |ids| ==> b.slots[i] == Some(cache[ids[i]]))
    decreases |ids|
  {
    if ids != [] {
      var init, id := ids[..|ids| - 1], ids[|ids| - 1];
      assert forall x :: x in init ==> x in ids;
      CachedIdsAreNotRefetched(cache, init, expiry, details);
      var prev := ResolveAll(cache, init, expiry, details);
      assert id in ids && prev.cache == cache;
      var item := ResolveItem(prev.cache, id, expiry, details);
      assert item == ItemResolution(Some(cache[id]), None, cache, [CacheLookup(ItemKey(id))]);
      var b := ResolveAll(cache, ids, expiry, details);
      assert b.slots == prev.slots + [item.slot] && b.events == prev.events + item.events;
      forall i | 0 <= i < |ids| ensures b.slots[i] == Some(cache[ids[i]]) {
        if i < |ids| - 1 {
          assert b.slots[i] == prev.slots[i] && ids[i] == init[i];
        }
      }
    }
  }

  /** The result never holds more stories than the ids it was asked to
      process, and a failure report holds at least one exception and no more
      than the number of ids processed. */
  lemma FetchV2Bounds(detailsEndpoint: Option<string>, cache: map<int32, Story>, count: int32,
                      ids: seq<int32>, expiry: Expiration, details: int32 -> ItemResponse)
    ensures var f := FetchV2(detailsEndpoint, cache, count, ids, expiry, details);
      && (f.result.Success? ==> |f.result.value| <= |ids|)
      && (f.result.Success? && count >= 0 ==> |f.result.value| <= count)
      && (f.result.Failure? && f.result.error.Aggregate? ==>
            0 < |f.result.error.inner| <= Min(count, |ids|))
  {
    var f := FetchV2(detailsEndpoint, cache, count, ids, expiry, details);
    if detailsEndpoint.Some? && Min(count, |ids|) >= 0 {
      var taken := ids[..Min(count, |ids|)];
      var b := ResolveAll(cache, taken, expiry, details);
      assert f.result.Success? ==> f.result.value == Present(b.slots);
      assert |Present(b.slots)| <= |b.slots| == |taken| == Min(count, |ids|);
    }
  }

  /** With expirations the entry options reject, nothing is cached: every
      slot holds its id's cached story or nothing, and every record fetched
      for an uncached id records ArgumentOutOfRange. */
  lemma {:induction false} RejectedExpirationCachesNothing(cache: map<int32, Story>, ids: seq<int32>, expiry: Expiration,
                                                           details: int32 -> ItemResponse)
    requires !expiry.Accepted()
    ensures var b := ResolveAll(cache, ids, expiry, details);
      && b.cache == cache
      && (forall e :: e in b.events ==> !e.CacheSet?)
      && (forall i :: 0 <= i < |ids| ==> b.slots[i] == (if ids[i] in cache then Some(cache[ids[i]]) else None))
      && (forall i :: 0 <= i < |ids| && ids[i] !in cache && details(ids[i]).Raw? ==> ArgumentOutOfRange in b.failures)
    decreases |ids|
  {
    if ids != [] {
      var init, id := ids[..|ids| - 1], ids[|ids| - 1];
      var prev := ResolveAll(cache, init, expiry, details);
      var item := ResolveItem(prev.cache, id, expiry, details);
      RejectedExpirationCachesNothing(cache, init, expiry, details);
      var b := ResolveAll(cache, ids, expiry, details);
      assert b.slots == prev.slots + [item.slot] && b.events == prev.events + item.events;
      assert b.failures == prev.failures + FailureList(item.failure);
      forall i | 0 <= i < |ids|
        ensures b.slots[i] == (if ids[i] in cache then Some(cache[ids[i]]) else None)
        ensures ids[i] !in cache && details(ids[i]).Raw? ==> ArgumentOutOfRange in b.failures
      {
        if i < |ids| - 1 {
          assert b.slots[i] == prev.slots[i] && ids[i] == init[i];
        }
      }
    }
  }

  /** So with rejected expirations, FetchBestStoriesV2 throws as soon as one
      of the ids it processes is uncached and delivers a record. */
  lemma RejectedExpirationFailsOnUncachedRecord(detailsEndpoint: Option<string>, cache: map<int32, Story>, count: int32,
                                                ids: seq<int32>, expiry: Expiration, details: int32 -> ItemResponse, i: int)
    requires !expiry.Accepted() && detailsEndpoint.Some?
    requires 0 <= i < Min(count, |ids|) && ids[i] !in cache && details(ids[i]).Raw?
    ensures var f := FetchV2(detailsEndpoint, cache, count, ids, expiry, details);
      f.result.Failure? && f.cache == cache
  {
    var taken := ids[..Min(count, |ids|)];
    RejectedExpirationCachesNothing(cache, taken, expiry, details);
    assert taken[i] == ids[i];
  }

  // ---------------------------------------------------------------------------
  // FetchBestStories, the uncached variant, as a reference
  // ---------------------------------------------------------------------------

  /** storyIds.Take(count) */
  function Take(ids: seq<int32>, count: int): (r: seq<int32>)
    ensures |r| == if count <= 0 then 0 else Min(count, |ids|)
  {
    if count <= 0 then [] else ids[..Min(count, |ids|)]
  }

  /** The non-null payloads, in id order. */
  function Payloads(ids: seq<int32>, details: int32 -> ItemResponse): seq<HackerNewsStory> {
    if ids == [] then []
    else
      var r := details(ids[|ids| - 1]);
      Payloads(ids[..|ids| - 1], details) + (if r.Raw? then [r.item] else [])
  }

  /** Select(MapToBestStory).ToList(): the first exception in order wins. */
  function MapAll(items: seq<HackerNewsStory>): (r: Result<seq<Story>>)
    ensures r.Success? ==> |r.value| == |items|
  {
    if items == [] then Success([])
    else
      match MapAll(items[..|items| - 1])
      case Failure(e) => Failure(e)
      case Success(init) =>
        match MapToBestStory(Some(items[|items| - 1]))
        case Failure(e) => Failure(e)
        case Success(s) => Success(init + [s])
  }

  /** FetchBestStories(count, storyIds): fetch all of the first `count` ids;
      if any request threw, Task.WhenAll rethrows; otherwise map the non-null
      payloads. No cache is involved. */
  function FetchV1(detailsEndpoint: Option<string>, count: int32, ids: seq<int32>,
                   details: int32 -> ItemResponse): Result<seq<Story>>
  {
    if detailsEndpoint.None? then Success([])
    else
      var taken := Take(ids, count);
      if exists i :: 0 <= i < |taken| && details(taken[i]).ItemFailed? then Failure(HttpFailure)
      else MapAll(Payloads(taken, details))
  }

  /** The id cannot be turned into a story: its request throws or its record's
      time is out of range. */
  predicate ItemFails(id: int32, details: int32 -> ItemResponse) {
    details(id).ItemFailed? || (details(id).Raw? && !InUnixRange(details(id).item.time))
  }

  /** Every cached story is what the upstream would deliver for its id now. */
  ghost predicate Coherent(cache: map<int32, Story>, details: int32 -> ItemResponse) {
    forall id :: id in cache ==>
      details(id).Raw? && MapToBestStory(Some(details(id).item)) == Success(cache[id])
  }

  /** A coherent cache stays coherent after one task. With accepted entry
      options the task fills its slot and fails exactly as an uncached fetch
      would. */
  lemma ResolveItemCoherent(cache: map<int32, Story>, id: int32, expiry: Expiration, details: int32 -> ItemResponse)
    requires Coherent(cache, details)
    ensures var r := ResolveItem(cache, id, expiry, details);
      && Coherent(r.cache, details)
      && (expiry.Accepted() ==> (r.failure.None? <==> !ItemFails(id, details)))
      && (expiry.Accepted() && r.failure.None? ==>
            r.slot == if details(id).Raw? then Some(MapToBestStory(Some(details(id).item)).value) else None)
  {
  }

  lemma {:induction false} ResolveAllKeepsCoherent(cache: map<int32, Story>, ids: seq<int32>, expiry: Expiration, details: int32 -> ItemResponse)
    requires Coherent(cache, details)
    ensures Coherent(ResolveAll(cache, ids, expiry, details).cache, details)
    decreases |ids|
  {
    if ids != [] {
      var init, id := ids[..|ids| - 1], ids[|ids| - 1];
      ResolveAllKeepsCoherent(cache, init, expiry, details);
      ResolveItemCoherent(ResolveAll(cache, init, expiry, details).cache, id, expiry, details);
    }
  }

  lemma {:induction false} ResolveAllFailsIffItemFails(cache: map<int32, Story>, ids: seq<int32>, expiry: Expiration, details: int32 -> ItemResponse)
    requires Coherent(cache, details) && expiry.Accepted()
    ensures ResolveAll(cache, ids, expiry, details).failures == [] <==> forall i :: 0 <= i < |ids| ==> !ItemFails(ids[i], details)
    decreases |ids|
  {
    if ids != [] {
      var init, id := ids[..|ids| - 1], ids[|ids| - 1];
      var prev := ResolveAll(cache, init, expiry, details);
      var item := ResolveItem(prev.cache, id, expiry, details);
      ResolveAllFailsIffItemFails(cache, init, expiry, details);
      ResolveAllKeepsCoherent(cache, init, expiry, details);
      ResolveItemCoherent(prev.cache, id, expiry, details);
      assert ResolveAll(cache, ids, expiry, details).failures == prev.failures + FailureList(item.failure);
      assert prev.failures + FailureList(item.failure) == [] <==> prev.failures == [] && item.failure.None?;
      NoneFailSplit(init, id, details);
      assert ids == init + [id];
    }
  }

  lemma NoneFailSplit(init: seq<int32>, id: int32, details: int32 -> ItemResponse)
    ensures (forall i :: 0 <= i < |init + [id]| ==> !ItemFails((init + [id])[i], details)) <==>
            (forall i :: 0 <= i < |init| ==> !ItemFails(init[i], details)) && !ItemFails(id, details)
  {
    var ids := init + [id];
    forall i | 0 <= i < |init| ensures init[i] == ids[i] { }
    assert ids[|init|] == id;
  }

  lemma PresentAppend(slots: seq<Option<Story>>, last: Option<Story>)
    ensures Present(slots + [last]) == Present(slots) + (if last.Some? then [last.value] else [])
  {
    assert (slots + [last])[..|slots|] == slots;
  }

  lemma MapAllAppend(items: seq<HackerNewsStory>, last: HackerNewsStory)
    requires MapAll(items).Success? && InUnixRange(last.time)
    ensures MapAll(items + [last]) == Success(MapAll(items).value + [MapToBestStory(Some(last)).value])
  {
    assert (items + [last])[..|items|] == items;
  }

  lemma {:induction false} ResolveAllMatchesPayloads(cache: map<int32, Story>, ids: seq<int32>, expiry: Expiration, details: int32 -> ItemResponse)
    requires Coherent(cache, details) && expiry.Accepted()
    requires ResolveAll(cache, ids, expiry, details).failures == []
    ensures MapAll(Payloads(ids, details)) == Success(Present(ResolveAll(cache, ids, expiry, details).slots))
    decreases |ids|
  {
    if ids != [] {
      var init, id := ids[..|ids| - 1], ids[|ids| - 1];
      var prev := ResolveAll(cache, init, expiry, details);
      var item := ResolveItem(prev.cache, id, expiry, details);
      var b := ResolveAll(cache, ids, expiry, details);
      assert b.slots == prev.slots + [item.slot];
      assert b.failures == prev.failures + FailureList(item.failure);
      assert prev.failures == [] && item.failure.None?;
      ResolveAllMatchesPayloads(cache, init, expiry, details);
      ResolveAllKeepsCoherent(cache, init, expiry, details);
      ResolveItemCoherent(prev.cache, id, expiry, details);
      PresentAppend(prev.slots, item.slot);
      var pInit := Payloads(init, details);
      assert MapAll(pInit) == Success(Present(prev.slots));
      if details(id).Raw? {
        var raw := details(id).item;
        assert Payloads(ids, details) == pInit + [raw];
        assert InUnixRange(raw.time);
        MapAllAppend(pInit, raw);
        assert item.slot == Some(MapToBestStory(Some(raw)).value);
        assert Present(b.slots) == Present(prev.slots) + [MapToBestStory(Some(raw)).value];
      } else {
        assert Payloads(ids, details) == pInit + [];
        assert item.slot.None?;
        assert Present(b.slots) == Present(prev.slots) + [];
        assert pInit + [] == pInit && Present(prev.slots) + [] == Present(prev.slots);
      }
    }
  }

  /** Served from a coherent cache (an empty one, say) with accepted entry
      options, FetchBestStoriesV2 succeeds exactly when the uncached
      FetchBestStories does, with the same stories in the same order. */
  lemma CachedFetchMatchesUncached(detailsEndpoint: Option<string>, cache: map<int32, Story>, count: int32,
                                   ids: seq<int32>, expiry: Expiration, details: int32 -> ItemResponse)
    requires Coherent(cache, details) && expiry.Accepted() && count >= 0
    ensures var v2, v1 := FetchV2(detailsEndpoint, cache, count, ids, expiry, details), FetchV1(detailsEndpoint, count, ids, details);
      && (v2.result.Success? <==> v1.Success?)
      && (v2.result.Success? ==> v2.result.value == v1.value)
  {
    if detailsEndpoint.Some? {
      var taken := ids[..Min(count, |ids|)];
      assert Take(ids, count) == taken;
      ResolveAllFailsIffItemFails(cache, taken, expiry, details);
      if ResolveAll(cache, taken, expiry, details).failures == [] {
        ResolveAllMatchesPayloads(cache, taken, expiry, details);
      }
      UncachedSucceedsUnlessAnItemFails(taken, details);
    }
  }

  lemma {:induction false} MapAllPayloadsSucceeds(ids: seq<int32>, details: int32 -> ItemResponse)
    ensures MapAll(Payloads(ids, details)).Success? <==>
            forall i :: 0 <= i < |ids| && details(ids[i]).Raw? ==> InUnixRange(details(ids[i]).item.time)
    decreases |ids|
  {
    if ids != [] {
      var init, id := ids[..|ids| - 1], ids[|ids| - 1];
      MapAllPayloadsSucceeds(init, details);
      assert ids == init + [id];
      assert (forall i :: 0 <= i < |ids| && details(ids[i]).Raw? ==> InUnixRange(details(ids[i]).item.time)) <==>
             (forall i :: 0 <= i < |init| && details(init[i]).Raw? ==> InUnixRange(details(init[i]).item.time))
             && (details(id).Raw? ==> InUnixRange(details(id).item.time)) by {
        forall i | 0 <= i < |init| ensures init[i] == ids[i] { }
      }
      var p := Payloads(ids, details);
      if details(id).Raw? {
        assert p[..|p| - 1] == Payloads(init, details);
        assert p[|p| - 1] == details(id).item;
      } else {
        assert p == Payloads(init, details);
      }
    }
  }

  /** The uncached variant fails exactly when some item fails. */
  lemma UncachedSucceedsUnlessAnItemFails(taken: seq<int32>, details: int32 -> ItemResponse)
    ensures (!exists i :: 0 <= i < |taken| && details(taken[i]).ItemFailed?) && MapAll(Payloads(taken, details)).Success?
            <==> forall i :: 0 <= i < |taken| ==> !ItemFails(taken[i], details)
  {
    MapAllPayloadsSucceeds(taken, details);
  }
}
