/** HackerNewsService: the process-wide settings it captures once, the shared
    memory cache it reads through, and its two operations, GetTopStoriesAsync
    and FetchBestStoriesV2, run one task after another. */
module Services {
  import opened Common
  import opened Mapping
  import opened Resolution

  /** The settings the service reads from IBestStoriesConfig. */
  datatype Settings = Settings(
    endpointBestStories: Option<string>,
    endpointStoryDetails: Option<string>,
    cacheTopstoriesSlidingExpiration: int32,
    cacheTopstoriesAbsoluteExpiration: int32,
    cacheStorySlidingExpiration: int32,
    cacheStoryAbsoluteExpiration: int32)

  /** The static fields before any construction: null and zero. */
  const Unset := Settings(None, None, 0, 0, 0, 0)

  /** One construction's effect on the static fields: an endpoint is taken
      from the settings only while it is null (`??=`), an expiry only while
      it is zero. */
  function AdoptUnset(current: Settings, config: Settings): Settings {
    Settings(
      if current.endpointBestStories.None? then config.endpointBestStories else current.endpointBestStories,
      if current.endpointStoryDetails.None? then config.endpointStoryDetails else current.endpointStoryDetails,
      if current.cacheTopstoriesSlidingExpiration == 0 then config.cacheTopstoriesSlidingExpiration
      else current.cacheTopstoriesSlidingExpiration,
      if current.cacheTopstoriesAbsoluteExpiration == 0 then config.cacheTopstoriesAbsoluteExpiration
      else current.cacheTopstoriesAbsoluteExpiration,
      if current.cacheStorySlidingExpiration == 0 then config.cacheStorySlidingExpiration
      else current.cacheStorySlidingExpiration,
      if current.cacheStoryAbsoluteExpiration == 0 then config.cacheStoryAbsoluteExpiration
      else current.cacheStoryAbsoluteExpiration)
  }

  /** The static fields after constructing one service per settings value, in order. */
  function AdoptAll(current: Settings, configs: seq<Settings>): Settings
    decreases |configs|
  {
    if configs == [] then current
    else AdoptAll(AdoptUnset(current, configs[0]), configs[1..])
  }

  /** A field that has been set is never overwritten by a later construction,
      whatever settings it brings; an endpoint counts as set even when it is
      the empty string. */
  lemma {:induction false} SetFieldsAreNeverOverwritten(current: Settings, configs: seq<Settings>)
    ensures var s := AdoptAll(current, configs);
      && (current.endpointBestStories.Some? ==> s.endpointBestStories == current.endpointBestStories)
      && (current.endpointStoryDetails.Some? ==> s.endpointStoryDetails == current.endpointStoryDetails)
      && (current.cacheTopstoriesSlidingExpiration != 0 ==>
            s.cacheTopstoriesSlidingExpiration == current.cacheTopstoriesSlidingExpiration)
      && (current.cacheTopstoriesAbsoluteExpiration != 0 ==>
            s.cacheTopstoriesAbsoluteExpiration == current.cacheTopstoriesAbsoluteExpiration)
      && (current.cacheStorySlidingExpiration != 0 ==>
            s.cacheStorySlidingExpiration == current.cacheStorySlidingExpiration)
      && (current.cacheStoryAbsoluteExpiration != 0 ==>
            s.cacheStoryAbsoluteExpiration == current.cacheStoryAbsoluteExpiration)
    decreases |configs|
  {
    if configs != [] {
      SetFieldsAreNeverOverwritten(AdoptUnset(current, configs[0]), configs[1..]);
    }
  }

  /** So the first construction whose settings name an endpoint decides it
      for the life of the process. */
  lemma FirstEndpointWins(configs: seq<Settings>, k: nat)
    requires k < |configs| && configs[k].endpointBestStories.Some?
    requires forall j :: 0 <= j < k ==> configs[j].endpointBestStories.None?
    ensures AdoptAll(Unset, configs).endpointBestStories == configs[k].endpointBestStories
  {
    FirstEndpointWinsFrom(Unset, configs, k);
  }

  lemma {:induction false} FirstEndpointWinsFrom(current: Settings, configs: seq<Settings>, k: nat)
    requires current.endpointBestStories.None?
    requires k < |configs| && configs[k].endpointBestStories.Some?
    requires forall j :: 0 <= j < k ==> configs[j].endpointBestStories.None?
    ensures AdoptAll(current, configs).endpointBestStories == configs[k].endpointBestStories
    decreases k
  {
    var next := AdoptUnset(current, configs[0]);
    if k == 0 {
      SetFieldsAreNeverOverwritten(next, configs[1..]);
    } else {
      FirstEndpointWinsFrom(next, configs[1..], k - 1);
    }
  }

  /** The static fields of HackerNewsService, shared by every instance. */
  class StaticSettings {
    var endpointBestStories: Option<string>
    var endpointStoryDetails: Option<string>
    var cacheTopstoriesSlidingExpiration: int32
    var cacheTopstoriesAbsoluteExpiration: int32
    var cacheStorySlidingExpiration: int32
    var cacheStoryAbsoluteExpiration: int32

    /** The CLR zero-initialises static fields. */
    constructor ()
      ensures Current() == Unset
    {
      endpointBestStories, endpointStoryDetails := None, None;
      cacheTopstoriesSlidingExpiration, cacheTopstoriesAbsoluteExpiration := 0, 0;
      cacheStorySlidingExpiration, cacheStoryAbsoluteExpiration := 0, 0;
    }

    function Current(): Settings
      reads this
    {
      Settings(endpointBestStories, endpointStoryDetails,
               cacheTopstoriesSlidingExpiration, cacheTopstoriesAbsoluteExpiration,
               cacheStorySlidingExpiration, cacheStoryAbsoluteExpiration)
    }
  }

  /** The shared IMemoryCache, restricted to the two kinds of entries the
      service uses. Entries are never removed: expiry is not modelled. */
  class MemoryCache {
    /** The "StoryDetails_" + id entries. */
    var stories: map<int32, Story>
    /** The "TopStories" entry: the very list object that was stored. */
    var topStories: Option<array<Story>>

    constructor ()
      ensures stories == map[] && topStories == None
    {
      stories, topStories := map[], None;
    }

    /** The list objects the cache holds, which a caller of the service may
        be handed and may then change. */
    function Lists(): set<array<Story>>
      reads this
    {
      if topStories.Some? then {topStories.value} else {}
    }
  }

  class HackerNewsService {
    const statics: StaticSettings
    const cache: MemoryCache
    /** Every cache lookup, cache write and upstream request this service has made. */
    ghost var log: seq<Event>

    /** Stores the collaborators and fills the static settings still unset. */
    constructor (statics: StaticSettings, cache: MemoryCache, config: Settings)
      modifies statics
      ensures this.statics == statics && this.cache == cache && log == []
      ensures statics.Current() == AdoptUnset(old(statics.Current()), config)
    {
      this.statics := statics;
      this.cache := cache;
      log := [];
      new;
      if statics.endpointBestStories.None? {
        statics.endpointBestStories := config.endpointBestStories;
      }
      if statics.endpointStoryDetails.None? {
        statics.endpointStoryDetails := config.endpointStoryDetails;
      }
      if statics.cacheTopstoriesSlidingExpiration == 0 {
        statics.cacheTopstoriesSlidingExpiration := config.cacheTopstoriesSlidingExpiration;
      }
      if statics.cacheTopstoriesAbsoluteExpiration == 0 {
        statics.cacheTopstoriesAbsoluteExpiration := config.cacheTopstoriesAbsoluteExpiration;
      }
      if statics.cacheStorySlidingExpiration == 0 {
        statics.cacheStorySlidingExpiration := config.cacheStorySlidingExpiration;
      }
      if statics.cacheStoryAbsoluteExpiration == 0 {
        statics.cacheStoryAbsoluteExpiration := config.cacheStoryAbsoluteExpiration;
      }
    }

    /** One task of FetchBestStoriesV2, without its slot write: read the item
        cache, and on a miss fetch, map and cache the story; the entry options
        are built from the story expirations just before the write. */
    method ResolveStory(id: int32, details: int32 -> ItemResponse) returns (slot: Option<Story>, failure: Option<Error>)
      modifies cache`stories, this`log
      ensures var r := ResolveItem(old(cache.stories), id, StoryExpiry(), details);
        && slot == r.slot && failure == r.failure
        && cache.stories == r.cache && log == old(log) + r.events
    {
      log := log + [CacheLookup(ItemKey(id))];
      if id in cache.stories {
        return Some(cache.stories[id]), None;
      }
      log := log + [FetchItem(id)];
      match details(id)
      case ItemFailed =>
        slot, failure := None, Some(HttpFailure);
      case NullPayload =>
        slot, failure := None, None;
      case Raw(item) =>
        var mapped := MapToBestStory(Some(item));
        if mapped.Failure? {
          slot, failure := None, Some(mapped.error);
        } else if !StoryExpiry().Accepted() {
          slot, failure := None, Some(ArgumentOutOfRange);
        } else {
          cache.stories := cache.stories[id := mapped.value];
          log := log + [CacheSet(ItemKey(id))];
          slot, failure := Some(mapped.value), None;
        }
    }

    /** One task of FetchBestStoriesV2: resolves `id` and, when that yields a
        story, writes it into the task's slot; a failure is handed back to be
        recorded instead. */
    method RunTask(stories: array<Option<Story>>, position: int, id: int32, details: int32 -> ItemResponse)
      returns (failure: Option<Error>)
      requires 0 <= position < stories.Length && stories[position].None?
      modifies stories, cache`stories, this`log
      ensures var r := ResolveItem(old(cache.stories), id, StoryExpiry(), details);
        && failure == r.failure && cache.stories == r.cache && log == old(log) + r.events
        && stories[..] == old(stories[..])[position := r.slot]
    {
      var slot;
      slot, failure := ResolveStory(id, details);
      if slot.Some? {
        stories[position] := slot;
      }
    }

    /** FetchBestStoriesV2: resolves the first min(count, |storyIds|) ids into
        a pre-sized buffer, id i into slot i, and returns the filled slots as
        a new list, or throws every recorded exception at once. */
    method FetchBestStoriesV2(count: int32, storyIds: seq<int32>, details: int32 -> ItemResponse)
      returns (r: Result<array<Story>>)
      modifies cache`stories, this`log
      ensures var f := FetchV2(statics.endpointStoryDetails, old(cache.stories), count, storyIds, StoryExpiry(), details);
        && cache.stories == f.cache && log == old(log) + f.events
        && (r.Success? <==> f.result.Success?)
        && (r.Success? ==> fresh(r.value) && r.value[..] == f.result.value)
        && (r.Failure? ==> r.error == f.result.error)
    {
      if statics.endpointStoryDetails.None? {
        var empty := new Story[0];
        return Success(empty);
      }
      var n := Min(count, |storyIds|);
      if n < 0 {
        return Failure(Overflow);
      }
      var stories := new Option<Story>[n](_ => None);
      assert storyIds[..n] == storyIds[..Min(count, |storyIds|)];
      var exceptions := RunTasks(stories, storyIds[..n], details);
      if exceptions != [] {
        return Failure(Aggregate(exceptions));
      }
      var list := FilledSlots(stories);
      return Success(list);
    }

    /** The foreach loop of FetchBestStoriesV2 with the tasks run in turn:
        task i takes the next position, which is i, and fills slot i. */
    method RunTasks(stories: array<Option<Story>>, ids: seq<int32>, details: int32 -> ItemResponse)
      returns (exceptions: seq<Error>)
      requires stories.Length == |ids| && forall k :: 0 <= k < stories.Length ==> stories[k].None?
      modifies stories, cache`stories, this`log
      ensures var b := ResolveAll(old(cache.stories), ids, StoryExpiry(), details);
        && cache.stories == b.cache && stories[..] == b.slots
        && exceptions == b.failures && log == old(log) + b.events
    {
      ghost var expiry := StoryExpiry();
      var index := 0;
      exceptions := [];
      ghost var b := Batch(cache.stories, [], [], []);
      var i := 0;
      while i < |ids|
        invariant 0 <= i <= |ids| && index == i
        invariant b == ResolveAll(old(cache.stories), ids[..i], expiry, details)
        invariant cache.stories == b.cache && stories[..i] == b.slots
        invariant exceptions == b.failures && log == old(log) + b.events
        invariant forall k :: i <= k < stories.Length ==> stories[k].None?
      {
        var id := ids[i];
        var position := index;
        index := index + 1;
        ghost var item := ResolveItem(b.cache, id, expiry, details);
        ghost var all, logBefore := stories[..], log;
        var failure := RunTask(stories, position, id, details);
        assert failure == item.failure && cache.stories == item.cache && stories[..] == all[i := item.slot];
        if failure.Some? {
          exceptions := exceptions + [failure.value];
        }
        assert exceptions == b.failures + FailureList(item.failure);
        LogGrows(old(log), b.events, item.events);
        SlotWritten(all, stories[..], i, item.slot);
        ResolveAllAppend(old(cache.stories), ids[..i], id, expiry, details);
        assert ids[..i + 1] == ids[..i] + [id];
        b := Batch(item.cache, b.slots + [item.slot], b.failures + FailureList(item.failure), b.events + item.events);
        i := i + 1;
      }
      assert ids[..i] == ids && stories[..] == stories[..i];
    }

    static lemma LogGrows(start: seq<Event>, done: seq<Event>, next: seq<Event>)
      ensures (start + done) + next == start + (done + next)
    {
    }

    /** Writing slot i of a buffer whose slots from i on are empty extends
        its filled prefix by that slot and leaves the later slots empty. */
    static lemma SlotWritten(before: seq<Option<Story>>, after: seq<Option<Story>>, i: int, slot: Option<Story>)
      requires 0 <= i < |before| && after == before[i := slot]
      requires forall k :: i <= k < |before| ==> before[k].None?
      ensures after[..i + 1] == before[..i] + [slot]
      ensures forall k :: i + 1 <= k < |after| ==> after[k].None?
    {
    }

    /** stories.Where(s => s != null).ToList() */
    static method FilledSlots(stories: array<Option<Story>>) returns (list: array<Story>)
      ensures fresh(list) && list[..] == Present(stories[..])
    {
      var present := Present(stories[..]);
      list := new Story[|present|](k requires 0 <= k < |present| => present[k]);
      assert list[..] == present;
    }

    /** Either endpoint is null or empty. */
    predicate ConfigMissing()
      reads this, statics
    {
      IsNullOrEmpty(statics.endpointBestStories) || IsNullOrEmpty(statics.endpointStoryDetails)
    }

    /** The expirations the "StoryDetails_" entries are written with. */
    function StoryExpiry(): Expiration
      reads statics
    {
      Expiration(statics.cacheStorySlidingExpiration, statics.cacheStoryAbsoluteExpiration)
    }

    /** The expirations the "TopStories" entry is written with. */
    function ListExpiry(): Expiration
      reads statics
    {
      Expiration(statics.cacheTopstoriesSlidingExpiration, statics.cacheTopstoriesAbsoluteExpiration)
    }

    /** GetTopStoriesAsync: validates the endpoints, serves the cached list
        when there is one, and otherwise fetches the id list, resolves the
        stories and caches the list it returns. */
    method GetTopStoriesAsync(count: int32, idList: IdListResponse, details: int32 -> ItemResponse)
      returns (r: Result<array<Story>>)
      modifies cache, this`log
      // missing configuration: nothing is looked up or fetched
      ensures old(ConfigMissing()) ==>
        && r == Failure(ArgumentError(Some(
             if IsNullOrEmpty(statics.endpointBestStories) then "EndpointBestStories" else "EndpointStoryDetails")))
        && unchanged(cache) && log == old(log)
      // list-cache hit: the stored list object, whatever the count, and no request
      ensures !old(ConfigMissing()) && old(cache.topStories).Some? ==>
        && r == Success(old(cache.topStories).value)
        && unchanged(cache) && log == old(log) + [CacheLookup(TopStoriesKey)]
      // list-cache miss: the id list is requested
      ensures !old(ConfigMissing()) && old(cache.topStories).None? ==>
        match idList
        case IdsFailed =>
          r == Failure(HttpFailure) && unchanged(cache)
          && log == old(log) + [CacheLookup(TopStoriesKey), FetchIdList]
        case NullIds =>
          r.Success? && fresh(r.value) && r.value.Length == 0 && unchanged(cache)
          && log == old(log) + [CacheLookup(TopStoriesKey), FetchIdList]
        case Ids(ids) =>
          if ids == [] then
            r.Success? && fresh(r.value) && r.value.Length == 0 && unchanged(cache)
            && log == old(log) + [CacheLookup(TopStoriesKey), FetchIdList]
          else
            var f := FetchV2(statics.endpointStoryDetails, old(cache.stories), count, ids, StoryExpiry(), details);
            && cache.stories == f.cache
            && (f.result.Failure? ==>
                  r == Failure(f.result.error) && cache.topStories.None?
                  && log == old(log) + [CacheLookup(TopStoriesKey), FetchIdList] + f.events)
            && (f.result.Success? && !ListExpiry().Accepted() ==>
                  r == Failure(ArgumentOutOfRange) && cache.topStories.None?
                  && log == old(log) + [CacheLookup(TopStoriesKey), FetchIdList] + f.events)
            && (f.result.Success? && ListExpiry().Accepted() ==>
                  r.Success? && fresh(r.value) && r.value[..] == f.result.value
                  && cache.topStories == Some(r.value)
                  && log == old(log) + [CacheLookup(TopStoriesKey), FetchIdList] + f.events
                          + [CacheSet(TopStoriesKey)])
      // the list handed out is new or is the one the cache held
      ensures r.Success? ==> fresh(r.value) || old(cache.topStories) == Some(r.value)
    {
      if IsNullOrEmpty(statics.endpointBestStories) {
        return Failure(ArgumentError(Some("EndpointBestStories")));
      }
      if IsNullOrEmpty(statics.endpointStoryDetails) {
        return Failure(ArgumentError(Some("EndpointStoryDetails")));
      }
      log := log + [CacheLookup(TopStoriesKey)];
      if cache.topStories.Some? {
        return Success(cache.topStories.value);
      }
      log := log + [FetchIdList];
      assert log == old(log) + [CacheLookup(TopStoriesKey), FetchIdList];
      if idList.IdsFailed? {
        return Failure(HttpFailure);
      }
      if idList.NullIds? || idList.ids == [] {
        var empty := new Story[0];
        return Success(empty);
      }
      r := FetchAndStoreList(count, idList.ids, details);
    }

    /** The end of GetTopStoriesAsync on a list-cache miss with ids: fetch the
        details, and store the list under "TopStories" when the fetch
        succeeded and the entry options accept the list expirations. */
    method FetchAndStoreList(count: int32, ids: seq<int32>, details: int32 -> ItemResponse)
      returns (r: Result<array<Story>>)
      modifies cache, this`log
      ensures var f := FetchV2(statics.endpointStoryDetails, old(cache.stories), count, ids, StoryExpiry(), details);
        && cache.stories == f.cache
        && (f.result.Failure? ==>
              r == Failure(f.result.error) && cache.topStories == old(cache.topStories)
              && log == old(log) + f.events)
        && (f.result.Success? && !ListExpiry().Accepted() ==>
              r == Failure(ArgumentOutOfRange) && cache.topStories == old(cache.topStories)
              && log == old(log) + f.events)
        && (f.result.Success? && ListExpiry().Accepted() ==>
              r.Success? && fresh(r.value) && r.value[..] == f.result.value && cache.topStories == Some(r.value)
              && log == old(log) + f.events + [CacheSet(TopStoriesKey)])
    {
      r := FetchBestStoriesV2(count, ids, details);
      if r.Success? {
        if !ListExpiry().Accepted() {
          return Failure(ArgumentOutOfRange);
        }
        cache.topStories := Some(r.value);
        log := log + [CacheSet(TopStoriesKey)];
      }
    }
  }

  /** Two requests in a row, the first of which found or stored a list: the
      second is served that same list object, whatever its count, and its
      only interaction is the list-cache lookup. */
  method RepeatedRequestIsServedFromCache(service: HackerNewsService, firstCount: int32, secondCount: int32,
                                          idList: IdListResponse, details: int32 -> ItemResponse)
    returns (first: Result<array<Story>>, second: Result<array<Story>>, ghost between: seq<Event>)
    requires !service.ConfigMissing()
    modifies service.cache, service`log
    ensures first.Success? && (old(service.cache.topStories).Some? || (idList.Ids? && idList.ids != [])) ==>
      second == first && service.log == between + [CacheLookup(TopStoriesKey)]
  {
    first := service.GetTopStoriesAsync(firstCount, idList, details);
    between := service.log;
    second := service.GetTopStoriesAsync(secondCount, idList, details);
  }
}
