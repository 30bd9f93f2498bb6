/** GetTopStoriesUseCase: the count guard, and the two ways the use case can
    rank stories by score, highest first: Sort, which builds a new list with
    the stable OrderByDescending, and SortV2, which sorts the caller's list in
    place with List.Sort. */
module UseCases {
  import opened Common
  import opened Mapping
  import Resolution
  import Services

  /** The scores of a list, in list order. */
  function Scores(s: seq<Story>): (r: seq<int>)
    ensures |r| == |s| && forall i :: 0 <= i < |s| ==> r[i] == s[i].score
  {
    seq(|s|, i requires 0 <= i < |s| => s[i].score)
  }

  ghost predicate Descending(x: seq<int>) {
    forall i, j :: 0 <= i < j < |x| ==> x[i] >= x[j]
  }

  /** Every story scores at least as much as every story after it. */
  ghost predicate RankedByScore(s: seq<Story>) {
    forall i, j :: 0 <= i < j < |s| ==> s[i].score >= s[j].score
  }

  /** The stories of `s` whose score is `k`, in their order in `s`. */
  function WithScore(s: seq<Story>, k: int): seq<Story> {
    if s == [] then []
    else (if s[0].score == k then [s[0]] else []) + WithScore(s[1..], k)
  }

  // ---------------------------------------------------------------------------
  // Sort: [.. stories.OrderByDescending(s => s.Score)]
  // ---------------------------------------------------------------------------

  /** Puts `x` into a list in front of the first story that does not outscore
      it, so that `x` precedes the stories it ties with. */
  function InsertByScore(x: Story, r: seq<Story>): (q: seq<Story>)
    ensures multiset(q) == multiset(r) + multiset{x}
  {
    if r == [] || x.score >= r[0].score then [x] + r
    else
      assert r == [r[0]] + r[1..];
      [r[0]] + InsertByScore(x, r[1..])
  }

  lemma {:induction false} InsertKeepsRanked(x: Story, r: seq<Story>)
    requires RankedByScore(r)
    ensures RankedByScore(InsertByScore(x, r))
    decreases |r|
  {
    if r != [] && x.score < r[0].score {
      var rest := InsertByScore(x, r[1..]);
      InsertKeepsRanked(x, r[1..]);
      InsertStaysBelow(x, r[1..], r[0].score);
      var q := [r[0]] + rest;
      forall i, j | 0 <= i < j < |q| ensures q[i].score >= q[j].score {
        if i == 0 {
          assert q[j] == rest[j - 1];
        } else {
          assert q[i] == rest[i - 1] && q[j] == rest[j - 1];
        }
      }
    }
  }

  /** Inserting a story that scores no more than `bound` into a list whose
      stories score no more than `bound` keeps every score within it. */
  lemma {:induction false} InsertStaysBelow(x: Story, r: seq<Story>, bound: int)
    requires x.score <= bound
    requires forall k :: 0 <= k < |r| ==> r[k].score <= bound
    ensures forall k :: 0 <= k < |InsertByScore(x, r)| ==> InsertByScore(x, r)[k].score <= bound
    decreases |r|
  {
    if r != [] && x.score < r[0].score {
      InsertStaysBelow(x, r[1..], bound);
      var rest := InsertByScore(x, r[1..]);
      assert InsertByScore(x, r) == [r[0]] + rest;
    }
  }

  /** The stable descending sort by score that OrderByDescending performs. */
  function SortByScoreDescending(s: seq<Story>): (r: seq<Story>)
    ensures multiset(r) == multiset(s)
    ensures RankedByScore(r)
  {
    if s == [] then []
    else
      assert s == [s[0]] + s[1..];
      var rest := SortByScoreDescending(s[1..]);
      InsertKeepsRanked(s[0], rest);
      InsertByScore(s[0], rest)
  }

  lemma {:induction false} InsertKeepsTieOrder(x: Story, r: seq<Story>, k: int)
    ensures WithScore(InsertByScore(x, r), k) == (if x.score == k then [x] else []) + WithScore(r, k)
    decreases |r|
  {
    if r == [] || x.score >= r[0].score {
      WithScoreCons(x, r, k);
    } else {
      var rest := InsertByScore(x, r[1..]);
      assert InsertByScore(x, r) == [r[0]] + rest;
      WithScoreCons(r[0], rest, k);
      assert r == [r[0]] + r[1..];
      WithScoreCons(r[0], r[1..], k);
      InsertKeepsTieOrder(x, r[1..], k);
      if r[0].score == k {
        assert x.score != k;
      }
    }
  }

  lemma WithScoreCons(y: Story, t: seq<Story>, k: int)
    ensures WithScore([y] + t, k) == (if y.score == k then [y] else []) + WithScore(t, k)
  {
    assert ([y] + t)[1..] == t;
  }

  /** Sort is stable: the stories that tie on any score keep their input order. */
  lemma {:induction false} SortIsStable(s: seq<Story>, k: int)
    ensures WithScore(SortByScoreDescending(s), k) == WithScore(s, k)
    decreases |s|
  {
    if s != [] {
      SortIsStable(s[1..], k);
      InsertKeepsTieOrder(s[0], SortByScoreDescending(s[1..]), k);
    }
  }

  /** Sorting a list that is already ranked gives back the very same list. */
  lemma {:induction false} SortOfRankedIsIdentity(s: seq<Story>)
    requires RankedByScore(s)
    ensures SortByScoreDescending(s) == s
    decreases |s|
  {
    if s != [] {
      SortOfRankedIsIdentity(s[1..]);
      assert [s[0]] + s[1..] == s;
    }
  }

  // ---------------------------------------------------------------------------
  // Any two ranked permutations of one list have the same score sequence.
  // ---------------------------------------------------------------------------

  lemma ScoresOfConcat(u: seq<Story>, v: seq<Story>)
    ensures Scores(u + v) == Scores(u) + Scores(v)
  {
  }

  /** Equal multisets of stories have equal multisets of scores. */
  lemma {:induction false} ScoreBagFollowsStoryBag(a: seq<Story>, b: seq<Story>)
    requires multiset(a) == multiset(b)
    ensures multiset(Scores(a)) == multiset(Scores(b))
    decreases |a|
  {
    if a == [] {
      assert |b| == |multiset(b)| == 0;
    } else {
      var x := a[0];
      assert x in multiset(b);
      var j :| 0 <= j < |b| && b[j] == x;
      var b' := b[..j] + b[j + 1..];
      assert b == b[..j] + [x] + b[j + 1..];
      assert multiset(b) == multiset(b[..j]) + multiset{x} + multiset(b[j + 1..]);
      assert multiset(b') == multiset(b[..j]) + multiset(b[j + 1..]);
      assert a == [x] + a[1..];
      assert multiset(a) == multiset{x} + multiset(a[1..]);
      assert multiset(a[1..]) == multiset(a) - multiset{x};
      assert multiset(b') == multiset(b) - multiset{x};
      ScoreBagFollowsStoryBag(a[1..], b');
      ScoresOfConcat(b[..j], [x]);
      ScoresOfConcat(b[..j] + [x], b[j + 1..]);
      ScoresOfConcat(b[..j], b[j + 1..]);
      ScoresOfConcat([x], a[1..]);
    }
  }

  lemma HeadIsLargest(y: seq<int>, v: int)
    requires Descending(y) && v in multiset(y)
    ensures y[0] >= v
  {
    var j :| 0 <= j < |y| && y[j] == v;
  }

  lemma DescendingTail(x: seq<int>)
    requires Descending(x) && x != []
    ensures Descending(x[1..])
  {
    forall i, j | 0 <= i < j < |x| - 1 ensures x[1..][i] >= x[1..][j] {
      assert x[1..][i] == x[i + 1] && x[1..][j] == x[j + 1];
    }
  }

  lemma {:induction false} DescendingWithSameBagAreEqual(x: seq<int>, y: seq<int>)
    requires Descending(x) && Descending(y) && multiset(x) == multiset(y)
    ensures x == y
    decreases |x|
  {
    assert |x| == |multiset(x)| == |multiset(y)| == |y|;
    if x != [] {
      HeadIsLargest(y, x[0]);
      HeadIsLargest(x, y[0]);
      assert x == [x[0]] + x[1..];
      assert y == [y[0]] + y[1..];
      assert multiset(x) == multiset{x[0]} + multiset(x[1..]);
      assert multiset(y) == multiset{y[0]} + multiset(y[1..]);
      assert x[0] == y[0];
      assert multiset(x[1..]) == multiset(x) - multiset{x[0]};
      assert multiset(y[1..]) == multiset(y) - multiset{y[0]};
      DescendingTail(x);
      DescendingTail(y);
      DescendingWithSameBagAreEqual(x[1..], y[1..]);
    }
  }

  /** However ties are broken, two rankings of the same stories agree score by score. */
  lemma RankingsAgreeOnScores(a: seq<Story>, b: seq<Story>)
    requires multiset(a) == multiset(b)
    requires RankedByScore(a) && RankedByScore(b)
    ensures Scores(a) == Scores(b)
  {
    ScoreBagFollowsStoryBag(a, b);
    DescendingWithSameBagAreEqual(Scores(a), Scores(b));
  }

  // ---------------------------------------------------------------------------
  // SortV2: stories.Sort((x, y) => y.Score.CompareTo(x.Score)), in place
  // ---------------------------------------------------------------------------

  /** Sorts the caller's list object in place, highest score first, and hands
      back that same object. No order among ties is promised. */
  method SortV2(stories: array<Story>) returns (r: array<Story>)
    modifies stories
    ensures r == stories
    ensures RankedByScore(stories[..])
    ensures multiset(stories[..]) == multiset(old(stories[..]))
    ensures Scores(stories[..]) == Scores(SortByScoreDescending(old(stories[..])))
    ensures RankedByScore(old(stories[..])) ==> Scores(stories[..]) == Scores(old(stories[..]))
  {
    var i := 0;
    while i < stories.Length
      invariant 0 <= i <= stories.Length
      invariant forall p, q :: 0 <= p < q < i ==> stories[p].score >= stories[q].score
      invariant multiset(stories[..]) == multiset(old(stories[..]))
    {
      InsertIntoRankedPrefix(stories, i);
      i := i + 1;
    }
    r := stories;
    assert RankedByScore(stories[..]);
    RankingsAgreeOnScores(stories[..], SortByScoreDescending(old(stories[..])));
    if RankedByScore(old(stories[..])) {
      SortOfRankedIsIdentity(old(stories[..]));
    }
  }

  /** One insertion step: moves stories[i] left past the stories it outscores,
      so that the ranked prefix grows by one. */
  method InsertIntoRankedPrefix(stories: array<Story>, i: int)
    requires 0 <= i < stories.Length
    requires forall p, q :: 0 <= p < q < i ==> stories[p].score >= stories[q].score
    modifies stories
    ensures forall p, q :: 0 <= p < q <= i ==> stories[p].score >= stories[q].score
    ensures multiset(stories[..]) == multiset(old(stories[..]))
  {
    var j := i;
    while j > 0 && stories[j - 1].score < stories[j].score
      invariant 0 <= j <= i
      invariant forall p, q :: 0 <= p < q <= i && p != j && q != j ==> stories[p].score >= stories[q].score
      invariant forall q :: j < q <= i ==> stories[j].score >= stories[q].score
      invariant multiset(stories[..]) == multiset(old(stories[..]))
    {
      Swap(stories, j - 1, j);
      j := j - 1;
    }
  }

  method Swap(stories: array<Story>, i: int, j: int)
    requires 0 <= i < j < stories.Length
    modifies stories
    ensures stories[i] == old(stories[j]) && stories[j] == old(stories[i])
    ensures forall k :: 0 <= k < stories.Length && k != i && k != j ==> stories[k] == old(stories[k])
    ensures multiset(stories[..]) == multiset(old(stories[..]))
  {
    stories[i], stories[j] := stories[j], stories[i];
  }

  // ---------------------------------------------------------------------------
  // ExecuteAsync
  // ---------------------------------------------------------------------------

  class GetTopStoriesUseCase {
    const hackerNewsService: Services.HackerNewsService

    constructor (hackerNewsService: Services.HackerNewsService)
      ensures this.hackerNewsService == hackerNewsService
    {
      this.hackerNewsService := hackerNewsService;
    }

    /** Rejects a count that is not positive, asks the service for the top
        stories and ranks them in place. The list may be the one the cache
        holds, which is then left ranked in the cache too. */
    method ExecuteAsync(count: int32, idList: Resolution.IdListResponse, details: int32 -> Resolution.ItemResponse)
      returns (r: Result<array<Story>>)
      modifies hackerNewsService.cache, hackerNewsService`log, hackerNewsService.cache.Lists()
      // a count that is not positive: nothing is asked of the service
      ensures count <= 0 ==>
        r == Failure(ArgumentError(None))
        && unchanged(hackerNewsService.cache) && unchanged(old(hackerNewsService.cache.Lists()))
        && hackerNewsService.log == old(hackerNewsService.log)
      // whatever list is returned is ranked, highest score first
      ensures r.Success? ==> RankedByScore(r.value[..])
      // missing configuration is reported as the service reports it
      ensures count > 0 && old(hackerNewsService.ConfigMissing()) ==>
        r.Failure? && r.error.ArgumentError?
        && unchanged(hackerNewsService.cache) && unchanged(old(hackerNewsService.cache.Lists()))
        && hackerNewsService.log == old(hackerNewsService.log)
      // list-cache hit: the cached list itself is ranked in place and returned
      ensures count > 0 && !old(hackerNewsService.ConfigMissing()) && old(hackerNewsService.cache.topStories).Some? ==>
        var cached := old(hackerNewsService.cache.topStories).value;
        && r == Success(cached) && hackerNewsService.cache.topStories == Some(cached)
        && multiset(cached[..]) == old(multiset(cached[..]))
        && Scores(cached[..]) == Scores(SortByScoreDescending(old(cached[..])))
        && hackerNewsService.cache.stories == old(hackerNewsService.cache.stories)
        && hackerNewsService.log == old(hackerNewsService.log) + [Resolution.CacheLookup(Resolution.TopStoriesKey)]
      // list-cache miss without ids: the request error, or an empty list that is not cached
      ensures count > 0 && !old(hackerNewsService.ConfigMissing()) && old(hackerNewsService.cache.topStories).None?
              && !(idList.Ids? && idList.ids != []) ==>
        && (idList.IdsFailed? ==> r == Failure(HttpFailure))
        && (!idList.IdsFailed? ==> r.Success? && r.value.Length == 0)
        && hackerNewsService.cache.topStories.None?
        && hackerNewsService.cache.stories == old(hackerNewsService.cache.stories)
        && hackerNewsService.log == old(hackerNewsService.log)
             + [Resolution.CacheLookup(Resolution.TopStoriesKey), Resolution.FetchIdList]
      // list-cache miss with ids: the fetched stories, ranked; the cache holds the ranked list
      ensures count > 0 && !old(hackerNewsService.ConfigMissing()) && old(hackerNewsService.cache.topStories).None?
              && idList.Ids? && idList.ids != [] ==>
        var f := Resolution.FetchV2(hackerNewsService.statics.endpointStoryDetails, old(hackerNewsService.cache.stories),
                                    count, idList.ids, hackerNewsService.StoryExpiry(), details);
        var requested := old(hackerNewsService.log)
                         + [Resolution.CacheLookup(Resolution.TopStoriesKey), Resolution.FetchIdList] + f.events;
        && hackerNewsService.cache.stories == f.cache
        && (f.result.Failure? ==>
              r == Failure(f.result.error) && hackerNewsService.cache.topStories.None?
              && hackerNewsService.log == requested)
        && (f.result.Success? && !hackerNewsService.ListExpiry().Accepted() ==>
              r == Failure(ArgumentOutOfRange) && hackerNewsService.cache.topStories.None?
              && hackerNewsService.log == requested)
        && (f.result.Success? && hackerNewsService.ListExpiry().Accepted() ==>
              r.Success? && hackerNewsService.log == requested + [Resolution.CacheSet(Resolution.TopStoriesKey)])
        && (r.Success? ==>
              && fresh(r.value) && hackerNewsService.cache.topStories == Some(r.value)
              && multiset(r.value[..]) == multiset(f.result.value)
              && Scores(r.value[..]) == Scores(SortByScoreDescending(f.result.value)))
    {
      if count <= 0 {
        return Failure(ArgumentError(None));
      }
      var stories := hackerNewsService.GetTopStoriesAsync(count, idList, details);
      if stories.Failure? {
        return stories;
      }
      var sorted := SortV2(stories.value);
      return Success(sorted);
    }
  }
}
