/** The public story shape (BestHackerNewsStory) and the mapper that builds it
    from a raw upstream record (HackerNewsStoryMapping.MapToBestStory). */
module Mapping {
  import opened Common
  import opened HackerNewsData

  /** A UTC System.DateTime, as its count of 100-nanosecond ticks since 0001-01-01. */
  datatype DateTime = DateTime(ticks: int)

  /** BestHackerNewsStory: the story as the API serves it. */
  datatype BestHackerNewsStory = BestHackerNewsStory(
    title: string,
    uri: string,
    postedBy: string,
    time: DateTime,
    score: int32,
    commentCount: int32)

  type Story = BestHackerNewsStory

  const TicksPerSecond: int := 10_000_000
  /** Ticks of 1970-01-01T00:00:00Z. */
  const UnixEpochTicks: int := 621_355_968_000_000_000
  const UnixEpochSeconds: int := 62_135_596_800
  /** Smallest and largest epoch second DateTimeOffset can represent. */
  const UnixMinSeconds: int := -62_135_596_800
  const UnixMaxSeconds: int := 253_402_300_799

  predicate InUnixRange(seconds: int) {
    UnixMinSeconds <= seconds <= UnixMaxSeconds
  }

  /** DateTimeOffset.FromUnixTimeSeconds(seconds).UtcDateTime; out of range throws. */
  function FromUnixTimeSeconds(seconds: int64): (r: Result<DateTime>)
    ensures r.Success? <==> InUnixRange(seconds)
    ensures r.Success? ==> 0 <= r.value.ticks
  {
    if !InUnixRange(seconds) then Failure(ArgumentOutOfRange)
    else Success(DateTime(seconds * TicksPerSecond + UnixEpochTicks))
  }

  /** The inverse conversion, DateTimeOffset.ToUnixTimeSeconds, on a UTC instant. */
  function ToUnixTimeSeconds(t: DateTime): int
    requires 0 <= t.ticks
  {
    t.ticks / TicksPerSecond - UnixEpochSeconds
  }

  /** An epoch second in range converts to an instant that converts back to it. */
  lemma FromUnixTimeSecondsRoundTrip(seconds: int64)
    requires InUnixRange(seconds)
    ensures FromUnixTimeSeconds(seconds).Success?
    ensures ToUnixTimeSeconds(FromUnixTimeSeconds(seconds).value) == seconds
  {
    var ticks := seconds * TicksPerSecond + UnixEpochTicks;
    assert ticks == (seconds + UnixEpochSeconds) * TicksPerSecond;
    assert ticks / TicksPerSecond == seconds + UnixEpochSeconds;
  }

  /** A later epoch second is a later instant. */
  lemma FromUnixTimeSecondsIsMonotonic(a: int64, b: int64)
    requires InUnixRange(a) && InUnixRange(b) && a < b
    ensures FromUnixTimeSeconds(a).value.ticks < FromUnixTimeSeconds(b).value.ticks
  {
  }

  /** MapToBestStory: a null record throws, each null string becomes its
      default, numbers are copied and the time converted. */
  function MapToBestStory(story: Option<HackerNewsStory>): (r: Result<BestHackerNewsStory>)
    ensures story.None? ==> r == Failure(ArgumentNull("story"))
    ensures story.Some? && !InUnixRange(story.value.time) ==> r == Failure(ArgumentOutOfRange)
    ensures r.Success? <==> story.Some? && InUnixRange(story.value.time)
    ensures r.Success? ==>
      var s, b := story.value, r.value;
      && (s.title.Some? ==> b.title == s.title.value)
      && (s.title.None? ==> b.title == "Untitled")
      && (s.url.Some? ==> b.uri == s.url.value)
      && (s.url.None? ==> b.uri == "No URL")
      && (s.author.Some? ==> b.postedBy == s.author.value)
      && (s.author.None? ==> b.postedBy == "Anonymous")
      && b.score == s.score && b.commentCount == s.descendants
      && 0 <= b.time.ticks && ToUnixTimeSeconds(b.time) == s.time
  {
    match story
    case None => Failure(ArgumentNull("story"))
    case Some(s) =>
      match FromUnixTimeSeconds(s.time)
      case Failure(e) => Failure(e)
      case Success(time) =>
        FromUnixTimeSecondsRoundTrip(s.time);
        Success(BestHackerNewsStory(
          title := if s.title.Some? then s.title.value else "Untitled",
          uri := if s.url.Some? then s.url.value else "No URL",
          postedBy := if s.author.Some? then s.author.value else "Anonymous",
          time := time,
          score := s.score,
          commentCount := s.descendants))
  }

  /** Only null selects a default: a present string, even "", is kept verbatim,
      so a story carries "Untitled" only if the record was null there or said so. */
  lemma DefaultsOnlyReplaceNull(s: HackerNewsStory)
    requires InUnixRange(s.time)
    ensures var b := MapToBestStory(Some(s)).value;
      && (b.title == "Untitled" <==> s.title in {None, Some("Untitled")})
      && (b.uri == "No URL" <==> s.url in {None, Some("No URL")})
      && (b.postedBy == "Anonymous" <==> s.author in {None, Some("Anonymous")})
  {
  }

  /** A record whose strings were never set maps to empty strings, not to the defaults. */
  lemma UnsetStringsMapToEmpty(descendants: int32, id: int32, score: int32, time: int64)
    requires InUnixRange(time)
    ensures var b := MapToBestStory(Some(WithNumbersOnly(descendants, id, score, time))).value;
      b.title == "" && b.uri == "" && b.postedBy == ""
      && b.score == score && b.commentCount == descendants
  {
  }

  /** Mapping preserves the order of creation times. */
  lemma MapPreservesTimeOrder(a: HackerNewsStory, b: HackerNewsStory)
    requires InUnixRange(a.time) && InUnixRange(b.time) && a.time < b.time
    ensures MapToBestStory(Some(a)).value.time.ticks < MapToBestStory(Some(b)).value.time.ticks
  {
    FromUnixTimeSecondsIsMonotonic(a.time, b.time);
  }
}
