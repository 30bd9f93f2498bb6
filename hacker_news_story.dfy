/** The raw item record as the upstream API delivers it (HackerNewsStory).
    Its string properties are declared non-nullable with an empty-string
    initialiser, but the JSON deserialiser can still store null in them, so
    they are modelled as Option<string>. */
module HackerNewsData {
  import opened Common

  datatype HackerNewsStory = HackerNewsStory(
    author: Option<string>,   // the "by" property
    descendants: int32,
    id: int32,
    score: int32,
    time: int64,          // seconds since the Unix epoch, UTC
    title: Option<string>,
    storyType: Option<string>,
    url: Option<string>)

  /** `new HackerNewsStory()`: every property at its initialiser or the CLR default. */
  function NewHackerNewsStory(): (r: HackerNewsStory)
    ensures r.author == r.title == r.storyType == r.url == Some("")
    ensures r.descendants == r.id == r.score == 0 && r.time == 0
  {
    HackerNewsStory(Some(""), 0, 0, 0, 0, Some(""), Some(""), Some(""))
  }

  /** A record whose numeric properties were assigned (as the deserialiser does
      when the JSON names only them) and whose string properties were never set. */
  function WithNumbersOnly(descendants: int32, id: int32, score: int32, time: int64): (r: HackerNewsStory)
    ensures r.author == r.title == r.storyType == r.url == Some("")
    ensures r.descendants == descendants && r.id == id && r.score == score && r.time == time
  {
    NewHackerNewsStory().(descendants := descendants, id := id, score := score, time := time)
  }
}
