/** The story-listing action of Controllers/StoriesController.cs, the earlier revision:
    the cache-or-fetch loop caches every fetched story but appends only the valid ones,
    the page-index check clears the built envelope in place, and the title filter is a
    case-insensitive substring match. */
module RootController {
  import opened Wrappers
  import opened Text
  import opened Models
  import opened Listing

  /** What `BuildStoryDataFromIds` returns: an envelope with the valid stories among
      those the loop gathered, in ID-list order, or the failing status. */
  function Built(fetched: Fetched): (r: Result<StoryData>)
    ensures fetched.stories.Failure? ==> r == Failure(fetched.stories.status)
    ensures r.Success? ==> r.value.errors == [] && r.value.totalStories == 0
    ensures r.Success? ==> forall i :: 0 <= i < |r.value.stories| ==> IsValidStory(r.value.stories[i])
  {
    match fetched.stories
    case Success(all) => Success(StoryData(Where(all, IsValidStory), [], 0))
    case Failure(status) => Failure(status)
  }

  /** What one request returns and leaves in the cache, given the cache before it, the
      upstream's answer for the top-story ID list and its answer for each item. */
  function ListStories(cache: map<int, Story>, pageIndex: int, pageSize: int, title: Option<string>,
                       topStories: Result<seq<int>>, fetch: int -> Result<Story>): Outcome
  {
    if pageIndex < 0 || pageSize < 0 then
      Outcome(BadRequest(EmptyStoryData.(errors := [NegativeArgumentsError])), cache)
    else match topStories
      case Failure(status) => Outcome(InternalServerError(status), cache)
      case Success(ids) =>
        var fetched := Resolve(cache, ids, fetch);
        match Built(fetched)
        case Failure(status) => Outcome(InternalServerError(status), fetched.cache)
        case Success(storyData) =>
          match IsPageIndexValid(pageIndex, pageSize, |storyData.stories|)
          case None => Outcome(Faulted(DivideByZero), fetched.cache)
          case Some(false) =>
            var cleared := storyData.(stories := []);
            Outcome(BadRequest(cleared.(errors := cleared.errors + [MissingPageError])), fetched.cache)
          case Some(true) =>
            ValidAreTitled(storyData.stories);
            Outcome(Ok(TransformStoryData(storyData, pageIndex, pageSize, title, Substring)), fetched.cache)
  }

  /** A negative page index or page size is refused before anything else: a 400 with the
      one error message and no stories, whatever the upstream would answer, and the cache
      untouched. */
  lemma NegativeArgumentsRejected(cache: map<int, Story>, pageIndex: int, pageSize: int, title: Option<string>,
                                  topStories: Result<seq<int>>, fetch: int -> Result<Story>)
    requires pageIndex < 0 || pageSize < 0
    ensures var o := ListStories(cache, pageIndex, pageSize, title, topStories, fetch);
            && o.response == BadRequest(StoryData([], [NegativeArgumentsError], 0))
            && StatusCode(o.response) == 400
            && o.cache == cache
  {
  }

  /** An item fetch that fails partway through the loop gives a 500 with no page, and the
      entries cached for the IDs before it stay in the cache along with every entry that
      was there before. */
  lemma ItemFailureKeepsEarlierEntries(cache: map<int, Story>, pageIndex: nat, pageSize: nat, title: Option<string>,
                                       ids: seq<int>, fetch: int -> Result<Story>)
    requires Resolve(cache, ids, fetch).stories.Failure?
    ensures var o := ListStories(cache, pageIndex, pageSize, title, Success(ids), fetch);
            && o.response == InternalServerError(Resolve(cache, ids, fetch).stories.status)
            && (forall k :: k in cache ==> k in o.cache && o.cache[k] == cache[k])
            && exists j :: 0 <= j < |ids| && ids[j] !in o.cache && fetch(ids[j]).Failure?
                           && forall i :: 0 <= i < j ==> ids[i] in o.cache
  {
    ResolveFailureAt(cache, ids, fetch);
    ResolveCache(cache, ids, fetch);
  }

  /** The valid stories the loop appends. */
  function ValidFetched(cache: map<int, Story>, ids: seq<int>, fetch: int -> Result<Story>): (valid: seq<Story>)
    requires Resolve(cache, ids, fetch).stories.Success?
    ensures forall i :: 0 <= i < |valid| ==> IsValidStory(valid[i])
    ensures forall x :: x in valid ==> IsValidStory(x)
    ensures AllTitled(valid)
  {
    var valid := Built(Resolve(cache, ids, fetch)).value.stories;
    ValidAreTitled(valid);
    valid
  }

  /** The page-index check counts the valid stories before title filtering. A page size
      of 0 faults on the division. A page that would start past the end is refused with
      the built envelope emptied and the one error added, its total still 0. */
  lemma PageIndexCheck(cache: map<int, Story>, pageIndex: nat, pageSize: nat, title: Option<string>,
                       ids: seq<int>, fetch: int -> Result<Story>)
    requires Resolve(cache, ids, fetch).stories.Success?
    ensures var o := ListStories(cache, pageIndex, pageSize, title, Success(ids), fetch);
            pageSize == 0 ==> o.response == Faulted(DivideByZero)
    ensures var o := ListStories(cache, pageIndex, pageSize, title, Success(ids), fetch);
            pageSize > 0 ==>
              (o.response.BadRequest? <==> pageIndex * pageSize > |ValidFetched(cache, ids, fetch)|)
    ensures var o := ListStories(cache, pageIndex, pageSize, title, Success(ids), fetch);
            o.response.BadRequest? ==> o.response.data == StoryData([], [MissingPageError], 0)
  {
  }

  /** A page that starts within the valid stories is accepted: no errors, the total is the
      number of valid stories whose title contains the filter (all of them for a blank
      filter), and the stories are that list's `Skip(pageIndex * pageSize).Take(pageSize)`
      page. */
  lemma OkResponse(cache: map<int, Story>, pageIndex: nat, pageSize: nat, title: Option<string>,
                   ids: seq<int>, fetch: int -> Result<Story>)
    requires Resolve(cache, ids, fetch).stories.Success?
    requires pageSize > 0 && PageStart(pageIndex, pageSize) <= |ValidFetched(cache, ids, fetch)|
    ensures ListStories(cache, pageIndex, pageSize, title, Success(ids), fetch).response.Ok?
    ensures var data := ListStories(cache, pageIndex, pageSize, title, Success(ids), fetch).response.data;
            var filtered := FilterStories(ValidFetched(cache, ids, fetch), title, Substring);
            && data.errors == []
            && data.totalStories == |filtered|
            && data.stories == Window(filtered, PageStart(pageIndex, pageSize), pageSize)
            && |data.stories| <= pageSize
  {
    var valid := ValidFetched(cache, ids, fetch);
    assert IsPageIndexValid(pageIndex, pageSize, |valid|) == Some(true);
    var o := ListStories(cache, pageIndex, pageSize, title, Success(ids), fetch);
    assert o.response == Ok(TransformStoryData(StoryData(valid, [], 0), pageIndex, pageSize, title, Substring));
  }

  /** A page that starts within the valid stories is accepted, and every story on it has a
      non-blank title and URL and a title that contains a non-blank filter, ignoring case. */
  lemma OkStoriesValid(cache: map<int, Story>, pageIndex: nat, pageSize: nat, title: Option<string>,
                       ids: seq<int>, fetch: int -> Result<Story>)
    requires Resolve(cache, ids, fetch).stories.Success?
    requires pageSize > 0 && PageStart(pageIndex, pageSize) <= |ValidFetched(cache, ids, fetch)|
    ensures ListStories(cache, pageIndex, pageSize, title, Success(ids), fetch).response.Ok?
    ensures var data := ListStories(cache, pageIndex, pageSize, title, Success(ids), fetch).response.data;
            forall i :: 0 <= i < |data.stories| ==>
              && !IsNullOrWhiteSpace(data.stories[i].title)
              && !IsNullOrWhiteSpace(data.stories[i].url)
              && (!IsNullOrWhiteSpace(title) ==> ContainsIgnoreCase(data.stories[i].title.value, title.value))
  {
    var valid := ValidFetched(cache, ids, fetch);
    assert IsPageIndexValid(pageIndex, pageSize, |valid|) == Some(true);
    var o := ListStories(cache, pageIndex, pageSize, title, Success(ids), fetch);
    assert o.response == Ok(TransformStoryData(StoryData(valid, [], 0), pageIndex, pageSize, title, Substring));
    TransformKeepsMatching(StoryData(valid, [], 0), pageIndex, pageSize, title, Substring);
  }

  class StoriesController {
    /** The process-wide story cache, keyed by story ID. */
    var cache: map<int, Story>

    /** The controller over an injected cache. */
    constructor(cache: map<int, Story>)
      ensures this.cache == cache
    {
      this.cache := cache;
    }

    /** The cache-or-fetch loop: IDs in list order, every fetched story (valid or not)
        cached on a miss, only valid stories appended. A failed fetch ends the loop with
        that status, keeping what was cached before it. */
    method BuildStoryDataFromIds(storyIds: seq<int>, fetch: int -> Result<Story>) returns (r: Result<StoryData>)
      modifies this
      ensures cache == Resolve(old(cache), storyIds, fetch).cache
      ensures r == Built(Resolve(old(cache), storyIds, fetch))
    {
      var storyData := EmptyStoryData;
      ghost var gathered: seq<Story> := [];
      var i := 0;
      assert storyIds[i..] == storyIds;
      JoinEmpty(Resolve(cache, storyIds, fetch));
      while i < |storyIds|
        invariant 0 <= i <= |storyIds|
        invariant Resolve(old(cache), storyIds, fetch) == Join(gathered, Resolve(cache, storyIds[i..], fetch))
        invariant storyData == StoryData(Where(gathered, IsValidStory), [], 0)
      {
        var id := storyIds[i];
        assert storyIds[i..][1..] == storyIds[i + 1..];
        var story: Story;
        if id in cache {
          story := cache[id];
        } else {
          var response := fetch(id);
          if response.Failure? {
            return Failure(response.status);
          }
          story := response.value;
          cache := cache[id := story];
        }
        if IsValidStory(story) {
          storyData := storyData.(stories := storyData.stories + [story]);
        }
        JoinAssociates(gathered, [story], Resolve(cache, storyIds[i + 1..], fetch));
        WhereSnoc(gathered, story, IsValidStory);
        gathered := gathered + [story];
        i := i + 1;
      }
      assert storyIds[i..] == [];
      assert gathered + [] == gathered;
      return Success(storyData);
    }

    /** `GetNewestStories`: argument validation, the ID-list fetch, the cache-or-fetch
        loop, the page-index check, then filtering and paging. */
    method GetNewestStories(pageIndex: int, pageSize: int, title: Option<string>,
                            topStories: Result<seq<int>>, fetch: int -> Result<Story>) returns (response: Response)
      modifies this
      ensures response == ListStories(old(cache), pageIndex, pageSize, title, topStories, fetch).response
      ensures cache == ListStories(old(cache), pageIndex, pageSize, title, topStories, fetch).cache
    {
      var storyData := EmptyStoryData;
      if pageIndex < 0 || pageSize < 0 {
        storyData := storyData.(errors := storyData.errors + [NegativeArgumentsError]);
        return BadRequest(storyData);
      }
      if topStories.Failure? {
        return InternalServerError(topStories.status);
      }
      var built := BuildStoryDataFromIds(topStories.value, fetch);
      if built.Failure? {
        return InternalServerError(built.status);
      }
      storyData := built.value;
      var pageIndexValid := IsPageIndexValid(pageIndex, pageSize, |storyData.stories|);
      if pageIndexValid.None? {
        return Faulted(DivideByZero);
      }
      if !pageIndexValid.value {
        storyData := storyData.(stories := []);
        storyData := storyData.(errors := storyData.errors + [MissingPageError]);
        return BadRequest(storyData);
      }
      ValidAreTitled(storyData.stories);
      storyData := TransformStoryData(storyData, pageIndex, pageSize, title, Substring);
      return Ok(storyData);
    }
  }
}
