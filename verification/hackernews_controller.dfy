/** The story-listing action of HackerNews/Controllers/StoriesController.cs: every
    fetched story goes into the cache first, the validity filter runs after the loop, and
    the title filter is a case-insensitive prefix match. */
module HackerNewsController {
  import opened Wrappers
  import opened Text
  import opened Models
  import opened Listing

  /** What one request returns and leaves in the cache, given the cache before it, the
      upstream's answer for the top-story ID list and its answer for each item. */
  function ListStories(cache: map<int, Story>, pageIndex: int, pageSize: int, title: Option<string>,
                       topStories: Result<seq<int>>, fetch: int -> Result<Story>): Outcome
  {
    if pageIndex < 0 || pageSize < 0 then
      Outcome(BadRequest(EmptyStoryData.(errors := [NegativeArgumentsError])), cache)
    else match topStories
      case Failure(status) => Outcome(InternalServerError(status), cache)
      case Success(ids) =>
        var fetched := Resolve(cache, ids, fetch);
        match fetched.stories
        case Failure(status) => Outcome(InternalServerError(status), fetched.cache)
        case Success(all) =>
          var valid := Where(all, IsValidStory);
          match IsPageIndexValid(pageIndex, pageSize, |valid|)
          case None => Outcome(Faulted(DivideByZero), fetched.cache)
          case Some(false) => Outcome(BadRequest(EmptyStoryData.(errors := [MissingPageError])), fetched.cache)
          case Some(true) =>
            ValidAreTitled(valid);
            Outcome(Ok(TransformStoryData(StoryData(valid, [], 0), pageIndex, pageSize, title, Prefix)), fetched.cache)
  }

  /** A negative page index or page size is refused before anything else: a 400 with the
      one error message and no stories, whatever the upstream would answer, and the cache
      untouched. */
  lemma NegativeArgumentsRejected(cache: map<int, Story>, pageIndex: int, pageSize: int, title: Option<string>,
                                  topStories: Result<seq<int>>, fetch: int -> Result<Story>)
    requires pageIndex < 0 || pageSize < 0
    ensures var o := ListStories(cache, pageIndex, pageSize, title, topStories, fetch);
            && o.response == BadRequest(StoryData([], [NegativeArgumentsError], 0))
            && StatusCode(o.response) == 400
            && o.cache == cache
  {
  }

  /** A non-success status from the ID-list call, or from an item call the cache does not
      answer, is a 500 with no page. The ID-list failure leaves the cache as it was; an item
      failure happens at the first ID that is neither cached nor fetchable. */
  lemma UpstreamFailureIsServerError(cache: map<int, Story>, pageIndex: nat, pageSize: nat, title: Option<string>,
                                     topStories: Result<seq<int>>, fetch: int -> Result<Story>)
    ensures var o := ListStories(cache, pageIndex, pageSize, title, topStories, fetch);
            topStories.Failure? ==> o == Outcome(InternalServerError(topStories.status), cache)
    ensures var o := ListStories(cache, pageIndex, pageSize, title, topStories, fetch);
            topStories.Success? ==>
              (o.response.InternalServerError? <==>
                 exists j :: 0 <= j < |topStories.value| && topStories.value[j] !in cache
                             && fetch(topStories.value[j]).Failure?)
    ensures var o := ListStories(cache, pageIndex, pageSize, title, topStories, fetch);
            o.response.InternalServerError? ==> StatusCode(o.response) == 500
  {
    if topStories.Success? {
      ResolveFailure(cache, topStories.value, fetch);
    }
  }

  /** The stories that reach the page-index check: the valid ones among the stories the
      loop gathered, in ID-list order. */
  function ValidFetched(cache: map<int, Story>, ids: seq<int>, fetch: int -> Result<Story>): (valid: seq<Story>)
    requires Resolve(cache, ids, fetch).stories.Success?
    ensures forall i :: 0 <= i < |valid| ==> IsValidStory(valid[i])
    ensures forall x :: x in valid ==> IsValidStory(x)
    ensures AllTitled(valid)
  {
    var valid := Where(Resolve(cache, ids, fetch).stories.value, IsValidStory);
    ValidAreTitled(valid);
    valid
  }

  /** The page-index check counts the valid stories before title filtering: a page size of
      0 faults on the division; otherwise the request is refused with a fresh envelope
      holding the one error iff the page would start past the end of the valid list. */
  lemma PageIndexCheck(cache: map<int, Story>, pageIndex: nat, pageSize: nat, title: Option<string>,
                       ids: seq<int>, fetch: int -> Result<Story>)
    requires Resolve(cache, ids, fetch).stories.Success?
    ensures var o := ListStories(cache, pageIndex, pageSize, title, Success(ids), fetch);
            pageSize == 0 ==> o.response == Faulted(DivideByZero)
    ensures var o := ListStories(cache, pageIndex, pageSize, title, Success(ids), fetch);
            pageSize > 0 ==>
              (o.response.BadRequest? <==> pageIndex * pageSize > |ValidFetched(cache, ids, fetch)|)
    ensures var o := ListStories(cache, pageIndex, pageSize, title, Success(ids), fetch);
            o.response.BadRequest? ==> o.response.data == StoryData([], [MissingPageError], 0)
    ensures var o := ListStories(cache, pageIndex, pageSize, title, Success(ids), fetch);
            pageSize > 0 ==> (o.response.Ok? <==> pageIndex * pageSize <= |ValidFetched(cache, ids, fetch)|)
  {
  }

  /** A page that starts within the valid stories is accepted: no errors, the total is the
      number of valid stories whose title starts with the filter (all of them for a blank
      filter), and the stories are that list's page from `pageIndex * pageSize`, at most
      `pageSize` of them. */
  lemma OkResponse(cache: map<int, Story>, pageIndex: nat, pageSize: nat, title: Option<string>,
                   ids: seq<int>, fetch: int -> Result<Story>)
    requires Resolve(cache, ids, fetch).stories.Success?
    requires pageSize > 0 && PageStart(pageIndex, pageSize) <= |ValidFetched(cache, ids, fetch)|
    ensures ListStories(cache, pageIndex, pageSize, title, Success(ids), fetch).response.Ok?
    ensures var data := ListStories(cache, pageIndex, pageSize, title, Success(ids), fetch).response.data;
            var filtered := FilterStories(ValidFetched(cache, ids, fetch), title, Prefix);
            && data.errors == []
            && data.totalStories == |filtered|
            && data.stories == Window(filtered, PageStart(pageIndex, pageSize), pageSize)
            && |data.stories| <= pageSize
  {
    var valid := ValidFetched(cache, ids, fetch);
    assert IsPageIndexValid(pageIndex, pageSize, |valid|) == Some(true);
    var o := ListStories(cache, pageIndex, pageSize, title, Success(ids), fetch);
    assert o.response == Ok(TransformStoryData(StoryData(valid, [], 0), pageIndex, pageSize, title, Prefix));
  }

  /** A page that starts within the valid stories is accepted, and every story on it has a
      non-blank title and URL and a title that starts with a non-blank filter, ignoring case. */
  lemma OkStoriesValid(cache: map<int, Story>, pageIndex: nat, pageSize: nat, title: Option<string>,
                       ids: seq<int>, fetch: int -> Result<Story>)
    requires Resolve(cache, ids, fetch).stories.Success?
    requires pageSize > 0 && PageStart(pageIndex, pageSize) <= |ValidFetched(cache, ids, fetch)|
    ensures ListStories(cache, pageIndex, pageSize, title, Success(ids), fetch).response.Ok?
    ensures var data := ListStories(cache, pageIndex, pageSize, title, Success(ids), fetch).response.data;
            forall i :: 0 <= i < |data.stories| ==>
              && !IsNullOrWhiteSpace(data.stories[i].title)
              && !IsNullOrWhiteSpace(data.stories[i].url)
              && (!IsNullOrWhiteSpace(title) ==> StartsWithIgnoreCase(data.stories[i].title.value, title.value))
  {
    var valid := ValidFetched(cache, ids, fetch);
    assert IsPageIndexValid(pageIndex, pageSize, |valid|) == Some(true);
    var o := ListStories(cache, pageIndex, pageSize, title, Success(ids), fetch);
    assert o.response == Ok(TransformStoryData(StoryData(valid, [], 0), pageIndex, pageSize, title, Prefix));
    TransformKeepsMatching(StoryData(valid, [], 0), pageIndex, pageSize, title, Prefix);
  }

  /** When the valid count is a whole number of pages, asking for the page just past the
      last one is accepted and returns no stories. */
  lemma ExactMultipleGivesEmptyPage(cache: map<int, Story>, pages: nat, pageSize: nat, title: Option<string>,
                                    ids: seq<int>, fetch: int -> Result<Story>)
    requires Resolve(cache, ids, fetch).stories.Success?
    requires pageSize > 0 && |ValidFetched(cache, ids, fetch)| == pages * pageSize
    ensures var o := ListStories(cache, pages, pageSize, title, Success(ids), fetch);
            o.response.Ok? && o.response.data.stories == []
  {
    var valid := ValidFetched(cache, ids, fetch);
    assert IsPageIndexValid(pages, pageSize, |valid|) == Some(true);
    var o := ListStories(cache, pages, pageSize, title, Success(ids), fetch);
    assert o.response == Ok(TransformStoryData(StoryData(valid, [], 0), pages, pageSize, title, Prefix));
    FilterStoriesLength(valid, title, Prefix);
  }

  /** The cache after a request that got the ID list: entries that were there keep their
      value; each new entry is an ID of the list with exactly the story fetched for it,
      valid or not; and unless an item fetch failed, every ID of the list is cached. */
  lemma CacheAfterRequest(cache: map<int, Story>, pageIndex: nat, pageSize: nat, title: Option<string>,
                          ids: seq<int>, fetch: int -> Result<Story>)
    ensures var o := ListStories(cache, pageIndex, pageSize, title, Success(ids), fetch);
            && (forall k :: k in cache ==> k in o.cache && o.cache[k] == cache[k])
            && (forall k :: k in o.cache && k !in cache ==> k in ids && fetch(k) == Success(o.cache[k]))
    ensures var o := ListStories(cache, pageIndex, pageSize, title, Success(ids), fetch);
            !o.response.InternalServerError? ==>
              && (forall i :: 0 <= i < |ids| ==> ids[i] in o.cache)
              && (forall i :: 0 <= i < |ids| && ids[i] !in cache ==> fetch(ids[i]) == Success(o.cache[ids[i]]))
  {
    ResolveCache(cache, ids, fetch);
    if Resolve(cache, ids, fetch).stories.Success? {
      ResolveSuccess(cache, ids, fetch);
    }
  }

  /** A second identical request over the cache the first one left returns the same
      response and makes no upstream item call: it is the same whatever the upstream would
      now answer for items. */
  lemma RepeatedRequestHitsCache(cache: map<int, Story>, pageIndex: int, pageSize: int, title: Option<string>,
                                 ids: seq<int>, fetch: int -> Result<Story>, fetchAgain: int -> Result<Story>)
    requires !ListStories(cache, pageIndex, pageSize, title, Success(ids), fetch).response.InternalServerError?
    ensures var o := ListStories(cache, pageIndex, pageSize, title, Success(ids), fetch);
            ListStories(o.cache, pageIndex, pageSize, title, Success(ids), fetchAgain) == o
  {
    if pageIndex >= 0 && pageSize >= 0 {
      ResolveIdempotent(cache, ids, fetch, fetchAgain);
    }
  }

  class StoriesController {
    /** The process-wide story cache, keyed by story ID. */
    var cache: map<int, Story>

    /** The controller over an injected cache. */
    constructor(cache: map<int, Story>)
      ensures this.cache == cache
    {
      this.cache := cache;
    }

    /** The cache-or-fetch loop: one story per ID, in list order, every story (valid or
        not) cached on a miss. A failed fetch ends the loop with that status. */
    method BuildStoryDataFromIds(storyIds: seq<int>, fetch: int -> Result<Story>) returns (r: Result<StoryData>)
      modifies this
      ensures var f := Resolve(old(cache), storyIds, fetch);
              && cache == f.cache
              && r == match f.stories
                      case Success(all) => Success(StoryData(all, [], 0))
                      case Failure(status) => Failure(status)
    {
      var stories: seq<Story> := [];
      var i := 0;
      assert storyIds[i..] == storyIds;
      JoinEmpty(Resolve(cache, storyIds, fetch));
      while i < |storyIds|
        invariant 0 <= i <= |storyIds|
        invariant Resolve(old(cache), storyIds, fetch) == Join(stories, Resolve(cache, storyIds[i..], fetch))
      {
        var id := storyIds[i];
        assert storyIds[i..][1..] == storyIds[i + 1..];
        var story: Story;
        if id in cache {
          story := cache[id];
        } else {
          var response := fetch(id);
          if response.Failure? {
            return Failure(response.status);
          }
          story := response.value;
          cache := cache[id := story];
        }
        JoinAssociates(stories, [story], Resolve(cache, storyIds[i + 1..], fetch));
        stories := stories + [story];
        i := i + 1;
      }
      assert storyIds[i..] == [];
      assert stories + [] == stories;
      return Success(StoryData(stories, [], 0));
    }

    /** `GetNewestStories`: argument validation, the ID-list fetch, the cache-or-fetch
        loop, the validity filter, the page-index check, then filtering and paging. */
    method GetNewestStories(pageIndex: int, pageSize: int, title: Option<string>,
                            topStories: Result<seq<int>>, fetch: int -> Result<Story>) returns (response: Response)
      modifies this
      ensures response == ListStories(old(cache), pageIndex, pageSize, title, topStories, fetch).response
      ensures cache == ListStories(old(cache), pageIndex, pageSize, title, topStories, fetch).cache
    {
      var storyData := EmptyStoryData;
      if pageIndex < 0 || pageSize < 0 {
        storyData := storyData.(errors := storyData.errors + [NegativeArgumentsError]);
        return BadRequest(storyData);
      }
      if topStories.Failure? {
        return InternalServerError(topStories.status);
      }
      var built := BuildStoryDataFromIds(topStories.value, fetch);
      if built.Failure? {
        return InternalServerError(built.status);
      }
      storyData := built.value;
      storyData := storyData.(stories := Where(storyData.stories, IsValidStory));
      var pageIndexValid := IsPageIndexValid(pageIndex, pageSize, |storyData.stories|);
      if pageIndexValid.None? {
        return Faulted(DivideByZero);
      }
      if !pageIndexValid.value {
        storyData := EmptyStoryData;
        storyData := storyData.(errors := storyData.errors + [MissingPageError]);
        return BadRequest(storyData);
      }
      ValidAreTitled(storyData.stories);
      storyData := TransformStoryData(storyData, pageIndex, pageSize, title, Prefix);
      return Ok(storyData);
    }
  }
}
