/** How the two controller revisions relate. */
module Revisions {
  import opened Wrappers
  import opened Text
  import opened Models
  import opened Listing
  import RootController
  import HackerNewsController

  /** Without a title filter the two revisions answer every request identically and leave
      the same cache: filtering valid stories inside the loop or after it gives the same
      list, and the two ways of building the page-index error give the same envelope. */
  lemma SameOutcomeWithoutTitle(cache: map<int, Story>, pageIndex: int, pageSize: int, title: Option<string>,
                                topStories: Result<seq<int>>, fetch: int -> Result<Story>)
    requires IsNullOrWhiteSpace(title)
    ensures RootController.ListStories(cache, pageIndex, pageSize, title, topStories, fetch)
         == HackerNewsController.ListStories(cache, pageIndex, pageSize, title, topStories, fetch)
  {
    assert [] + [MissingPageError] == [MissingPageError];
  }

  /** With a title filter the later revision's prefix match never reports more stories
      than the earlier revision's substring match, and they agree on everything else:
      the status, the errors and the cache. */
  lemma PrefixTotalAtMostSubstringTotal(cache: map<int, Story>, pageIndex: int, pageSize: int, title: Option<string>,
                                        topStories: Result<seq<int>>, fetch: int -> Result<Story>)
    ensures var o1 := RootController.ListStories(cache, pageIndex, pageSize, title, topStories, fetch);
            var o2 := HackerNewsController.ListStories(cache, pageIndex, pageSize, title, topStories, fetch);
            && o1.cache == o2.cache
            && StatusCode(o1.response) == StatusCode(o2.response)
            && (o1.response.Ok? ==> o2.response.Ok? && o2.response.data.totalStories <= o1.response.data.totalStories)
            && (o1.response.BadRequest? ==> o1.response == o2.response)
  {
    if pageIndex >= 0 && pageSize >= 0 && topStories.Success? {
      var fetched := Resolve(cache, topStories.value, fetch);
      if fetched.stories.Success? {
        var valid := Where(fetched.stories.value, IsValidStory);
        assert RootController.Built(fetched) == Success(StoryData(valid, [], 0));
        ValidAreTitled(valid);
        match IsPageIndexValid(pageIndex, pageSize, |valid|)
        case None =>
        case Some(false) =>
          assert [] + [MissingPageError] == [MissingPageError];
        case Some(true) =>
          assert RootController.ListStories(cache, pageIndex, pageSize, title, topStories, fetch).response
              == Ok(TransformStoryData(StoryData(valid, [], 0), pageIndex, pageSize, title, Substring));
          assert HackerNewsController.ListStories(cache, pageIndex, pageSize, title, topStories, fetch).response
              == Ok(TransformStoryData(StoryData(valid, [], 0), pageIndex, pageSize, title, Prefix));
          PrefixFilterNarrower(valid, title);
      }
    }
  }
}
