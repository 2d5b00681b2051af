/** The controller unit tests' fixture, and what each revision answers for it: five IDs,
    each resolving to a valid story titled "Test", "Test2", ... "Test5". */
module Scenarios {
  import opened Wrappers
  import opened Text
  import opened Models
  import opened Listing
  import RootController
  import HackerNewsController

  const TestIds: seq<int> := [111111111, 222222222, 333333333, 444444444, 555555555]

  const TestStories: seq<Story> := [
    Story(Some("Test"), Some("http://test.com")),
    Story(Some("Test2"), Some("http://test2.com")),
    Story(Some("Test3"), Some("http://test3.com")),
    Story(Some("Test4"), Some("http://test4.com")),
    Story(Some("Test5"), Some("http://test5.com"))
  ]

  /** The upstream of the uncached tests: each ID answers with its story. */
  function TestFetch(id: int): Result<Story> {
    if id == 111111111 then Success(TestStories[0])
    else if id == 222222222 then Success(TestStories[1])
    else if id == 333333333 then Success(TestStories[2])
    else if id == 444444444 then Success(TestStories[3])
    else if id == 555555555 then Success(TestStories[4])
    else Failure(400)
  }

  /** The cache of the cached tests: every ID already holds its story. */
  const TestCache: map<int, Story> := map[
    111111111 := TestStories[0], 222222222 := TestStories[1], 333333333 := TestStories[2],
    444444444 := TestStories[3], 555555555 := TestStories[4]]

  lemma TestStoriesValid()
    ensures forall i :: 0 <= i < |TestStories| ==> IsValidStory(TestStories[i])
    ensures Where(TestStories, IsValidStory) == TestStories
  {
    forall i | 0 <= i < |TestStories| ensures IsValidStory(TestStories[i]) {
      assert !IsWhiteSpace(TestStories[i].title.value[0]);
      assert !IsWhiteSpace(TestStories[i].url.value[0]);
    }
    WhereAll(TestStories, IsValidStory);
  }

  /** Cold cache: every ID is fetched once, in order, and cached. */
  lemma UncachedFetchesEveryId()
    ensures Resolve(map[], TestIds, TestFetch) == Fetched(Success(TestStories), TestCache)
  {
    var s := TestStories;
    var c1 := map[111111111 := s[0]];
    var c2 := c1[222222222 := s[1]];
    var c3 := c2[333333333 := s[2]];
    var c4 := c3[444444444 := s[3]];
    var c5 := c4[555555555 := s[4]];
    assert TestIds[5..] == [] && s[5..] == [];
    assert TestIds[4..][1..] == TestIds[5..] && [s[4]] + s[5..] == s[4..];
    FetchStep(c4, TestIds[4..], TestFetch, s[4], s[5..], c5);
    assert TestIds[3..][1..] == TestIds[4..] && [s[3]] + s[4..] == s[3..];
    FetchStep(c3, TestIds[3..], TestFetch, s[3], s[4..], c5);
    assert TestIds[2..][1..] == TestIds[3..] && [s[2]] + s[3..] == s[2..];
    FetchStep(c2, TestIds[2..], TestFetch, s[2], s[3..], c5);
    assert TestIds[1..][1..] == TestIds[2..] && [s[1]] + s[2..] == s[1..];
    FetchStep(c1, TestIds[1..], TestFetch, s[1], s[2..], c5);
    assert [s[0]] + s[1..] == s;
    FetchStep(map[], TestIds, TestFetch, s[0], s[1..], c5);
    assert c5 == TestCache;
  }

  /** One uncached ID fetched successfully, in front of the rest of the list. */
  lemma FetchStep(cache: map<int, Story>, ids: seq<int>, fetch: int -> Result<Story>,
                  story: Story, rest: seq<Story>, final: map<int, Story>)
    requires |ids| > 0 && ids[0] !in cache && fetch(ids[0]) == Success(story)
    requires Resolve(cache[ids[0] := story], ids[1..], fetch) == Fetched(Success(rest), final)
    ensures Resolve(cache, ids, fetch) == Fetched(Success([story] + rest), final)
  {
  }

  /** Warm cache: the cached stories come back whatever the upstream would answer. */
  lemma CachedNeedsNoFetch(fetch: int -> Result<Story>)
    ensures Resolve(TestCache, TestIds, fetch) == Fetched(Success(TestStories), TestCache)
  {
    ResolveAllCached(TestCache, TestIds, fetch);
    var f := Resolve(TestCache, TestIds, fetch);
    assert f.stories.value == TestStories;
  }

  /** The first page of five, with no title filter, is the whole list. */
  lemma FirstPageTransform(title: Option<string>, mode: TitleMatch)
    requires IsNullOrWhiteSpace(title)
    ensures AllTitled(TestStories)
    ensures TransformStoryData(StoryData(TestStories, [], 0), 0, 5, title, mode) == StoryData(TestStories, [], 5)
  {
    TestStoriesValid();
    ValidAreTitled(TestStories);
  }

  /** Page 0 of size 5 from a cold cache holds the five stories in upstream order, with a
      total of 5, and leaves all five cached. */
  lemma FirstPageUncached()
    ensures HackerNewsController.ListStories(map[], 0, 5, Some(""), Success(TestIds), TestFetch)
         == Outcome(Ok(StoryData(TestStories, [], 5)), TestCache)
  {
    UncachedFetchesEveryId();
    TestStoriesValid();
    assert IsPageIndexValid(0, 5, 5) == Some(true);
    FirstPageTransform(Some(""), Prefix);
  }

  /** The same page from a warm cache, whatever the upstream would answer. */
  lemma FirstPageCached(fetch: int -> Result<Story>)
    ensures HackerNewsController.ListStories(TestCache, 0, 5, Some(""), Success(TestIds), fetch)
         == Outcome(Ok(StoryData(TestStories, [], 5)), TestCache)
  {
    CachedNeedsNoFetch(fetch);
    TestStoriesValid();
    assert IsPageIndexValid(0, 5, 5) == Some(true);
    FirstPageTransform(Some(""), Prefix);
  }

  /** Pages (5, 5), (11, 1) and (1, 10) start past the five stories and are refused. */
  lemma MissingPageScenario(pageIndex: nat, pageSize: nat)
    requires (pageIndex == 5 && pageSize == 5) || (pageIndex == 11 && pageSize == 1) || (pageIndex == 1 && pageSize == 10)
    ensures HackerNewsController.ListStories(map[], pageIndex, pageSize, Some(""), Success(TestIds), TestFetch)
         == Outcome(BadRequest(StoryData([], [MissingPageError], 0)), TestCache)
  {
    UncachedFetchesEveryId();
    TestStoriesValid();
    assert IsPageIndexValid(pageIndex, pageSize, 5) == Some(false) by {
      if pageIndex == 5 {
        assert IsPageIndexValid(5, 5, 5) == Some(false);
      } else if pageIndex == 11 {
        assert IsPageIndexValid(11, 1, 5) == Some(false);
      } else {
        assert IsPageIndexValid(1, 10, 5) == Some(false);
      }
    }
  }

  /** Every fixture title starts with any non-empty prefix of "Test", ignoring case, and
      so also contains it. */
  lemma TestTitlesMatch(title: string, mode: TitleMatch)
    requires 0 < |title| <= 4 && title == "Test"[..|title|]
    ensures forall i :: 0 <= i < |TestStories| ==> TitleMatches(TestStories[i], title, mode)
  {
    forall i | 0 <= i < |TestStories| ensures TitleMatches(TestStories[i], title, mode) {
      var s := TestStories[i].title.value;
      assert s[..4] == "Test";
      assert s[..|title|] == title;
      assert StartsWithIgnoreCase(s, title);
      PrefixIsContained(s, title);
    }
  }

  /** Searching "T", "Te", "Tes" or "Test" keeps all five stories. */
  lemma TitleSearchKeepsAll(title: string, mode: TitleMatch)
    requires 0 < |title| <= 4 && title == "Test"[..|title|]
    ensures AllTitled(TestStories)
    ensures TransformStoryData(StoryData(TestStories, [], 0), 0, 5, Some(title), mode) == StoryData(TestStories, [], 5)
  {
    TestStoriesValid();
    ValidAreTitled(TestStories);
    TestTitlesMatch(title, mode);
    FilterStoriesAllMatch(TestStories, Some(title), mode);
  }

  /** The title search test, on a warm cache, in the later revision. */
  lemma TitleSearchScenario(title: string, fetch: int -> Result<Story>)
    requires 0 < |title| <= 4 && title == "Test"[..|title|]
    ensures HackerNewsController.ListStories(TestCache, 0, 5, Some(title), Success(TestIds), fetch).response
         == Ok(StoryData(TestStories, [], 5))
  {
    CachedNeedsNoFetch(fetch);
    TestStoriesValid();
    assert IsPageIndexValid(0, 5, 5) == Some(true);
    TitleSearchKeepsAll(title, Prefix);
  }

  /** Only the second fixture title matches "Test2", by prefix or by substring. */
  lemma OnlyTest2Matches(i: nat, mode: TitleMatch)
    requires i < |TestStories|
    ensures TitleMatches(TestStories[i], "Test2", mode) <==> i == 1
  {
    var s, p := TestStories[i].title.value, "Test2";
    ContainsInShort(s, p);
    if i == 1 {
      assert s[..5] == p;
    } else if i > 1 {
      assert s[..5] == s;
      assert Fold(s[4]) != Fold(p[4]);
    }
  }

  /** Of the fixture titles, only "Test2" matches the search text "Test2". */
  lemma OnlySecondMatchesTest2(title: string, mode: TitleMatch)
    requires title == "Test2"
    ensures forall i :: 0 <= i < |TestStories| ==> (TitleMatches(TestStories[i], title, mode) <==> i == 1)
  {
    OnlyTest2Matches(0, mode);
    OnlyTest2Matches(1, mode);
    OnlyTest2Matches(2, mode);
    OnlyTest2Matches(3, mode);
    OnlyTest2Matches(4, mode);
  }

  /** Searching "Test2" keeps exactly the one story of that title, in both revisions. */
  lemma NarrowTitleSearch(title: string, mode: TitleMatch)
    requires title == "Test2"
    ensures AllTitled(TestStories)
    ensures FilterStories(TestStories, Some(title), mode) == [TestStories[1]]
  {
    assert AllTitled(TestStories);
    OnlySecondMatchesTest2(title, mode);
    assert !IsNullOrWhiteSpace(Some(title)) by { assert !IsWhiteSpace(title[0]); }
    FilterStoriesSingleMatch(TestStories, Some(title), mode, 1);
  }
}
