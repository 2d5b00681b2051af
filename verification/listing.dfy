/** The pieces of the story-listing pipeline that both controller revisions share:
    LINQ `Where`, `Skip` and `Take`, the validity test, the page-index check, the title
    filter, the response transformation, and the specification of the cache-or-fetch loop. */
module Listing {
  import opened Wrappers
  import opened Text
  import opened Models

  /** LINQ `Where`: the elements satisfying `p`, in their original order. */
  function Where<T>(s: seq<T>, p: T -> bool): (r: seq<T>)
    ensures |r| <= |s|
    ensures forall i :: 0 <= i < |r| ==> r[i] in s && p(r[i])
    ensures forall i :: 0 <= i < |s| && p(s[i]) ==> s[i] in r
    decreases |s|
  {
    if s == [] then []
    else (if p(s[0]) then [s[0]] else []) + Where(s[1..], p)
  }

  /** Filtering a concatenation filters each part and keeps them in order: the filter
      never reorders elements. */
  lemma {:induction false} WhereConcat<T>(a: seq<T>, b: seq<T>, p: T -> bool)
    ensures Where(a + b, p) == Where(a, p) + Where(b, p)
    decreases |a|
  {
    if a != [] {
      assert (a + b)[1..] == a[1..] + b;
      WhereConcat(a[1..], b, p);
    } else {
      assert a + b == b;
    }
  }

  /** Appending one element to the input appends it to the output iff it passes. */
  lemma WhereSnoc<T>(s: seq<T>, x: T, p: T -> bool)
    ensures Where(s + [x], p) == Where(s, p) + (if p(x) then [x] else [])
  {
    WhereConcat(s, [x], p);
    assert Where([x], p) == (if p(x) then [x] else []) + Where([x][1..], p);
  }

  /** A filter that every element passes returns its input unchanged. */
  lemma {:induction false} WhereAll<T>(s: seq<T>, p: T -> bool)
    requires forall i :: 0 <= i < |s| ==> p(s[i])
    ensures Where(s, p) == s
    decreases |s|
  {
    if s != [] {
      WhereAll(s[1..], p);
    }
  }

  /** A filter that exactly one position passes returns that one element. */
  lemma {:induction false} WhereSingle<T>(s: seq<T>, p: T -> bool, k: nat)
    requires k < |s|
    requires forall i :: 0 <= i < |s| ==> (p(s[i]) <==> i == k)
    ensures Where(s, p) == [s[k]]
    decreases |s|
  {
    if k == 0 {
      assert forall i :: 0 <= i < |s[1..]| ==> !p(s[1..][i]) by {
        forall i | 0 <= i < |s[1..]| ensures !p(s[1..][i]) { assert s[1..][i] == s[i + 1]; }
      }
      WhereNone(s[1..], p);
    } else {
      assert forall i :: 0 <= i < |s[1..]| ==> (p(s[1..][i]) <==> i == k - 1) by {
        forall i | 0 <= i < |s[1..]| ensures p(s[1..][i]) <==> i == k - 1 { assert s[1..][i] == s[i + 1]; }
      }
      WhereSingle(s[1..], p, k - 1);
    }
  }

  /** A filter that nothing passes returns nothing. */
  lemma {:induction false} WhereNone<T>(s: seq<T>, p: T -> bool)
    requires forall i :: 0 <= i < |s| ==> !p(s[i])
    ensures Where(s, p) == []
    decreases |s|
  {
    if s != [] {
      WhereNone(s[1..], p);
    }
  }

  /** A weaker test keeps at least as many elements. */
  lemma {:induction false} WhereMonotone<T>(s: seq<T>, p: T -> bool, q: T -> bool)
    requires forall x :: p(x) ==> q(x)
    ensures |Where(s, p)| <= |Where(s, q)|
    decreases |s|
  {
    if s != [] {
      WhereMonotone(s[1..], p, q);
    }
  }

  /** LINQ `Skip`: drops the first `n` elements, or all of them, or none when `n <= 0`. */
  function Skip<T>(s: seq<T>, n: int): (r: seq<T>)
    ensures n <= 0 ==> r == s
    ensures 0 <= n <= |s| ==> r == s[n..]
    ensures n >= |s| ==> r == []
    decreases |s|
  {
    if n <= 0 || s == [] then s else Skip(s[1..], n - 1)
  }

  /** LINQ `Take`: keeps the first `n` elements, or all of them, or none when `n <= 0`. */
  function Take<T>(s: seq<T>, n: int): (r: seq<T>)
    ensures n <= 0 ==> r == []
    ensures 0 <= n <= |s| ==> r == s[..n]
    ensures n >= |s| ==> r == s
    decreases |s|
  {
    if n <= 0 || s == [] then [] else [s[0]] + Take(s[1..], n - 1)
  }

  function Min(a: int, b: int): int { if a <= b then a else b }
  function Max(a: int, b: int): int { if a >= b then a else b }

  /** The part of `s` from index `start` on, at most `size` long: a page of `s`. */
  function Window<T>(s: seq<T>, start: nat, size: nat): (w: seq<T>)
    ensures |w| == Max(0, Min(size, |s| - start))
    ensures forall i :: 0 <= i < |w| ==> w[i] == s[start + i]
  {
    s[Min(start, |s|)..Min(start + size, |s|)]
  }

  /** Where page `pageIndex` of `pageSize` stories starts. */
  function PageStart(pageIndex: nat, pageSize: nat): nat {
    pageIndex * pageSize
  }

  /** `Skip(pageIndex * pageSize).Take(pageSize)` is the page of `s` that starts at
      `pageIndex * pageSize`, and it is never longer than `pageSize`. */
  lemma PageWindow<T>(s: seq<T>, pageIndex: nat, pageSize: nat)
    ensures Take(Skip(s, pageIndex * pageSize), pageSize) == Window(s, PageStart(pageIndex, pageSize), pageSize)
    ensures |Take(Skip(s, pageIndex * pageSize), pageSize)| <= pageSize
  {
    var start := pageIndex * pageSize;
    if start >= |s| {
      assert Skip(s, start) == [];
    } else {
      var rest := s[start..];
      if pageSize <= |rest| {
        assert rest[..pageSize] == s[start..start + pageSize];
      }
    }
  }

  /** `IsValidStory`: both the title and the URL are non-blank. */
  predicate IsValidStory(story: Story) {
    !IsNullOrWhiteSpace(story.title) && !IsNullOrWhiteSpace(story.url)
  }

  /** The validity filter keeps exactly the stories with a non-blank title and URL, in
      their original order, and leaves a list of valid stories as it is. */
  lemma ValidStories(stories: seq<Story>)
    ensures forall x :: x in Where(stories, IsValidStory) <==>
      x in stories && !IsNullOrWhiteSpace(x.title) && !IsNullOrWhiteSpace(x.url)
    ensures forall a, b :: stories == a + b ==>
      Where(stories, IsValidStory) == Where(a, IsValidStory) + Where(b, IsValidStory)
    ensures (forall i :: 0 <= i < |stories| ==> IsValidStory(stories[i])) ==>
      Where(stories, IsValidStory) == stories
  {
    forall a: seq<Story>, b: seq<Story> | stories == a + b
      ensures Where(stories, IsValidStory) == Where(a, IsValidStory) + Where(b, IsValidStory)
    {
      WhereConcat(a, b, IsValidStory);
    }
    if forall i :: 0 <= i < |stories| ==> IsValidStory(stories[i]) {
      WhereAll(stories, IsValidStory);
    }
  }

  /** Every story left after validity filtering has a (non-null) title. */
  predicate AllTitled(stories: seq<Story>) {
    forall i :: 0 <= i < |stories| ==> stories[i].title.Some?
  }

  /** Valid stories all have a title, so the title filter can read it. */
  lemma ValidAreTitled(valid: seq<Story>)
    requires forall i :: 0 <= i < |valid| ==> IsValidStory(valid[i])
    ensures AllTitled(valid)
  {
    forall i | 0 <= i < |valid| ensures valid[i].title.Some? {
      assert IsValidStory(valid[i]);
    }
  }

  /** C# integer division, which truncates toward zero. */
  function TruncatedDiv(a: int, b: int): int
    requires b != 0
  {
    var q := (if a < 0 then -a else a) / (if b < 0 then -b else b);
    if (a < 0) != (b < 0) then -q else q
  }

  /** `IsPageIndexValid`: `pageIndex <= totalStoriesCount / pageSize`. `None` stands for
      the `DivideByZeroException` that a page size of 0 raises. For the arguments the
      action can pass, it accepts exactly the pages that start at or before the end of
      the list. */
  function IsPageIndexValid(pageIndex: int, pageSize: int, totalStoriesCount: int): (r: Option<bool>)
    ensures r.None? <==> pageSize == 0
    ensures pageSize > 0 && totalStoriesCount >= 0 ==>
      r == Some(pageIndex * pageSize <= totalStoriesCount)
  {
    if pageSize == 0 then None
    else
      var totalPages := TruncatedDiv(totalStoriesCount, pageSize);
      assert pageSize > 0 && totalStoriesCount >= 0 ==>
        (pageIndex <= totalPages <==> pageIndex * pageSize <= totalStoriesCount) by {
        if pageSize > 0 && totalStoriesCount >= 0 {
          PageBound(pageIndex, pageSize, totalStoriesCount);
        }
      }
      Some(pageIndex <= totalPages)
  }

  lemma PageBound(p: int, k: int, c: int)
    requires k > 0 && c >= 0
    ensures p <= c / k <==> p * k <= c
  {
    var q, m := c / k, c % k;
    assert c == q * k + m && 0 <= m < k;
    if p <= q {
      assert p * k <= q * k by { MulMonotone(p, q, k); }
    } else {
      assert (q + 1) * k <= p * k by { MulMonotone(q + 1, p, k); }
    }
  }

  lemma MulMonotone(a: int, b: int, k: int)
    requires a <= b && k >= 0
    ensures a * k <= b * k
  {
    assert b * k - a * k == (b - a) * k;
  }

  /** When the valid count is a whole number of pages, the page just past the last one is
      still accepted, and it is empty. */
  lemma ExactMultipleAcceptsEmptyPage(count: nat, pageSize: nat)
    requires pageSize > 0 && count % pageSize == 0
    ensures IsPageIndexValid(count / pageSize, pageSize, count) == Some(true)
    ensures count / pageSize * pageSize == count
  {
    assert count == count / pageSize * pageSize + count % pageSize;
  }

  /** Which title comparison a revision uses. */
  datatype TitleMatch = Substring | Prefix

  predicate TitleMatches(story: Story, title: string, mode: TitleMatch) {
    story.title.Some? &&
    match mode
    case Substring => ContainsIgnoreCase(story.title.value, title)
    case Prefix => StartsWithIgnoreCase(story.title.value, title)
  }

  /** `FilterStories`: a blank title keeps every story; any other title keeps the stories
      whose title matches it, ignoring case. The source dereferences each story's title,
      so its callers pass only titled stories. */
  function FilterStories(stories: seq<Story>, title: Option<string>, mode: TitleMatch): (r: seq<Story>)
    requires AllTitled(stories)
    ensures AllTitled(r)
  {
    if IsNullOrWhiteSpace(title) then stories
    else Where(stories, s => TitleMatches(s, title.value, mode))
  }

  /** The title filter, both cases: unchanged for a blank title, otherwise exactly the
      matching stories; in both cases it keeps relative order (it distributes over
      concatenation). */
  lemma FilterStoriesKeepsMatches(stories: seq<Story>, title: Option<string>, mode: TitleMatch)
    requires AllTitled(stories)
    ensures IsNullOrWhiteSpace(title) ==> FilterStories(stories, title, mode) == stories
    ensures !IsNullOrWhiteSpace(title) ==> forall x :: x in FilterStories(stories, title, mode) <==>
      x in stories && TitleMatches(x, title.value, mode)
    ensures forall a, b :: stories == a + b ==>
      (AllTitled(a) && AllTitled(b) &&
       FilterStories(stories, title, mode) == FilterStories(a, title, mode) + FilterStories(b, title, mode))
  {
    forall a: seq<Story>, b: seq<Story> | stories == a + b
      ensures AllTitled(a) && AllTitled(b) &&
        FilterStories(stories, title, mode) == FilterStories(a, title, mode) + FilterStories(b, title, mode)
    {
      assert AllTitled(a) && AllTitled(b) by {
        forall i | 0 <= i < |a| ensures a[i].title.Some? { assert a[i] == stories[i]; }
        forall i | 0 <= i < |b| ensures b[i].title.Some? { assert b[i] == stories[|a| + i]; }
      }
      if !IsNullOrWhiteSpace(title) {
        WhereConcat(a, b, s => TitleMatches(s, title.value, mode));
      }
    }
  }

  /** A blank title filter, or one that every story matches, keeps the list as it is. */
  lemma FilterStoriesAllMatch(stories: seq<Story>, title: Option<string>, mode: TitleMatch)
    requires AllTitled(stories)
    requires !IsNullOrWhiteSpace(title) ==> forall i :: 0 <= i < |stories| ==> TitleMatches(stories[i], title.value, mode)
    ensures FilterStories(stories, title, mode) == stories
  {
    if !IsNullOrWhiteSpace(title) {
      WhereAll(stories, s => TitleMatches(s, title.value, mode));
    }
  }

  /** A title that exactly one story matches keeps just that story. */
  lemma FilterStoriesSingleMatch(stories: seq<Story>, title: Option<string>, mode: TitleMatch, k: nat)
    requires AllTitled(stories) && !IsNullOrWhiteSpace(title) && k < |stories|
    requires forall i :: 0 <= i < |stories| ==> (TitleMatches(stories[i], title.value, mode) <==> i == k)
    ensures FilterStories(stories, title, mode) == [stories[k]]
  {
    WhereSingle(stories, s => TitleMatches(s, title.value, mode), k);
  }

  /** The title filter never adds stories. */
  lemma FilterStoriesLength(stories: seq<Story>, title: Option<string>, mode: TitleMatch)
    requires AllTitled(stories)
    ensures |FilterStories(stories, title, mode)| <= |stories|
  {
  }

  /** A prefix match keeps no story that the substring match would drop. */
  lemma PrefixFilterNarrower(stories: seq<Story>, title: Option<string>)
    requires AllTitled(stories)
    ensures forall x :: x in FilterStories(stories, title, Prefix) ==> x in FilterStories(stories, title, Substring)
    ensures |FilterStories(stories, title, Prefix)| <= |FilterStories(stories, title, Substring)|
  {
    if !IsNullOrWhiteSpace(title) {
      var t := title.value;
      forall x | TitleMatches(x, t, Prefix) ensures TitleMatches(x, t, Substring) {
        PrefixIsContained(x.title.value, t);
      }
      WhereMonotone(stories, s => TitleMatches(s, t, Prefix), s => TitleMatches(s, t, Substring));
    }
  }

  /** `TransformStoryData`: a fresh envelope holding the requested page of the
      title-filtered stories and, as the total, the number of stories the filter kept. */
  function TransformStoryData(storyData: StoryData, pageIndex: int, pageSize: int,
                              title: Option<string>, mode: TitleMatch): (r: StoryData)
    requires AllTitled(storyData.stories)
    ensures r.errors == []
    ensures r.totalStories == |FilterStories(storyData.stories, title, mode)|
    ensures pageIndex >= 0 && pageSize >= 0 ==>
      && r.stories == Window(FilterStories(storyData.stories, title, mode), PageStart(pageIndex, pageSize), pageSize)
      && |r.stories| <= pageSize
  {
    var filtered := FilterStories(storyData.stories, title, mode);
    var page := Take(Skip(filtered, pageIndex * pageSize), pageSize);
    assert pageIndex >= 0 && pageSize >= 0 ==> page == Window(filtered, PageStart(pageIndex, pageSize), pageSize) && |page| <= pageSize by {
      if pageIndex >= 0 && pageSize >= 0 {
        PageWindow(filtered, pageIndex, pageSize);
      }
    }
    StoryData(page, [], |filtered|)
  }

  /** Every story on a transformed page comes from the input and matches a non-blank
      title filter. */
  lemma TransformKeepsMatching(storyData: StoryData, pageIndex: nat, pageSize: nat,
                               title: Option<string>, mode: TitleMatch)
    requires AllTitled(storyData.stories)
    ensures var r := TransformStoryData(storyData, pageIndex, pageSize, title, mode);
            forall i :: 0 <= i < |r.stories| ==>
              && r.stories[i] in storyData.stories
              && (!IsNullOrWhiteSpace(title) ==> TitleMatches(r.stories[i], title.value, mode))
  {
    var filtered := FilterStories(storyData.stories, title, mode);
    var r := TransformStoryData(storyData, pageIndex, pageSize, title, mode);
    forall i | 0 <= i < |r.stories|
      ensures && r.stories[i] in storyData.stories
              && (!IsNullOrWhiteSpace(title) ==> TitleMatches(r.stories[i], title.value, mode))
    {
      assert r.stories[i] == filtered[pageIndex * pageSize + i];
    }
  }

  /** The stories gathered by the cache-or-fetch loop (or the failing status) and the
      cache it leaves behind. */
  datatype Fetched = Fetched(stories: Result<seq<Story>>, cache: map<int, Story>)

  /** Puts `prefix` in front of the stories of a later part of the loop. */
  function Join(prefix: seq<Story>, rest: Fetched): Fetched {
    match rest.stories
    case Success(s) => Fetched(Success(prefix + s), rest.cache)
    case Failure(_) => rest
  }

  /** The cache-or-fetch loop of `BuildStoryDataFromIds`, as a specification: IDs are
      taken in list order; a cached ID yields its cached story; any other ID is fetched,
      and the fetched story (valid or not) is written to the cache before the next ID.
      The first failed fetch ends the loop; the entries written before it stay. */
  function Resolve(cache: map<int, Story>, ids: seq<int>, fetch: int -> Result<Story>): (f: Fetched)
    decreases |ids|
  {
    if ids == [] then Fetched(Success([]), cache)
    else if ids[0] in cache then Join([cache[ids[0]]], Resolve(cache, ids[1..], fetch))
    else match fetch(ids[0])
      case Failure(status) => Fetched(Failure(status), cache)
      case Success(story) => Join([story], Resolve(cache[ids[0] := story], ids[1..], fetch))
  }

  lemma JoinEmpty(f: Fetched)
    ensures Join([], f) == f
  {
    if f.stories.Success? {
      assert [] + f.stories.value == f.stories.value;
    }
  }

  lemma JoinAssociates(a: seq<Story>, b: seq<Story>, f: Fetched)
    ensures Join(a, Join(b, f)) == Join(a + b, f)
  {
    if f.stories.Success? {
      assert a + (b + f.stories.value) == (a + b) + f.stories.value;
    }
  }

  /** The loop only ever adds entries: cached entries keep their value, and each new key
      is an ID of the list whose fetch returned exactly the stored story. So keys outside
      the list are untouched, and invalid stories are cached like valid ones. */
  lemma {:induction false} ResolveCache(cache: map<int, Story>, ids: seq<int>, fetch: int -> Result<Story>)
    ensures var f := Resolve(cache, ids, fetch);
            && cache.Keys <= f.cache.Keys
            && (forall k :: k in cache ==> f.cache[k] == cache[k])
            && (forall k :: k in f.cache && k !in cache ==> k in ids && fetch(k) == Success(f.cache[k]))
    decreases |ids|
  {
    if ids != [] {
      if ids[0] in cache {
        ResolveCache(cache, ids[1..], fetch);
      } else if fetch(ids[0]).Success? {
        ResolveCache(cache[ids[0] := fetch(ids[0]).value], ids[1..], fetch);
      }
    }
  }

  /** On success there is exactly one story per ID, in list order; each ID is now a key
      of the cache and its story is the cached value: the old entry on a hit, the
      fetched story on a miss. */
  lemma {:induction false} ResolveSuccess(cache: map<int, Story>, ids: seq<int>, fetch: int -> Result<Story>)
    requires Resolve(cache, ids, fetch).stories.Success?
    ensures var f := Resolve(cache, ids, fetch);
            && |f.stories.value| == |ids|
            && (forall i :: 0 <= i < |ids| ==> ids[i] in f.cache && f.stories.value[i] == f.cache[ids[i]])
    decreases |ids|
  {
    if ids != [] {
      var id := ids[0];
      var c := if id in cache then cache else cache[id := fetch(id).value];
      var rest := Resolve(c, ids[1..], fetch);
      ResolveSuccess(c, ids[1..], fetch);
      ResolveCache(c, ids[1..], fetch);
      var f := Resolve(cache, ids, fetch);
      assert f.stories.value == [c[id]] + rest.stories.value;
      forall i | 0 <= i < |ids| ensures ids[i] in f.cache && f.stories.value[i] == f.cache[ids[i]] {
        if i > 0 {
          assert ids[i] == ids[1..][i - 1];
        }
      }
    }
  }

  /** On success the cache keys are the old keys plus every ID of the list. */
  lemma {:induction false} ResolveSuccessKeys(cache: map<int, Story>, ids: seq<int>, fetch: int -> Result<Story>)
    requires Resolve(cache, ids, fetch).stories.Success?
    ensures Resolve(cache, ids, fetch).cache.Keys == cache.Keys + set x | x in ids
    decreases |ids|
  {
    if ids != [] {
      var id := ids[0];
      var c := if id in cache then cache else cache[id := fetch(id).value];
      assert Resolve(cache, ids, fetch).cache == Resolve(c, ids[1..], fetch).cache;
      ResolveSuccessKeys(c, ids[1..], fetch);
      assert forall x :: x in ids <==> x == id || x in ids[1..];
    }
  }

  /** The loop fails iff some ID is neither cached nor fetchable. */
  lemma {:induction false} ResolveFailure(cache: map<int, Story>, ids: seq<int>, fetch: int -> Result<Story>)
    ensures Resolve(cache, ids, fetch).stories.Failure? <==>
            exists j :: 0 <= j < |ids| && ids[j] !in cache && fetch(ids[j]).Failure?
    decreases |ids|
  {
    if ids != [] {
      var id := ids[0];
      if id in cache || fetch(id).Success? {
        var c := if id in cache then cache else cache[id := fetch(id).value];
        ResolveFailure(c, ids[1..], fetch);
        if exists j :: 0 <= j < |ids| && ids[j] !in cache && fetch(ids[j]).Failure? {
          var j :| 0 <= j < |ids| && ids[j] !in cache && fetch(ids[j]).Failure?;
          assert j > 0 && ids[1..][j - 1] == ids[j];
        }
        if exists j :: 0 <= j < |ids[1..]| && ids[1..][j] !in c && fetch(ids[1..][j]).Failure? {
          var j :| 0 <= j < |ids[1..]| && ids[1..][j] !in c && fetch(ids[1..][j]).Failure?;
          assert ids[j + 1] == ids[1..][j];
        }
      }
    }
  }

  /** A failed loop stops at an ID that is neither cached nor fetchable, with that
      fetch's status, after every earlier ID has been cached. */
  lemma {:induction false} ResolveFailureAt(cache: map<int, Story>, ids: seq<int>, fetch: int -> Result<Story>)
    requires Resolve(cache, ids, fetch).stories.Failure?
    ensures var f := Resolve(cache, ids, fetch);
            exists j :: 0 <= j < |ids| && ids[j] !in f.cache && fetch(ids[j]) == Failure(f.stories.status)
                        && forall i :: 0 <= i < j ==> ids[i] in f.cache
    decreases |ids|
  {
    var id := ids[0];
    var f := Resolve(cache, ids, fetch);
    if id in cache || fetch(id).Success? {
      var c := if id in cache then cache else cache[id := fetch(id).value];
      assert f == Join([c[id]], Resolve(c, ids[1..], fetch));
      ResolveFailureAt(c, ids[1..], fetch);
      ResolveCache(c, ids[1..], fetch);
      var j :| 0 <= j < |ids[1..]| && ids[1..][j] !in f.cache && fetch(ids[1..][j]) == Failure(f.stories.status)
               && forall i :: 0 <= i < j ==> ids[1..][i] in f.cache;
      assert ids[j + 1] == ids[1..][j];
      forall i | 0 <= i < j + 1 ensures ids[i] in f.cache {
        if i > 0 { assert ids[i] == ids[1..][i - 1]; }
      }
    } else {
      assert ids[0] !in f.cache;
    }
  }

  /** With every ID cached, the loop makes no fetch at all: it returns the cached
      stories in list order and leaves the cache as it is. */
  lemma {:induction false} ResolveAllCached(cache: map<int, Story>, ids: seq<int>, fetch: int -> Result<Story>)
    requires forall i :: 0 <= i < |ids| ==> ids[i] in cache
    ensures var f := Resolve(cache, ids, fetch);
            && f.cache == cache && f.stories.Success? && |f.stories.value| == |ids|
            && forall i :: 0 <= i < |ids| ==> f.stories.value[i] == cache[ids[i]]
    decreases |ids|
  {
    if ids != [] {
      ResolveAllCached(cache, ids[1..], fetch);
      var f := Resolve(cache, ids, fetch);
      forall i | 0 <= i < |ids| ensures f.stories.value[i] == cache[ids[i]] {
        if i > 0 { assert ids[i] == ids[1..][i - 1]; }
      }
    }
  }

  /** Running the loop again over the cache it produced returns the same stories and
      calls nothing upstream, whatever the upstream would now answer. */
  lemma ResolveIdempotent(cache: map<int, Story>, ids: seq<int>, fetch: int -> Result<Story>,
                          fetchAgain: int -> Result<Story>)
    requires Resolve(cache, ids, fetch).stories.Success?
    ensures var f := Resolve(cache, ids, fetch);
            Resolve(f.cache, ids, fetchAgain) == f
  {
    var f := Resolve(cache, ids, fetch);
    ResolveSuccess(cache, ids, fetch);
    ResolveAllCached(f.cache, ids, fetchAgain);
    var g := Resolve(f.cache, ids, fetchAgain);
    assert g.stories.value == f.stories.value;
  }

  /** A cache hit makes no upstream call: two upstreams that agree on the uncached IDs
      give the same result. */
  lemma {:induction false} ResolveIgnoresFetchOnHits(cache: map<int, Story>, ids: seq<int>,
                                                     fetch: int -> Result<Story>, other: int -> Result<Story>)
    requires forall k :: k !in cache ==> fetch(k) == other(k)
    ensures Resolve(cache, ids, fetch) == Resolve(cache, ids, other)
    decreases |ids|
  {
    if ids != [] && ids[0] !in cache {
      var k := ids[0];
      assert k !in cache;
      assert fetch(k) == other(k);
    }
    if ids != [] && ids[0] !in cache && fetch(ids[0]).Success? {
      ResolveIgnoresFetchOnHits(cache[ids[0] := fetch(ids[0]).value], ids[1..], fetch, other);
    } else if ids != [] && ids[0] in cache {
      ResolveIgnoresFetchOnHits(cache, ids[1..], fetch, other);
    }
  }
}
