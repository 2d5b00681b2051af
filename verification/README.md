# HackerNews newest-stories listing, modelled in Dafny

The HackerNews application serves the newest Hacker News stories one page at a time.
It has two parts:

- **The API controller.** `GET api/stories?pageIndex=&pageSize=&title=` works in this order:
  1. It rejects negative arguments.
  2. It fetches the list of newest story IDs.
  3. It resolves each ID through a process-wide cache, fetching and caching the stories it misses.
  4. It drops stories whose title or URL is blank.
  5. It refuses page indexes past the end.
  6. It filters by title, ignoring case.
  7. It returns one page and the total count after filtering.
- **The browser client.** This is an Angular service that builds the request URL from optional arguments, and a second service that builds a placeholder-kitten image URL.

The repository holds two revisions of the controller, and both are modelled:

- **`Controllers/StoriesController.cs`**, the earlier revision (module `RootController`). It filters out invalid stories inside the cache-or-fetch loop and matches the title as a substring.
- **`HackerNews/Controllers/StoriesController.cs`**, the later revision (module `HackerNewsController`). It filters out invalid stories after the loop and matches the title as a prefix.

Modules:

- `Wrappers`: `Option` and `Result`.
- `Text`: the string helpers the code relies on.
  - `string.IsNullOrWhiteSpace`, using the full `char.IsWhiteSpace` set.
  - Case-insensitive `StartsWith` and `Contains`.
  - Decimal number text and its parser, and the split at the first occurrence of a character.
  - JavaScript truthiness of an optional number.
- `Models`: the `Story` and `StoryData` records, the two error messages, and the HTTP responses.
- `Listing`: the pure parts both revisions share.
  - LINQ `Where`, `Skip` and `Take`; `IsValidStory`; `IsPageIndexValid`; `FilterStories`; `TransformStoryData`.
  - `Resolve`, the specification of the cache-or-fetch loop.
- `RootController` and `HackerNewsController`: for each revision, a specification function `ListStories` and its properties. Each also has a `StoriesController` class whose `cache` map field is updated in place by `BuildStoryDataFromIds` and `GetNewestStories`, and those methods are proved against the specification.
- `Revisions`: how the two revisions relate.
- `Scenarios`: the fixture of the controller unit tests (five IDs, five valid stories) and what each test expects, proved about the model.
- `StoryService`: the client's query-string builder.
  - A `UrlSearchParams` class holds the pairs it appends.
  - It has the `application/x-www-form-urlencoded` serializer of the WHATWG URL Standard (section 5.2), with UTF-8 and percent-encoding.
  - `ParseQuery` reads a query back, so the round trip can be stated.
- `KittenService`: the placeholder-image URL and its parser.

Modelling choices:

- **Upstream Hacker News API.** It is two parameters.
  - `topStories: Result<seq<int>>` is the answer to the ID-list call.
  - `fetch: int -> Result<Story>` is the answer to each item call.
  - `Failure(status)` stands for a non-success status, which `EnsureSuccessStatusCode` turns into an `HttpRequestException` and the controller answers with a 500.
- **Cache.** It is a `map<int, Story>` with no expiry.
- **Page size 0.** `IsPageIndexValid` divides by `pageSize`, so a page size of 0 raises a `DivideByZeroException` that no handler catches. The model gives that case its own response, `Faulted(DivideByZero)`, and counts it as a 500 (`StatusCode`).
- **C# `int` division.** Integer division is modelled as C#'s truncating division (`TruncatedDiv`).
- **JavaScript numbers.** An optional JavaScript number is an `Option<int>`, with `undefined` as `None`.

## Model

| member | source | states |
|---|---|---|
| Models.StatusCode | HackerNews/Controllers/StoriesController.cs:61-71 | 200 exactly for Ok, 400 exactly for BadRequest, 500 exactly for the upstream-failure response and for the uncaught division fault |
| Text.ContainsIgnoreCaseAt | Controllers/StoriesController.cs:141 | a case-insensitive `Contains` holds iff the search text is a case-insensitive prefix of some suffix of the title |
| Text.ContainsInShort | Controllers/StoriesController.cs:141 | when the title is no longer than the non-empty search text, substring and prefix match coincide |
| Text.PrefixIsContained | HackerNews/Controllers/StoriesController.cs:143 | a title that starts with the search text also contains it |
| Text.NatToString | HackerNews/ClientApp/src/app/services/story.service.ts:32 | the decimal text of a number is non-empty, all digits, with no leading zero |
| Text.IntToString | HackerNews/ClientApp/src/app/services/story.service.ts:32 | `toString()` of an integer: the digits of a non-negative one, a minus sign then the digits of a negative one |
| Text.ParseIntToString | HackerNews/ClientApp/src/app/services/story.service.ts:32 | the number text sent in the query reads back as the same integer |
| Text.ParseNatToString | HackerNews/ClientApp/src/app/services/kitten.service.ts:24 | the decimal text of a natural number reads back as that number |
| Text.SplitAtFirst | HackerNews/ClientApp/src/app/services/story.service.ts:43 | splitting `a c b` at the first `c`, when `a` has no `c`, gives back `a` and `b` |
| Listing.Where | HackerNews/Controllers/StoriesController.cs:53-55 | LINQ `Where`: no longer than its input; every element kept comes from the input and satisfies the predicate; every input element that satisfies it is kept |
| Listing.WhereConcat | HackerNews/Controllers/StoriesController.cs:53-55 | filtering distributes over concatenation, so relative order is kept |
| Listing.WhereSnoc | Controllers/StoriesController.cs:84-87 | filtering a list with one more element appends that element iff it satisfies the predicate (the earlier revision's conditional append) |
| Listing.WhereAll | HackerNews/Controllers/StoriesController.cs:53-55 | when every element satisfies the predicate the filter returns the list unchanged |
| Listing.WhereSingle | HackerNews/Controllers/StoriesController.cs:142-144 | when exactly one element satisfies the predicate the filter returns just that element |
| Listing.WhereNone | HackerNews/Controllers/StoriesController.cs:142-144 | when no element satisfies the predicate the filter returns the empty list |
| Listing.WhereMonotone | Controllers/StoriesController.cs:140-142 | a weaker predicate keeps at least as many elements |
| Listing.Skip | HackerNews/Controllers/StoriesController.cs:128 | LINQ `Skip`: a non-positive count skips nothing, a count past the end leaves nothing, otherwise the suffix from the count |
| Listing.Take | HackerNews/Controllers/StoriesController.cs:129 | LINQ `Take`: a non-positive count takes nothing, a count past the end takes all, otherwise the prefix of that length |
| Listing.Window | HackerNews/Controllers/StoriesController.cs:127-130 | the reference page: its length is max(0, min(pageSize, count - start)) and its i-th story is the list's story at start + i |
| Listing.PageWindow | HackerNews/Controllers/StoriesController.cs:127-130 | Skip(pageIndex*pageSize).Take(pageSize) is exactly the reference page starting at pageIndex*pageSize, and is never longer than pageSize |
| Listing.ValidStories | HackerNews/Controllers/StoriesController.cs:103-111 | the validity filter keeps exactly the stories whose title and URL are both not null, empty or whitespace, in their original order, and keeps an all-valid list unchanged |
| Listing.ValidAreTitled | HackerNews/Controllers/StoriesController.cs:143 | valid stories all have a title, so the title filter cannot meet a null title |
| Listing.IsPageIndexValid | HackerNews/Controllers/StoriesController.cs:113-117 | a page size of 0 faults; otherwise, for a non-negative count, the check accepts iff pageIndex * pageSize <= count (same as pageIndex <= count / pageSize) |
| Listing.ExactMultipleAcceptsEmptyPage | HackerNews/Controllers/StoriesController.cs:113-117 | when the count is a multiple of the page size, the page index count / pageSize is accepted and starts exactly at the end |
| Listing.FilterStories | HackerNews/Controllers/StoriesController.cs:135-145 | the filtered list keeps every story titled |
| Listing.FilterStoriesKeepsMatches | HackerNews/Controllers/StoriesController.cs:135-145 | a null or whitespace title leaves the list unchanged; otherwise a story is kept iff its title matches, ignoring case; filtering distributes over concatenation |
| Listing.FilterStoriesAllMatch | Controllers/StoriesController.cs:133-143 | with a blank search text, or when every title matches the search text, the list is unchanged |
| Listing.FilterStoriesSingleMatch | Controllers/StoriesController.cs:133-143 | when exactly one title matches a non-blank search text the result is that one story |
| Listing.FilterStoriesLength | Controllers/StoriesController.cs:133-143 | title filtering never lengthens the list |
| Listing.PrefixFilterNarrower | HackerNews/Controllers/StoriesController.cs:143 | every story the prefix filter keeps is also kept by the substring filter (Controllers/StoriesController.cs:141), so it keeps no more |
| Listing.TransformStoryData | HackerNews/Controllers/StoriesController.cs:119-133 | the result has no errors, its total is the count after title filtering, and its stories are the reference page of that list starting at pageIndex*pageSize, at most pageSize long |
| Listing.TransformKeepsMatching | Controllers/StoriesController.cs:119-131 | every story on the page comes from the input, and matches a non-blank title |
| Listing.JoinAssociates | HackerNews/Controllers/StoriesController.cs:79-88 | prepending gathered stories step by step equals prepending them all at once (the loop's accumulation) |
| Listing.ResolveCache | HackerNews/Controllers/StoriesController.cs:79-88 | the loop only adds cache entries: old entries keep their value, and each new key is an ID of the list holding exactly the story fetched for it, valid or not |
| Listing.ResolveSuccess | HackerNews/Controllers/StoriesController.cs:75-91 | when no fetch fails the loop returns exactly one story per ID, in list order, each the cache's entry for its ID |
| Listing.ResolveSuccessKeys | HackerNews/Controllers/StoriesController.cs:79-85 | when no fetch fails the cache keys become the old keys plus every ID of the list, and nothing else |
| Listing.ResolveFailure | Controllers/StoriesController.cs:75-82 | the loop fails iff some ID is neither cached nor fetchable |
| Listing.ResolveFailureAt | Controllers/StoriesController.cs:75-82 | a failed loop stops at an uncached ID whose fetch failed with the reported status, and every earlier ID is then cached |
| Listing.ResolveAllCached | HackerNews/Controllers/StoriesController.cs:81-87 | when every ID is cached the loop returns the cached stories in list order and leaves the cache unchanged |
| Listing.ResolveIdempotent | HackerNews/Controllers/StoriesController.cs:81-85 | running the loop again over the cache it left returns the same stories and cache, whatever the upstream now answers |
| Listing.ResolveIgnoresFetchOnHits | HackerNews/Controllers/StoriesController.cs:81 | the upstream's answers for cached IDs are never consulted |
| HackerNewsController.NegativeArgumentsRejected | HackerNews/Controllers/StoriesController.cs:38-42 | a negative page index or size gives a 400 whose one error is the negative-arguments message, with no stories, whatever the upstream; the cache is untouched |
| HackerNewsController.UpstreamFailureIsServerError | HackerNews/Controllers/StoriesController.cs:44-72 | an ID-list failure is an InternalServerError (500) with the cache unchanged; otherwise the response is an InternalServerError (the caught upstream failure) iff some uncached ID's fetch fails; a page size of 0 still gives a 500, but as the uncaught division fault, not this response |
| HackerNewsController.ValidFetched | HackerNews/Controllers/StoriesController.cs:53-55 | the stories reaching the page check are all valid (by index and by membership), hence all titled |
| HackerNewsController.PageIndexCheck | HackerNews/Controllers/StoriesController.cs:57-62 | page size 0 faults; otherwise the response is a 400 iff pageIndex*pageSize exceeds the valid count before title filtering, and Ok otherwise; the 400 carries a fresh envelope with only the missing-page error |
| HackerNewsController.OkResponse | HackerNews/Controllers/StoriesController.cs:64-66 | when pageSize > 0 and pageIndex*pageSize is at most the valid count, the response is Ok with no errors, a total equal to the count of valid stories whose title starts with the filter, and the page of that list from pageIndex*pageSize, at most pageSize long |
| HackerNewsController.OkStoriesValid | HackerNews/Controllers/StoriesController.cs:53-66 | under the same condition the response is Ok, and every story on the page has a non-blank title and URL and a title that starts with a non-blank filter, ignoring case |
| HackerNewsController.ExactMultipleGivesEmptyPage | HackerNews/Controllers/StoriesController.cs:57-66 | when the valid count is `pages * pageSize`, page index `pages` (the page just past the last one) is accepted and is empty |
| HackerNewsController.CacheAfterRequest | HackerNews/Controllers/StoriesController.cs:79-88 | after the ID list arrives, old entries keep their values and each new entry holds exactly the story fetched for it; without an item failure, every ID is cached, invalid stories included |
| HackerNewsController.RepeatedRequestHitsCache | HackerNews/Controllers/StoriesController.cs:81-85 | after a first request that did not end in an upstream failure, a second identical request over the cache it left gives the same response and cache without consulting the item upstream |
| HackerNewsController.StoriesController.BuildStoryDataFromIds | HackerNews/Controllers/StoriesController.cs:75-91 | the loop leaves the cache and returns the stories that the specification `Resolve` gives, or the status of the first failed fetch |
| HackerNewsController.StoriesController.GetNewestStories | HackerNews/Controllers/StoriesController.cs:33-73 | the response and the new cache are those of the specification `ListStories` for the old cache |
| RootController.Built | Controllers/StoriesController.cs:71-91 | the loop's envelope holds only valid stories, with no errors and a total of 0, or carries the status of a failed fetch |
| RootController.NegativeArgumentsRejected | Controllers/StoriesController.cs:38-42 | a negative page index or size gives a 400 with the one negative-arguments error and no stories, and nothing is fetched or cached |
| RootController.ItemFailureKeepsEarlierEntries | Controllers/StoriesController.cs:64-68 | an item fetch failing partway is a 500 with no page, and every earlier ID stays cached with the old entries unchanged |
| RootController.ValidFetched | Controllers/StoriesController.cs:84-87 | the stories the loop appends are all valid, hence all titled |
| RootController.PageIndexCheck | Controllers/StoriesController.cs:53-58 | page size 0 faults; otherwise a 400 iff pageIndex*pageSize exceeds the valid count; on rejection the stories are cleared, the one missing-page error is added, and the total stays 0 |
| RootController.OkResponse | Controllers/StoriesController.cs:60-62 | when pageSize > 0 and pageIndex*pageSize is at most the valid count, the response is Ok with no errors, a total equal to the count of valid stories whose title contains the filter, and the page of that list from pageIndex*pageSize, at most pageSize long |
| RootController.OkStoriesValid | Controllers/StoriesController.cs:60-62 | under the same condition the response is Ok, and every story on the page has a non-blank title and URL and a title that contains a non-blank filter, ignoring case |
| RootController.StoriesController.BuildStoryDataFromIds | Controllers/StoriesController.cs:71-91 | the loop leaves the cache that `Resolve` gives and returns `Built` of it: only valid stories appended, every fetched story cached |
| RootController.StoriesController.GetNewestStories | Controllers/StoriesController.cs:33-69 | the response and the new cache are those of the specification `ListStories` for the old cache |
| Revisions.SameOutcomeWithoutTitle | Controllers/StoriesController.cs:51-58 | without a title filter the two revisions give the same response and cache for every request (filtering inside or after the loop agrees) |
| Revisions.PrefixTotalAtMostSubstringTotal | HackerNews/Controllers/StoriesController.cs:143 | with a title filter the two revisions agree on status, errors and cache, and the later total never exceeds the earlier one |
| Scenarios.TestStoriesValid | HackerNews.Tests/Unit/StoriesControllerUnitTests.cs:194-307 | the five fixture stories are all valid |
| Scenarios.UncachedFetchesEveryId | HackerNews.Tests/Unit/StoriesControllerUnitTests.cs:194-307 | from an empty cache the loop returns the five stories in ID order and caches all five |
| Scenarios.CachedNeedsNoFetch | HackerNews.Tests/Unit/StoriesControllerUnitTests.cs:309-427 | from a cache holding all five, the loop returns them in order, whatever the upstream answers |
| Scenarios.FirstPageTransform | HackerNews.Tests/Unit/StoriesControllerUnitTests.cs:294-306 | page 0 of size 5 with no title filter is the whole list with a total of 5 |
| Scenarios.FirstPageUncached | HackerNews.Tests/Unit/StoriesControllerUnitTests.cs:194-307 | the uncached request answers Ok with the five stories in order and a total of 5, leaving them cached |
| Scenarios.FirstPageCached | HackerNews.Tests/Unit/StoriesControllerUnitTests.cs:309-427 | the cached request gives the same answer whatever the upstream says |
| Scenarios.MissingPageScenario | HackerNews.Tests/Unit/StoriesControllerUnitTests.cs:70-192 | pages (5,5), (11,1) and (1,10) over five stories are refused with only the missing-page error |
| Scenarios.TestTitlesMatch | HackerNews.Tests/Unit/StoriesControllerUnitTests.cs:429-433 | every fixture title matches "T", "Te", "Tes" and "Test", by prefix and by substring |
| Scenarios.TitleSearchKeepsAll | HackerNews.Tests/Unit/StoriesControllerUnitTests.cs:429-551 | those searches keep all five stories and report a total of 5 |
| Scenarios.TitleSearchScenario | HackerNews.Tests/Unit/StoriesControllerUnitTests.cs:429-551 | the title-search request on a warm cache answers Ok with all five stories |
| Scenarios.OnlyTest2Matches | Controllers/StoriesController.cs:133-143 | among the fixture titles, only "Test2" matches the search "Test2" (by prefix or by substring) |
| Scenarios.OnlySecondMatchesTest2 | Controllers/StoriesController.cs:133-143 | the same for all five fixture titles at once |
| Scenarios.NarrowTitleSearch | HackerNews/Controllers/StoriesController.cs:135-145 | searching "Test2" keeps exactly the one story of that title |
| StoryService.Utf8 | HackerNews/ClientApp/src/app/services/story.service.ts:43 | a character encodes to 1 to 4 bytes; exactly ASCII characters encode to one byte (themselves), others only to bytes of 0x80 and above |
| StoryService.EncodeSafe | HackerNews/ClientApp/src/app/services/story.service.ts:43 | an encoded name or value holds only unreserved characters, `+` and `%`, never `&` or `=` |
| StoryService.EncodeUnreserved | HackerNews/ClientApp/src/app/services/story.service.ts:32-40 | text made of unreserved characters (the parameter names) is encoded as itself |
| StoryService.EncodeNumber | HackerNews/ClientApp/src/app/services/story.service.ts:32-36 | the text of an integer is encoded as itself |
| StoryService.SplitOnNone | HackerNews/ClientApp/src/app/services/story.service.ts:43 | text without the separator splits into itself alone |
| StoryService.SplitOnFirst | HackerNews/ClientApp/src/app/services/story.service.ts:43 | splitting `a & rest`, with no separator in `a`, gives `a` followed by the pieces of `rest` |
| StoryService.FieldSafe | HackerNews/ClientApp/src/app/services/story.service.ts:43 | a serialized `name=value` field never contains the `&` separator |
| StoryService.SerializeFields | HackerNews/ClientApp/src/app/services/story.service.ts:43 | the serialized query splits at `&` into exactly one `name=value` field per pair, in append order |
| StoryService.EncodePairs | HackerNews/ClientApp/src/app/services/story.service.ts:43 | same number of pairs, each with name and value encoded |
| StoryService.ParseSerialize | HackerNews/ClientApp/src/app/services/story.service.ts:29-43 | reading the serialized query back gives every appended pair, in append order, name and value encoded |
| StoryService.EncodePairsConcat | HackerNews/ClientApp/src/app/services/story.service.ts:29-41 | encoding the pairs distributes over concatenation |
| StoryService.UrlSearchParams.constructor | HackerNews/ClientApp/src/app/services/story.service.ts:29 | a new builder holds no pairs |
| StoryService.UrlSearchParams.Append | HackerNews/ClientApp/src/app/services/story.service.ts:32 | appending adds one pair at the end and changes nothing else |
| StoryService.BuildApiUrl | HackerNews/ClientApp/src/app/services/story.service.ts:24-44 | the URL is the base URL, `?`, then the serialized pairs: `pageIndex` and `pageSize` when given (0 included), `title` when non-empty, in that order |
| StoryService.GetStories | HackerNews/ClientApp/src/app/services/story.service.ts:14-22 | requests the URL `BuildApiUrl` makes of the same three arguments |
| StoryService.EncodeIndexPair | HackerNews/ClientApp/src/app/services/story.service.ts:31-33 | the `pageIndex` pair, when present, is sent unchanged by encoding |
| StoryService.EncodeSizePair | HackerNews/ClientApp/src/app/services/story.service.ts:35-37 | the `pageSize` pair, when present, is sent unchanged by encoding |
| StoryService.EncodeTitlePair | HackerNews/ClientApp/src/app/services/story.service.ts:39-41 | the `title` pair is present iff the title is a non-empty string, and carries the encoded title |
| StoryService.ApiQueryParameters | HackerNews/ClientApp/src/app/services/story.service.ts:29-43 | the server reads exactly `pageIndex` and `pageSize` (decimal text) when given, including 0, then `title` (encoded) when non-empty, in that fixed order, and nothing else |
| StoryService.NoParametersBareQuestionMark | HackerNews/ClientApp/src/app/services/story.service.ts:43 | with nothing to send the URL is the base URL followed by a bare `?` |
| KittenService.Dimension | HackerNews/ClientApp/src/app/services/kitten.service.ts:24-26 | the chosen dimension is the given one iff it is given and at least the default (a truthy value), else the default; it is never below the default |
| KittenService.ParseKittenUrlRoundTrip | HackerNews/ClientApp/src/app/services/kitten.service.ts:21-29 | the image URL reads back as exactly the two chosen dimensions |
| KittenService.BuildKittenUrl | HackerNews/ClientApp/src/app/services/kitten.service.ts:21-29 | the URL is the base URL, `/`, the chosen width, `/`, the chosen height, and it reads back as those two dimensions |
| KittenService.DefaultKittenUrl | HackerNews/ClientApp/src/app/services/kitten.service.ts:9-11 | with no arguments, or with zeros, the URL is `https://placekitten.com/600/500` |

## Left out

- **HTTP and JSON.** `HttpClient.GetAsync`, `EnsureSuccessStatusCode` and `JsonSerializer` are not modelled. The upstream is a pair of parameters, and a non-success status is `Failure(status)`. Transport exceptions, malformed JSON and a JSON `null` story are not modelled.
- **The ID-list call.** The ID-list `GetAsync` sits outside the `try` in both controllers. Only its status check, inside the `try`, is modelled.
- **The 500 body.** It is `ex.ToString()` in the source. The model keeps only the upstream status.
- **Cache expiry and sizing.** The ten-minute absolute expiry and the entry size are left out, because they depend on the clock and on `MemoryCache` internals. The cache never forgets an entry.
- **Concurrency.** `async`/`await` and the static shared `client`, `cache` and `cacheOptions` are left out. One request is modelled at a time, so cross-request interleavings are not captured.
- **Linguistic comparison.** `StringComparison.InvariantCultureIgnoreCase` is a linguistic (ICU collation) comparison. The model uses an ordinal comparison under an ASCII case fold (`Fold`, `StartsWithIgnoreCase`, `ContainsIgnoreCase`). Non-ASCII case folding, ignorable characters (such as U+0000, the soft hyphen and the zero-width characters) and the treatment of `\r\n` as one unit are not captured, so the model can disagree with the source even on ASCII titles.
- **`int` overflow.** C# `int` overflow of `pageIndex * pageSize` is not modelled. The arguments are unbounded integers.
- **`StoryData` is a value.** It is a datatype, not an object. It is always a fresh local in the controllers, so no aliasing is lost.
- **Unused parameters.** The earlier revision's `BuildStoryDataFromIds` takes `pageIndex`, `pageSize` and `title` and never uses them. The model omits them.
- **Client network calls.** `getKitten` and the HTTP calls of `getStories` are left out. The model stops at the URL each would request.
- **JavaScript number text.** `NaN`, non-integer and exponent-form numbers are left out. Integers are turned into text by their decimal text.
- **`title.toString()`.** It is modelled as the title itself, since the title is a string.
- **`URLSearchParams` on lone surrogates.** The serializer's replacement of lone surrogates is not modelled. A Dafny `char` is a Unicode scalar value, so lone surrogates cannot occur.
- **Client UI and wiring.** The components, modules, `Program.cs` and the dev proxy are not part of this model.
