# Reddit retrieval core, modelled in Dafny

The application finds Reddit threads for a query and loads one thread with its comments,
so that a writer can draft a post from it. This project models that retrieval path:

- the server search route (`GET /api/reddit/search`). Its `searchReddit` asks three Reddit
  hosts by three search paths, nine requests in all. Failing those, it samples the hot
  listings of five popular subreddits for posts that mention the query. `runSearch` then
  filters the results against the query's tokens. `GET` validates the query parameters and
  walks its sort-then-window ladder;
- the server thread route (`GET /api/reddit/post`). Its `fetchPostWithComments` asks each
  host in turn for the permalink's JSON;
- the browser-side client library. It sends every request through a CORS proxy and
  searches the `www` host only. It fills in a missing score or creation time, and keeps at
  most twenty visible comments of a thread;
- the page's pure helpers. These are the validators for stored settings, the loading and
  saving of preferences, `formatRelativeTime`, the text assembled when a post is picked,
  and the search request the page sends.

Each network call is an oracle `Fetcher = string -> Response`. It maps the full URL
requested to an outcome: a thrown error, a status that is not `ok`, or a parsed body. Every
retrieval loop has the same shape: try each candidate in order and stop at the first
success. The `Fallback` module defines that shape once, with `FirstHit`, `FirstValue` and
`Consulted`.

Each retrieval loop of the source is a `method` with a `for` loop, proved equal to a
specification function built from `FirstValue`. A ghost `tried` out-parameter records the
requests made. Each of these methods also proves that `tried` is exactly the candidates up
to and including the first success, so no later request is ever made. The time-window
ladder of the search route's `GET` is also a loop. It is proved equal to the recursive
function `LadderFrom` instead, and keeps no request log.

`encodeURIComponent` is modelled in the `Uri` module for strings of Unicode scalar values:
UTF-8 percent-encoding with the unreserved set. A lone surrogate, on which JavaScript
throws, cannot occur in a Dafny string. A decoder comes with it and is proved to invert the encoder. Query
strings are read back by a small parser, so each URL the code builds is shown to carry the
parameters it is meant to carry.

Modules, one file each:

- `Util`: Option and Result, Take, Filter and subsequences;
- `Text`: lower-casing, whitespace splitting, trim, substring search, and the decimal
  rendering of naturals;
- `Uri`: encoding and decoding, and query strings;
- `Listing`: Reddit's listing JSON and the post and comment records;
- `Fallback`: the first-success combinator;
- `RedditApi`: sorts, windows, search paths, and the acceptance test of one request;
- `SearchRoute`, `PostRoute`, `ProxyClient` and `Page`: one per core source file.

## Model

| member | source | states |
|---|---|---|
| Fallback.FirstHit | src/app/api/reddit/search/route.ts:74-103 | The index returned is the first candidate whose probe succeeds: every earlier one fails, and `None` exactly when all fail |
| Fallback.FirstValueAppend | src/app/api/reddit/search/route.ts:74-159 | Trying one list and then another yields the first list's value, or, only when that list yields nothing, the second's |
| Fallback.ConsultedAppend | src/app/api/reddit/search/route.ts:74-159 | The second list is consulted only when every candidate of the first fails |
| Listing.ToPost | src/app/api/reddit/search/route.ts:82-95 | A post carries exactly the eight fields of the listing child's data |
| Listing.ToPosts | src/app/api/reddit/search/route.ts:82-95 | One post per child, in order |
| Listing.ToComments | src/app/api/reddit/post/route.ts:103-109 | One comment per comment child, in order, with no filtering |
| Uri.EncodeUriComponent | src/app/api/reddit/search/route.ts:61 | The encoded text holds only unreserved characters and `%`, so a query can never inject `&`, `=` or `?` |
| Uri.DecodeEncode | src/lib/reddit.ts:56 | Decoding undoes `encodeURIComponent` for every string, so the proxy and Reddit receive the text intact |
| Uri.EncodeInjective | src/lib/reddit.ts:56 | Distinct targets give distinct proxied URLs |
| Uri.UnreservedUnchanged | src/app/page.tsx:117-123 | Text made only of unreserved characters is left unchanged by encoding and by decoding |
| Uri.ParamsOfRendered | src/app/api/reddit/search/route.ts:174 | A URL `prefix?k1=v1&...` reads back as exactly its list of parameters |
| RedditApi.ParseSortExactly | src/app/api/reddit/search/route.ts:168 | A sort name parses to a sort exactly when it is that sort's name |
| RedditApi.ParseWindowExactly | src/app/api/reddit/search/route.ts:169 | A window name parses to a window exactly when it is that window's name |
| RedditApi.SearchPaths | src/app/api/reddit/search/route.ts:60-72 | Defined as the three paths `/search.json`, `/r/all/search.json`, then `/search.json` with `raw_json=1`; its contract gives the count, and `RedditApi.SearchPathParams` and `SearchRoute.SearchRequestParams` pin what each path carries |
| RedditApi.SearchPathParams | src/app/api/reddit/search/route.ts:60-72 | Each search path reads back as: `q` decoding to the query, `sort`, `limit` as decimal, `raw_json` only on the third path, and `t` exactly when the sort is `top` |
| RedditApi.Accepted | src/app/api/reddit/search/route.ts:76-157 | A search request is accepted exactly when it gets an `ok` response with children, and it yields all of them. A subreddit request yields exactly the first `limit` children that mention the query, in order |
| RedditApi.SampleAccepted | src/app/api/reddit/search/route.ts:105-159 | A subreddit listing answers exactly when it is `ok`, `limit > 0` and some child's lower-cased title or body contains the lower-cased query |
| RedditApi.SampleMissed | src/app/api/reddit/search/route.ts:124-157 | An empty listing, or one with no mentioning post, moves on to the next request |
| SearchRoute.SearchAttempts | src/app/api/reddit/search/route.ts:74-75 | Nine search requests; their order is pinned by `SearchRoute.SearchAttemptOrder` |
| SearchRoute.SearchAttemptOrder | src/app/api/reddit/search/route.ts:74-75 | Request `3h + p` is path `p` on host `h`: each host in turn, and within a host the three paths in order |
| SearchRoute.SampleAttempts | src/app/api/reddit/search/route.ts:105-118 | Fifteen subreddit requests; their order is pinned by `SearchRoute.SampleAttemptOrder` |
| SearchRoute.SampleAttemptOrder | src/app/api/reddit/search/route.ts:105-118 | Request `3s + h` is the hot listing of subreddit `s` on host `h`: each subreddit in turn, and within a subreddit each host in turn |
| SearchRoute.TrySearchPaths | src/app/api/reddit/search/route.ts:74-103 | The host-by-path loop returns the posts of the first request accepted, and makes exactly the requests up to it |
| SearchRoute.TrySubreddits | src/app/api/reddit/search/route.ts:105-159 | The subreddit loop returns the posts of the first listing with a mentioning post, and makes exactly the requests up to it |
| SearchRoute.SearchReddit | src/app/api/reddit/search/route.ts:53-164 | `searchReddit` resolves to the first accepted attempt's posts, or else fails with the fixed message. The requests made are exactly the attempts up to the first accepted one |
| SearchRoute.SearchOutcome | src/app/api/reddit/search/route.ts:53-164 | `searchReddit` never resolves to an empty list, and its only failure is the all-endpoints message |
| SearchRoute.FirstSearchListingWins | src/app/api/reddit/search/route.ts:74-103 | The first search request with an `ok`, non-empty listing decides the result, and the fallback is never reached |
| SearchRoute.FallbackResult | src/app/api/reddit/search/route.ts:105-159 | The fallback answers only after all nine search requests failed. Its posts are those of the first `limit` mentioning children of one subreddit listing, so at most `limit`, each mentioning the query |
| SearchRoute.SearchRequestParams | src/app/api/reddit/search/route.ts:60-75 | Every one of the nine request URLs carries the query intact, the sort, the limit, and the window only for `top` |
| SearchRoute.TokensAreLongWords | src/app/api/reddit/search/route.ts:206-210 | `Tokens` is exactly the whitespace-separated words of the lower-cased query longer than two UTF-16 code units. The trim changes nothing |
| SearchRoute.AstralPairIsToken | src/app/api/reddit/search/route.ts:210 | Length is counted in UTF-16 code units, as JavaScript does: a word of two emoji is a token |
| SearchRoute.RelevanceFilter | src/app/api/reddit/search/route.ts:211-227 | The filter only drops posts and keeps their order. It never empties a non-empty list, and with no tokens it returns the list unchanged |
| SearchRoute.RelevanceFilterSelects | src/app/api/reddit/search/route.ts:213-227 | If some post matches every token, exactly those posts survive. Otherwise, if some post matches a token, exactly those. Otherwise all |
| Util.FilterCount | src/app/api/reddit/search/route.ts:220-226 | `list.filter` keeps every copy of an element the predicate accepts and no copy of one it rejects |
| SearchRoute.RelevanceFilterKeepsCopies | src/app/api/reddit/search/route.ts:220-227 | A post either leaves the result entirely or keeps as many copies as it had in the list |
| SearchRoute.ValidateExactly | src/app/api/reddit/search/route.ts:166-193 | `Validate` passes a request exactly when: `q` is present and non-empty; `sort` and `t` are each missing, empty or a known name; and `titleOnly` is missing, `true` or `false`. So `q=`, an unknown `t` and an empty or other `titleOnly` all get 400. A passing request keeps its query, and is title-only unless `titleOnly=false` |
| SearchRoute.ValidateAccepts | src/app/api/reddit/search/route.ts:175-193 | A non-empty query with a known sort and window is accepted as given. Missing `sort`, `t` and `titleOnly` mean `relevance`, `day` and `true`. A missing `q` is rejected |
| SearchRoute.ValidateRejectsUnknownSort | src/app/api/reddit/search/route.ts:176-193 | A non-empty sort outside the enum is rejected whatever the other parameters |
| SearchRoute.RunSearch | src/app/api/reddit/search/route.ts:201-228 | `runSearch` searches for the trimmed query, prefixed with `title:` under title-only, with limit 50. It then filters by the tokens of the untrimmed query |
| SearchRoute.RunSearchOutcome | src/app/api/reddit/search/route.ts:201-228 | `runSearch` either throws the fixed failure or resolves to a non-empty list |
| SearchRoute.SearchGet | src/app/api/reddit/search/route.ts:173-251 | `GET` replies 400 for an invalid query. Otherwise it walks the ladder: relevance then top for the requested window, then both for each relaxed window. The last list wins, and a thrown error becomes 500 |
| SearchRoute.FirstSearchDecides | src/app/api/reddit/search/route.ts:230-244 | The ladder never gets past its first step: the reply is what relevance with the requested window gives |
| SearchRoute.SearchGetOutcome | src/app/api/reddit/search/route.ts:173-251 | Every reply is a non-empty list of posts, a 400 `Invalid query`, or a 500 with the all-endpoints message |
| SearchRoute.SortAndWindowIgnored | src/app/api/reddit/search/route.ts:195-244 | Two valid requests with the same query and title-only flag get the same reply, whatever their sort and window |
| SearchRoute.TitleOnlyFallbackNeedsPrefix | src/app/api/reddit/search/route.ts:199 | Under title-only the subreddit fallback looks for `title:` plus the query, so it keeps only posts whose text contains `title:` |
| PostRoute.ThreadUrl | src/app/api/reddit/post/route.ts:76 | The thread URL is the host, then the permalink, then `.json?limit=100` |
| PostRoute.Answer | src/app/api/reddit/post/route.ts:78-117 | A host answers exactly when its response is `ok` and its body holds a post |
| PostRoute.FetchPostWithComments | src/app/api/reddit/post/route.ts:71-123 | The loop returns the first host's thread, or else fails with the all-hosts message. It asks exactly the hosts up to the one that answers |
| PostRoute.FetchFailsOnlyWhenEveryHostFails | src/app/api/reddit/post/route.ts:71-123 | The call fails exactly when no host's `ok` response holds a post, and always with the one message |
| PostRoute.FirstThreadWins | src/app/api/reddit/post/route.ts:86-112 | The first answering host's post is returned with its eight fields, and every comment child is mapped in order |
| PostRoute.PostGet | src/app/api/reddit/post/route.ts:129-145 | `GET` replies 400 for a missing or empty permalink, otherwise the thread, or 500 with the error |
| PostRoute.PostGetOutcome | src/app/api/reddit/post/route.ts:125-145 | 400 exactly for a missing or empty permalink; every other reply is a thread or the 500 all-hosts error |
| ProxyClient.ProxyUrlRoundTrip | src/lib/reddit.ts:53-63 | `ProxyUrl` starts with the proxy, and its query decodes back to the target URL |
| ProxyClient.Normalized | src/lib/reddit.ts:94-110 | One client post per child, in order |
| ProxyClient.NormalizeDefaults | src/lib/reddit.ts:96-108 | `Normalize` gives the eight fields of the data, and the score and creation time given, or 0 when absent |
| ProxyClient.SearchAttempts | src/lib/reddit.ts:73-85 | Three search requests, defined as the three paths in order on the `www` host; `ProxyClient.OnlyWwwThroughProxy` proves the host |
| ProxyClient.SampleAttempts | src/lib/reddit.ts:120-129 | Five subreddit requests, defined as the subreddits in order on the `www` host; `ProxyClient.OnlyWwwThroughProxy` proves the host |
| ProxyClient.TrySearchUrls | src/lib/reddit.ts:87-117 | The search loop returns the normalised posts of the first proxied request with children, and makes exactly the requests up to it |
| ProxyClient.TrySubreddits | src/lib/reddit.ts:127-172 | The subreddit loop returns the first listing with a mentioning post, at most `limit` posts, and makes exactly the requests up to it |
| ProxyClient.SearchReddit | src/lib/reddit.ts:65-184 | The client search resolves to the first accepted request's posts, or else fails with the wrapped all-endpoints message |
| ProxyClient.SearchOutcome | src/lib/reddit.ts:65-184 | The client search never resolves to an empty list. Its only failure is `Failed to search Reddit: ` followed by the all-endpoints message |
| ProxyClient.OnlyWwwThroughProxy | src/lib/reddit.ts:73-129 | Each of the eight targets is on the `www` host and reaches the proxy intact |
| ProxyClient.VisibleCommentsSelected | src/lib/reddit.ts:218-232 | `VisibleComments` keeps exactly the first twenty visible children, mapped in order: kind `t1`, neither deleted nor removed. When at most twenty are visible, all of them are kept |
| ProxyClient.FetchThreadOutcome | src/lib/reddit.ts:186-242 | `FetchThread` returns the thread exactly when the one proxied request is `ok` and holds a post, and then it is the normalized post with the kept comments. Every error carries the prefix: a thrown message as it is, a failing status as `Failed to fetch post (status N)`, a missing post as `Post not found`, and the last two never coincide |
| ProxyClient.StatusMessagesDistinct | src/lib/reddit.ts:193-195 | Different statuses give different error messages |
| ProxyClient.DeletedCommentOnlyOnServer | src/lib/reddit.ts:218-224 | For the same body the server route returns a deleted comment and the client drops it |
| Page.IsGpt5ModelExactly | src/app/page.tsx:69-75 | The validator holds exactly for the three model names |
| Page.IsReasoningEffortExactly | src/app/page.tsx:77-86 | The validator holds exactly for the four effort names |
| Page.IsVerbosityExactly | src/app/page.tsx:88-90 | The validator holds exactly for the level names other than `minimal` |
| Page.ParseLevel | src/app/page.tsx:77-90 | A level name parses back to its level; a verbosity is a level other than `minimal` |
| Page.ParseGpt5Model | src/app/page.tsx:69-75 | A model name parses back to its model exactly when the validator holds |
| Page.LoadSaved | src/app/page.tsx:243-313 | `LoadPreferences` applied to what the write effects stored restores every setting, except that an empty key or provider leaves the current value |
| Page.LoadIdempotent | src/app/page.tsx:254-261 | Loading twice from the same storage changes nothing more |
| Page.LoadValidatesAllButProvider | src/app/page.tsx:254-261 | `LoadPreferences` ignores a stored model, effort or verbosity that fails its validator. It takes a non-empty provider unchecked. Each stored flag, emoji and hashtag, is on exactly when it reads `true` |
| Page.ElapsedSeconds | src/app/page.tsx:94-96 | The elapsed seconds are 1 when less than two seconds have passed (or the time is in the future), and otherwise the floor of the elapsed milliseconds over 1000 |
| Page.LabelAmount | src/app/page.tsx:92-111 | Once a second has passed, the number in the label is the elapsed milliseconds divided by the length of the unit shown, rounded down |
| Page.SecondsLabel | src/app/page.tsx:104 | Within the first minute the label is the whole seconds elapsed followed by `s ago` |
| Page.FormatRelativeTime | src/app/page.tsx:92-111 | The text is empty exactly when the creation time is 0 |
| Page.AgeUnitAndAmount | src/app/page.tsx:97-110 | `Age` picks the first unit whose range holds the elapsed time: months below 360 days, years from there on. The amount is the floor of the elapsed time in that unit |
| Page.FutureIsOneSecond | src/app/page.tsx:96 | A creation time in the future, or less than two seconds back, reads `1s ago` |
| Page.ZeroYearsAsWritten | src/app/page.tsx:109-110 | As written, elapsed times from 360 up to 365 days show 0 years |
| Page.ZeroYearsExample | src/app/page.tsx:92-111 | A post created 360 days ago reads `0y ago` |
| Page.AgeCorrectedPositive | src/app/page.tsx:97-110 | With months shown until a full year, the amount is always at least 1 and still the floor. Only the 360-to-365-day range changes, to 12 months |
| Page.FormatRelativeTimeCorrected | src/app/page.tsx:92-111 | The corrected text is empty exactly when the creation time is 0 |
| Page.CommentLines | src/app/page.tsx:154-156 | One `- author: body` line for each of the first ten comments, in order |
| Page.SelectedTextLines | src/app/page.tsx:151-157 | Provided the title, the body and every comment author and body contain no line break, `SelectedText` read line by line is: the title, a blank line, the body, a blank line, `Top comments:`, then one line per quoted comment (a single empty line when there are none) |
| Page.PostRequestParams | src/app/page.tsx:140-142 | The thread request carries exactly one query parameter, `permalink`, holding the encoded permalink |
| Page.PostRequestRoundTrip | src/app/page.tsx:140-142 | The thread route reads back exactly the permalink the page sent |
| Page.PickPost | src/app/page.tsx:148-157 | The page gets text exactly when the route found the thread; otherwise it gets the route's error message |
| Page.PickPostOutcome | src/app/page.tsx:133-164 | End to end: an empty permalink makes `pickPost` fail with `Invalid permalink`. Otherwise it yields the found thread's text, or fails with the all-hosts message |
| Page.SearchUrlReadBack | src/app/page.tsx:117-123 | The route reads the URL the page builds (`SearchUrl`, for any sort name) as: the query intact, the sort sent, the chosen window, `titleOnly=true`, and `order` only when chosen |
| Page.PageSearchIsRejected | src/app/page.tsx:117-123 | As written, every search the page sends gets 400 `Invalid query`, because `trending` is not a sort the route accepts |
| Page.CorrectedSearchIsAccepted | src/app/page.tsx:117-123 | With `hot` as the sort, a non-empty query is accepted as sent: title-only, with the chosen window and the query intact |

## Left out

- Network I/O, JSON parsing, request headers, the User-Agent and all logging are outside the model. A fetch is an oracle from URL to outcome. A body that fails to parse counts as a thrown error, because the source parses inside the same `try`.
- A thrown value that is not an `Error`, which the source reports as `Unknown error` or `Failed`, is not modelled. Every failure is a message string.
- Listing children are assumed well formed: a `data` object with string fields. Optional chaining is modelled only where the source relies on it: `data.children ?? []`, and the post and comments of a thread body.
- `toLowerCase` is modelled on ASCII letters only, without Unicode case mapping. `\s` and `trim` use the ECMAScript whitespace set.
- Strings are sequences of Unicode scalar values. `.length` is modelled as JavaScript counts it, in UTF-16 code units (`Text.Utf16Length`), for the token filter and both `min(1)` checks. A lone surrogate cannot occur in the model.
- `URLSearchParams` parsing is simplified. `+` is not read as a space. A value that is not valid percent-encoding is taken raw rather than repaired. Duplicate keys yield the first value.
- The client's `searchReddit` defaults (limit 15, sort `top`, window `day`) are not modelled: ProxyClient.SearchReddit takes all three as arguments, and no modelled code calls it.
- `limit` is a natural number. Post timestamps and the clock are integers, and the clock reading is a parameter in place of `Date.now()`.
- SearchRoute.SearchReddit: the nested loops become two helper methods, one per loop of the source, called in sequence.
- The React state, rendering, `localStorage` access and its `try`/`catch`, and the `useEffect` ordering are not modelled. Preferences are a value and storage is a map.
- The page's initial settings, `json.posts ?? []` and the display of search results are not modelled. Page.PickPost returns the error that `pickPost` throws; the page only logs it. PageSearchIsRejected shows the route's reply to the page's request.
- `selftext ?? ""` in `pickPost` has no effect in the model, because the route always returns a string `selftext`.
- The `order` parameter the page sends is not modelled beyond its presence in the URL, because the route never reads it.
- `tryRedditEndpoint` is a fetch of the host followed by the path; only its headers are dropped. The thread route's copy is never called, so it is not modelled.
- The language-model, image and post-generation routes, the provider SDK wrappers and the environment configuration are not part of this model.

## Findings

| source | as written | input that shows it | evidently intended | confidence | as-written member | corrected member |
|---|---|---|---|---|---|---|
| src/app/page.tsx:101-110 | Months are shown while fewer than twelve 30-day months have passed, then years of 365 days. From 360 to 364 days the amount shown is 0. | A post created 360 days before now renders `0y ago` | Show months until a full year has passed, so that the amount is never 0 | high; not executed | Page.ZeroYearsExample | Page.AgeCorrectedPositive |
| src/app/page.tsx:117-123 | The page always sends `sort=trending`, which is not in the route's sort enum, so every search is refused with 400 | Any query, e.g. `q=rust&sort=trending&t=day&titleOnly=true` | Send a sort the route accepts, such as `hot` | medium; not executed | Page.PageSearchIsRejected | Page.CorrectedSearchIsAccepted |
