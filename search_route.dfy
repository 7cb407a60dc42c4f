/**
 * The server search route: `searchReddit` with its host-by-path attempts and the
 * popular-subreddit fallback, the token relevance filter of `runSearch`, and `GET` with
 * its validation and its sort-then-window ladder.
 */
module SearchRoute {
  import opened Util
  import opened Text
  import opened Uri
  import opened Listing
  import opened Fallback
  import opened RedditApi

  const Endpoints: seq<string> := ["https://www.reddit.com", "https://old.reddit.com", "https://reddit.com"]

  const PopularSubreddits: seq<string> := ["programming", "technology", "science", "news", "worldnews"]

  const AllFailedMessage: string := "All Reddit endpoints failed. The service may be temporarily unavailable."

  /** The nine search requests: every host, and within a host the three paths in order. */
  function SearchAttempts(query: string, sort: Sort, limit: nat, t: Window): (attempts: seq<Attempt>)
    ensures |attempts| == 9
  {
    var paths := SearchPaths(query, sort, limit, t);
    seq(9, k requires 0 <= k < 9 => Search(Endpoints[k / 3] + paths[k % 3]))
  }

  /** The fifteen fallback requests: every subreddit, and within a subreddit the three hosts. */
  function SampleAttempts(limit: nat): (attempts: seq<Attempt>)
    ensures |attempts| == 15
  {
    seq(15, k requires 0 <= k < 15 => Sample(Endpoints[k % 3] + HotPath(PopularSubreddits[k / 3], limit)))
  }

  /** The search requests follow the nested loops: host `h` outside, path `p` inside. */
  lemma SearchAttemptOrder(query: string, sort: Sort, limit: nat, t: Window, h: nat, p: nat)
    requires h < 3 && p < 3
    ensures SearchAttempts(query, sort, limit, t)[3 * h + p] ==
      Search(Endpoints[h] + SearchPaths(query, sort, limit, t)[p])
  {
    var k := 3 * h + p;
    assert k / 3 == h && k % 3 == p;
  }

  /** The fallback requests follow the nested loops: subreddit `s` outside, host `h` inside. */
  lemma SampleAttemptOrder(limit: nat, s: nat, h: nat)
    requires s < 5 && h < 3
    ensures SampleAttempts(limit)[3 * s + h] == Sample(Endpoints[h] + HotPath(PopularSubreddits[s], limit))
  {
    var k := 3 * s + h;
    assert k / 3 == s && k % 3 == h;
  }

  /** Every request `searchReddit` may make, in the order it makes them. */
  function Attempts(query: string, sort: Sort, limit: nat, t: Window): seq<Attempt> {
    SearchAttempts(query, sort, limit, t) + SampleAttempts(limit)
  }

  function Probe(fetch: Fetcher, query: string, limit: nat): Attempt -> Option<seq<PostChild>> {
    a => Accepted(fetch, query, limit, a)
  }

  /** What `searchReddit` resolves to: the posts of the first accepted attempt, or the failure. */
  function SearchSpec(fetch: Fetcher, query: string, limit: nat, sort: Sort, t: Window): Result<seq<Post>> {
    match FirstValue(Attempts(query, sort, limit, t), Probe(fetch, query, limit))
    case Some(children) => Ok(ToPosts(children))
    case None => Err(AllFailedMessage)
  }

  /** Maps the children of an accepted attempt to posts. */
  function PostsOf(found: Option<seq<PostChild>>): Option<seq<Post>> {
    match found
    case Some(children) => Some(ToPosts(children))
    case None => None
  }

  /** One search request: the posts of an `ok` listing with children, or nothing. */
  method SearchOnce(fetch: Fetcher, query: string, limit: nat, url: string) returns (found: Option<seq<Post>>)
    ensures found == PostsOf(Accepted(fetch, query, limit, Search(url)))
  {
    var response := fetch(url);
    if response.Received? {
      var children := ListingChildren(response.body);
      if |children| > 0 {
        return Some(ToPosts(children));
      }
    }
    found := None;
  }

  /** One subreddit request: the first `limit` posts of an `ok` listing that mention the query. */
  method SampleOnce(fetch: Fetcher, query: string, limit: nat, url: string) returns (found: Option<seq<Post>>)
    ensures found == PostsOf(Accepted(fetch, query, limit, Sample(url)))
  {
    var response := fetch(url);
    if response.Received? {
      var children := ListingChildren(response.body);
      if |children| > 0 {
        var filtered := Take(Mentioning(query, children), limit);
        if |filtered| > 0 {
          return Some(ToPosts(filtered));
        }
      }
    }
    found := None;
  }

  /**
   * The host-by-path loop of `searchReddit`: the posts of the first search request that
   * gets children. `tried` records the requests made.
   */
  method TrySearchPaths(fetch: Fetcher, query: string, limit: nat, sort: Sort, t: Window)
    returns (found: Option<seq<Post>>, ghost tried: seq<Attempt>)
    ensures found == PostsOf(FirstValue(SearchAttempts(query, sort, limit, t), Probe(fetch, query, limit)))
    ensures tried == Consulted(SearchAttempts(query, sort, limit, t), Probe(fetch, query, limit))
  {
    ghost var attempts := SearchAttempts(query, sort, limit, t);
    ghost var probe := Probe(fetch, query, limit);
    var paths := SearchPaths(query, sort, limit, t);
    tried := [];
    for h := 0 to 3
      invariant tried == attempts[..3 * h]
      invariant forall x :: x in tried ==> probe(x).None?
    {
      for p := 0 to 3
        invariant tried == attempts[..3 * h + p]
        invariant forall x :: x in tried ==> probe(x).None?
      {
        var url := Endpoints[h] + paths[p];
        assert attempts[3 * h + p] == Search(url) by {
          assert (3 * h + p) / 3 == h && (3 * h + p) % 3 == p;
        }
        tried := tried + [Search(url)];
        assert tried == attempts[..3 * h + p + 1];
        found := SearchOnce(fetch, query, limit, url);
        if found.Some? {
          HitAfterMisses(attempts, probe, 3 * h + p);
          return found, tried;
        }
      }
    }
    assert tried == attempts;
    NoHit(attempts, probe);
    found := None;
  }

  /**
   * The subreddit loop of `searchReddit`: for each subreddit in turn, each host in turn,
   * the first listing with a post that mentions the query.
   */
  method TrySubreddits(fetch: Fetcher, query: string, limit: nat)
    returns (found: Option<seq<Post>>, ghost tried: seq<Attempt>)
    ensures found == PostsOf(FirstValue(SampleAttempts(limit), Probe(fetch, query, limit)))
    ensures tried == Consulted(SampleAttempts(limit), Probe(fetch, query, limit))
  {
    ghost var attempts := SampleAttempts(limit);
    ghost var probe := Probe(fetch, query, limit);
    tried := [];
    for s := 0 to 5
      invariant tried == attempts[..3 * s]
      invariant forall x :: x in tried ==> probe(x).None?
    {
      for h := 0 to 3
        invariant tried == attempts[..3 * s + h]
        invariant forall x :: x in tried ==> probe(x).None?
      {
        var url := Endpoints[h] + HotPath(PopularSubreddits[s], limit);
        assert attempts[3 * s + h] == Sample(url) by {
          assert (3 * s + h) / 3 == s && (3 * s + h) % 3 == h;
        }
        tried := tried + [Sample(url)];
        assert tried == attempts[..3 * s + h + 1];
        found := SampleOnce(fetch, query, limit, url);
        if found.Some? {
          HitAfterMisses(attempts, probe, 3 * s + h);
          return found, tried;
        }
      }
    }
    assert tried == attempts;
    NoHit(attempts, probe);
    found := None;
  }

  /**
   * `searchReddit`: the search requests, then the subreddit fallback, then the failure.
   * `tried` records the requests made: exactly the attempts up to and including the first
   * accepted one, or all of them when none is accepted.
   */
  method SearchReddit(fetch: Fetcher, query: string, limit: nat, sort: Sort, t: Window)
    returns (r: Result<seq<Post>>, ghost tried: seq<Attempt>)
    ensures r == SearchSpec(fetch, query, limit, sort, t)
    ensures tried == Consulted(Attempts(query, sort, limit, t), Probe(fetch, query, limit))
  {
    ghost var probe := Probe(fetch, query, limit);
    FirstValueAppend(SearchAttempts(query, sort, limit, t), SampleAttempts(limit), probe);
    ConsultedAppend(SearchAttempts(query, sort, limit, t), SampleAttempts(limit), probe);
    var found;
    found, tried := TrySearchPaths(fetch, query, limit, sort, t);
    if found.Some? {
      return Ok(found.value), tried;
    }
    ghost var more;
    found, more := TrySubreddits(fetch, query, limit);
    tried := tried + more;
    if found.Some? {
      return Ok(found.value), tried;
    }
    r := Err(AllFailedMessage);
  }

  /** `searchReddit` never resolves to an empty list, and its only failure is the fixed message. */
  lemma SearchOutcome(fetch: Fetcher, query: string, limit: nat, sort: Sort, t: Window)
    ensures var r := SearchSpec(fetch, query, limit, sort, t);
      (r.Ok? && |r.value| > 0) || r == Err(AllFailedMessage)
  {
  }

  /**
   * When some search request gets an `ok` response with children, the first such response
   * decides the result: its children, mapped in order; the fallback is never consulted.
   */
  lemma FirstSearchListingWins(fetch: Fetcher, query: string, limit: nat, sort: Sort, t: Window, k: nat)
    requires k < 9
    requires var url := SearchAttempts(query, sort, limit, t)[k].url;
      fetch(url).Received? && |ListingChildren(fetch(url).body)| > 0
    requires forall j :: 0 <= j < k ==>
      var url := SearchAttempts(query, sort, limit, t)[j].url;
      !(fetch(url).Received? && |ListingChildren(fetch(url).body)| > 0)
    ensures SearchSpec(fetch, query, limit, sort, t) ==
      Ok(ToPosts(ListingChildren(fetch(SearchAttempts(query, sort, limit, t)[k].url).body)))
  {
    var attempts := Attempts(query, sort, limit, t);
    var probe := Probe(fetch, query, limit);
    assert attempts[k] == SearchAttempts(query, sort, limit, t)[k];
    forall j | 0 <= j < k ensures probe(attempts[j]).None? {
      assert attempts[j] == SearchAttempts(query, sort, limit, t)[j];
    }
    FirstHitUnique(attempts, probe, k);
  }

  /**
   * The subreddit fallback answers only when all nine search requests failed, and then
   * with at most `limit` posts, each mentioning the whole query in its title or body.
   */
  lemma FallbackResult(fetch: Fetcher, query: string, limit: nat, sort: Sort, t: Window)
    requires SearchSpec(fetch, query, limit, sort, t).Ok?
    requires FirstHit(Attempts(query, sort, limit, t), Probe(fetch, query, limit)).value >= 9
    ensures forall j :: 0 <= j < 9 ==> Accepted(fetch, query, limit, SearchAttempts(query, sort, limit, t)[j]).None?
    ensures var posts := SearchSpec(fetch, query, limit, sort, t).value;
      |posts| <= limit &&
      forall i :: 0 <= i < |posts| ==>
        Contains(Lower(posts[i].title), Lower(query)) || Contains(Lower(posts[i].selftext), Lower(query))
    ensures exists j :: (0 <= j < 15 && fetch(SampleAttempts(limit)[j].url).Received? &&
      SearchSpec(fetch, query, limit, sort, t).value ==
        ToPosts(Take(Mentioning(query, ListingChildren(fetch(SampleAttempts(limit)[j].url).body)), limit)))
  {
    var attempts := Attempts(query, sort, limit, t);
    var probe := Probe(fetch, query, limit);
    var k := FirstHit(attempts, probe).value;
    forall j | 0 <= j < 9 ensures Accepted(fetch, query, limit, SearchAttempts(query, sort, limit, t)[j]).None? {
      assert attempts[j] == SearchAttempts(query, sort, limit, t)[j];
    }
    assert attempts[k] == SampleAttempts(limit)[k - 9];
    var children := probe(attempts[k]).value;
    assert forall i :: 0 <= i < |children| ==> MentionsQuery(query, children[i].data);
    var url := SampleAttempts(limit)[k - 9].url;
    assert attempts[k] == Sample(url);
    assert children == Take(Mentioning(query, ListingChildren(fetch(url).body)), limit);
    assert SearchSpec(fetch, query, limit, sort, t).value == ToPosts(children);
  }

  /** Every search request sends the query back intact, and the window only for `top`. */
  lemma SearchRequestParams(query: string, sort: Sort, limit: nat, t: Window, k: nat)
    requires k < 9
    ensures var params := Params(SearchAttempts(query, sort, limit, t)[k].url);
      Lookup(params, "q").Some? && Decode(Lookup(params, "q").value) == Some(query) &&
      Lookup(params, "sort") == Some(SortName(sort)) &&
      Lookup(params, "limit") == Some(NatToString(limit)) &&
      Lookup(params, "t") == (if sort == Top then Some(WindowName(t)) else None)
  {
    var route := SearchRoutePrefix(k);
    SearchAttemptUrl(query, sort, limit, t, k);
    SearchPathParams(route, query, sort, limit, t, k % 3 == 2);
  }

  /** The part of the `k`-th search URL before its `?`: the host and the route. */
  function SearchRoutePrefix(k: nat): (prefix: string)
    requires k < 9
    ensures '?' !in prefix
  {
    var host := Endpoints[k / 3];
    var route := if k % 3 == 1 then "/r/all/search.json" else "/search.json";
    assert '?' !in host by {
      assert forall i :: 0 <= i < |host| ==> host[i] != '?';
    }
    host + route
  }

  lemma SearchAttemptUrl(query: string, sort: Sort, limit: nat, t: Window, k: nat)
    requires k < 9
    ensures SearchAttempts(query, sort, limit, t)[k].url ==
      SearchRoutePrefix(k) + "?" + SearchQuery(query, sort, limit, t, k % 3 == 2)
  {
    var host := Endpoints[k / 3];
    var route := if k % 3 == 1 then "/r/all/search.json" else "/search.json";
    var paths := SearchPaths(query, sort, limit, t);
    var q := SearchQuery(query, sort, limit, t, k % 3 == 2);
    assert SearchAttempts(query, sort, limit, t)[k] == Search(host + paths[k % 3]);
    assert paths[k % 3] == route + "?" + q;
    AppendAssoc(host, route + "?", q);
    AppendAssoc(host, route, "?");
  }

  /** `query.split(/\s+/).map(s => s.trim())`, before the length filter. */
  function TrimmedWords(query: string): seq<string> {
    var words := Words(query);
    seq(|words|, i requires 0 <= i < |words| => Trim(words[i]))
  }

  /** Only pieces longer than two UTF-16 code units count as tokens. */
  predicate IsToken(piece: string) {
    Utf16Length(piece) > 2
  }

  /** The lower-cased, whitespace-separated pieces of the query longer than two code units. */
  function Tokens(query: string): seq<string> {
    Filter(TrimmedWords(Lower(query)), IsToken)
  }

  /** A word of two emoji is a token: it is two characters but four UTF-16 code units. */
  lemma AstralPairIsToken(c: char)
    requires c as int >= 0x10000
    ensures |[c, c]| == 2 && IsToken([c, c])
  {
    assert [c, c][1..] == [c];
  }

  lemma TrimmedWordsAreWords(s: string)
    ensures TrimmedWords(s) == Words(s)
  {
    var words := Words(s);
    WordsSpec(s);
    forall i | 0 <= i < |words| ensures Trim(words[i]) == words[i] {
      TrimWord(words[i]);
    }
  }

  /** The trim is a no-op: tokens are exactly the long words of the lower-cased query. */
  lemma TokensAreLongWords(query: string)
    ensures Tokens(query) == Filter(Words(Lower(query)), IsToken)
    ensures forall i :: 0 <= i < |Tokens(query)| ==>
      Utf16Length(Tokens(query)[i]) > 2 && HasNoWhitespace(Tokens(query)[i])
  {
    TrimmedWordsAreWords(Lower(query));
    var words, tokens := Words(Lower(query)), Tokens(query);
    WordsSpec(Lower(query));
    SubsequenceElements(tokens, words);
    forall i | 0 <= i < |tokens| ensures HasNoWhitespace(tokens[i]) {
      assert tokens[i] in words;
    }
  }

  /** What the relevance test looks at: the lower-cased title, and the body unless title-only. */
  function Haystack(onlyTitle: bool, p: Post): string {
    if onlyTitle then Lower(p.title) else Lower(p.title) + " " + Lower(p.selftext)
  }

  predicate HasAllTokens(tokens: seq<string>, haystack: string) {
    forall i :: 0 <= i < |tokens| ==> Contains(haystack, tokens[i])
  }

  predicate HasSomeToken(tokens: seq<string>, haystack: string) {
    exists i :: 0 <= i < |tokens| && Contains(haystack, tokens[i])
  }

  function MatchingAll(tokens: seq<string>, onlyTitle: bool, list: seq<Post>): seq<Post> {
    Filter(list, (p: Post) => HasAllTokens(tokens, Haystack(onlyTitle, p)))
  }

  function MatchingSome(tokens: seq<string>, onlyTitle: bool, list: seq<Post>): seq<Post> {
    Filter(list, (p: Post) => HasSomeToken(tokens, Haystack(onlyTitle, p)))
  }

  /**
   * The filter of `runSearch`: posts matching every token, else posts matching some token,
   * else the list as it came. It only ever drops posts, keeps their order, and never
   * empties a non-empty list.
   */
  function RelevanceFilter(tokens: seq<string>, onlyTitle: bool, list: seq<Post>): (r: seq<Post>)
    ensures IsSubsequence(r, list)
    ensures |list| > 0 ==> |r| > 0
    ensures tokens == [] ==> r == list
  {
    PrefixIsSubsequence(list, list);
    if |tokens| == 0 then list
    else
      var all := MatchingAll(tokens, onlyTitle, list);
      if |all| > 0 then all
      else
        var some := MatchingSome(tokens, onlyTitle, list);
        if |some| > 0 then some else list
  }

  /**
   * Which posts survive: when a post matches every token, exactly the posts that match
   * every token; otherwise, when a post matches some token, exactly those; otherwise all.
   */
  lemma RelevanceFilterSelects(tokens: seq<string>, onlyTitle: bool, list: seq<Post>)
    requires tokens != []
    ensures var r := RelevanceFilter(tokens, onlyTitle, list);
      if exists p :: p in list && HasAllTokens(tokens, Haystack(onlyTitle, p)) then
        forall p :: p in r <==> p in list && HasAllTokens(tokens, Haystack(onlyTitle, p))
      else if exists p :: p in list && HasSomeToken(tokens, Haystack(onlyTitle, p)) then
        forall p :: p in r <==> p in list && HasSomeToken(tokens, Haystack(onlyTitle, p))
      else r == list
  {
    var all := MatchingAll(tokens, onlyTitle, list);
    var some := MatchingSome(tokens, onlyTitle, list);
    SubsequenceElements(all, list);
    SubsequenceElements(some, list);
    assert |all| > 0 ==> all[0] in list;
    assert |some| > 0 ==> some[0] in list;
    if p :| p in list && HasAllTokens(tokens, Haystack(onlyTitle, p)) {
      assert p in all;
    } else if p :| p in list && HasSomeToken(tokens, Haystack(onlyTitle, p)) {
      assert p in some;
    }
  }

  /** A post that survives the relevance filter survives with every copy it had. */
  lemma RelevanceFilterKeepsCopies(tokens: seq<string>, onlyTitle: bool, list: seq<Post>, p: Post)
    ensures var n := multiset(RelevanceFilter(tokens, onlyTitle, list))[p];
      n == 0 || n == multiset(list)[p]
  {
    FilterCount(list, (q: Post) => HasAllTokens(tokens, Haystack(onlyTitle, q)), p);
    FilterCount(list, (q: Post) => HasSomeToken(tokens, Haystack(onlyTitle, q)), p);
  }

  /** A valid request, after the defaults. */
  datatype Query = Query(q: string, sort: Sort, t: Window, onlyTitle: bool)

  /** The query parameters as `searchParams.get` returns them (`None` for a missing key). */
  datatype Request = Request(q: Option<string>, sort: Option<string>, t: Option<string>, titleOnly: Option<string>)

  datatype Reply = Posts(posts: seq<Post>) | Failure(status: nat, message: string)

  const InvalidQueryMessage: string := "Invalid query"

  /** `value || fallback`: a missing or empty parameter takes the default. */
  function OrDefault(value: Option<string>, fallback: string): string {
    match value
    case Some(v) => if v == "" then fallback else v
    case None => fallback
  }

  /** The defaults followed by the schema: `q` non-empty, `sort` and `t` from their enums, `titleOnly` a boolean literal. */
  function Validate(req: Request): Option<Query> {
    var q := req.q.GetOr("");
    var sort := OrDefault(req.sort, "relevance");
    var t := OrDefault(req.t, "day");
    var titleOnly := req.titleOnly.GetOr("true");
    if Utf16Length(q) >= 1 && ParseSort(sort).Some? && ParseWindow(t).Some? && (titleOnly == "true" || titleOnly == "false")
    then Some(Query(q, ParseSort(sort).value, ParseWindow(t).value, titleOnly == "true"))
    else None
  }

  /** The request that spells out every field of a query. */
  function RequestFor(v: Query): Request {
    Request(Some(v.q), Some(SortName(v.sort)), Some(WindowName(v.t)), Some(if v.onlyTitle then "true" else "false"))
  }

  /**
   * What validation accepts: every non-empty query with a known sort and window; missing
   * or empty `sort` and `t` mean `relevance` and `day`, a missing `titleOnly` means true.
   */
  lemma ValidateAccepts(v: Query)
    ensures v.q != [] ==> Validate(RequestFor(v)) == Some(v)
    ensures v.q != [] ==> Validate(Request(Some(v.q), None, None, None)) == Some(Query(v.q, Relevance, Day, true))
    ensures Validate(Request(None, Some(SortName(v.sort)), Some(WindowName(v.t)), None)).None?
  {
    ParseSortExactly(SortName(v.sort), v.sort);
    ParseWindowExactly(WindowName(v.t), v.t);
  }

  /**
   * Exactly which requests pass: a non-empty `q`; a `sort` and a `t` that are missing, empty
   * or a known name; a `titleOnly` that is missing or a boolean literal (an empty one is
   * not replaced by the default, so it fails). A passing request keeps its query text.
   */
  lemma ValidateExactly(req: Request)
    ensures Validate(req).Some? <==>
      req.q.Some? && req.q.value != "" &&
      (req.sort.None? || req.sort.value == "" || exists s :: SortName(s) == req.sort.value) &&
      (req.t.None? || req.t.value == "" || exists t :: WindowName(t) == req.t.value) &&
      (req.titleOnly.None? || req.titleOnly.value == "true" || req.titleOnly.value == "false")
    ensures Validate(req).Some? ==>
      Validate(req).value.q == req.q.value &&
      (Validate(req).value.onlyTitle <==> req.titleOnly != Some("false"))
  {
    var sort := OrDefault(req.sort, "relevance");
    var t := OrDefault(req.t, "day");
    if ParseSort(sort).Some? {
      ParseSortExactly(sort, ParseSort(sort).value);
    }
    if s :| SortName(s) == sort {
      ParseSortExactly(sort, s);
    }
    if ParseWindow(t).Some? {
      ParseWindowExactly(t, ParseWindow(t).value);
    }
    if w :| WindowName(w) == t {
      ParseWindowExactly(t, w);
    }
  }

  /** A sort outside the enum, such as `trending`, is rejected whatever the other parameters. */
  lemma ValidateRejectsUnknownSort(req: Request)
    requires req.sort.Some? && req.sort.value != "" && ParseSort(req.sort.value).None?
    ensures Validate(req).None?
  {
  }

  /** The query `searchReddit` receives: the trimmed text, prefixed with `title:` for title-only. */
  function OpQuery(v: Query): string {
    if v.onlyTitle then "title:" + Trim(v.q) else Trim(v.q)
  }

  /** The number of results requested from Reddit. */
  const SearchLimit: nat := 50

  function RunSearchSpec(fetch: Fetcher, v: Query, t: Window, sort: Sort): Result<seq<Post>> {
    match SearchSpec(fetch, OpQuery(v), SearchLimit, sort, t)
    case Ok(list) => Ok(RelevanceFilter(Tokens(v.q), v.onlyTitle, list))
    case Err(e) => Err(e)
  }

  /** `runSearch(timeWindow, whichSort)`. */
  method RunSearch(fetch: Fetcher, v: Query, t: Window, sort: Sort) returns (r: Result<seq<Post>>)
    ensures r == RunSearchSpec(fetch, v, t, sort)
  {
    ghost var tried;
    var list;
    list, tried := SearchReddit(fetch, OpQuery(v), SearchLimit, sort, t);
    if list.Err? {
      return Err(list.error);
    }
    var tokens := Tokens(v.q);
    r := Ok(RelevanceFilter(tokens, v.onlyTitle, list.value));
  }

  /** `runSearch` either throws the fixed failure or resolves to a non-empty list. */
  lemma RunSearchOutcome(fetch: Fetcher, v: Query, t: Window, sort: Sort)
    ensures var r := RunSearchSpec(fetch, v, t, sort);
      (r.Ok? && |r.value| > 0) || r == Err(AllFailedMessage)
  {
    SearchOutcome(fetch, OpQuery(v), SearchLimit, sort, t);
  }

  /** The windows tried, in order, once both sorts came back empty for the requested one. */
  const Relaxation: seq<Window> := [Week, Month, Year, All]

  /** The loop over the relaxed windows, as it was written. */
  function LadderFrom(fetch: Fetcher, v: Query, windows: seq<Window>): Result<seq<Post>>
    decreases |windows|
  {
    if windows == [] then Ok([])
    else if windows[0] == v.t then LadderFrom(fetch, v, windows[1..])
    else match RunSearchSpec(fetch, v, windows[0], Relevance)
      case Err(e) => Err(e)
      case Ok(posts) =>
        if |posts| > 0 then Ok(posts)
        else match RunSearchSpec(fetch, v, windows[0], Top)
          case Err(e) => Err(e)
          case Ok(posts) => if |posts| > 0 then Ok(posts) else LadderFrom(fetch, v, windows[1..])
  }

  /** Relevance then top for the requested window, then the relaxed windows. */
  function Ladder(fetch: Fetcher, v: Query): Result<seq<Post>> {
    match RunSearchSpec(fetch, v, v.t, Relevance)
    case Err(e) => Err(e)
    case Ok(posts) =>
      if |posts| > 0 then Ok(posts)
      else match RunSearchSpec(fetch, v, v.t, Top)
        case Err(e) => Err(e)
        case Ok(posts) => if |posts| > 0 then Ok(posts) else LadderFrom(fetch, v, Relaxation)
  }

  function SearchGetSpec(fetch: Fetcher, req: Request): Reply {
    match Validate(req)
    case None => Failure(400, InvalidQueryMessage)
    case Some(v) =>
      match Ladder(fetch, v)
      case Ok(posts) => Posts(posts)
      case Err(e) => Failure(500, e)
  }

  /** `GET /api/reddit/search`. */
  method SearchGet(fetch: Fetcher, req: Request) returns (reply: Reply)
    ensures reply == SearchGetSpec(fetch, req)
  {
    var parsed := Validate(req);
    if parsed.None? {
      return Failure(400, InvalidQueryMessage);
    }
    var v := parsed.value;
    var filtered := RunSearch(fetch, v, v.t, Relevance);
    if filtered.Err? {
      return Failure(500, filtered.error);
    }
    var posts := filtered.value;
    if |posts| == 0 {
      filtered := RunSearch(fetch, v, v.t, Top);
      if filtered.Err? {
        return Failure(500, filtered.error);
      }
      posts := filtered.value;
    }
    if |posts| == 0 {
      assert Ladder(fetch, v) == LadderFrom(fetch, v, Relaxation);
      for i := 0 to |Relaxation|
        invariant |posts| == 0
        invariant LadderFrom(fetch, v, Relaxation) == LadderFrom(fetch, v, Relaxation[i..])
      {
        var nextT := Relaxation[i];
        assert Relaxation[i..][0] == nextT && Relaxation[i..][1..] == Relaxation[i + 1..];
        if nextT == v.t {
          continue;
        }
        filtered := RunSearch(fetch, v, nextT, Relevance);
        if filtered.Err? {
          return Failure(500, filtered.error);
        }
        posts := filtered.value;
        if |posts| > 0 {
          break;
        }
        filtered := RunSearch(fetch, v, nextT, Top);
        if filtered.Err? {
          return Failure(500, filtered.error);
        }
        posts := filtered.value;
        if |posts| > 0 {
          break;
        }
      }
    }
    reply := Posts(posts);
  }

  /**
   * The ladder never gets past its first step: the reply is decided by `runSearch` with
   * relevance and the requested window alone, since that either throws or returns posts.
   */
  lemma FirstSearchDecides(fetch: Fetcher, req: Request)
    ensures SearchGetSpec(fetch, req) ==
      match Validate(req)
      case None => Failure(400, InvalidQueryMessage)
      case Some(v) =>
        match RunSearchSpec(fetch, v, v.t, Relevance)
        case Ok(posts) => Posts(posts)
        case Err(e) => Failure(500, e)
  {
    if Validate(req).Some? {
      var v := Validate(req).value;
      RunSearchOutcome(fetch, v, v.t, Relevance);
    }
  }

  /**
   * Every reply is a non-empty list of posts, a 400 for an invalid query, or a 500 with
   * the fixed failure message.
   */
  lemma SearchGetOutcome(fetch: Fetcher, req: Request)
    ensures var reply := SearchGetSpec(fetch, req);
      (reply.Posts? && |reply.posts| > 0) ||
      reply == Failure(400, InvalidQueryMessage) || reply == Failure(500, AllFailedMessage)
  {
    FirstSearchDecides(fetch, req);
    if Validate(req).Some? {
      var v := Validate(req).value;
      RunSearchOutcome(fetch, v, v.t, Relevance);
    }
  }

  /**
   * Neither the requested sort nor the requested window changes the reply: the first
   * search uses relevance, for which no window is sent.
   */
  lemma SortAndWindowIgnored(fetch: Fetcher, req: Request, req': Request)
    requires Validate(req).Some? && Validate(req').Some?
    requires Validate(req).value.q == Validate(req').value.q
    requires Validate(req).value.onlyTitle == Validate(req').value.onlyTitle
    ensures SearchGetSpec(fetch, req) == SearchGetSpec(fetch, req')
  {
    var v, v' := Validate(req).value, Validate(req').value;
    FirstSearchDecides(fetch, req);
    FirstSearchDecides(fetch, req');
    assert OpQuery(v) == OpQuery(v');
    assert Attempts(OpQuery(v), Relevance, SearchLimit, v.t) == Attempts(OpQuery(v'), Relevance, SearchLimit, v'.t) by {
      assert SearchPaths(OpQuery(v), Relevance, SearchLimit, v.t) == SearchPaths(OpQuery(v'), Relevance, SearchLimit, v'.t);
    }
  }

  /**
   * Under title-only the subreddit fallback looks for `title:` followed by the query, so it
   * keeps only posts whose own text contains `title:`.
   */
  lemma TitleOnlyFallbackNeedsPrefix(v: Query, d: PostData)
    requires v.onlyTitle && MentionsQuery(OpQuery(v), d)
    ensures Contains(Lower(d.title), "title:") || Contains(Lower(d.selftext), "title:")
  {
    var rest := Lower(Trim(v.q));
    LowerTitlePrefix(Trim(v.q));
    assert Lower(OpQuery(v)) == "title:" + rest;
    if Contains(Lower(d.title), "title:" + rest) {
      ContainsNeedlePrefix(Lower(d.title), "title:", rest);
    } else {
      ContainsNeedlePrefix(Lower(d.selftext), "title:", rest);
    }
  }

  lemma LowerTitlePrefix(x: string)
    ensures Lower("title:" + x) == "title:" + Lower(x)
  {
    LowerAppend("title:", x);
    assert Lower("title:") == "title:";
  }

  /** `searchParams.get(key)`, decoding the raw value when it is well formed. */
  function GetParam(url: string, key: string): Option<string> {
    match Lookup(Params(url), key)
    case Some(raw) => Some(Decode(raw).GetOr(raw))
    case None => None
  }

  /** The parameters of a request URL, as the route reads them. */
  function RequestOf(url: string): Request {
    Request(GetParam(url, "q"), GetParam(url, "sort"), GetParam(url, "t"), GetParam(url, "titleOnly"))
  }
}
