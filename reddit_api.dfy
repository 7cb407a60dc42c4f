/**
 * The Reddit endpoints both search implementations request, and how they judge one
 * response: the search paths with their `q`, `sort`, `limit`, `raw_json` and `t`
 * parameters, the subreddit `hot.json` listing, and the acceptance test for each.
 */
module RedditApi {
  import opened Util
  import opened Text
  import opened Uri
  import opened Listing

  datatype Sort = Hot | New | Top | Relevance

  datatype Window = Hour | Day | Week | Month | Year | All

  function SortName(s: Sort): string {
    match s
    case Hot => "hot"
    case New => "new"
    case Top => "top"
    case Relevance => "relevance"
  }

  /** `z.enum(["hot", "new", "top", "relevance"])`. */
  function ParseSort(name: string): Option<Sort> {
    if name == "hot" then Some(Hot)
    else if name == "new" then Some(New)
    else if name == "top" then Some(Top)
    else if name == "relevance" then Some(Relevance)
    else None
  }

  /** The parser accepts exactly the four names, each meaning its own sort. */
  lemma ParseSortExactly(name: string, s: Sort)
    ensures ParseSort(name) == Some(s) <==> SortName(s) == name
  {
  }

  function WindowName(t: Window): string {
    match t
    case Hour => "hour"
    case Day => "day"
    case Week => "week"
    case Month => "month"
    case Year => "year"
    case All => "all"
  }

  /** `z.enum(["hour", "day", "week", "month", "year", "all"])`. */
  function ParseWindow(name: string): Option<Window> {
    if name == "hour" then Some(Hour)
    else if name == "day" then Some(Day)
    else if name == "week" then Some(Week)
    else if name == "month" then Some(Month)
    else if name == "year" then Some(Year)
    else if name == "all" then Some(All)
    else None
  }

  /** The parser accepts exactly the six names, each meaning its own window. */
  lemma ParseWindowExactly(name: string, t: Window)
    ensures ParseWindow(name) == Some(t) <==> WindowName(t) == name
  {
  }

  /** The query string of a search path; the window is sent only for `top`. */
  function SearchQuery(query: string, sort: Sort, limit: nat, t: Window, raw: bool): string {
    "q=" + EncodeUriComponent(query) + "&sort=" + SortName(sort) + "&limit=" + NatToString(limit)
      + (if raw then "&raw_json=1" else "") + (if sort == Top then "&t=" + WindowName(t) else "")
  }

  /** One search path as the template literal writes it. */
  function SearchPath(route: string, query: string, sort: Sort, limit: nat, t: Window, raw: bool): string {
    route + "?" + SearchQuery(query, sort, limit, t, raw)
  }

  /** The three search paths, in the order they are tried. */
  function SearchPaths(query: string, sort: Sort, limit: nat, t: Window): (paths: seq<string>)
    ensures |paths| == 3
  {
    [SearchPath("/search.json", query, sort, limit, t, false),
     SearchPath("/r/all/search.json", query, sort, limit, t, false),
     SearchPath("/search.json", query, sort, limit, t, true)]
  }

  /** The parameters a search path carries, in order, before any decoding. */
  function SearchParams(query: string, sort: Sort, limit: nat, t: Window, raw: bool): seq<(string, string)> {
    [("q", EncodeUriComponent(query)), ("sort", SortName(sort)), ("limit", NatToString(limit))]
      + (if raw then [("raw_json", "1")] else [])
      + (if sort == Top then [("t", WindowName(t))] else [])
  }

  lemma {:induction false} RenderSnoc(params: seq<(string, string)>, p: (string, string))
    requires params != []
    ensures Render(params + [p]) == Render(params) + "&" + p.0 + "=" + p.1
    decreases |params|
  {
    if |params| > 1 {
      assert (params + [p])[1..] == params[1..] + [p];
      RenderSnoc(params[1..], p);
    }
  }

  lemma RenderFirstThree(e: string, sn: string, ln: string)
    ensures Render([("q", e), ("sort", sn), ("limit", ln)]) == "q=" + e + "&sort=" + sn + "&limit=" + ln
  {
    RenderSnoc([("q", e)], ("sort", sn));
    assert [("q", e)] + [("sort", sn)] == [("q", e), ("sort", sn)];
    RenderSnoc([("q", e), ("sort", sn)], ("limit", ln));
    assert [("q", e), ("sort", sn)] + [("limit", ln)] == [("q", e), ("sort", sn), ("limit", ln)];
  }

  lemma RenderOptional(params: seq<(string, string)>, s: string, present: bool, key: string, value: string, text: string)
    requires params != [] && Render(params) == s
    requires text == "&" + key + "=" + value
    ensures Render(params + (if present then [(key, value)] else [])) == s + (if present then text else "")
  {
    if present {
      RenderSnoc(params, (key, value));
    } else {
      assert params + [] == params;
    }
  }

  lemma SearchQueryRendered(query: string, sort: Sort, limit: nat, t: Window, raw: bool)
    ensures SearchQuery(query, sort, limit, t, raw) == Render(SearchParams(query, sort, limit, t, raw))
  {
    var e, sn, ln := EncodeUriComponent(query), SortName(sort), NatToString(limit);
    var first := [("q", e), ("sort", sn), ("limit", ln)];
    RenderFirstThree(e, sn, ln);
    var rawText := if raw then "&raw_json=1" else "";
    RenderOptional(first, "q=" + e + "&sort=" + sn + "&limit=" + ln, raw, "raw_json", "1", "&raw_json=1");
    var withRaw := first + (if raw then [("raw_json", "1")] else []);
    RenderOptional(withRaw, "q=" + e + "&sort=" + sn + "&limit=" + ln + rawText,
                   sort == Top, "t", WindowName(t), "&t=" + WindowName(t));
  }

  lemma ValuesArePlain(query: string, sort: Sort, limit: nat, t: Window, raw: bool)
    ensures Plain(SearchParams(query, sort, limit, t, raw))
  {
    EncodedIsPlain(query);
    var digits := NatToString(limit);
    assert '&' !in digits by {
      assert forall i :: 0 <= i < |digits| ==> digits[i] != '&';
    }
  }

  /** A search path reads back as exactly its parameter list. */
  lemma SearchPathIsRendered(route: string, query: string, sort: Sort, limit: nat, t: Window, raw: bool)
    requires '?' !in route
    ensures Params(SearchPath(route, query, sort, limit, t, raw)) == SearchParams(query, sort, limit, t, raw)
  {
    SearchQueryRendered(query, sort, limit, t, raw);
    ValuesArePlain(query, sort, limit, t, raw);
    ParamsOfRendered(route, SearchParams(query, sort, limit, t, raw));
  }

  lemma {:induction false} LookupAppend(ps: seq<(string, string)>, qs: seq<(string, string)>, key: string)
    ensures Lookup(ps + qs, key) == if Lookup(ps, key).Some? then Lookup(ps, key) else Lookup(qs, key)
    decreases |ps|
  {
    if ps != [] {
      assert (ps + qs)[1..] == ps[1..] + qs;
      LookupAppend(ps[1..], qs, key);
    } else {
      assert ps + qs == qs;
    }
  }

  /** The value a search path's parameter list gives for one key. */
  function SearchParamValue(query: string, sort: Sort, limit: nat, t: Window, raw: bool, key: string): Option<string> {
    if key == "q" then Some(EncodeUriComponent(query))
    else if key == "sort" then Some(SortName(sort))
    else if key == "limit" then Some(NatToString(limit))
    else if key == "raw_json" && raw then Some("1")
    else if key == "t" && sort == Top then Some(WindowName(t))
    else None
  }

  lemma LookupSearchParam(query: string, sort: Sort, limit: nat, t: Window, raw: bool, key: string)
    ensures Lookup(SearchParams(query, sort, limit, t, raw), key) == SearchParamValue(query, sort, limit, t, raw, key)
  {
    var first := [("q", EncodeUriComponent(query)), ("sort", SortName(sort)), ("limit", NatToString(limit))];
    var rawPart := if raw then [("raw_json", "1")] else [];
    var tPart := if sort == Top then [("t", WindowName(t))] else [];
    assert SearchParams(query, sort, limit, t, raw) == first + rawPart + tPart;
    LookupAppend(first + rawPart, tPart, key);
    LookupAppend(first, rawPart, key);
    var rest1, rest2 := first[1..], first[1..][1..];
    assert rest1 == [("sort", SortName(sort)), ("limit", NatToString(limit))];
    assert rest2 == [("limit", NatToString(limit))];
    assert Lookup(rest2[1..], key) == None;
    assert Lookup(rest2, key) == if key == "limit" then Some(NatToString(limit)) else None;
    assert Lookup(rest1, key) == if key == "sort" then Some(SortName(sort)) else Lookup(rest2, key);
    assert Lookup(first, key) == if key == "q" then Some(EncodeUriComponent(query))
      else if key == "sort" then Some(SortName(sort))
      else if key == "limit" then Some(NatToString(limit)) else None;
  }

  lemma LookupSearchParams(query: string, sort: Sort, limit: nat, t: Window, raw: bool)
    ensures var params := SearchParams(query, sort, limit, t, raw);
      Lookup(params, "q") == Some(EncodeUriComponent(query)) &&
      Lookup(params, "sort") == Some(SortName(sort)) &&
      Lookup(params, "limit") == Some(NatToString(limit)) &&
      (Lookup(params, "raw_json").Some? <==> raw) &&
      Lookup(params, "t") == (if sort == Top then Some(WindowName(t)) else None)
  {
    LookupSearchParam(query, sort, limit, t, raw, "q");
    LookupSearchParam(query, sort, limit, t, raw, "sort");
    LookupSearchParam(query, sort, limit, t, raw, "limit");
    LookupSearchParam(query, sort, limit, t, raw, "raw_json");
    LookupSearchParam(query, sort, limit, t, raw, "t");
  }

  /**
   * Reading a search path's parameters back: the query comes back exactly, `sort`,
   * `limit` and `raw_json` are as requested, and `t` is present if and only if the sort
   * is `top`, carrying the requested window then.
   */
  lemma SearchPathParams(route: string, query: string, sort: Sort, limit: nat, t: Window, raw: bool)
    requires '?' !in route
    ensures var params := Params(SearchPath(route, query, sort, limit, t, raw));
      Lookup(params, "q").Some? && Decode(Lookup(params, "q").value) == Some(query) &&
      Lookup(params, "sort") == Some(SortName(sort)) &&
      Lookup(params, "limit") == Some(NatToString(limit)) &&
      (Lookup(params, "raw_json").Some? <==> raw) &&
      Lookup(params, "t") == (if sort == Top then Some(WindowName(t)) else None)
  {
    SearchPathIsRendered(route, query, sort, limit, t, raw);
    LookupSearchParams(query, sort, limit, t, raw);
    DecodeEncode(query);
  }

  /** `/r/<subreddit>/hot.json?limit=<limit>`. */
  function HotPath(subreddit: string, limit: nat): string {
    "/r/" + subreddit + "/hot.json?limit=" + NatToString(limit)
  }

  /** One request of a search: a search listing, or a subreddit listing to filter. */
  datatype Attempt = Search(url: string) | Sample(url: string)

  /** The case-insensitive substring test of the subreddit fallback. */
  predicate MentionsQuery(query: string, d: PostData) {
    Contains(Lower(d.title), Lower(query)) || Contains(Lower(d.selftext), Lower(query))
  }

  function Mentioning(query: string, children: seq<PostChild>): seq<PostChild> {
    Filter(children, (c: PostChild) => MentionsQuery(query, c.data))
  }

  /**
   * The children a single attempt contributes when it succeeds. A search attempt needs an
   * `ok` response with at least one child and returns them all; a subreddit attempt also
   * needs a child, and then keeps the first `limit` children that mention the query,
   * succeeding when one is left. A thrown error, a non-`ok` status or an empty listing is
   * a failure that moves on to the next attempt.
   */
  function Accepted(fetch: Fetcher, query: string, limit: nat, a: Attempt): (r: Option<seq<PostChild>>)
    ensures r.Some? ==> fetch(a.url).Received? && |r.value| > 0
    ensures r.Some? && a.Search? ==> r.value == ListingChildren(fetch(a.url).body)
    ensures r.Some? && a.Sample? ==>
      |r.value| <= limit && IsSubsequence(r.value, ListingChildren(fetch(a.url).body)) &&
      forall i :: 0 <= i < |r.value| ==> MentionsQuery(query, r.value[i].data)
    ensures r.Some? && a.Sample? ==>
      r.value == Take(Mentioning(query, ListingChildren(fetch(a.url).body)), limit)
    ensures a.Search? && fetch(a.url).Received? && |ListingChildren(fetch(a.url).body)| > 0 ==> r.Some?
  {
    match fetch(a.url)
    case Received(body) =>
      var children := ListingChildren(body);
      if |children| == 0 then None
      else if a.Search? then Some(children)
      else
        var matching := Mentioning(query, children);
        var kept := Take(matching, limit);
        PrefixIsSubsequence(kept, matching);
        SubsequenceTransitive(kept, matching, children);
        if |kept| > 0 then Some(kept) else None
    case _ => None
  }

  /** A subreddit attempt that gets no listing, or no post that mentions the query, fails. */
  lemma SampleMissed(fetch: Fetcher, query: string, limit: nat, url: string)
    requires !(fetch(url).Received? && |ListingChildren(fetch(url).body)| > 0 &&
               |Take(Mentioning(query, ListingChildren(fetch(url).body)), limit)| > 0)
    ensures Accepted(fetch, query, limit, Sample(url)).None?
  {
  }

  /** A subreddit attempt succeeds exactly when a listed post mentions the query and `limit` is not 0. */
  lemma SampleAccepted(fetch: Fetcher, query: string, limit: nat, url: string)
    ensures Accepted(fetch, query, limit, Sample(url)).Some? <==>
      fetch(url).Received? && limit > 0 &&
      exists c :: c in ListingChildren(fetch(url).body) && MentionsQuery(query, c.data)
  {
    if fetch(url).Received? {
      var children := ListingChildren(fetch(url).body);
      var matching := Mentioning(query, children);
      if c :| c in children && MentionsQuery(query, c.data) {
        assert c in matching;
      }
      if |matching| > 0 {
        SubsequenceElements(matching, children);
        assert matching[0] in children;
      }
    }
  }
}
