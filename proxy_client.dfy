/**
 * The browser-side Reddit client: every request goes through a CORS proxy; `searchReddit`
 * asks the `www` host only, and `fetchPostWithComments` asks it once and filters and caps
 * the comments.
 */
module ProxyClient {
  import opened Util
  import opened Text
  import opened Uri
  import opened Listing
  import opened Fallback
  import opened RedditApi

  const CorsProxy: string := "https://corsproxy.io/?"

  const Www: string := "https://www.reddit.com"

  const Subreddits: seq<string> := ["programming", "technology", "science", "news", "worldnews"]

  const AllFailedMessage: string := "All Reddit endpoints failed. The service may be temporarily unavailable."
  const SearchFailurePrefix: string := "Failed to search Reddit: "
  const ThreadFailurePrefix: string := "Failed to fetch post and comments: "
  const PostNotFoundMessage: string := "Post not found"

  /** The at most twenty comments kept. */
  const MaxComments: nat := 20

  /** The URL actually requested for a target URL. */
  function ProxyUrl(url: string): string {
    CorsProxy + EncodeUriComponent(url)
  }

  /** The proxy reads the target back from the query string intact. */
  lemma ProxyUrlRoundTrip(url: string)
    ensures ProxyUrl(url)[..|CorsProxy|] == CorsProxy
    ensures Decode(QueryOf(ProxyUrl(url))) == Some(url)
  {
    var host := "https://corsproxy.io/";
    assert CorsProxy == host + ['?'];
    assert '?' !in host by {
      assert forall i :: 0 <= i < |host| ==> host[i] != '?';
    }
    assert ProxyUrl(url) == host + ['?'] + EncodeUriComponent(url);
    IndexOfAfter(host, '?', EncodeUriComponent(url));
    assert QueryOf(ProxyUrl(url)) == EncodeUriComponent(url);
    DecodeEncode(url);
  }

  /** What the page sees of a fetch: the proxied request for the target. */
  function Proxied(fetch: Fetcher): Fetcher {
    url => fetch(ProxyUrl(url))
  }

  /** The client's post record: the eight copied fields plus score and creation time. */
  datatype ClientPost = ClientPost(
    id: string, title: string, selftext: string, url: string, subreddit: string,
    author: string, permalink: string, numComments: int, score: int, createdUtc: int)

  /** The post with a missing `score` or `created_utc` read as 0. */
  function Normalize(d: PostData): ClientPost {
    ClientPost(d.id, d.title, d.selftext, d.url, d.subreddit, d.author, d.permalink, d.numComments,
               d.score.GetOr(0), d.createdUtc.GetOr(0))
  }

  function Normalized(cs: seq<PostChild>): (ps: seq<ClientPost>)
    ensures |ps| == |cs|
    ensures forall i :: 0 <= i < |cs| ==> ps[i] == Normalize(cs[i].data)
  {
    seq(|cs|, i requires 0 <= i < |cs| => Normalize(cs[i].data))
  }

  /** The server's record of a client post: the extra fields dropped. */
  function Strip(p: ClientPost): Post {
    Post(p.id, p.title, p.selftext, p.url, p.subreddit, p.author, p.permalink, p.numComments)
  }

  /**
   * A client post carries exactly the server's eight fields, and a score and time that
   * are the given ones, or 0 when absent.
   */
  lemma NormalizeDefaults(d: PostData)
    ensures Strip(Normalize(d)) == ToPost(d)
    ensures Normalize(d).score == (if d.score.Some? then d.score.value else 0)
    ensures Normalize(d).createdUtc == (if d.createdUtc.Some? then d.createdUtc.value else 0)
    ensures d.score.None? && d.createdUtc.None? ==> Normalize(d).score == 0 == Normalize(d).createdUtc
  {
  }

  /** The three search requests, all to the `www` host, in order. */
  function SearchAttempts(query: string, sort: Sort, limit: nat, t: Window): (attempts: seq<Attempt>)
    ensures |attempts| == 3
  {
    var paths := SearchPaths(query, sort, limit, t);
    [Search(Www + paths[0]), Search(Www + paths[1]), Search(Www + paths[2])]
  }

  /** The five subreddit listings, all from the `www` host, in order. */
  function SampleAttempts(limit: nat): (attempts: seq<Attempt>)
    ensures |attempts| == 5
  {
    seq(5, s requires 0 <= s < 5 => Sample(Www + HotPath(Subreddits[s], limit)))
  }

  function Attempts(query: string, sort: Sort, limit: nat, t: Window): seq<Attempt> {
    SearchAttempts(query, sort, limit, t) + SampleAttempts(limit)
  }

  function Probe(fetch: Fetcher, query: string, limit: nat): Attempt -> Option<seq<PostChild>> {
    a => Accepted(Proxied(fetch), query, limit, a)
  }

  /** What the client's `searchReddit` resolves to. */
  function SearchSpec(fetch: Fetcher, query: string, limit: nat, sort: Sort, t: Window): Result<seq<ClientPost>> {
    match FirstValue(Attempts(query, sort, limit, t), Probe(fetch, query, limit))
    case Some(children) => Ok(Normalized(children))
    case None => Err(SearchFailurePrefix + AllFailedMessage)
  }

  /** One proxied search request: the normalised posts of an `ok` listing with children. */
  method SearchOnce(fetch: Fetcher, query: string, limit: nat, url: string) returns (found: Option<seq<ClientPost>>)
    ensures found == NormalizedOf(Accepted(Proxied(fetch), query, limit, Search(url)))
  {
    var res := fetch(ProxyUrl(url));
    if res.Received? {
      var children := ListingChildren(res.body);
      if |children| > 0 {
        return Some(Normalized(children));
      }
    }
    found := None;
  }

  /** One proxied subreddit request: the first `limit` posts that mention the query, normalised. */
  method SampleOnce(fetch: Fetcher, query: string, limit: nat, url: string) returns (found: Option<seq<ClientPost>>)
    ensures found == NormalizedOf(Accepted(Proxied(fetch), query, limit, Sample(url)))
  {
    var res := fetch(ProxyUrl(url));
    if res.Received? {
      var children := ListingChildren(res.body);
      if |children| > 0 {
        var filteredPosts := Take(Mentioning(query, children), limit);
        if |filteredPosts| > 0 {
          return Some(Normalized(filteredPosts));
        }
      }
    }
    found := None;
  }

  /** The client's search-URL loop: the posts of the first search listing with children. */
  method TrySearchUrls(fetch: Fetcher, query: string, limit: nat, sort: Sort, t: Window)
    returns (found: Option<seq<ClientPost>>, ghost tried: seq<Attempt>)
    ensures found == NormalizedOf(FirstValue(SearchAttempts(query, sort, limit, t), Probe(fetch, query, limit)))
    ensures tried == Consulted(SearchAttempts(query, sort, limit, t), Probe(fetch, query, limit))
  {
    ghost var searches := SearchAttempts(query, sort, limit, t);
    ghost var probe := Probe(fetch, query, limit);
    var paths := SearchPaths(query, sort, limit, t);
    var searchUrls := [Www + paths[0], Www + paths[1], Www + paths[2]];
    tried := [];
    for i := 0 to 3
      invariant tried == searches[..i]
      invariant forall x :: x in tried ==> probe(x).None?
    {
      var url := searchUrls[i];
      assert searches[i] == Search(url);
      tried := tried + [Search(url)];
      assert tried == searches[..i + 1];
      found := SearchOnce(fetch, query, limit, url);
      if found.Some? {
        HitAfterMisses(searches, probe, i);
        return found, tried;
      }
    }
    NoHit(searches, probe);
    found := None;
  }

  /** The client's subreddit loop: the first listing with a post that mentions the query. */
  method TrySubreddits(fetch: Fetcher, query: string, limit: nat)
    returns (found: Option<seq<ClientPost>>, ghost tried: seq<Attempt>)
    ensures found == NormalizedOf(FirstValue(SampleAttempts(limit), Probe(fetch, query, limit)))
    ensures tried == Consulted(SampleAttempts(limit), Probe(fetch, query, limit))
  {
    ghost var samples := SampleAttempts(limit);
    ghost var probe := Probe(fetch, query, limit);
    tried := [];
    for s := 0 to 5
      invariant tried == samples[..s]
      invariant forall x :: x in tried ==> probe(x).None?
    {
      var url := Www + HotPath(Subreddits[s], limit);
      assert samples[s] == Sample(url);
      tried := tried + [Sample(url)];
      assert tried == samples[..s + 1];
      found := SampleOnce(fetch, query, limit, url);
      if found.Some? {
        HitAfterMisses(samples, probe, s);
        return found, tried;
      }
    }
    NoHit(samples, probe);
    found := None;
  }

  function NormalizedOf(found: Option<seq<PostChild>>): Option<seq<ClientPost>> {
    match found
    case Some(children) => Some(Normalized(children))
    case None => None
  }

  /**
   * `searchReddit`: the three search URLs, then the five subreddits, one proxied fetch
   * each; the first non-empty result wins. `tried` records the targets requested.
   */
  method SearchReddit(fetch: Fetcher, query: string, limit: nat, sort: Sort, t: Window)
    returns (r: Result<seq<ClientPost>>, ghost tried: seq<Attempt>)
    ensures r == SearchSpec(fetch, query, limit, sort, t)
    ensures tried == Consulted(Attempts(query, sort, limit, t), Probe(fetch, query, limit))
  {
    ghost var probe := Probe(fetch, query, limit);
    FirstValueAppend(SearchAttempts(query, sort, limit, t), SampleAttempts(limit), probe);
    ConsultedAppend(SearchAttempts(query, sort, limit, t), SampleAttempts(limit), probe);
    var found;
    found, tried := TrySearchUrls(fetch, query, limit, sort, t);
    if found.Some? {
      return Ok(found.value), tried;
    }
    ghost var more;
    found, more := TrySubreddits(fetch, query, limit);
    tried := tried + more;
    if found.Some? {
      return Ok(found.value), tried;
    }
    r := Err(SearchFailurePrefix + AllFailedMessage);
  }

  /**
   * The client never resolves to an empty list; its only failure is the wrapped
   * all-endpoints message.
   */
  lemma SearchOutcome(fetch: Fetcher, query: string, limit: nat, sort: Sort, t: Window)
    ensures var r := SearchSpec(fetch, query, limit, sort, t);
      (r.Ok? && |r.value| > 0) ||
      r == Err(SearchFailurePrefix + AllFailedMessage)
  {
  }

  /** Every request the client makes goes to the proxy, for a target on the `www` host. */
  lemma OnlyWwwThroughProxy(query: string, sort: Sort, limit: nat, t: Window, k: nat)
    requires k < 8
    ensures var target := Attempts(query, sort, limit, t)[k].url;
      |target| >= |Www| && target[..|Www|] == Www &&
      Decode(QueryOf(ProxyUrl(target))) == Some(target)
  {
    var target := Attempts(query, sort, limit, t)[k].url;
    if k < 3 {
      assert target == SearchAttempts(query, sort, limit, t)[k].url;
    } else {
      assert target == SampleAttempts(limit)[k - 3].url;
    }
    ProxyUrlRoundTrip(target);
  }

  /** A comment child the client keeps: a `t1` whose body was neither deleted nor removed. */
  predicate IsVisible(c: CommentChild) {
    c.kind == "t1" && c.data.body != "[deleted]" && c.data.body != "[removed]"
  }

  /** The comments the client keeps: filter, map, then the first twenty. */
  function VisibleComments(cs: seq<CommentChild>): seq<Comment> {
    Take(ToComments(Filter(cs, IsVisible)), MaxComments)
  }

  /** Mapping comment children keeps a subsequence a subsequence. */
  lemma {:induction false} ToCommentsSubsequence(xs: seq<CommentChild>, ys: seq<CommentChild>)
    requires IsSubsequence(xs, ys)
    ensures IsSubsequence(ToComments(xs), ToComments(ys))
    decreases |ys|
  {
    if xs != [] && ys != [] {
      var mx, my := ToComments(xs), ToComments(ys);
      assert ToComments(ys[1..]) == my[1..];
      if xs[0] == ys[0] && IsSubsequence(xs[1..], ys[1..]) {
        assert ToComments(xs[1..]) == mx[1..];
        ToCommentsSubsequence(xs[1..], ys[1..]);
      } else {
        ToCommentsSubsequence(xs, ys[1..]);
      }
    }
  }

  /**
   * The kept comments are the first twenty visible children (`t1`, neither deleted nor
   * removed), mapped in order: all of them when there are at most twenty. So none is
   * deleted or removed, and they are drawn in order from the comment children.
   */
  lemma VisibleCommentsSelected(cs: seq<CommentChild>)
    ensures var r, visible := VisibleComments(cs), Filter(cs, IsVisible);
      |r| == Min(MaxComments, |visible|) &&
      (forall i :: 0 <= i < |r| ==> r[i] == ToComment(visible[i].data) && visible[i].kind == "t1")
    ensures var r := VisibleComments(cs);
      |r| <= MaxComments &&
      IsSubsequence(r, ToComments(cs)) &&
      (forall i :: 0 <= i < |r| ==> r[i].body != "[deleted]" && r[i].body != "[removed]") &&
      (|Filter(cs, IsVisible)| <= MaxComments ==> forall c :: c in cs && IsVisible(c) ==> ToComment(c.data) in r)
  {
    var visible := Filter(cs, IsVisible);
    var mapped := ToComments(visible);
    var r := VisibleComments(cs);
    ToCommentsSubsequence(visible, cs);
    PrefixIsSubsequence(r, mapped);
    SubsequenceTransitive(r, mapped, ToComments(cs));
    forall i | 0 <= i < |r| ensures r[i].body != "[deleted]" && r[i].body != "[removed]" {
      assert r[i] == mapped[i] == ToComment(visible[i].data);
    }
    if |visible| <= MaxComments {
      forall c | c in cs && IsVisible(c) ensures ToComment(c.data) in r {
        var j :| 0 <= j < |visible| && visible[j] == c;
        assert r[j] == ToComment(c.data);
      }
    }
  }

  /** The client's thread: the post with its defaults, and the kept comments. */
  datatype ClientThread = ClientThread(post: ClientPost, comments: seq<Comment>)

  function ThreadUrl(permalink: string): string {
    Www + permalink + ".json?limit=100"
  }

  /** `fetchPostWithComments`, with every error wrapped in the one prefix. */
  function FetchThread(fetch: Fetcher, permalink: string): Result<ClientThread> {
    match fetch(ProxyUrl(ThreadUrl(permalink)))
    case Thrown(message) => Err(ThreadFailurePrefix + message)
    case NotOk(status) => Err(ThreadFailurePrefix + "Failed to fetch post (status " + NatToString(status) + ")")
    case Received(body) =>
      match ThreadPost(body)
      case None => Err(ThreadFailurePrefix + PostNotFoundMessage)
      case Some(d) => Ok(ClientThread(Normalize(d), VisibleComments(ThreadComments(body))))
  }

  /**
   * The thread is returned exactly when the one proxied request is `ok` and holds a post,
   * and it is that post with its defaults and the kept comments; every failure is reported
   * under the one prefix, and a missing post and a failing status are reported apart.
   */
  lemma FetchThreadOutcome(fetch: Fetcher, permalink: string)
    ensures var response := fetch(ProxyUrl(ThreadUrl(permalink)));
      FetchThread(fetch, permalink).Ok? <==> response.Received? && ThreadPost(response.body).Some?
    ensures var r := FetchThread(fetch, permalink);
      r.Err? ==> |r.error| >= |ThreadFailurePrefix| && r.error[..|ThreadFailurePrefix|] == ThreadFailurePrefix
    ensures var response := fetch(ProxyUrl(ThreadUrl(permalink)));
      response.Received? && ThreadPost(response.body).None? ==>
        FetchThread(fetch, permalink) == Err(ThreadFailurePrefix + PostNotFoundMessage)
    ensures var response := fetch(ProxyUrl(ThreadUrl(permalink)));
      response.NotOk? ==>
        FetchThread(fetch, permalink) ==
          Err(ThreadFailurePrefix + "Failed to fetch post (status " + NatToString(response.status) + ")") &&
        FetchThread(fetch, permalink) != Err(ThreadFailurePrefix + PostNotFoundMessage)
    ensures var response := fetch(ProxyUrl(ThreadUrl(permalink)));
      response.Thrown? ==> FetchThread(fetch, permalink) == Err(ThreadFailurePrefix + response.message)
    ensures var response := fetch(ProxyUrl(ThreadUrl(permalink)));
      response.Received? && ThreadPost(response.body).Some? ==>
        FetchThread(fetch, permalink) ==
          Ok(ClientThread(Normalize(ThreadPost(response.body).value), VisibleComments(ThreadComments(response.body))))
  {
    var response := fetch(ProxyUrl(ThreadUrl(permalink)));
    if response.NotOk? {
      var e := ThreadFailurePrefix + "Failed to fetch post (status " + NatToString(response.status) + ")";
      assert e[|ThreadFailurePrefix|] == 'F';
      assert (ThreadFailurePrefix + PostNotFoundMessage)[|ThreadFailurePrefix|] == 'P';
    }
  }

  lemma StatusMessagesDistinct(m: nat, n: nat)
    requires m != n
    ensures "Failed to fetch post (status " + NatToString(m) + ")" != "Failed to fetch post (status " + NatToString(n) + ")"
  {
    var prefix := "Failed to fetch post (status ";
    var a, b := prefix + NatToString(m) + ")", prefix + NatToString(n) + ")";
    if a == b {
      assert a[|prefix|..|a| - 1] == NatToString(m);
      assert b[|prefix|..|b| - 1] == NatToString(n);
      NatToStringInjective(m, n);
    }
  }

  /**
   * For the same thread body the server route returns every comment, while the client
   * drops a deleted one.
   */
  lemma DeletedCommentOnlyOnServer(body: Body, c: CommentChild)
    requires c in ThreadComments(body) && c.data.body == "[deleted]"
    ensures ToComment(c.data) in ToComments(ThreadComments(body))
    ensures ToComment(c.data) !in VisibleComments(ThreadComments(body))
  {
    var cs := ThreadComments(body);
    var j :| 0 <= j < |cs| && cs[j] == c;
    assert ToComments(cs)[j] == ToComment(c.data);
    VisibleCommentsSelected(cs);
  }
}
