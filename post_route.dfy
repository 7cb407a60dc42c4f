/**
 * The server thread route: `fetchPostWithComments`, which asks each Reddit host in turn
 * for a permalink's JSON, and `GET`, which validates the permalink and reports failures.
 */
module PostRoute {
  import opened Util
  import opened Listing
  import opened Fallback
  import Text

  /** The hosts asked, in order; this route keeps its own copy of the list. */
  const Hosts: seq<string> := ["https://www.reddit.com", "https://old.reddit.com", "https://reddit.com"]

  const AllHostsFailedMessage: string := "Failed to fetch post and comments from all Reddit endpoints"

  const InvalidPermalinkMessage: string := "Invalid permalink"

  /** The post of a thread with all of its top-level comments. */
  datatype PostWithComments = PostWithComments(post: Post, comments: seq<Comment>)

  datatype Reply = Found(thread: PostWithComments) | Failure(status: nat, message: string)

  /** The thread URL asked of one host. */
  function ThreadUrl(host: string, permalink: string): (url: string)
    ensures |url| == |host| + |permalink| + 15
    ensures url[..|host|] == host
    ensures url[|host|..] == permalink + ".json?limit=100"
  {
    host + permalink + ".json?limit=100"
  }

  /**
   * What one host contributes: nothing when the fetch throws, the status is not `ok` or
   * the body holds no post; otherwise the post and every comment child, mapped in order.
   */
  function Answer(fetch: Fetcher, permalink: string, host: string): (a: Option<PostWithComments>)
    ensures a.Some? <==> fetch(ThreadUrl(host, permalink)).Received? &&
                         ThreadPost(fetch(ThreadUrl(host, permalink)).body).Some?
  {
    var response := fetch(ThreadUrl(host, permalink));
    if response.Received? then
      match ThreadPost(response.body)
      case Some(d) => Some(PostWithComments(ToPost(d), ToComments(ThreadComments(response.body))))
      case None => None
    else None
  }

  function Probe(fetch: Fetcher, permalink: string): string -> Option<PostWithComments> {
    host => Answer(fetch, permalink, host)
  }

  /** What `fetchPostWithComments` resolves to. */
  function FetchSpec(fetch: Fetcher, permalink: string): Result<PostWithComments> {
    match FirstValue(Hosts, Probe(fetch, permalink))
    case Some(thread) => Ok(thread)
    case None => Err(AllHostsFailedMessage)
  }

  /**
   * `fetchPostWithComments`: the first host whose `ok` response holds a post answers;
   * every other outcome moves on to the next host. `tried` records the hosts asked.
   */
  method FetchPostWithComments(fetch: Fetcher, permalink: string)
    returns (r: Result<PostWithComments>, ghost tried: seq<string>)
    ensures r == FetchSpec(fetch, permalink)
    ensures tried == Consulted(Hosts, Probe(fetch, permalink))
  {
    ghost var probe := Probe(fetch, permalink);
    tried := [];
    for i := 0 to |Hosts|
      invariant tried == Hosts[..i]
      invariant forall host :: host in tried ==> probe(host).None?
    {
      var baseUrl := Hosts[i];
      tried := tried + [baseUrl];
      var url := baseUrl + permalink + ".json?limit=100";
      var res := fetch(url);
      if res.Received? {
        var postData := ThreadPost(res.body);
        var commentsData := ThreadComments(res.body);
        if postData.Some? {
          var post := ToPost(postData.value);
          var comments := ToComments(commentsData);
          HitAfterMisses(Hosts, probe, i);
          return Ok(PostWithComments(post, comments)), tried;
        }
      }
    }
    NoHit(Hosts, probe);
    r := Err(AllHostsFailedMessage);
  }

  /**
   * The call fails exactly when no host's `ok` response holds a post, and then always with
   * the one message: a missing post is not reported apart from a network failure.
   */
  lemma FetchFailsOnlyWhenEveryHostFails(fetch: Fetcher, permalink: string)
    ensures FetchSpec(fetch, permalink).Err? <==>
      forall i :: 0 <= i < |Hosts| ==>
        var response := fetch(ThreadUrl(Hosts[i], permalink));
        !(response.Received? && ThreadPost(response.body).Some?)
    ensures FetchSpec(fetch, permalink).Err? ==> FetchSpec(fetch, permalink).error == AllHostsFailedMessage
  {
  }

  /**
   * When host `k` is the first whose `ok` response holds a post, the result is that post,
   * its eight fields copied, and one comment per comment child in order, with no filter
   * and no cap.
   */
  lemma FirstThreadWins(fetch: Fetcher, permalink: string, k: nat)
    requires k < |Hosts|
    requires fetch(ThreadUrl(Hosts[k], permalink)).Received?
    requires ThreadPost(fetch(ThreadUrl(Hosts[k], permalink)).body).Some?
    requires forall j :: 0 <= j < k ==>
      var response := fetch(ThreadUrl(Hosts[j], permalink));
      !(response.Received? && ThreadPost(response.body).Some?)
    ensures var body := fetch(ThreadUrl(Hosts[k], permalink)).body;
      var r := FetchSpec(fetch, permalink);
      r.Ok? && r.value.post == ToPost(body.post.value[0].data) &&
      |r.value.comments| == |ThreadComments(body)| &&
      forall i :: 0 <= i < |ThreadComments(body)| ==> r.value.comments[i] == ToComment(ThreadComments(body)[i].data)
  {
    FirstHitUnique(Hosts, Probe(fetch, permalink), k);
  }

  /** `GET /api/reddit/post`, from the `permalink` parameter (`None` when absent). */
  function PostGetSpec(fetch: Fetcher, permalink: Option<string>): Reply {
    var p := permalink.GetOr("");
    if Text.Utf16Length(p) < 1 then Failure(400, InvalidPermalinkMessage)
    else match FetchSpec(fetch, p)
      case Ok(thread) => Found(thread)
      case Err(e) => Failure(500, e)
  }

  method PostGet(fetch: Fetcher, permalink: Option<string>) returns (reply: Reply)
    ensures reply == PostGetSpec(fetch, permalink)
  {
    var p := permalink.GetOr("");
    if Text.Utf16Length(p) < 1 {
      return Failure(400, InvalidPermalinkMessage);
    }
    var result;
    ghost var tried;
    result, tried := FetchPostWithComments(fetch, p);
    if result.Err? {
      return Failure(500, result.error);
    }
    reply := Found(result.value);
  }

  /**
   * The replies of `GET`: 400 exactly for a missing or empty permalink, otherwise the
   * thread, or 500 with the all-hosts message.
   */
  lemma PostGetOutcome(fetch: Fetcher, permalink: Option<string>)
    ensures PostGetSpec(fetch, permalink) == Failure(400, InvalidPermalinkMessage) <==>
      permalink.None? || permalink.value == ""
    ensures var reply := PostGetSpec(fetch, permalink);
      reply.Found? || reply.status == 400 || reply == Failure(500, AllHostsFailedMessage)
  {
  }
}
