/**
 * The Reddit JSON the retrieval code reads, and the network as an oracle.
 *
 * A fetch is a function from the full request URL to what the `try` block around it
 * observes: an exception (network failure, or a body that does not parse as JSON), a
 * response whose `ok` is false, or an `ok` response with its parsed body (`Received`).
 */
module Listing {
  import opened Util

  /** The `data` of a link child in a listing, with the fields the code reads. */
  datatype PostData = PostData(
    id: string, title: string, selftext: string, url: string, subreddit: string,
    author: string, permalink: string, numComments: int,
    score: Option<int>, createdUtc: Option<int>)

  datatype PostChild = PostChild(kind: string, data: PostData)

  /** The `data` of a comment child. */
  datatype CommentData = CommentData(id: string, body: string, author: string, score: int, createdUtc: int)

  datatype CommentChild = CommentChild(kind: string, data: CommentData)

  /**
   * A parsed body. `Listing` is an object `{ data?: { children? } }` (a search or a
   * subreddit listing); `Thread` is the two-element array a permalink returns, a listing
   * whose children hold the post followed by a listing of comments. A missing element,
   * `data` or `children` is `None`.
   */
  datatype Body =
    | Listing(children: Option<seq<PostChild>>)
    | Thread(post: Option<seq<PostChild>>, comments: Option<seq<CommentChild>>)

  datatype Response = Thrown(message: string) | NotOk(status: nat) | Received(body: Body)

  type Fetcher = string -> Response

  /** `json?.data?.children ?? []`; an array body has no `data` field. */
  function ListingChildren(body: Body): (cs: seq<PostChild>)
    ensures body.Listing? && body.children.Some? ==> cs == body.children.value
    ensures body.Thread? || body.children.None? ==> cs == []
  {
    match body
    case Listing(Some(cs)) => cs
    case _ => []
  }

  /** `json[0]?.data?.children?.[0]?.data`; an object body has no element `0`. */
  function ThreadPost(body: Body): (d: Option<PostData>)
    ensures d.Some? <==> body.Thread? && body.post.Some? && |body.post.value| > 0
    ensures d.Some? ==> d.value == body.post.value[0].data
  {
    match body
    case Thread(Some(cs), _) => if |cs| > 0 then Some(cs[0].data) else None
    case _ => None
  }

  /** `json[1]?.data?.children ?? []`. */
  function ThreadComments(body: Body): (cs: seq<CommentChild>)
    ensures body.Thread? && body.comments.Some? ==> cs == body.comments.value
    ensures body.Listing? || body.comments.None? ==> cs == []
  {
    match body
    case Thread(_, Some(cs)) => cs
    case _ => []
  }

  /** The post record both server routes return. */
  datatype Post = Post(
    id: string, title: string, selftext: string, url: string, subreddit: string,
    author: string, permalink: string, numComments: int)

  datatype Comment = Comment(id: string, body: string, author: string, score: int, createdUtc: int)

  /** The eight fields copied from a child's data, unchanged. */
  function ToPost(d: PostData): (p: Post)
    ensures p.id == d.id && p.title == d.title && p.selftext == d.selftext && p.url == d.url
    ensures p.subreddit == d.subreddit && p.author == d.author && p.permalink == d.permalink
    ensures p.numComments == d.numComments
  {
    Post(d.id, d.title, d.selftext, d.url, d.subreddit, d.author, d.permalink, d.numComments)
  }

  /** `children.map(c => post of c.data)`. */
  function ToPosts(cs: seq<PostChild>): (ps: seq<Post>)
    ensures |ps| == |cs|
    ensures forall i :: 0 <= i < |cs| ==> ps[i] == ToPost(cs[i].data)
  {
    seq(|cs|, i requires 0 <= i < |cs| => ToPost(cs[i].data))
  }

  /** The five comment fields copied unchanged. */
  function ToComment(d: CommentData): (c: Comment)
    ensures c.id == d.id && c.body == d.body && c.author == d.author
    ensures c.score == d.score && c.createdUtc == d.createdUtc
  {
    Comment(d.id, d.body, d.author, d.score, d.createdUtc)
  }

  function ToComments(cs: seq<CommentChild>): (r: seq<Comment>)
    ensures |r| == |cs|
    ensures forall i :: 0 <= i < |cs| ==> r[i] == ToComment(cs[i].data)
  {
    seq(|cs|, i requires 0 <= i < |cs| => ToComment(cs[i].data))
  }
}
