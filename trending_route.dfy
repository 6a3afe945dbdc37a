/**
  GET /api/posts/trending: despite the name, the ten newest posts of all time,
  each with its stored URL string turned into a list.
*/
module TrendingRoute {
  import opened Wrappers
  import opened Records
  import Text

  const TrendingSize := 10

  /** An element of `data.posts`. */
  datatype TrendingPost = TrendingPost(id: string, imageUrls: seq<string>, createdAt: int, userId: string, votes: nat)

  /** The fields of a row an element copies, with the URL list derived from the stored string. */
  function Project(r: Row): (p: TrendingPost)
    ensures p.id == r.post.id && p.createdAt == r.post.createdAt && p.userId == r.post.userId && p.votes == r.votes
    ensures p.imageUrls == [] <==> r.post.imageUrl == ""
    ensures Text.Join(p.imageUrls, ',') == r.post.imageUrl
  {
    ImageUrlsFaithful(r.post.imageUrl);
    TrendingPost(r.post.id, ImageUrls(r.post.imageUrl), r.post.createdAt, r.post.userId, r.votes)
  }

  /** The rows the query returns: newest first, at most ten. */
  function Newest(rows: seq<Row>): (top: seq<Row>)
    ensures |top| <= TrendingSize
    ensures forall r :: r in top ==> r in rows
    ensures multiset(top) <= multiset(rows)
    ensures SortedDesc(top, ByCreatedAt)
    ensures forall r :: r in rows && r !in top ==>
      |top| == TrendingSize && r.post.createdAt <= top[TrendingSize - 1].post.createdAt
  {
    TopOfSorted(rows, ByCreatedAt, TrendingSize);
    Take(SortDesc(rows, ByCreatedAt), TrendingSize)
  }

  /** The `map` that builds the response elements. */
  function ProjectAll(top: seq<Row>): (posts: seq<TrendingPost>)
    ensures |posts| == |top|
    ensures forall i :: 0 <= i < |top| ==> posts[i] == Project(top[i])
  {
    if top == [] then [] else [Project(top[0])] + ProjectAll(top[1..])
  }

  /** `data.posts`: ordered by creation time, newest first, at most ten. */
  function Trending(rows: seq<Row>): (posts: seq<TrendingPost>)
    ensures |posts| <= TrendingSize
    ensures forall i, j :: 0 <= i < j < |posts| ==> posts[i].createdAt >= posts[j].createdAt
    ensures forall i :: 0 <= i < |posts| ==> exists r :: r in rows && posts[i] == Project(r)
    ensures posts == ProjectAll(Newest(rows))
  {
    var top := Newest(rows);
    var posts := ProjectAll(top);
    assert forall i :: 0 <= i < |posts| ==> top[i] in rows;
    posts
  }

  /** Each element's URL list is empty exactly when the stored string is, and joins back to it. */
  lemma TrendingUrlsFaithful(rows: seq<Row>, i: int)
    requires 0 <= i < |Trending(rows)|
    ensures var p := Trending(rows)[i];
      exists r :: r in rows && r.post.id == p.id
        && (p.imageUrls == [] <==> r.post.imageUrl == "")
        && Text.Join(p.imageUrls, ',') == r.post.imageUrl
  {
    var r :| r in rows && Trending(rows)[i] == Project(r);
  }

  datatype TrendingReply = TrendingReply(status: int, posts: seq<TrendingPost>, error: Option<string>)

  /** The route: the posts with 200, or no posts, 'Internal Server Error' and 500 when the query throws. */
  function TrendingResponse(q: Query<seq<Row>>): (r: TrendingReply)
    ensures q.Answered? ==> r == TrendingReply(200, Trending(q.value), None)
    ensures q.Failed? ==> r == TrendingReply(500, [], Some("Internal Server Error"))
  {
    match q
    case Answered(rows) => TrendingReply(200, Trending(rows), None)
    case Failed(_) => TrendingReply(500, [], Some("Internal Server Error"))
  }
}
