/**
  GET /api/posts/winner: a post of today (from UTC midnight) with the most
  votes, with no tie-break, projected onto the response fields; 404 when
  nothing was posted today.
*/
module PostWinnerRoute {
  import opened Wrappers
  import Text
  import opened Records
  import DailyWinnerRoute

  /** `findFirst` ordered by `_count.votes` only: the first row with the most votes. */
  function TopByVotes(rows: seq<Row>): (w: Row)
    requires |rows| >= 1
    ensures w in rows
    ensures forall r :: r in rows ==> r.votes <= w.votes
  {
    if |rows| == 1 then rows[0]
    else
      var rest := TopByVotes(rows[1..]);
      assert forall r :: r in rows ==> r == rows[0] || r in rows[1..];
      if rows[0].votes >= rest.votes then rows[0] else rest
  }

  /** The response body: `id`, `imageUrls`, `createdAt`, the owner and `_count`. */
  datatype WinnerReply = WinnerReply(id: string, imageUrls: seq<string>, createdAt: int, userId: string, votes: nat)

  /** The fields of a row the response copies, with the URL list derived from the stored string. */
  function Project(r: Row): (p: WinnerReply)
    ensures p.id == r.post.id && p.createdAt == r.post.createdAt && p.userId == r.post.userId && p.votes == r.votes
    ensures p.imageUrls == [] <==> r.post.imageUrl == ""
    ensures Text.Join(p.imageUrls, ',') == r.post.imageUrl
  {
    ImageUrlsFaithful(r.post.imageUrl);
    WinnerReply(r.post.id, ImageUrls(r.post.imageUrl), r.post.createdAt, r.post.userId, r.votes)
  }

  const NoPostsToday := ApiError(404, "No posts found for today")

  /** A most-voted post since `utcMidnight`, or 404 when there is none. */
  function PostWinner(rows: seq<Row>, utcMidnight: int): (r: Result<WinnerReply, ApiError>)
    ensures r.Failure? <==> forall x :: x in rows ==> x.post.createdAt < utcMidnight
    ensures r.Failure? ==> r.error == NoPostsToday
    ensures r.Success? ==> exists x :: x in rows && x.post.createdAt >= utcMidnight && r.value == Project(x)
    ensures r.Success? ==> forall x :: x in rows && x.post.createdAt >= utcMidnight ==> x.votes <= r.value.votes
  {
    var today := CreatedSince(rows, utcMidnight);
    if today == [] then
      assert forall x :: x in rows ==> x !in today;
      Failure(NoPostsToday)
    else
      assert today[0] in rows;
      var best := TopByVotes(today);
      Success(Project(best))
  }

  /** The route: the winner, the 404, or a 500 when the query throws. */
  function PostWinnerResponse(q: Query<seq<Row>>, utcMidnight: int): (r: Result<WinnerReply, ApiError>)
    ensures q.Answered? ==> r == PostWinner(q.value, utcMidnight)
    ensures q.Failed? ==> r == Failure(ApiError(500, "Error determining winner"))
  {
    match q
    case Answered(rows) => PostWinner(rows, utcMidnight)
    case Failed(_) => Failure(ApiError(500, "Error determining winner"))
  }

  /**
    Over the same day the two winner routes may name different posts when votes
    tie, but always one with the same number of votes, and one exists for both
    or for neither.
  */
  lemma WinnersAgreeOnVotes(rows: seq<Row>, startOfToday: int)
    ensures PostWinner(rows, startOfToday).Success? <==> DailyWinnerRoute.DailyWinner(rows, startOfToday).Some?
    ensures PostWinner(rows, startOfToday).Success? ==>
      PostWinner(rows, startOfToday).value.votes == DailyWinnerRoute.DailyWinner(rows, startOfToday).value.row.votes
  {
    var p := PostWinner(rows, startOfToday);
    var d := DailyWinnerRoute.DailyWinner(rows, startOfToday);
    if p.Success? {
      var x :| x in rows && x.post.createdAt >= startOfToday && p.value == Project(x);
      assert x.votes <= d.value.row.votes;
    }
  }
}
