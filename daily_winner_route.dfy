/**
  GET /api/winners/daily: the first of today's posts under the ordering "most
  votes first, then the earliest", or null when nothing was posted today, with
  its stored URL string split into `images`.
*/
module DailyWinnerRoute {
  import opened Wrappers
  import Text
  import opened Records

  /** The query's `orderBy`: `_count.votes` descending, then `createdAt` ascending. */
  predicate RanksFirst(a: Row, b: Row)
    ensures RanksFirst(a, b) ==> a.votes >= b.votes
    ensures a.votes > b.votes ==> RanksFirst(a, b)
  {
    a.votes > b.votes || (a.votes == b.votes && a.post.createdAt <= b.post.createdAt)
  }

  /** `findFirst` under that order: a row ranking at least as high as every row. */
  function Leader(rows: seq<Row>): (w: Row)
    requires |rows| >= 1
    ensures w in rows
    ensures forall r :: r in rows ==> RanksFirst(w, r)
  {
    if |rows| == 1 then rows[0]
    else
      var rest := Leader(rows[1..]);
      assert forall r :: r in rows ==> r == rows[0] || r in rows[1..];
      if RanksFirst(rows[0], rest) then rows[0] else rest
  }

  /** The winner with `images: imageUrl.split(',')`. */
  datatype Winner = Winner(row: Row, images: seq<string>)

  /** The winner of the day starting at `startOfToday`, if anything was posted since. */
  function DailyWinner(rows: seq<Row>, startOfToday: int): (w: Option<Winner>)
    ensures w.None? <==> forall r :: r in rows ==> r.post.createdAt < startOfToday
    ensures w.Some? ==> w.value.row in rows && w.value.row.post.createdAt >= startOfToday
    ensures w.Some? ==> forall r :: r in rows && r.post.createdAt >= startOfToday ==> r.votes <= w.value.row.votes
    ensures w.Some? ==> forall r :: r in rows && r.post.createdAt >= startOfToday && r.votes == w.value.row.votes
                                  ==> w.value.row.post.createdAt <= r.post.createdAt
    ensures w.Some? ==> w.value.images == Text.Split(w.value.row.post.imageUrl, ',') && |w.value.images| >= 1
  {
    var today := CreatedSince(rows, startOfToday);
    if today == [] then
      assert forall r :: r in rows ==> r !in today;
      None
    else
      assert today[0] in rows;
      var best := Leader(today);
      Some(Winner(best, Text.Split(best.post.imageUrl, ',')))
  }

  /** The images always join back to the stored string, even when it is empty. */
  lemma WinnerImagesFaithful(rows: seq<Row>, startOfToday: int)
    requires DailyWinner(rows, startOfToday).Some?
    ensures var w := DailyWinner(rows, startOfToday).value;
      Text.Join(w.images, ',') == w.row.post.imageUrl
  {
    var w := DailyWinner(rows, startOfToday).value;
    Text.JoinSplit(w.row.post.imageUrl, ',');
  }

  /** The route: the winner or `null`, or a 500 when the query throws. */
  function DailyWinnerResponse(q: Query<seq<Row>>, startOfToday: int): (r: Result<Option<Winner>, ApiError>)
    ensures q.Answered? ==> r == Success(DailyWinner(q.value, startOfToday))
    ensures q.Failed? ==> r == Failure(ApiError(500, "Error fetching daily winner"))
  {
    match q
    case Answered(rows) => Success(DailyWinner(rows, startOfToday))
    case Failed(_) => Failure(ApiError(500, "Error fetching daily winner"))
  }
}
