/**
  GET /api/winners/history: the five most-voted posts among those created in
  the last seven days.
*/
module WinnerHistoryRoute {
  import opened Records
  import SelectionTime

  const HistoryDays := 7
  const HistorySize := 5

  /** `pastDate.setDate(pastDate.getDate() - 7)`, as a fixed span of seven 24-hour days. */
  function WindowStart(now: int): (since: int)
    ensures now - since == 7 * SelectionTime.DayMs
  {
    now - HistoryDays * SelectionTime.DayMs
  }

  /** The posts returned, most votes first. */
  function History(rows: seq<Row>, now: int): (top: seq<Row>)
    ensures |top| <= HistorySize
    ensures forall r :: r in top ==> r in rows && r.post.createdAt >= WindowStart(now)
    ensures multiset(top) <= multiset(CreatedSince(rows, WindowStart(now)))
    ensures SortedDesc(top, ByVotes)
    ensures forall r :: r in rows && r.post.createdAt >= WindowStart(now) && r !in top ==>
      |top| == HistorySize && r.votes <= top[HistorySize - 1].votes
  {
    var recent := CreatedSince(rows, WindowStart(now));
    TopOfSorted(recent, ByVotes, HistorySize);
    Take(SortDesc(recent, ByVotes), HistorySize)
  }

  /** Fewer than five results means every post of the window was returned. */
  lemma ShortHistoryIsComplete(rows: seq<Row>, now: int)
    requires |History(rows, now)| < HistorySize
    ensures multiset(History(rows, now)) == multiset(CreatedSince(rows, WindowStart(now)))
  {
    TopOfSorted(CreatedSince(rows, WindowStart(now)), ByVotes, HistorySize);
  }

  datatype HistoryReply = HistoryReply(status: int, winners: seq<Row>)

  /** The route: the list with 200, or an empty list with 500 when the query throws. */
  function HistoryResponse(q: Query<seq<Row>>, now: int): (r: HistoryReply)
    ensures q.Answered? ==> r == HistoryReply(200, History(q.value, now))
    ensures q.Failed? ==> r == HistoryReply(500, [])
  {
    match q
    case Answered(rows) => HistoryReply(200, History(rows, now))
    case Failed(_) => HistoryReply(500, [])
  }
}
