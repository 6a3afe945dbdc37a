/**
  The persisted entities (users, posts, votes) and the query semantics the
  route handlers use: a post row together with its vote count (`_count.votes`),
  filtering on `createdAt`, and `orderBy` with a descending key.
  Timestamps are integer milliseconds.
*/
module Records {
  import opened Wrappers
  import Collections
  import Text
  import ApiErrorHandler

  datatype User = User(id: string, email: string)

  /** A stored post: `imageUrl` holds every uploaded URL joined with ','. */
  datatype Post = Post(id: string, userId: string, imageUrl: string, createdAt: int)

  datatype Vote = Vote(postId: string, userId: string, createdAt: int)

  /** A post as a query returns it, with the number of votes that reference it. */
  datatype Row = Row(post: Post, votes: nat)

  /** The number of votes cast for `postId`. */
  function VoteCount(votes: seq<Vote>, postId: string): (n: nat)
    ensures n <= |votes|
    ensures n == 0 <==> forall v :: v in votes ==> v.postId != postId
  {
    if votes == [] then 0
    else (if votes[0].postId == postId then 1 else 0) + VoteCount(votes[1..], postId)
  }

  /**
    Counting is additive and a single vote counts once for its own post and not
    at all for any other, which fixes `VoteCount` as the number of votes naming the post.
  */
  lemma {:induction false} VoteCountAppend(a: seq<Vote>, b: seq<Vote>, postId: string)
    ensures VoteCount(a + b, postId) == VoteCount(a, postId) + VoteCount(b, postId)
    ensures forall v :: VoteCount([v], postId) == if v.postId == postId then 1 else 0
  {
    if a != [] {
      assert (a + b)[1..] == a[1..] + b;
      VoteCountAppend(a[1..], b, postId);
    } else {
      assert a + b == b;
    }
  }

  /** Every post with its vote count, in store order. */
  function WithCounts(posts: seq<Post>, votes: seq<Vote>): (rows: seq<Row>)
    ensures |rows| == |posts|
    ensures forall i :: 0 <= i < |rows| ==> rows[i] == Row(posts[i], VoteCount(votes, posts[i].id))
  {
    if posts == [] then []
    else [Row(posts[0], VoteCount(votes, posts[0].id))] + WithCounts(posts[1..], votes)
  }

  /** `where: { createdAt: { gte: since } }`: the matching rows, each as often as it occurs. */
  function CreatedSince(rows: seq<Row>, since: int): (r: seq<Row>)
    ensures forall x :: x in r <==> x in rows && x.post.createdAt >= since
    ensures |r| <= |rows|
    ensures forall x :: multiset(r)[x] == if x.post.createdAt >= since then multiset(rows)[x] else 0
  {
    Collections.Filter(rows, (x: Row) => x.post.createdAt >= since)
  }

  /** The filter distributes over concatenation and keeps a single row exactly when it is recent enough. */
  lemma CreatedSinceAppend(a: seq<Row>, b: seq<Row>, since: int)
    ensures CreatedSince(a + b, since) == CreatedSince(a, since) + CreatedSince(b, since)
    ensures forall x :: CreatedSince([x], since) == if x.post.createdAt >= since then [x] else []
  {
    Collections.FilterAppend(a, b, (x: Row) => x.post.createdAt >= since);
  }

  /** The sort keys the routes order by. */
  datatype Key = ByVotes | ByCreatedAt

  function KeyOf(r: Row, k: Key): int {
    match k
    case ByVotes => r.votes
    case ByCreatedAt => r.post.createdAt
  }

  ghost predicate SortedDesc(s: seq<Row>, k: Key) {
    forall i, j :: 0 <= i < j < |s| ==> KeyOf(s[i], k) >= KeyOf(s[j], k)
  }

  /** Insert `x` before the first element whose key is not larger. */
  function Insert(x: Row, s: seq<Row>, k: Key): (r: seq<Row>)
    ensures |r| == |s| + 1
  {
    if s == [] then [x]
    else if KeyOf(x, k) >= KeyOf(s[0], k) then [x] + s
    else [s[0]] + Insert(x, s[1..], k)
  }

  /** `orderBy: { <key>: 'desc' }`, by insertion; equal keys keep their input order. */
  function SortDesc(s: seq<Row>, k: Key): (r: seq<Row>)
    ensures |r| == |s|
  {
    if s == [] then [] else Insert(s[0], SortDesc(s[1..], k), k)
  }

  lemma {:induction false} InsertPermutes(x: Row, s: seq<Row>, k: Key)
    ensures multiset(Insert(x, s, k)) == multiset(s) + multiset{x}
  {
    if s != [] && KeyOf(x, k) < KeyOf(s[0], k) {
      InsertPermutes(x, s[1..], k);
      assert s == [s[0]] + s[1..];
    }
  }

  /** Inserting a row under a bound into rows under that bound keeps every row under it. */
  lemma {:induction false} InsertBounded(x: Row, s: seq<Row>, k: Key, bound: int)
    requires KeyOf(x, k) <= bound
    requires forall i :: 0 <= i < |s| ==> KeyOf(s[i], k) <= bound
    ensures forall i :: 0 <= i < |Insert(x, s, k)| ==> KeyOf(Insert(x, s, k)[i], k) <= bound
  {
    if s != [] && KeyOf(x, k) < KeyOf(s[0], k) {
      InsertBounded(x, s[1..], k, bound);
    }
  }

  lemma {:induction false} InsertSorted(x: Row, s: seq<Row>, k: Key)
    requires SortedDesc(s, k)
    ensures SortedDesc(Insert(x, s, k), k)
  {
    if s != [] && KeyOf(x, k) < KeyOf(s[0], k) {
      var tail := s[1..];
      assert SortedDesc(tail, k);
      InsertSorted(x, tail, k);
      assert forall i :: 0 <= i < |tail| ==> tail[i] == s[i + 1];
      InsertBounded(x, tail, k, KeyOf(s[0], k));
      var rest := Insert(x, tail, k);
      var r := [s[0]] + rest;
      forall i, j | 0 <= i < j < |r|
        ensures KeyOf(r[i], k) >= KeyOf(r[j], k)
      {
        assert r[j] == rest[j - 1];
        if i > 0 {
          assert r[i] == rest[i - 1];
        }
      }
    }
  }

  /** Sorting gives a non-increasing arrangement of exactly the input rows. */
  lemma {:induction false} SortDescCorrect(s: seq<Row>, k: Key)
    ensures SortedDesc(SortDesc(s, k), k)
    ensures multiset(SortDesc(s, k)) == multiset(s)
  {
    if s != [] {
      SortDescCorrect(s[1..], k);
      InsertSorted(s[0], SortDesc(s[1..], k), k);
      InsertPermutes(s[0], SortDesc(s[1..], k), k);
      assert s == [s[0]] + s[1..];
    }
  }

  /** Ordering keeps exactly the rows it was given, each as often. */
  lemma SortDescMembers(s: seq<Row>, k: Key)
    ensures |SortDesc(s, k)| == |s|
    ensures forall x :: x in SortDesc(s, k) <==> x in s
  {
    SortDescCorrect(s, k);
    assert |multiset(SortDesc(s, k))| == |multiset(s)|;
    forall x ensures x in SortDesc(s, k) <==> x in s {
      assert x in SortDesc(s, k) <==> x in multiset(SortDesc(s, k));
      assert x in s <==> x in multiset(s);
    }
  }

  /** A contiguous slice of a descending order is still in descending order. */
  lemma SortedSlice(s: seq<Row>, k: Key, i: nat, j: nat)
    requires SortedDesc(s, k) && i <= j <= |s|
    ensures SortedDesc(s[i..j], k)
  {
    var t := s[i..j];
    forall a, b | 0 <= a < b < |t| ensures KeyOf(t[a], k) >= KeyOf(t[b], k) {
      assert t[a] == s[i + a] && t[b] == s[i + b];
    }
  }

  /** `take: n` after an ordering: the first `n` rows, or all of them. */
  function Take(s: seq<Row>, n: nat): (r: seq<Row>)
    ensures |r| <= n && |r| <= |s|
    ensures |r| == n || r == s
    ensures r <= s
  {
    if |s| <= n then s else s[..n]
  }

  /**
    The first `n` rows of a descending order, none taken more often than it occurs,
    beat every row that was left out:
    a row of the input that is not among them has a key no larger than the last
    row taken, and when fewer than `n` are taken nothing was left out.
  */
  lemma TopOfSorted(s: seq<Row>, k: Key, n: nat)
    ensures var top := Take(SortDesc(s, k), n);
      && SortedDesc(top, k)
      && (forall x :: x in top ==> x in s)
      && multiset(top) <= multiset(s)
      && (|top| < n ==> multiset(top) == multiset(s))
      && (forall x :: x in s && x !in top ==> |top| == n && (n > 0 ==> KeyOf(x, k) <= KeyOf(top[n - 1], k)))
  {
    var sorted := SortDesc(s, k);
    SortDescCorrect(s, k);
    var top := Take(sorted, n);
    Collections.PrefixMultiset(top, sorted);
    forall x | x in top ensures x in s {
      assert x in multiset(sorted);
    }
    forall x | x in s && x !in top
      ensures |top| == n && (n > 0 ==> KeyOf(x, k) <= KeyOf(top[n - 1], k))
    {
      assert x in multiset(sorted);
      var j :| 0 <= j < |sorted| && sorted[j] == x;
      assert forall i :: 0 <= i < |top| ==> top[i] == sorted[i];
      assert j >= |top|;
    }
  }

  /** An error reply of a route: its HTTP status and its `error` message. */
  datatype ApiError = ApiError(status: int, message: string)

  /** How a database query ended: with its result, or by throwing. */
  datatype Query<T> = Answered(value: T) | Failed(thrown: ApiErrorHandler.Thrown)

  /** The first user with this email (`findUnique({ where: { email } })`). */
  function FindUserByEmail(users: seq<User>, email: string): (u: Option<User>)
    ensures u.Some? ==> u.value in users && u.value.email == email
    ensures u.None? <==> forall x :: x in users ==> x.email != email
  {
    Collections.Find(users, (x: User) => x.email == email)
  }

  /** The first post with this id (`findUnique({ where: { id } })`). */
  function FindPost(posts: seq<Post>, id: string): (p: Option<Post>)
    ensures p.Some? ==> p.value in posts && p.value.id == id
    ensures p.None? <==> forall x :: x in posts ==> x.id != id
  {
    Collections.Find(posts, (x: Post) => x.id == id)
  }

  /** `post.imageUrl ? post.imageUrl.split(',') : []`. */
  function ImageUrls(imageUrl: string): (urls: seq<string>)
    ensures forall i :: 0 <= i < |urls| ==> ',' !in urls[i]
    ensures imageUrl != "" ==> |urls| >= 1
  {
    if imageUrl == "" then [] else Text.Split(imageUrl, ',')
  }

  /** The derived list is empty exactly when the stored string is, and joins back to it. */
  lemma ImageUrlsFaithful(imageUrl: string)
    ensures ImageUrls(imageUrl) == [] <==> imageUrl == ""
    ensures Text.Join(ImageUrls(imageUrl), ',') == imageUrl
  {
    Text.JoinSplit(imageUrl, ',');
  }

  /** Deriving the list from a stored join of URLs gives the URLs back. */
  lemma ImageUrlsRoundTrip(urls: seq<string>)
    requires |urls| >= 1
    requires forall i :: 0 <= i < |urls| ==> ',' !in urls[i] && urls[i] != ""
    ensures ImageUrls(Text.Join(urls, ',')) == urls
  {
    Text.SplitJoin(urls, ',');
  }

  /** The vote's post exists and was created no later than the vote. */
  ghost predicate References(posts: seq<Post>, v: Vote) {
    exists p :: p in posts && p.id == v.postId && p.createdAt <= v.createdAt
  }

  /** Referential integrity of the store: every vote belongs to a post that existed when it was cast. */
  ghost predicate Consistent(posts: seq<Post>, votes: seq<Vote>) {
    forall v :: v in votes ==> References(posts, v)
  }
}
