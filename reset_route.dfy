/**
  DELETE /api/stats/reset: an administrator wipes the day's competition, every
  vote and every post created at or after the start of today. The pure parts
  live here; the guarded mutation is `PostStore.Store.ResetToday`.
*/
module ResetRoute {
  import opened Wrappers
  import Collections
  import Text
  import opened Records

  /** The one address allowed to reset, compared exactly. */
  const AdminEmail := "your-admin-email@example.com"

  /** `!session?.user?.email || email !== admin` is the refusal; this is its negation. */
  predicate IsAdmin(email: Option<string>)
    ensures IsAdmin(email) <==> email == Some(AdminEmail)
  {
    Text.Present(email) && email.value == AdminEmail
  }

  /** What `post.deleteMany({ createdAt: { gte: today } })` leaves: the earlier posts, each as often as it occurs. */
  function PostsBefore(posts: seq<Post>, startOfToday: int): (r: seq<Post>)
    ensures forall p :: p in r <==> p in posts && p.createdAt < startOfToday
    ensures |r| <= |posts|
    ensures forall p :: multiset(r)[p] == if p.createdAt < startOfToday then multiset(posts)[p] else 0
  {
    Collections.Filter(posts, (p: Post) => p.createdAt < startOfToday)
  }

  /** The posts' reset distributes over concatenation and keeps a single post exactly when it is older than today. */
  lemma PostsBeforeAppend(a: seq<Post>, b: seq<Post>, startOfToday: int)
    ensures PostsBefore(a + b, startOfToday) == PostsBefore(a, startOfToday) + PostsBefore(b, startOfToday)
    ensures forall p :: PostsBefore([p], startOfToday) == if p.createdAt < startOfToday then [p] else []
  {
    Collections.FilterAppend(a, b, (p: Post) => p.createdAt < startOfToday);
  }

  /** What `vote.deleteMany({ createdAt: { gte: today } })` leaves: the earlier votes, each as often as it occurs. */
  function VotesBefore(votes: seq<Vote>, startOfToday: int): (r: seq<Vote>)
    ensures forall v :: v in r <==> v in votes && v.createdAt < startOfToday
    ensures |r| <= |votes|
    ensures forall v :: multiset(r)[v] == if v.createdAt < startOfToday then multiset(votes)[v] else 0
  {
    Collections.Filter(votes, (v: Vote) => v.createdAt < startOfToday)
  }

  /** The votes' reset distributes over concatenation and keeps a single vote exactly when it is older than today. */
  lemma VotesBeforeAppend(a: seq<Vote>, b: seq<Vote>, startOfToday: int)
    ensures VotesBefore(a + b, startOfToday) == VotesBefore(a, startOfToday) + VotesBefore(b, startOfToday)
    ensures forall v :: VotesBefore([v], startOfToday) == if v.createdAt < startOfToday then [v] else []
  {
    Collections.FilterAppend(a, b, (v: Vote) => v.createdAt < startOfToday);
  }

  /** When nothing was created today, a reset changes nothing. */
  lemma {:induction false} ResetOfOldPostsIsIdentity(posts: seq<Post>, startOfToday: int)
    requires forall i :: 0 <= i < |posts| ==> posts[i].createdAt < startOfToday
    ensures PostsBefore(posts, startOfToday) == posts
  {
    if posts != [] {
      ResetOfOldPostsIsIdentity(posts[1..], startOfToday);
      assert posts == [posts[0]] + posts[1..];
    }
  }

  /** Resetting twice is the same as resetting once. */
  lemma ResetIdempotent(posts: seq<Post>, startOfToday: int)
    ensures PostsBefore(PostsBefore(posts, startOfToday), startOfToday) == PostsBefore(posts, startOfToday)
  {
    var once := PostsBefore(posts, startOfToday);
    assert forall i :: 0 <= i < |once| ==> once[i] in once;
    ResetOfOldPostsIsIdentity(once, startOfToday);
  }

  /**
    A vote is never older than its post, so every vote that survives the reset
    still points at a surviving post.
  */
  lemma ResetKeepsConsistent(posts: seq<Post>, votes: seq<Vote>, startOfToday: int)
    requires Consistent(posts, votes)
    ensures Consistent(PostsBefore(posts, startOfToday), VotesBefore(votes, startOfToday))
  {
    var ps := PostsBefore(posts, startOfToday);
    forall v | v in VotesBefore(votes, startOfToday)
      ensures References(ps, v)
    {
      var p :| p in posts && p.id == v.postId && p.createdAt <= v.createdAt;
      assert p in ps;
    }
  }

  /** Removing only votes cannot break a reference. */
  lemma FewerVotesKeepConsistent(posts: seq<Post>, votes: seq<Vote>, kept: seq<Vote>)
    requires Consistent(posts, votes)
    requires forall v :: v in kept ==> v in votes
    ensures Consistent(posts, kept)
  {
  }
}
