/**
  The database the server routes mutate: users, posts and votes, as a class
  whose methods are the state-changing route handlers. Each parallel step of a
  `Promise.all` is given its own success flag: a step takes effect exactly when
  its flag is set, and the route answers success only when every flag is set.
*/
module PostStore {
  import opened Wrappers
  import Text
  import opened Records
  import PostsRoute
  import ResetRoute

  /** The reply of a mutating route: `{ success: true }` or an error with its status. */
  datatype Reply = Done | Refused(error: ApiError)

  class Store {
    var users: seq<User>
    var posts: seq<Post>
    var votes: seq<Vote>

    /** Every vote points at a post that existed when the vote was cast. */
    ghost predicate Valid()
      reads this
    {
      Consistent(posts, votes)
    }

    /** The model's starting state: the given users, and no posts or votes yet. */
    constructor (users: seq<User>)
      ensures this.users == users && posts == [] && votes == []
      ensures Valid()
    {
      this.users := users;
      posts := [];
      votes := [];
    }

    /**
      POST /api/posts after the uploads: the checks and uploads decide the post;
      `createOk` is whether `post.create` succeeded, `dbMessage` its error text.
    */
    method CreatePost(email: Option<string>, configured: bool, images: seq<PostsRoute.ImageUpload>,
                      newId: string, now: int, createOk: bool, dbMessage: string)
      returns (r: Result<Post, ApiError>)
      modifies this
      ensures users == old(users) && votes == old(votes)
      ensures var planned := PostsRoute.NewPost(email, configured, old(users), images, newId, now);
        if planned.Failure? then r == planned && posts == old(posts)
        else if !createOk then r == Failure(ApiError(500, "Database error: " + dbMessage)) && posts == old(posts)
        else r == planned && posts == old(posts) + [planned.value]
      ensures old(Valid()) ==> Valid()
    {
      var planned := PostsRoute.NewPost(email, configured, users, images, newId, now);
      if planned.Failure? {
        return planned;
      }
      if !createOk {
        return Failure(ApiError(500, "Database error: " + dbMessage));
      }
      ghost var before := posts;
      posts := posts + [planned.value];
      forall v | v in votes && References(before, v) ensures References(posts, v) {
        var p :| p in before && p.id == v.postId && p.createdAt <= v.createdAt;
        assert p in posts;
      }
      r := planned;
    }

    /**
      DELETE /api/posts?id=…: after the checks, the image ids to destroy are
      returned in `destroyed`; the vote cascade and the post removal each happen
      iff their flag is set; the reply is success iff every step succeeded.
    */
    method DeletePost(email: Option<string>, postId: Option<string>,
                      destroyOk: bool, votesOk: bool, postOk: bool, failure: string)
      returns (r: Reply, destroyed: seq<string>)
      modifies this
      ensures users == old(users)
      ensures var checked := PostsRoute.CheckDelete(email, postId, old(posts), old(users));
        if checked.Failure? then
          r == Refused(checked.error) && destroyed == [] && posts == old(posts) && votes == old(votes)
        else
          && destroyed == PostsRoute.DestroyTargets(Text.Split(checked.value.imageUrl, ','))
          && votes == (if votesOk then PostsRoute.VotesNotFor(old(votes), postId.value) else old(votes))
          && posts == (if postOk then PostsRoute.PostsWithout(old(posts), postId.value) else old(posts))
          && r == (if destroyOk && votesOk && postOk then Done else Refused(ApiError(500, "Error deleting post: " + failure)))
      ensures old(Valid()) && votesOk ==> Valid()
    {
      var checked := PostsRoute.CheckDelete(email, postId, posts, users);
      if checked.Failure? {
        return Refused(checked.error), [];
      }
      var id := postId.value;
      destroyed := PostsRoute.DestroyTargets(Text.Split(checked.value.imageUrl, ','));
      var kept := if votesOk then PostsRoute.VotesNotFor(votes, id) else votes;
      var remaining := if postOk then PostsRoute.PostsWithout(posts, id) else posts;
      if votesOk && Consistent(posts, votes) {
        if postOk {
          PostsRoute.DeleteKeepsConsistent(posts, votes, id);
        } else {
          ResetRoute.FewerVotesKeepConsistent(posts, votes, kept);
        }
      }
      votes, posts := kept, remaining;
      r := if destroyOk && votesOk && postOk then Done else Refused(ApiError(500, "Error deleting post: " + failure));
    }

    /**
      DELETE /api/stats/reset: anyone but the administrator is refused and nothing
      changes; otherwise today's votes and today's posts are each removed iff
      their flag is set, and users are never touched.
    */
    method ResetToday(email: Option<string>, startOfToday: int, votesOk: bool, postsOk: bool)
      returns (r: Reply)
      modifies this
      ensures users == old(users)
      ensures !ResetRoute.IsAdmin(email) ==>
        r == Refused(ApiError(401, "Unauthorized")) && posts == old(posts) && votes == old(votes)
      ensures ResetRoute.IsAdmin(email) ==>
        && votes == (if votesOk then ResetRoute.VotesBefore(old(votes), startOfToday) else old(votes))
        && posts == (if postsOk then ResetRoute.PostsBefore(old(posts), startOfToday) else old(posts))
        && r == (if votesOk && postsOk then Done else Refused(ApiError(500, "Error resetting stats")))
      ensures r == Done ==> forall v :: v in votes ==> v.createdAt < startOfToday
      ensures r == Done ==> forall p :: p in posts ==> p.createdAt < startOfToday
      ensures old(Valid()) && votesOk ==> Valid()
    {
      if !ResetRoute.IsAdmin(email) {
        return Refused(ApiError(401, "Unauthorized"));
      }
      ghost var valid := Valid();
      if votesOk {
        votes := ResetRoute.VotesBefore(votes, startOfToday);
        if valid {
          ResetRoute.FewerVotesKeepConsistent(posts, old(votes), votes);
        }
      }
      if postsOk {
        if votesOk && valid {
          ResetRoute.ResetKeepsConsistent(posts, old(votes), startOfToday);
        }
        posts := ResetRoute.PostsBefore(posts, startOfToday);
      }
      r := if votesOk && postsOk then Done else Refused(ApiError(500, "Error resetting stats"));
    }
  }
}
