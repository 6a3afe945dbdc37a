/**
  The feed component: today's posts page by page with infinite scroll, the
  optimistic vote and its revert, the optimistic delete, and the lightbox it
  opens. The component state is the class `Feed`; the transforms it hands to
  `setPosts` are the functions beside it. Each network call is an outcome
  parameter of the handler that awaits it.
*/
module PostList {
  import opened Wrappers
  import Collections
  import Text
  import PostsRoute

  /** The number of posts the feed asks for per page (`limit=9`). */
  const PageSize := 9

  /** A post as the feed holds it once normalised; `votes` is `_count.votes`. */
  datatype FeedPost = FeedPost(id: string, imageUrls: seq<string>, createdAt: int, ownerEmail: string, votes: int)

  /** A post as it arrives: `imageUrls` is an array or missing, `imageUrl` optional. */
  datatype RawPost = RawPost(id: string, imageUrls: Option<seq<string>>, imageUrl: Option<string>,
                             createdAt: int, ownerEmail: string, votes: int)

  /**
    `Array.isArray(imageUrls) ? imageUrls : (imageUrl || '').split(',').filter(Boolean)`:
    an array is kept as is; otherwise the stored string is split and the empty
    pieces dropped.
  */
  function NormaliseUrls(imageUrls: Option<seq<string>>, imageUrl: Option<string>): (urls: seq<string>)
    ensures imageUrls.Some? ==> urls == imageUrls.value
    ensures imageUrls.None? ==> "" !in urls
    ensures imageUrls.None? ==> forall u :: u in urls ==> ',' !in u
    ensures imageUrls.None? ==> forall u :: u in urls <==> u != "" && u in Text.Split(imageUrl.GetOr(""), ',')
    ensures imageUrls.None? && !Text.Present(imageUrl) ==> urls == []
  {
    if imageUrls.Some? then imageUrls.value
    else
      var parts := Text.Split(if Text.Present(imageUrl) then imageUrl.value else "", ',');
      Text.NonEmpty(parts)
  }

  /** A stored join of non-empty, comma-free URLs normalises back to those URLs. */
  lemma NormaliseRecoversUrls(urls: seq<string>)
    requires forall i :: 0 <= i < |urls| ==> ',' !in urls[i] && urls[i] != ""
    ensures NormaliseUrls(None, Some(Text.Join(urls, ','))) == urls
  {
    if urls != [] {
      Text.SplitJoin(urls, ',');
      Text.NonEmptyKeepsAll(urls);
    }
  }

  function Normalise(p: RawPost): FeedPost {
    FeedPost(p.id, NormaliseUrls(p.imageUrls, p.imageUrl), p.createdAt, p.ownerEmail, p.votes)
  }

  /** `postsData.map(...)`: every post normalised, in order. */
  function NormaliseAll(ps: seq<RawPost>): (r: seq<FeedPost>)
    ensures |r| == |ps|
    ensures forall i :: 0 <= i < |ps| ==> r[i] == Normalise(ps[i])
  {
    if ps == [] then [] else [Normalise(ps[0])] + NormaliseAll(ps[1..])
  }

  /**
    The parsed body: a bare array, or an object whose `data.posts` or, failing
    that, `posts` holds the list (a missing field is `None`).
  */
  datatype Payload = ListPayload(items: seq<RawPost>)
                   | ObjectPayload(dataPosts: Option<seq<RawPost>>, posts: Option<seq<RawPost>>)

  /** `Array.isArray(d) ? d : d.data?.posts ? … : d.posts ? … : []`. */
  function PostsOf(payload: Payload): (ps: seq<RawPost>)
    ensures payload.ListPayload? ==> ps == payload.items
    ensures payload.ObjectPayload? && payload.dataPosts.Some? ==> ps == payload.dataPosts.value
    ensures payload.ObjectPayload? && payload.dataPosts.None? ==> ps == payload.posts.GetOr([])
  {
    match payload
    case ListPayload(items) => items
    case ObjectPayload(dataPosts, posts) =>
      if dataPosts.Some? then dataPosts.value else posts.GetOr([])
  }

  /** How the `fetch` of a page ended. */
  datatype FetchOutcome =
    | Responded(payload: Payload)
      /** `!response.ok`, with the body's `error` field if it had one. */
    | HttpError(status: int, error: Option<string>)
      /** The request or the parsing threw; `None` for a thrown non-Error. */
    | Threw(message: Option<string>)

  /** The page the outcome delivers, normalised, or the message `error` is set to. */
  function PageOf(outcome: FetchOutcome): (r: Result<seq<FeedPost>, string>)
    ensures outcome.Responded? ==> r == Success(NormaliseAll(PostsOf(outcome.payload)))
    ensures outcome.HttpError? && Text.Present(outcome.error) ==> r == Failure(outcome.error.value)
    ensures outcome.HttpError? && !Text.Present(outcome.error) ==>
      r == Failure("Server responded with " + Text.IntToString(outcome.status))
    ensures outcome.Threw? ==> r == Failure(outcome.message.GetOr("Failed to load posts"))
  {
    match outcome
    case Responded(payload) => Success(NormaliseAll(PostsOf(payload)))
    case HttpError(status, error) =>
      Failure(if Text.Present(error) then error.value else "Server responded with " + Text.IntToString(status))
    case Threw(message) => Failure(message.GetOr("Failed to load posts"))
  }

  /** The `setPosts` of `fetchPosts`: append or replace on success; keep or clear on failure. */
  function ApplyPage(prev: seq<FeedPost>, append: bool, page: Result<seq<FeedPost>, string>): (r: seq<FeedPost>)
    ensures page.Success? && append ==> r == prev + page.value
    ensures page.Success? && !append ==> r == page.value
    ensures page.Failure? && append ==> r == prev
    ensures page.Failure? && !append ==> r == []
  {
    match page
    case Success(data) => if append then prev + data else data
    case Failure(_) => if append then prev else []
  }

  /** Whether a fetch lets `hasMore` stay true: only a full page does. */
  predicate KeepsMore(page: Result<seq<FeedPost>, string>) {
    page.Success? && |page.value| >= PageSize
  }

  /** `Math.ceil(posts.length / 9) + 1`. */
  function NextPage(loaded: nat): (page: int)
    ensures page >= 1
  {
    (loaded + PageSize - 1) / PageSize + 1
  }

  /**
    The page the infinite scroll asks for starts at or after the posts already
    loaded and less than one page beyond them; after only full pages it starts
    exactly after them.
  */
  lemma NextPageFollowsLoaded(loaded: nat)
    ensures var skip := PostsRoute.Offset(PostsRoute.Paging(NextPage(loaded), PageSize));
      loaded <= skip < loaded + PageSize
    ensures loaded % PageSize == 0 ==> PostsRoute.Offset(PostsRoute.Paging(NextPage(loaded), PageSize)) == loaded
  {
    var q := (loaded + PageSize - 1) / PageSize;
    assert PostsRoute.Offset(PostsRoute.Paging(q + 1, PageSize)) == q * PageSize;
  }

  /** The optimistic `map`: `delta` is added to the count of every post with this id. */
  function Bump(ps: seq<FeedPost>, id: string, delta: int): (r: seq<FeedPost>)
    ensures |r| == |ps|
    ensures forall i :: 0 <= i < |ps| ==> r[i] == (if ps[i].id == id then ps[i].(votes := ps[i].votes + delta) else ps[i])
  {
    if ps == [] then [] else
      [if ps[0].id == id then ps[0].(votes := ps[0].votes + delta) else ps[0]] + Bump(ps[1..], id, delta)
  }

  /** The revert undoes the optimistic increment exactly. */
  lemma {:induction false} BumpRevert(ps: seq<FeedPost>, id: string)
    ensures Bump(Bump(ps, id, 1), id, -1) == ps
  {
    if ps != [] {
      BumpRevert(ps[1..], id);
      assert Bump(ps, id, 1)[1..] == Bump(ps[1..], id, 1);
    }
  }

  /** The optimistic delete: `filter(post => post.id !== id)`. */
  function Without(ps: seq<FeedPost>, id: string): (r: seq<FeedPost>)
    ensures forall p :: p in r <==> p in ps && p.id != id
    ensures |r| <= |ps|
  {
    Collections.Filter(ps, (p: FeedPost) => p.id != id)
  }

  /** Filtering distributes over concatenation, so the survivors keep their relative order. */
  lemma WithoutAppend(a: seq<FeedPost>, b: seq<FeedPost>, id: string)
    ensures Without(a + b, id) == Without(a, id) + Without(b, id)
  {
    Collections.FilterAppend(a, b, (p: FeedPost) => p.id != id);
  }

  /** When no post has the id, the delete leaves the list as it was. */
  lemma WithoutAbsent(ps: seq<FeedPost>, id: string)
    requires forall i :: 0 <= i < |ps| ==> ps[i].id != id
    ensures Without(ps, id) == ps
  {
    Collections.FilterKeepsAll(ps, (p: FeedPost) => p.id != id);
  }

  /** The images the lightbox opens with: the post's, or the default image when it has none. */
  function LightboxImages(urls: seq<string>): (images: seq<string>)
    ensures |images| >= 1
    ensures urls != [] ==> images == urls
    ensures urls == [] ==> images == ["/default-image.jpg"]
  {
    if |urls| > 0 then urls else ["/default-image.jpg"]
  }

  /** `selectedImage`: the images shown and the index opened at. */
  datatype Selection = Selection(images: seq<string>, index: int)

  /** How the DELETE request ended: an ok response, a non-ok response, or a thrown `fetch`. */
  datatype DeleteOutcome = Deleted | NotDeleted | RequestThrew

  /** How the vote request ended. */
  datatype VoteOutcome = Accepted | Rejected | NetworkError

  class Feed {
    var posts: seq<FeedPost>
    var loading: bool
    var votingId: Option<string>
    var deletePostId: Option<string>
    var isDeleting: bool
    var hasMore: bool
    var isLoadingMore: bool
    var error: Option<string>
    var selected: Option<Selection>

    /** The initial `useState` values. */
    constructor ()
      ensures posts == [] && loading && votingId == None && deletePostId == None && !isDeleting
      ensures hasMore && !isLoadingMore && error == None && selected == None
    {
      posts := [];
      loading := true;
      votingId := None;
      deletePostId := None;
      isDeleting := false;
      hasMore := true;
      isLoadingMore := false;
      error := None;
      selected := None;
    }

    /**
      `fetchPosts(page, append)` once its request has ended with `outcome`.
      `hasMore` can only go from true to false.
    */
    method Fetch(append: bool, outcome: FetchOutcome)
      modifies this
      ensures posts == ApplyPage(old(posts), append, PageOf(outcome))
      ensures hasMore == (old(hasMore) && KeepsMore(PageOf(outcome)))
      ensures hasMore ==> old(hasMore)
      ensures PageOf(outcome).Failure? ==> error == Some(PageOf(outcome).error)
      ensures PageOf(outcome).Success? ==> error == (if append then old(error) else None)
      ensures !loading && !isLoadingMore
      ensures votingId == old(votingId) && deletePostId == old(deletePostId)
      ensures isDeleting == old(isDeleting) && selected == old(selected)
    {
      if !append {
        loading := true;
        error := None;
      }
      var page := PageOf(outcome);
      match page {
        case Success(data) =>
          if |data| < PageSize {
            hasMore := false;
          }
          posts := if append then posts + data else data;
        case Failure(message) =>
          error := Some(message);
          hasMore := false;
          if !append {
            posts := [];
          }
      }
      loading := false;
      isLoadingMore := false;
    }

    /**
      The infinite-scroll effect: when the sentinel is in view, more may come and
      nothing is loading, the next page is requested and appended.
    */
    method LoadMore(inView: bool, outcome: FetchOutcome) returns (requested: Option<int>)
      modifies this
      ensures var go := inView && old(hasMore) && !old(isLoadingMore) && !old(loading);
        && (go ==> requested == Some(NextPage(|old(posts)|)))
        && (go ==> posts == ApplyPage(old(posts), true, PageOf(outcome)))
        && (go ==> hasMore == KeepsMore(PageOf(outcome)) && !isLoadingMore && !loading)
        && (!go ==> requested == None && posts == old(posts) && hasMore == old(hasMore))
        && (go ==> error == (if PageOf(outcome).Failure? then Some(PageOf(outcome).error) else old(error)))
        && (!go ==> isLoadingMore == old(isLoadingMore) && loading == old(loading) && error == old(error))
      ensures hasMore ==> old(hasMore)
      ensures votingId == old(votingId) && deletePostId == old(deletePostId)
      ensures isDeleting == old(isDeleting) && selected == old(selected)
    {
      if inView && hasMore && !isLoadingMore && !loading {
        isLoadingMore := true;
        var next := NextPage(|posts|);
        Fetch(true, outcome);
        requested := Some(next);
      } else {
        requested := None;
      }
    }

    /**
      `handleVote(postId)`: without a session or while another vote is in flight
      nothing happens; otherwise the count goes up by one at once and comes back
      down unless the server accepted the vote, and `votingId` is cleared.
    */
    method Vote(hasSession: bool, postId: string, outcome: VoteOutcome)
      modifies this
      ensures !hasSession || Text.Present(old(votingId)) ==>
        posts == old(posts) && votingId == old(votingId)
      ensures hasSession && !Text.Present(old(votingId)) ==>
        && posts == (if outcome.Accepted? then Bump(old(posts), postId, 1) else old(posts))
        && votingId == None
      ensures loading == old(loading) && hasMore == old(hasMore) && isLoadingMore == old(isLoadingMore)
      ensures deletePostId == old(deletePostId) && isDeleting == old(isDeleting)
      ensures error == old(error) && selected == old(selected)
    {
      if !hasSession || Text.Present(votingId) {
        return;
      }
      votingId := Some(postId);
      posts := Bump(posts, postId, 1);
      if !outcome.Accepted? {
        BumpRevert(old(posts), postId);
        posts := Bump(posts, postId, -1);
      }
      votingId := None;
    }

    /** The delete button: opens the confirmation for this post. */
    method AskDelete(id: string)
      modifies this
      ensures deletePostId == Some(id)
      ensures posts == old(posts) && isDeleting == old(isDeleting) && votingId == old(votingId)
      ensures loading == old(loading) && hasMore == old(hasMore) && isLoadingMore == old(isLoadingMore)
      ensures error == old(error) && selected == old(selected)
    {
      deletePostId := Some(id);
    }

    /**
      `handleDeleteConfirm` once the DELETE request has ended with `outcome` and,
      when the server refused, the refetch of page 1 has ended with `refetch`.
      Without a pending id or while a delete runs nothing happens. Otherwise the
      post is filtered out at once; a refusal replaces the list by the refetched
      page, while a request that threw goes straight to `catch` and keeps the
      filtered list; either way the confirmation closes.
    */
    method ConfirmDelete(outcome: DeleteOutcome, refetch: FetchOutcome)
      modifies this
      ensures !Text.Present(old(deletePostId)) || old(isDeleting) ==>
        && posts == old(posts) && deletePostId == old(deletePostId) && isDeleting == old(isDeleting)
        && hasMore == old(hasMore) && error == old(error)
        && loading == old(loading) && isLoadingMore == old(isLoadingMore)
      ensures Text.Present(old(deletePostId)) && !old(isDeleting) && !outcome.NotDeleted? ==>
        && posts == Without(old(posts), old(deletePostId).value)
        && hasMore == old(hasMore) && error == old(error)
        && loading == old(loading) && isLoadingMore == old(isLoadingMore)
      ensures Text.Present(old(deletePostId)) && !old(isDeleting) && outcome.NotDeleted? ==>
        && posts == ApplyPage([], false, PageOf(refetch))
        && hasMore == (old(hasMore) && KeepsMore(PageOf(refetch)))
        && error == (if PageOf(refetch).Failure? then Some(PageOf(refetch).error) else None)
        && !loading && !isLoadingMore
      ensures Text.Present(old(deletePostId)) && !old(isDeleting) ==> deletePostId == None && !isDeleting
      ensures hasMore ==> old(hasMore)
      ensures votingId == old(votingId) && selected == old(selected)
    {
      if !Text.Present(deletePostId) || isDeleting {
        return;
      }
      var id := deletePostId.value;
      isDeleting := true;
      posts := Without(posts, id);
      if outcome.NotDeleted? {
        Fetch(false, refetch);
      }
      isDeleting := false;
      deletePostId := None;
    }

    /** `openLightbox(post, index)`: the lightbox shows the post's images, never an empty list. */
    method OpenLightbox(post: FeedPost, index: int)
      modifies this
      ensures selected == Some(Selection(LightboxImages(post.imageUrls), index))
      ensures |selected.value.images| >= 1
      ensures posts == old(posts) && votingId == old(votingId) && deletePostId == old(deletePostId)
      ensures loading == old(loading) && hasMore == old(hasMore) && isLoadingMore == old(isLoadingMore)
      ensures isDeleting == old(isDeleting) && error == old(error)
    {
      selected := Some(Selection(LightboxImages(post.imageUrls), index));
    }
  }
}
