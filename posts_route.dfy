/**
  /api/posts: the paginated feed of today's posts (GET), post creation with its
  early-return checks, the 10 MB limit and the comma-joined URL list (POST), and
  deletion with its checks, the image public ids to destroy and the vote
  cascade (DELETE). The store mutations themselves are methods of `PostStore.Store`.
*/
module PostsRoute {
  import opened Wrappers
  import Collections
  import Text
  import opened Records
  import ApiErrorHandler

  // ---------------------------------------------------------------- GET

  const DefaultPage := 1
  const DefaultLimit := 9

  datatype Paging = Paging(page: int, limit: int)

  /** `parseInt(searchParams.get(...) || default)`: an absent or empty parameter takes the default. */
  function RequestPaging(page: Option<int>, limit: Option<int>): (p: Paging)
    ensures p.page == (if page.Some? then page.value else 1)
    ensures p.limit == (if limit.Some? then limit.value else 9)
  {
    Paging(page.GetOr(DefaultPage), limit.GetOr(DefaultLimit))
  }

  /** `offset = (page - 1) * limit`: page 1 skips nothing; a later page skips something. */
  function Offset(p: Paging): (skip: nat)
    requires p.page >= 1 && p.limit >= 1
    ensures skip == 0 <==> p.page == 1
    ensures skip >= p.page - 1
  {
    var k := p.page - 1;
    assert k * p.limit >= k;
    k * p.limit
  }

  /** Consecutive pages adjoin: page `n + 1` starts where page `n` ends, so none overlap or leave a gap. */
  lemma PagesAdjoin(page: int, limit: int)
    requires page >= 1 && limit >= 1
    ensures Offset(Paging(page + 1, limit)) == Offset(Paging(page, limit)) + limit
  {
    assert page * limit == (page - 1) * limit + limit;
  }

  lemma DefaultPagingStartsAtZero()
    ensures RequestPaging(None, None) == Paging(1, 9)
    ensures Offset(RequestPaging(None, None)) == 0
  {
  }

  /** `totalCount ? Math.ceil(totalCount / limit) : 0`: the fewest pages that hold every post. */
  function PageCount(total: nat, limit: int): (pages: nat)
    requires limit >= 1
    ensures total == 0 <==> pages == 0
    ensures pages * limit >= total
    ensures total > 0 ==> (pages - 1) * limit < total
  {
    if total == 0 then 0
    else
      var pages := (total + limit - 1) / limit;
      assert pages * limit + (total + limit - 1) % limit == total + limit - 1;
      pages
  }

  /** The window `skip: skip, take: take` of an ordered result. */
  function Window(s: seq<Row>, skip: nat, take: nat): (r: seq<Row>)
    ensures |r| <= take
    ensures skip >= |s| ==> r == []
    ensures skip < |s| ==> r == s[skip..if skip + take <= |s| then skip + take else |s|]
  {
    if skip >= |s| then []
    else if skip + take <= |s| then s[skip..skip + take]
    else s[skip..]
  }

  /** A window of a descending order is in descending order and holds only rows of it. */
  lemma WindowOfSorted(s: seq<Row>, k: Key, skip: nat, take: nat)
    requires SortedDesc(s, k)
    ensures SortedDesc(Window(s, skip, take), k)
    ensures forall r :: r in Window(s, skip, take) ==> r in s
  {
    if skip < |s| {
      SortedSlice(s, k, skip, if skip + take <= |s| then skip + take else |s|);
    }
  }

  datatype Pagination = Pagination(page: int, limit: int, total: nat, pages: nat, hasMore: bool)

  datatype Listing = Listing(posts: seq<Row>, pagination: Pagination)

  /** Today's posts newest first: the query of the GET handler before skip and take. */
  function TodayNewestFirst(rows: seq<Row>, startOfToday: int): seq<Row> {
    SortDesc(CreatedSince(rows, startOfToday), ByCreatedAt)
  }

  /**
    One page of the feed: at most `limit` of today's posts, newest first, taken
    from the right offset; `hasMore` is inferred from a full page.
  */
  function ListPosts(rows: seq<Row>, p: Paging, startOfToday: int): (l: Listing)
    requires p.page >= 1 && p.limit >= 1
    ensures |l.posts| <= p.limit
    ensures forall r :: r in l.posts ==> r in rows && r.post.createdAt >= startOfToday
    ensures SortedDesc(l.posts, ByCreatedAt)
    ensures l.posts == Window(TodayNewestFirst(rows, startOfToday), Offset(p), p.limit)
    ensures l.pagination.hasMore <==> |l.posts| == p.limit
    ensures l.pagination.total == |CreatedSince(rows, startOfToday)|
    ensures l.pagination.pages == PageCount(l.pagination.total, p.limit)
    ensures l.pagination.page == p.page && l.pagination.limit == p.limit
  {
    var today := CreatedSince(rows, startOfToday);
    var sorted := TodayNewestFirst(rows, startOfToday);
    var skip := Offset(p);
    var page := Window(sorted, skip, p.limit);
    SortDescCorrect(today, ByCreatedAt);
    SortDescMembers(today, ByCreatedAt);
    WindowOfSorted(sorted, ByCreatedAt, skip, p.limit);
    Listing(page, Pagination(p.page, p.limit, |today|, PageCount(|today|, p.limit), |page| == p.limit))
  }

  /**
    A feed whose size is an exact multiple of the page size reports `hasMore` on
    its last full page, so the client asks for one more page, which is empty.
  */
  lemma ExactMultipleCostsAnEmptyPage(rows: seq<Row>, limit: int, k: int, startOfToday: int)
    requires limit >= 1 && k >= 1
    requires |CreatedSince(rows, startOfToday)| == k * limit
    ensures ListPosts(rows, Paging(k, limit), startOfToday).pagination.hasMore
    ensures ListPosts(rows, Paging(k + 1, limit), startOfToday).posts == []
  {
    SortDescMembers(CreatedSince(rows, startOfToday), ByCreatedAt);
    PagesAdjoin(k, limit);
    assert Offset(Paging(k + 1, limit)) == k * limit;
  }

  /** What GET answers when the query throws: status 500 with a classified cause. */
  datatype ListError = ListError(error: string, details: string, errorType: string)

  function GetPosts(q: Query<seq<Row>>, p: Paging, startOfToday: int): (r: Result<Listing, ListError>)
    requires p.page >= 1 && p.limit >= 1
    ensures q.Answered? ==> r == Success(ListPosts(q.value, p, startOfToday))
    ensures q.Failed? ==> r.Failure? && r.error.error == "Error fetching posts"
    ensures q.Failed? ==> r.error.details == ApiErrorHandler.ThrownMessage(q.thrown)
    ensures q.Failed? ==> (r.error.errorType == "database" <==> ApiErrorHandler.MentionsDatabase(r.error.details))
    ensures q.Failed? ==> r.error.errorType in {"database", "unknown"}
  {
    match q
    case Answered(rows) => Success(ListPosts(rows, p, startOfToday))
    case Failed(t) =>
      var message := ApiErrorHandler.ThrownMessage(t);
      Failure(ListError("Error fetching posts", message,
        if ApiErrorHandler.MentionsDatabase(message) then "database" else "unknown"))
  }

  // ---------------------------------------------------------------- POST

  /** The per-image ceiling, in bytes: 10 MB. */
  const MaxImageBytes := 10 * 1024 * 1024

  /** What the image host's upload call answers for one image, if it is made. */
  datatype UploadResult = Uploaded(url: string) | UploadFailed(message: string)

  datatype ImageUpload = ImageUpload(size: nat, result: UploadResult)

  /** One image: the size check comes first, then the upload. */
  function UploadImage(image: ImageUpload): (r: Result<string, string>)
    ensures image.size > MaxImageBytes ==> r == Failure("Image upload failed: File size exceeds 10MB limit")
    ensures r.Success? <==> image.size <= MaxImageBytes && image.result.Uploaded?
    ensures r.Success? ==> r.value == image.result.url
  {
    if image.size > MaxImageBytes then Failure("Image upload failed: File size exceeds 10MB limit")
    else match image.result
      case Uploaded(url) => Success(url)
      case UploadFailed(m) => Failure("Image upload failed: " + m)
  }

  /** An image of exactly 10 MB passes the size check; one byte more does not. */
  lemma SizeLimitBoundary(result: UploadResult)
    ensures UploadImage(ImageUpload(10485760, result)).Success? <==> result.Uploaded?
    ensures UploadImage(ImageUpload(10485761, result)).Failure?
  {
  }

  /** All uploads: the URLs in image order, or a 500 when any image fails. */
  function UploadAll(images: seq<ImageUpload>): (r: Result<seq<string>, ApiError>)
    ensures r.Success? <==> forall i :: 0 <= i < |images| ==> UploadImage(images[i]).Success?
    ensures r.Success? ==> |r.value| == |images|
    ensures r.Success? ==> forall i :: 0 <= i < |images| ==> r.value[i] == images[i].result.url
    ensures r.Failure? ==> r.error.status == 500
  {
    if images == [] then Success([])
    else match UploadImage(images[0])
      case Failure(m) => Failure(ApiError(500, "Failed to upload images: " + m))
      case Success(url) =>
        match UploadAll(images[1..])
        case Failure(e) => Failure(e)
        case Success(urls) => Success([url] + urls)
  }

  /**
    The early returns of POST, first failure wins: no session email (401), missing
    image-host configuration (500), unknown user (404), no images (400).
  */
  function CheckCreate(email: Option<string>, configured: bool, users: seq<User>, imageCount: nat): (r: Result<User, ApiError>)
    ensures !Text.Present(email) ==> r == Failure(ApiError(401, "Unauthorized"))
    ensures Text.Present(email) && !configured ==>
      r == Failure(ApiError(500, "Server configuration error: Missing Cloudinary credentials"))
    ensures Text.Present(email) && configured && FindUserByEmail(users, email.value).None? ==>
      r == Failure(ApiError(404, "User not found"))
    ensures Text.Present(email) && configured && FindUserByEmail(users, email.value).Some? && imageCount == 0 ==>
      r == Failure(ApiError(400, "No images provided"))
    ensures r.Success? <==> Text.Present(email) && configured && imageCount > 0
                            && exists u :: u in users && u.email == email.value
    ensures r.Success? ==> r.value in users && r.value.email == email.value
  {
    if !Text.Present(email) then Failure(ApiError(401, "Unauthorized"))
    else if !configured then Failure(ApiError(500, "Server configuration error: Missing Cloudinary credentials"))
    else match FindUserByEmail(users, email.value)
      case None => Failure(ApiError(404, "User not found"))
      case Some(user) =>
        if imageCount == 0 then Failure(ApiError(400, "No images provided"))
        else Success(user)
  }

  /** `imageUrls.join(',')`: the one string the post stores. */
  function StoredImageUrl(urls: seq<string>): string {
    Text.Join(urls, ',')
  }

  /**
    The post POST asks the database to create: owned by the session's user,
    holding the joined URLs. `newId` and `now` are the database's defaults.
  */
  function NewPost(email: Option<string>, configured: bool, users: seq<User>, images: seq<ImageUpload>,
                   newId: string, now: int): (r: Result<Post, ApiError>)
    ensures CheckCreate(email, configured, users, |images|).Failure? ==>
      r == Failure(CheckCreate(email, configured, users, |images|).error)
    ensures r.Success? <==> CheckCreate(email, configured, users, |images|).Success? && UploadAll(images).Success?
    ensures CheckCreate(email, configured, users, |images|).Success? && UploadAll(images).Failure? ==>
      r == Failure(UploadAll(images).error)
    ensures r.Success? ==> r.value.id == newId && r.value.createdAt == now
    ensures r.Success? ==> r.value.userId == CheckCreate(email, configured, users, |images|).value.id
    ensures r.Success? ==> r.value.imageUrl == StoredImageUrl(UploadAll(images).value)
  {
    match CheckCreate(email, configured, users, |images|)
    case Failure(e) => Failure(e)
    case Success(user) =>
      match UploadAll(images)
      case Failure(e) => Failure(e)
      case Success(urls) => Success(Post(newId, user.id, StoredImageUrl(urls), now))
  }

  /** DELETE splits the stored string back into the URLs POST joined, when none holds a ','. */
  lemma StoredUrlsRoundTrip(urls: seq<string>)
    requires |urls| >= 1
    requires forall i :: 0 <= i < |urls| ==> ',' !in urls[i]
    ensures Text.Split(StoredImageUrl(urls), ',') == urls
  {
    Text.SplitJoin(urls, ',');
  }

  // ---------------------------------------------------------------- DELETE

  /**
    The early returns of DELETE, first failure wins: no session email (401), no
    post id (400), unknown post (404), requester unknown or not the owner (401).
  */
  function CheckDelete(email: Option<string>, postId: Option<string>, posts: seq<Post>, users: seq<User>): (r: Result<Post, ApiError>)
    ensures !Text.Present(email) ==> r == Failure(ApiError(401, "Unauthorized"))
    ensures Text.Present(email) && !Text.Present(postId) ==> r == Failure(ApiError(400, "Post ID is required"))
    ensures Text.Present(email) && Text.Present(postId) && FindPost(posts, postId.value).None? ==>
      r == Failure(ApiError(404, "Post not found"))
    ensures r.Success? ==> Text.Present(email) && Text.Present(postId)
    ensures r.Success? ==> r.value in posts && r.value.id == postId.value
    ensures r.Success? ==> exists u :: u in users && u.email == email.value && u.id == r.value.userId
    ensures Text.Present(email) && Text.Present(postId) && FindPost(posts, postId.value).Some?
            && FindUserByEmail(users, email.value).Some?
            && FindUserByEmail(users, email.value).value.id == FindPost(posts, postId.value).value.userId
            ==> r.Success?
    ensures Text.Present(email) && Text.Present(postId) && FindPost(posts, postId.value).Some?
            && (FindUserByEmail(users, email.value).None?
                || FindUserByEmail(users, email.value).value.id != FindPost(posts, postId.value).value.userId)
            ==> r == Failure(ApiError(401, "Unauthorized"))
  {
    if !Text.Present(email) then Failure(ApiError(401, "Unauthorized"))
    else if !Text.Present(postId) then Failure(ApiError(400, "Post ID is required"))
    else match FindPost(posts, postId.value)
      case None => Failure(ApiError(404, "Post not found"))
      case Some(post) =>
        match FindUserByEmail(users, email.value)
        case None => Failure(ApiError(401, "Unauthorized"))
        case Some(user) =>
          if post.userId != user.id then Failure(ApiError(401, "Unauthorized"))
          else Success(post)
  }

  /** `url.split('/').pop()?.split('.')[0]`: the last path segment up to its first '.'. */
  function PublicId(url: string): (id: string)
    ensures '/' !in id && '.' !in id
  {
    var segment := Text.Last(Text.Split(url, '/'));
    Text.Split(segment, '.')[0]
  }

  /** For a hosted URL `<prefix>/<id>.<ext>` the public id is `<id>`. */
  lemma PublicIdOfHostedUrl(prefix: string, id: string, ext: string)
    requires '/' !in id && '.' !in id && '/' !in ext
    ensures PublicId(prefix + "/" + id + "." + ext) == id
  {
    var file := id + "." + ext;
    var url := prefix + "/" + id + "." + ext;
    assert '/' !in file;
    var parts := Text.Split(url, '/');
    assert Text.Last(parts) == file by {
      LastSegment(prefix, file);
      assert url == prefix + "/" + file;
    }
    assert file == id + (['.'] + ext);
    Text.SplitAppend(id, ['.'] + ext, '.');
    Text.SplitLeadingSeparator(ext, '.');
  }

  /** The last '/'-segment of `prefix + "/" + file` is `file`, when `file` has no '/'. */
  lemma {:induction false} LastSegment(prefix: string, file: string)
    requires '/' !in file
    ensures Text.Last(Text.Split(prefix + "/" + file, '/')) == file
    decreases |prefix|
  {
    Text.SplitNoSeparator(file, '/');
    if '/' !in prefix {
      assert prefix + "/" + file == prefix + (['/'] + file);
      Text.SplitAppend(prefix, ['/'] + file, '/');
      Text.SplitLeadingSeparator(file, '/');
    } else {
      var j := FirstSlash(prefix);
      var head := prefix[..j];
      var tail := prefix[j + 1..];
      assert prefix == head + ['/'] + tail;
      assert prefix + "/" + file == head + (['/'] + (tail + "/" + file));
      Text.SplitAppend(head, ['/'] + (tail + "/" + file), '/');
      Text.SplitLeadingSeparator(tail + "/" + file, '/');
      LastSegment(tail, file);
    }
  }

  /** The position of the first '/' in a string that has one. */
  ghost function FirstSlash(s: string): (j: nat)
    requires '/' in s
    ensures j < |s| && s[j] == '/' && '/' !in s[..j]
  {
    if s[0] == '/' then 0
    else
      assert '/' in s[1..] by { assert s == [s[0]] + s[1..]; }
      var j := FirstSlash(s[1..]);
      assert s[..j + 1] == [s[0]] + s[1..][..j];
      j + 1
  }

  /** The image-host ids destroyed for a list of URLs: `iftar/<public id>`, skipping empty ids. */
  function DestroyTargets(urls: seq<string>): (targets: seq<string>)
    ensures |targets| <= |urls|
    ensures forall i :: 0 <= i < |urls| && PublicId(urls[i]) != "" ==> "iftar/" + PublicId(urls[i]) in targets
    ensures forall t :: t in targets ==> exists i :: 0 <= i < |urls| && PublicId(urls[i]) != "" && t == "iftar/" + PublicId(urls[i])
  {
    if urls == [] then []
    else
      var rest := DestroyTargets(urls[1..]);
      assert forall i :: 1 <= i < |urls| ==> urls[i] == urls[1..][i - 1];
      var id := PublicId(urls[0]);
      if id == "" then rest else ["iftar/" + id] + rest
  }

  /** `post.delete({ where: { id } })`. */
  function PostsWithout(posts: seq<Post>, id: string): (r: seq<Post>)
    ensures forall p :: p in r <==> p in posts && p.id != id
    ensures |r| <= |posts|
  {
    Collections.Filter(posts, (p: Post) => p.id != id)
  }

  /** `vote.deleteMany({ where: { postId } })`: the other votes, each as often as it occurs. */
  function VotesNotFor(votes: seq<Vote>, postId: string): (r: seq<Vote>)
    ensures forall v :: v in r <==> v in votes && v.postId != postId
    ensures |r| <= |votes|
    ensures forall v :: multiset(r)[v] == if v.postId != postId then multiset(votes)[v] else 0
  {
    Collections.Filter(votes, (v: Vote) => v.postId != postId)
  }

  /** The cascade distributes over concatenation and removes a single vote exactly when it names the post. */
  lemma VotesNotForAppend(a: seq<Vote>, b: seq<Vote>, postId: string)
    ensures VotesNotFor(a + b, postId) == VotesNotFor(a, postId) + VotesNotFor(b, postId)
    ensures forall v :: VotesNotFor([v], postId) == if v.postId != postId then [v] else []
  {
    Collections.FilterAppend(a, b, (v: Vote) => v.postId != postId);
  }

  /** The cascade leaves the deleted post with no votes and every other post's count as it was. */
  lemma {:induction false} CascadeCounts(votes: seq<Vote>, postId: string, other: string)
    ensures VoteCount(VotesNotFor(votes, postId), postId) == 0
    ensures other != postId ==> VoteCount(VotesNotFor(votes, postId), other) == VoteCount(votes, other)
  {
    if votes != [] {
      CascadeCounts(votes[1..], postId, other);
      if votes[0].postId != postId {
        var rest := VotesNotFor(votes[1..], postId);
        assert ([votes[0]] + rest)[1..] == rest;
      }
    }
  }

  /** Deleting a post together with its votes keeps the store referentially intact. */
  lemma DeleteKeepsConsistent(posts: seq<Post>, votes: seq<Vote>, id: string)
    requires Consistent(posts, votes)
    ensures Consistent(PostsWithout(posts, id), VotesNotFor(votes, id))
  {
    var ps := PostsWithout(posts, id);
    forall v | v in VotesNotFor(votes, id)
      ensures References(ps, v)
    {
      var p :| p in posts && p.id == v.postId && p.createdAt <= v.createdAt;
      assert p in ps;
    }
  }

  /**
    After the delete the feed's rows are the rows it had before, less the deleted
    post's: every other post keeps its vote count.
  */
  lemma DeleteDropsOnlyItsRow(posts: seq<Post>, votes: seq<Vote>, id: string)
    ensures forall r :: r in WithCounts(PostsWithout(posts, id), VotesNotFor(votes, id))
                    <==> r in WithCounts(posts, votes) && r.post.id != id
  {
    forall r | r in WithCounts(PostsWithout(posts, id), VotesNotFor(votes, id))
      ensures r in WithCounts(posts, votes) && r.post.id != id
    {
      RowAfterDeleteWasThere(posts, votes, id, r);
    }
    forall r | r in WithCounts(posts, votes) && r.post.id != id
      ensures r in WithCounts(PostsWithout(posts, id), VotesNotFor(votes, id))
    {
      RowOfOtherPostSurvives(posts, votes, id, r);
    }
  }

  /** One row of the feed after the delete, found among the rows before it. */
  lemma RowAfterDeleteWasThere(posts: seq<Post>, votes: seq<Vote>, id: string, r: Row)
    requires r in WithCounts(PostsWithout(posts, id), VotesNotFor(votes, id))
    ensures r in WithCounts(posts, votes) && r.post.id != id
  {
    var kept := PostsWithout(posts, id);
    var after := WithCounts(kept, VotesNotFor(votes, id));
    var i :| 0 <= i < |after| && after[i] == r;
    var p := kept[i];
    assert p in kept;
    CascadeCounts(votes, id, p.id);
    var j :| 0 <= j < |posts| && posts[j] == p;
    assert WithCounts(posts, votes)[j] == r;
  }

  /** One row of another post, found among the rows after the delete. */
  lemma RowOfOtherPostSurvives(posts: seq<Post>, votes: seq<Vote>, id: string, r: Row)
    requires r in WithCounts(posts, votes) && r.post.id != id
    ensures r in WithCounts(PostsWithout(posts, id), VotesNotFor(votes, id))
  {
    var kept := PostsWithout(posts, id);
    var before := WithCounts(posts, votes);
    var j :| 0 <= j < |before| && before[j] == r;
    var p := posts[j];
    assert p in kept;
    CascadeCounts(votes, id, p.id);
    var i :| 0 <= i < |kept| && kept[i] == p;
    assert WithCounts(kept, VotesNotFor(votes, id))[i] == r;
  }
}
