# Iftar Photo Competition — a verified model of its rules

The application is a daily photo competition: signed-in users post iftar
photos, vote on each other's posts, and a winner is announced at 22:00 UTC.
This project models the parts of it that are rules rather than plumbing, over
in-memory data:

- the feed component's state machine: optimistic votes and their revert,
  optimistic deletes, page fetching, the `hasMore` latch and the next-page rule;
- the posts API: offset pagination, the early-return checks of create and
  delete, the 10 MB image limit, the comma-joined URL list, image public-id
  extraction, and the vote cascade of a delete;
- the selection queries: daily winner with and without a tie-break, the
  seven-day history, the "trending" list, and the administrator's reset;
- helpers: lightbox navigation, the announcement countdown, the selection
  minute, the sign-in error table, and the API error classifier;
- the upload form: drag highlighting, removal by index, and submit.

A post is `Post(id, userId, imageUrl, createdAt)`, where `createdAt` is an
integer number of milliseconds. A vote is `Vote(postId, userId, createdAt)`.
A query result row is a post together with its vote count (`Row(post, votes)`).
Clocks are parameters (`now`, `startOfToday`, `utcMidnight`). Every database,
image-host and network call is represented by an outcome parameter: a flag,
a `Query` (answered or thrown) or a small outcome datatype. A handler takes
that parameter and never makes the call itself. Component state types
(`Feed`, `Form`, `Lightbox`, `WinnerPanel`) and the database (`Store`) are
classes whose methods carry full frame conditions.

Modules, one per source file plus four shared ones:

| module | file | models |
|---|---|---|
| `Wrappers` | wrappers.dfy | `Option`, `Result` |
| `Collections` | collections.dfy | `filter` and first-match lookup, generic over the element type |
| `Text` | text.dfy | JavaScript `split`/`join`, `filter(Boolean)`, `includes`, number rendering |
| `Records` | records.dfy | entities, `_count.votes`, `where createdAt >=`, `orderBy … desc`, `take`, `findUnique` |
| `ApiErrorHandler` | api_error_handler.dfy | src/lib/apiErrorHandler.ts |
| `PostsRoute` | posts_route.dfy | src/app/api/posts/route.ts (pure parts) |
| `PostStore` | store.dfy | the mutations of POST/DELETE /api/posts and DELETE /api/stats/reset, on a store that starts with its users and no posts or votes (the database itself is not modelled) |
| `ResetRoute` | reset_route.dfy | src/app/api/stats/reset/route.ts (pure parts) |
| `DailyWinnerRoute` | daily_winner_route.dfy | src/app/api/winners/daily/route.ts |
| `PostWinnerRoute` | post_winner_route.dfy | src/app/api/posts/winner/route.ts |
| `WinnerHistoryRoute` | winner_history_route.dfy | src/app/api/winners/history/route.ts |
| `TrendingRoute` | trending_route.dfy | src/app/api/posts/trending/route.ts |
| `PostList` | post_list.dfy | src/components/PostList.tsx |
| `ImageLightbox` | image_lightbox.dfy | src/components/ImageLightbox.tsx |
| `DailyWinnerPanel` | daily_winner.dfy | src/components/DailyWinner.tsx |
| `SelectionTime` | selection_time.dfy | src/lib/utils.ts |
| `AuthErrorRoute` | auth_error_route.dfy | src/app/api/auth/error/route.ts |
| `CreatePostForm` | create_post.dfy | src/components/CreatePost.tsx |

Conventions that hold throughout:

- A parallel `Promise.all` is modelled as independent steps, each with its own
  success flag. A step takes effect exactly when its flag is set. The route
  answers success only when every flag is set.
- JavaScript truthiness of a possibly missing string (`!x` for `null`,
  `undefined` and `""`) is `Text.Present`.
- Where a query's order has no tie-break, the model takes the first tied row
  in input order. Contracts promise only what the query promises: any maximal
  row, or any newest rows.
- A day is 24 hours. UTC hours and minutes are computed with floor division,
  which is what `getUTCHours` and `getUTCMinutes` do for any instant.

## Model

| member | source | states |
|---|---|---|
| Text.Split | src/app/api/posts/route.ts:256 | the pieces of a `split` are never empty as a list, none holds the separator, and every character of a piece comes from the input |
| Text.JoinSplit | src/app/api/posts/route.ts:192 | `join(split(s))` is `s` for every string and separator |
| Text.SplitJoin | src/app/api/posts/route.ts:192 | splitting a join of one or more separator-free pieces recovers the pieces |
| Text.SplitAppend | src/app/api/posts/route.ts:258 | a separator-free prefix stays glued to the first piece of what follows it |
| Text.SplitNoSeparator | src/app/api/posts/route.ts:258 | a separator-free string splits into itself alone |
| Text.SplitLeadingSeparator | src/app/api/posts/route.ts:258 | a leading separator yields an empty first piece |
| Text.NonEmpty | src/components/PostList.tsx:81 | `filter(Boolean)` keeps exactly the non-empty strings and never lengthens the list |
| Text.NonEmptyAppend | src/components/PostList.tsx:81 | the filter distributes over concatenation and keeps a single string exactly when it is non-empty, so it keeps every non-empty piece, repeats included, in order |
| Text.NonEmptyKeepsAll | src/components/PostList.tsx:81 | a list with no empty string is left unchanged by the filter |
| Text.ContainsIff | src/lib/apiErrorHandler.ts:40-42 | `includes` holds exactly when the substring occurs at some position (case-sensitive) |
| Text.NatToString | src/components/ImageLightbox.tsx:40 | the rendering of a natural number is a non-empty string of decimal digits with no leading zero |
| Text.Contains | src/lib/apiErrorHandler.ts:40-42 | `includes` finds a substring at the start at once and never finds one longer than the string; ContainsIff states exactly what it decides |
| Text.IntToString | src/components/DailyWinner.tsx:42 | a non-negative integer renders as its digits, a negative one with a leading '-' |
| Text.ParseNatToString | src/components/ImageLightbox.tsx:40 | reading the rendered digits back gives the number |
| Records.VoteCount | src/app/api/posts/route.ts:48-52 | the count is at most the number of votes, and 0 exactly when no vote names the post |
| Records.VoteCountAppend | src/app/api/posts/route.ts:48-52 | the count of a concatenation is the sum of the counts, and one vote counts 1 for its own post and 0 for any other, so the count is the number of votes naming the post |
| Records.WithCounts | src/app/api/posts/route.ts:48-52 | each post is paired with its own vote count, in order |
| Records.CreatedSince | src/app/api/posts/route.ts:35-39 | the filter keeps exactly the rows created at or after the bound, each as many times as the input holds it, and no other row |
| Records.CreatedSinceAppend | src/app/api/posts/route.ts:35-39 | the filter distributes over concatenation and keeps a single row exactly when it is recent enough, so it keeps the input order |
| Records.SortDesc | src/app/api/winners/history/route.ts:17-23 | `orderBy … desc` returns as many rows as it was given; SortDescCorrect states the order and the permutation |
| Records.InsertPermutes | src/app/api/winners/history/route.ts:17-23 | inserting adds exactly one occurrence of the row |
| Records.InsertSorted | src/app/api/winners/history/route.ts:17-23 | inserting into a descending order keeps it descending |
| Records.SortDescCorrect | src/app/api/winners/history/route.ts:17-23 | `orderBy … desc` yields a descending permutation of its input |
| Records.SortDescMembers | src/app/api/posts/route.ts:54-56 | ordering keeps the length and exactly the rows it was given |
| Records.SortedSlice | src/app/api/posts/route.ts:57-58 | a contiguous slice of a descending order is descending |
| Records.Take | src/app/api/winners/history/route.ts:24 | `take: n` returns a prefix of length n, or the whole input when it is shorter |
| Records.TopOfSorted | src/app/api/winners/history/route.ts:17-24 | the first n of a descending order are descending, come from the input with no row taken more often than it occurs, are all of it when fewer than n, and outrank every row left out |
| Records.FindUserByEmail | src/app/api/posts/route.ts:126-128 | a found user is in the store with that email; none is found exactly when no user has it |
| Records.FindPost | src/app/api/posts/route.ts:238-241 | a found post is in the store with that id; none is found exactly when no post has it |
| Records.ImageUrls | src/app/api/posts/winner/route.ts:42 | `imageUrl ? imageUrl.split(',') : []`: every URL is comma-free, and a non-empty string gives at least one URL |
| Records.ImageUrlsFaithful | src/app/api/posts/winner/route.ts:42 | the derived URL list is empty exactly when the stored string is, and joins back to it |
| Records.ImageUrlsRoundTrip | src/app/api/posts/trending/route.ts:24 | the derived list of a stored join of non-empty, comma-free URLs is those URLs |
| Collections.Filter | src/components/PostList.tsx:204 | `filter` keeps exactly the elements that pass, never more than it was given |
| Collections.FilterAppend | src/components/PostList.tsx:204 | filtering distributes over concatenation, which fixes the order of the survivors |
| Collections.FilterKeepsAll | src/components/PostList.tsx:81 | a list whose every element passes is unchanged |
| Collections.Find | src/app/api/posts/route.ts:238-241 | the result passes the test and is the first element that does; none is found exactly when no element passes |
| ApiErrorHandler.ErrorResponse | src/lib/apiErrorHandler.ts:10-31 | the status, details and type default to 500, null and UNKNOWN_ERROR when absent, given values pass through, and the body's `error` is the message |
| ApiErrorHandler.HandleApiRoute | src/lib/apiErrorHandler.ts:33-53 | a handler's response passes through unchanged; a throw gives 500 with the fixed message, the error's message (or 'Unknown error occurred') as details, and a DATABASE_ERROR or SERVER_ERROR type |
| ApiErrorHandler.DatabaseClassification | src/lib/apiErrorHandler.ts:40-49 | the type is DATABASE_ERROR iff the message contains 'Prisma', 'database' or 'connection', and SERVER_ERROR otherwise |
| PostsRoute.Offset | src/app/api/posts/route.ts:25 | the offset is zero iff the page is 1, and is never smaller than the page index |
| PostsRoute.RequestPaging | src/app/api/posts/route.ts:23-24 | an absent page is 1 and an absent limit is 9; given values pass through |
| PostsRoute.PagesAdjoin | src/app/api/posts/route.ts:25 | page n+1 starts exactly one page size after page n, so pages neither overlap nor leave gaps |
| PostsRoute.DefaultPagingStartsAtZero | src/app/api/posts/route.ts:23-25 | with no parameters the request is page 1 of 9 at offset 0 |
| PostsRoute.PageCount | src/app/api/posts/route.ts:78 | `pages` is 0 iff the total is 0, and otherwise the fewest pages that hold every post |
| PostsRoute.Window | src/app/api/posts/route.ts:57-58 | `skip`/`take` returns at most `take` rows: empty past the end, else the slice from `skip` |
| PostsRoute.WindowOfSorted | src/app/api/posts/route.ts:54-58 | a window of a descending order is descending and holds only its rows |
| PostsRoute.ListPosts | src/app/api/posts/route.ts:22-81 | a page holds at most `limit` of today's rows, newest first, taken at the offset; `hasMore` iff the page is full; `total` counts all of today's rows and `pages` is `PageCount`, ceil(total/limit) or 0 |
| PostsRoute.ExactMultipleCostsAnEmptyPage | src/app/api/posts/route.ts:79 | when today's total is an exact multiple of the limit, the last full page says `hasMore` and the next page is empty |
| PostsRoute.GetPosts | src/app/api/posts/route.ts:82-103 | an answered query gives the listing; a thrown one gives 'Error fetching posts' with the message as details and type 'database' iff the message mentions the database |
| PostsRoute.UploadImage | src/app/api/posts/route.ts:143-172 | an image over 10·1024·1024 bytes fails the size check before any upload; an upload succeeds iff the size is allowed and the host returned a URL |
| PostsRoute.SizeLimitBoundary | src/app/api/posts/route.ts:153-155 | exactly 10 MB is accepted; one byte more is rejected |
| PostsRoute.UploadAll | src/app/api/posts/route.ts:174-184 | every image uploads or the request fails with 500; on success the URLs are in image order |
| PostsRoute.CheckCreate | src/app/api/posts/route.ts:111-140 | no session email → 401, else missing configuration → 500, else unknown user → 404, else no images → 400; success iff none applies, with the session's user |
| PostsRoute.NewPost | src/app/api/posts/route.ts:174-194 | a failed check is the reply; after passing checks a failed upload gives UploadAll's 500; a post is created iff the checks and every upload succeed, with the user's id and the joined URLs |
| PostsRoute.StoredUrlsRoundTrip | src/app/api/posts/route.ts:192 | splitting the stored string on ',' recovers the uploaded URLs when none holds a ',' |
| PostsRoute.CheckDelete | src/app/api/posts/route.ts:228-253 | no session → 401, else no id → 400, else unknown post → 404, else unknown or non-owning requester → 401 'Unauthorized'; success iff none applies, with the post the requester owns |
| PostsRoute.PublicId | src/app/api/posts/route.ts:258 | the public id holds neither '/' nor '.' |
| PostsRoute.PublicIdOfHostedUrl | src/app/api/posts/route.ts:258 | for a URL `prefix/<id>.<ext>` the public id is `<id>`, whatever '/' the prefix holds |
| PostsRoute.LastSegment | src/app/api/posts/route.ts:258 | the last '/'-piece of `prefix/file` is `file` |
| PostsRoute.DestroyTargets | src/app/api/posts/route.ts:257-260 | each URL with a non-empty public id yields the target `iftar/<id>`, an empty id yields none, and there are no other targets |
| PostsRoute.PostsWithout | src/app/api/posts/route.ts:265 | `post.delete` keeps exactly the posts with other ids |
| PostsRoute.VotesNotFor | src/app/api/posts/route.ts:264 | the cascade keeps exactly the votes for other posts, each as many times as before |
| PostsRoute.VotesNotForAppend | src/app/api/posts/route.ts:264 | the cascade distributes over concatenation and removes a single vote exactly when it names the post, so the other votes keep their order |
| PostsRoute.CascadeCounts | src/app/api/posts/route.ts:264 | after the cascade the deleted post has no votes and every other post's count is unchanged |
| PostsRoute.DeleteKeepsConsistent | src/app/api/posts/route.ts:262-266 | deleting a post with its votes keeps every remaining vote pointing at a remaining post |
| PostsRoute.DeleteDropsOnlyItsRow | src/app/api/posts/route.ts:262-266 | after the delete the post rows with their counts are the earlier rows less the deleted post's, so every other post keeps its vote count |
| PostStore.Store.CreatePost | src/app/api/posts/route.ts:106-212 | a refused request changes nothing; a failed insert gives 500 'Database error: …' and changes nothing; otherwise exactly the new post is appended; users and votes never change, and store integrity is kept |
| PostStore.Store.DeletePost | src/app/api/posts/route.ts:222-273 | a refused request changes nothing; otherwise the image targets are returned, the votes and then the post are removed as each step succeeds, users are never touched, and success means every step succeeded |
| PostStore.Store.ResetToday | src/app/api/stats/reset/route.ts:5-41 | a non-admin gets 401 and nothing changes; otherwise today's votes and posts are removed as each step succeeds; success means no vote or post of today remains; users are never touched |
| ResetRoute.PostsBefore | src/app/api/stats/reset/route.ts:24-30 | exactly the posts created before today remain, each as many times as before |
| ResetRoute.PostsBeforeAppend | src/app/api/stats/reset/route.ts:24-30 | the posts' reset distributes over concatenation and keeps a single post exactly when it is older than today, so the survivors keep their order |
| ResetRoute.IsAdmin | src/app/api/stats/reset/route.ts:8 | the reset is allowed exactly when the session email is the administrator's address |
| ResetRoute.VotesBefore | src/app/api/stats/reset/route.ts:17-23 | exactly the votes cast before today remain, each as many times as before |
| ResetRoute.VotesBeforeAppend | src/app/api/stats/reset/route.ts:17-23 | the votes' reset distributes over concatenation and keeps a single vote exactly when it is older than today, so the survivors keep their order |
| ResetRoute.ResetOfOldPostsIsIdentity | src/app/api/stats/reset/route.ts:24-30 | when nothing was posted today the reset leaves the posts as they were |
| ResetRoute.ResetIdempotent | src/app/api/stats/reset/route.ts:24-30 | resetting twice equals resetting once |
| ResetRoute.ResetKeepsConsistent | src/app/api/stats/reset/route.ts:16-31 | since no vote is older than its post, every surviving vote still points at a surviving post |
| ResetRoute.FewerVotesKeepConsistent | src/app/api/stats/reset/route.ts:17-23 | removing only votes cannot break a reference |
| DailyWinnerRoute.Leader | src/app/api/winners/daily/route.ts:29-38 | the chosen row is in the list and ranks first under "more votes, then earlier" against every row |
| DailyWinnerRoute.DailyWinner | src/app/api/winners/daily/route.ts:9-52 | null iff nothing was posted today; otherwise a post of today with the most votes, the earliest among ties, with `images` the ','-split of its URL string, never empty |
| DailyWinnerRoute.WinnerImagesFaithful | src/app/api/winners/daily/route.ts:46 | the winner's images join back to its stored string |
| DailyWinnerRoute.DailyWinnerResponse | src/app/api/winners/daily/route.ts:53-59 | a thrown query gives 500 'Error fetching daily winner' |
| DailyWinnerRoute.RanksFirst | src/app/api/winners/daily/route.ts:29-38 | the query's order: a row ranked first has at least as many votes, and more votes always rank first (ties go to the earlier post) |
| PostWinnerRoute.TopByVotes | src/app/api/posts/winner/route.ts:30-34 | the chosen row is in the list and has at least as many votes as every row |
| PostWinnerRoute.Project | src/app/api/posts/winner/route.ts:42-49 | the reply copies the id, time, owner and count, and its URL list is empty exactly when the stored string is and joins back to it |
| PostWinnerRoute.PostWinner | src/app/api/posts/winner/route.ts:7-50 | 404 'No posts found for today' iff nothing was posted since UTC midnight; otherwise the projection of some post of today with the most votes |
| PostWinnerRoute.PostWinnerResponse | src/app/api/posts/winner/route.ts:51-56 | a thrown query gives 500 'Error determining winner' |
| PostWinnerRoute.WinnersAgreeOnVotes | src/app/api/posts/winner/route.ts:30-34 | over the same day both winner routes find a winner or neither does, and both winners have the same vote count |
| WinnerHistoryRoute.WindowStart | src/app/api/winners/history/route.ts:8-9 | the window starts seven 24-hour days before now |
| WinnerHistoryRoute.History | src/app/api/winners/history/route.ts:11-24 | at most 5 posts, all from the window and none more often than the window holds it, by non-increasing votes; any omitted window post has no more votes than the fifth |
| WinnerHistoryRoute.ShortHistoryIsComplete | src/app/api/winners/history/route.ts:24 | fewer than 5 results means every post of the window was returned |
| WinnerHistoryRoute.HistoryResponse | src/app/api/winners/history/route.ts:40-44 | an answered query gives 200 with the history; a thrown one gives 500 with an empty list |
| TrendingRoute.Newest | src/app/api/posts/trending/route.ts:6-16 | at most 10 rows of the input, none more often than the input holds it, newest first; any omitted row is no newer than the tenth |
| TrendingRoute.Project | src/app/api/posts/trending/route.ts:20-29 | an element copies the id, time, owner and count, and its URL list is empty exactly when the stored string is and joins back to it |
| TrendingRoute.ProjectAll | src/app/api/posts/trending/route.ts:21-30 | each element is the projection of the row at the same position |
| TrendingRoute.Trending | src/app/api/posts/trending/route.ts:19-32 | at most 10 posts by non-increasing creation time, each a projection of a stored row |
| TrendingRoute.TrendingUrlsFaithful | src/app/api/posts/trending/route.ts:24 | an element's URL list is empty exactly when its post's stored string is, and joins back to it |
| TrendingRoute.TrendingResponse | src/app/api/posts/trending/route.ts:33-39 | a thrown query gives 500 with `data.posts = []` and 'Internal Server Error' |
| PostList.NormaliseUrls | src/components/PostList.tsx:77-82 | an array is kept as is; otherwise exactly the non-empty ','-pieces of the stored string, none holding a ','; a missing or empty string gives [] |
| PostList.NormaliseRecoversUrls | src/components/PostList.tsx:79-81 | normalising a stored join of non-empty, comma-free URLs gives those URLs |
| PostList.NormaliseAll | src/components/PostList.tsx:77 | each post is normalised in place, order kept |
| PostList.PostsOf | src/components/PostList.tsx:66-73 | a bare array is the page; otherwise `data.posts`, else `posts`, else [] |
| PostList.PageOf | src/components/PostList.tsx:58-91 | a response gives its normalised page; an HTTP error gives the body's `error` or 'Server responded with <status>'; a thrown non-Error gives 'Failed to load posts' |
| PostList.ApplyPage | src/components/PostList.tsx:88-96 | append gives `prev ++ page`, replace gives `page`; a failed append keeps `prev`, a failed replace gives [] |
| PostList.NextPageFollowsLoaded | src/components/PostList.tsx:116 | the requested page starts at or after the loaded posts and less than a page beyond them, exactly after them when every page was full |
| PostList.NextPage | src/components/PostList.tsx:116 | the requested page number is at least 1 |
| PostList.Bump | src/components/PostList.tsx:130-141 | exactly the posts with the id get `delta` more votes; every other post, and the order, stays |
| PostList.BumpRevert | src/components/PostList.tsx:147-184 | the revert after the increment restores the list exactly |
| PostList.Without | src/components/PostList.tsx:204 | the delete keeps exactly the posts with other ids |
| PostList.WithoutAppend | src/components/PostList.tsx:204 | filtering distributes over concatenation, so the survivors keep their relative order |
| PostList.WithoutAbsent | src/components/PostList.tsx:204 | filtering an id no post has changes nothing |
| PostList.LightboxImages | src/components/PostList.tsx:232 | the lightbox images are the post's, or the default image when it has none; never empty |
| PostList.Feed.constructor | src/components/PostList.tsx:34-42 | the initial state: no posts, loading, `hasMore` true, nothing in flight |
| PostList.Feed.Fetch | src/components/PostList.tsx:49-105 | the posts become the applied page; `hasMore` stays true only on a full page and never turns back on; `error` is set on failure and cleared by a replacing fetch; loading flags are off after |
| PostList.Feed.LoadMore | src/components/PostList.tsx:113-119 | only when in view, with more to come and nothing loading, page `ceil(n/9)+1` is requested and appended, with `error` set on failure; otherwise nothing changes |
| PostList.Feed.Vote | src/components/PostList.tsx:122-194 | without a session or while a vote is in flight nothing changes; otherwise the count rises by one and stays risen only if the server accepted, and `votingId` is cleared |
| PostList.Feed.AskDelete | src/components/PostList.tsx:360 | the delete button records the post to delete and nothing else |
| PostList.Feed.ConfirmDelete | src/components/PostList.tsx:197-228 | without a pending id or during a delete nothing changes; otherwise the post is filtered out; a refused delete replaces the list by the refetched page of 1 with its error and flags, a thrown request keeps the filtered list; the confirmation closes |
| PostList.Feed.OpenLightbox | src/components/PostList.tsx:231-234 | the lightbox opens on the post's images, never an empty list, at the index clicked |
| ImageLightbox.NextIndex | src/components/ImageLightbox.tsx:29-31 | `next` keeps an index in [0, n) |
| ImageLightbox.PrevIndex | src/components/ImageLightbox.tsx:33-35 | `prev` keeps an index in [0, n) |
| ImageLightbox.NextPrevInverse | src/components/ImageLightbox.tsx:29-35 | `next` then `prev`, and `prev` then `next`, return to the same index |
| ImageLightbox.AdvanceCompose | src/components/ImageLightbox.tsx:29-31 | a+b presses of `next` are a presses followed by b presses |
| ImageLightbox.AdvanceNoWrap | src/components/ImageLightbox.tsx:29-31 | before the wrap-around, k presses move k images forward |
| ImageLightbox.FullCycle | src/components/ImageLightbox.tsx:29-31 | n presses of `next` return to the starting index |
| ImageLightbox.DownloadFileName | src/components/ImageLightbox.tsx:40 | the name starts with 'iftar-image-' and ends with '.jpg', with a number between; DownloadNameNumbersFromOne shows the number is the index plus one |
| ImageLightbox.DownloadNameNumbersFromOne | src/components/ImageLightbox.tsx:40 | the download name is 'iftar-image-', the 1-based image number in decimal, then '.jpg' |
| ImageLightbox.Lightbox.constructor | src/components/ImageLightbox.tsx:15 | the viewer opens on the initial index |
| ImageLightbox.Lightbox.Next | src/components/ImageLightbox.tsx:29-31 | the index moves by `next` and stays in range |
| ImageLightbox.Lightbox.Prev | src/components/ImageLightbox.tsx:33-35 | the index moves by `prev` and stays in range |
| ImageLightbox.Lightbox.Select | src/components/ImageLightbox.tsx:120 | a dot click sets the index to exactly the clicked position |
| DailyWinnerPanel.Countdown | src/components/DailyWinner.tsx:29-43 | the target is the next 22:00 UTC, within 24 hours; hours in 0..24, minutes in 0..59, and hours·60+minutes is the whole minutes left |
| DailyWinnerPanel.NextAnnouncementUnique | src/components/DailyWinner.tsx:30-36 | only one instant is the next announcement, so the target is determined by `now` |
| DailyWinnerPanel.WinnerPanel.constructor | src/components/DailyWinner.tsx:11-25 | no winner, loading, an empty countdown |
| DailyWinnerPanel.WinnerPanel.UpdateCountdown | src/components/DailyWinner.tsx:29-47 | the countdown text shows the hours and minutes to the next announcement |
| DailyWinnerPanel.WinnerPanel.FetchWinner | src/components/DailyWinner.tsx:52-64 | the winner is replaced only during the selection minute and only by a body that was read; loading ends either way |
| DailyWinnerPanel.WinnerPanel.Poll | src/components/DailyWinner.tsx:67-71 | the interval fetches only during the selection minute; otherwise nothing changes |
| DailyWinnerPanel.WinnerPanel.Images | src/components/DailyWinner.tsx:96 | the winner's images are never empty and join back to its stored string |
| SelectionTime.UtcHour | src/lib/utils.ts:4 | the UTC hour is in 0..23 |
| SelectionTime.UtcMinute | src/lib/utils.ts:5 | the UTC minute is in 0..59 |
| SelectionTime.ClockOfDay | src/lib/utils.ts:5 | the UTC minute of the hour can be read off the offset into the UTC day |
| SelectionTime.IsWinnerSelectionTime | src/lib/utils.ts:2-8 | hour 22 and minute 0 in UTC holds exactly when the instant lies in 22:00:00.000–22:00:59.999 UTC of its day |
| SelectionTime.SecondsIrrelevant | src/lib/utils.ts:4-7 | seconds and milliseconds do not change the answer |
| SelectionTime.NeighbouringMinutes | src/lib/utils.ts:7 | it is false at 21:59 and at 22:01 UTC, at any second |
| SelectionTime.ExactlyOneMinute | src/lib/utils.ts:4-7 | of the 1440 minutes of a day exactly one, minute 1320, qualifies |
| AuthErrorRoute.AuthErrorResponse | src/app/api/auth/error/route.ts:14-57 | each named code gets its message and status (500, 403, 400, 400 for the five provider-flow codes, 401, 401); any other or missing code gives the generic 500; `code` echoes the error or 'UNKNOWN_ERROR'; the status is in {400, 401, 403, 500} and is 500 iff the code is unknown or Configuration |
| CreatePostForm.DragActiveAfter | src/components/CreatePost.tsx:16-20 | enter and over light the zone, leave clears it, any other event keeps it |
| CreatePostForm.RemoveAt | src/components/CreatePost.tsx:113 | removal by index equals the list without that one position; an out-of-range index changes nothing |
| CreatePostForm.RemoveAtKeepsOthers | src/components/CreatePost.tsx:113 | removing index k leaves n−1 files: those before k in place, those after shifted down by one |
| CreatePostForm.Form.constructor | src/components/CreatePost.tsx:9-11 | no files, not loading, no highlight |
| CreatePostForm.Form.SubmitDisabled | src/components/CreatePost.tsx:128 | an enabled button means at least one file and nothing sending; the button is disabled after construction and, after a submit with files, exactly when the post was created |
| CreatePostForm.Form.HandleDrag | src/components/CreatePost.tsx:13-21 | the highlight follows the event type; the files do not change |
| CreatePostForm.Form.HandleDrop | src/components/CreatePost.tsx:23-32 | a drop always clears the highlight and replaces the files only when at least one was dropped |
| CreatePostForm.Form.ChooseFiles | src/components/CreatePost.tsx:81 | the file input's selection replaces the files |
| CreatePostForm.Form.Remove | src/components/CreatePost.tsx:113 | one file fewer, the rest in order; nothing else changes |
| CreatePostForm.Form.Submit | src/components/CreatePost.tsx:34-59 | with no files nothing happens; otherwise every file is sent, the list is cleared only on an ok response, loading is off afterwards, and the button is then disabled exactly when the list was cleared |

## Left out

- Database, image host and network: each call is an outcome parameter. The model does not cover SQL, Prisma's connection handling (`ensureConnection`), the base64 encoding of uploads, or the image host's upload and destroy calls.
- Concurrency: the parallel uploads and the parallel destroy/cascade/delete of `Promise.all` are modelled as independent steps, with no atomicity claim. React's batching of state updates and races between handlers are not modelled.
- PostsRoute.UploadAll: when several images fail, the model reports the first in image order. `Promise.all` reports whichever rejection settles first.
- PostStore.Store.DeletePost and PostStore.Store.ResetToday: a failed step's error text is a parameter; which exception the database raises is not modelled.
- PostStore.Store.DeletePost and PostStore.Store.ResetToday: store integrity is promised only when the vote deletion succeeds. The model does not include the database's foreign-key check that would refuse deleting a post that still has votes.
- Clocks and time zones: `now`, `startOfToday` and `utcMidnight` are parameters. Local versus UTC midnight, DST and `setDate` across a DST change are not modelled; every day has 24 hours.
- PostsRoute.ListPosts: page and limit are required to be at least 1. A `parseInt` that yields NaN, or page or limit below 1, is not modelled.
- PostsRoute.CheckCreate: a database lookup that throws (the outer catch, 'Error creating post: …') is not modelled. CheckDelete leaves out the same case ('Error deleting post: …').
- DailyWinnerPanel.WinnerPanel.FetchWinner: a 500 error body is not modelled. The component would store that body as the winner and then fail at `imageUrl.split`. The hooks declared after the component's early returns are not modelled either.
- TrendingRoute.Project: the `title`, `description`, `user` and `votes` array fields are not carried; the owner is represented by `userId`. PostWinnerRoute and DailyWinnerRoute likewise represent the user by the post's `userId`.
- User-interface effects: toasts, `router.refresh`, animations, confetti, the keyboard listener, the actual file download and console logging.
- The server vote route is not part of this model, so per-day, toggle and no-self-vote rules are absent. The feed only treats its response as accepted or not.
