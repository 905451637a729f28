# CineTrack in Dafny

CineTrack is a film and book tracking site. Its ASP.NET Web API keeps users, reviews, ratings and an activity feed in a SQL database. It also searches TMDb for films and Google Books for books. An MVC front end calls the API to build its search and profile pages. This project models the core of both halves and proves what they promise:

- the feed: pages of rating and review activities, per-user activity lists, likes that toggle, and comments (`feed.dfy`, module `Feed`);
- reviews: one review per user and content, their activity log entries, deletion with its cascade, and the two review listings (`reviews.dfy`, `Reviews`);
- the catalog search: the filter and paging rules of the film and book search, the genre table, and the mapping of a TMDb record to a content DTO (`catalog.dfy`, `Catalog`);
- accounts: registration, login, and the password-reset token (`auth.dfy`, `Auth`);
- the MVC search page: the API endpoint it builds, and the choice between a search and the showcases (`search_ui.dfy`, `Search`);
- the MVC profile page: whose profile is shown, the owner and following flags, the counts, and how lists are sorted into buckets (`profile.dfy`, `Profile`).

Shared pieces:

- `common.dfy`: the .NET string helpers (`IsNullOrWhiteSpace`, `int.Parse`, `Int32.ToString`, `Split`, `Join`) and unchecked Int32 arithmetic (`Wrap32`);
- `query.dfy`: the LINQ operators (`Where`, `Count`, `OrderBy`, `Skip`, `Take`), each with its lemmas. `OrderBy` is an insertion sort that keeps rows with equal keys in table order. That tie order is a choice of this model: SQL `ORDER BY` fixes none;
- `tables.dfy`: the database tables, the `Database` class whose fields the services update, and the review predicates the feed and the review service share (a user's reviews of an item, the newest of them, the three-hour display offset).

The services are classes over that one `Database` object. Each state-changing method states the new table contents as a function of the old ones, and the lemmas state what those functions guarantee. The signed-in user is a parameter named `viewer`, where 0 means nobody is signed in, as `GetUserId` returns. `DateTime.UtcNow` is a parameter named `now`, in whole seconds. HTTP answers are parameters as well: a function from the request to the parsed reply.

## Model

| member | source | states |
|---|---|---|
| Query.SortBySortedPermutation | CineTrack.WebAPI/Services/FeedService.cs:36 | OrderBy/OrderByDescending as used by the services returns a permutation of its input that is sorted by the key |
| Query.OrderedWhere | CineTrack.WebAPI/Services/ReviewService.cs:73-77 | Where followed by OrderBy keeps exactly the rows that pass the filter, as many as pass it, in key order |
| Query.AdjacentWindowsDisjoint | CineTrack.WebAPI/Services/FeedService.cs:37-38 | Skip/Take windows that follow one another share no position of a list of distinct rows |
| Common.SplitJoin | CineTrack.MvcUI/Controllers/SearchController.cs:115 | splitting a string.Join on its separator gives the parts back when no part contains the separator |
| Common.IntToStringRoundTrip | CineTrack.WebAPI/Services/ContentService.cs:259 | int.Parse of Int32.ToString gives the number back |
| Common.Wrap32 | CineTrack.WebAPI/Services/FeedService.cs:37 | an unchecked Int32 product is an Int32 that differs from the exact product by a multiple of 2^32 |
| Feed.FeedService.GetFeed | CineTrack.WebAPI/Services/FeedService.cs:28-111 | the call fails exactly when the page's Int32 offset `(page - 1) * pageSize` is negative (SQL Server refuses a negative OFFSET); otherwise the answer is page `page` of the rating and review activities, newest first, each activity enriched, and activities whose content is missing skipped |
| Feed.FeedService.Assemble | CineTrack.WebAPI/Services/FeedService.cs:52-110 | the loop over the activity window builds the enriched list and skips rows without a cached content |
| Feed.FeedService.BuildDto | CineTrack.WebAPI/Services/FeedService.cs:62-105 | one activity's DTO: author, content, like and comment counts, the viewer's like, and the rating value or the newest review of a rating or review activity |
| Feed.FeedWindowShape | CineTrack.WebAPI/Services/FeedService.cs:33-39 | a page holds at most pageSize activities, each a rating or a review from the table, newest first |
| Feed.ConsecutivePagesDisjoint | CineTrack.WebAPI/Services/FeedService.cs:36-38 | page p and page p+1 share no activity, when activity ids are distinct, no two feed activities share a creation time, and the end of page p fits in Int32 |
| Feed.PageOffsets | CineTrack.WebAPI/Services/FeedService.cs:37 | while the end of page p fits in Int32, page p starts at (p-1)*pageSize and page p+1 starts where page p ends |
| Feed.PageBelowOneIsNegative | CineTrack.WebAPI/Services/FeedService.cs:37 | a page below 1 has a negative offset, so the feed query fails |
| Feed.LargePageOffsetWraps | CineTrack.WebAPI/Controllers/FeedController.cs:21-23 | with the endpoint's page size of 15, page 143,165,578 wraps to the negative offset -2,147,483,641, so that feed request fails |
| Feed.FeedViewShape | CineTrack.WebAPI/Services/FeedService.cs:54-77 | an activity is shown exactly when its content id is cached; its DTO carries the activity id, the content id and title, and the time shifted by three hours |
| Feed.EngagementCounts | CineTrack.WebAPI/Services/FeedService.cs:62-64 | the like count and comment count are the numbers of rows for that activity, and IsLiked holds exactly when the viewer has a like row for it |
| Feed.DetailMatchesAction | CineTrack.WebAPI/Services/FeedService.cs:85-105 | a rating value is shown only on a rating activity and is that author's rating of the content; a review is shown only on a review activity, with its text and id, and it is the newest review of that author for the content. Conversely, a rating activity whose author has a rating row shows a value, and a review activity whose author has a review shows one |
| Feed.FirstRating | CineTrack.WebAPI/Services/FeedService.cs:88-89 | FirstOrDefault finds a rating of that user for that content, or there is none |
| Feed.LatestReviewIsNewest | CineTrack.WebAPI/Services/FeedService.cs:96-98 | the review shown is the most recent one of that user for that content, and exists exactly when the user has such a review |
| Feed.FeedService.GetUserActivities | CineTrack.WebAPI/Services/FeedService.cs:114-163 | the list is the user's 30 newest activities, enriched without rating or review detail |
| Feed.UserActivitiesShape | CineTrack.WebAPI/Services/FeedService.cs:118-123 | at most 30 activities, all of that user, newest first, and none carries rating or review detail |
| Feed.FeedService.ToggleLike | CineTrack.WebAPI/Services/FeedService.cs:166-190 | nobody signed in changes nothing and answers false; otherwise an existing like row is removed, a missing one is added, and the answer says whether the viewer now likes the activity |
| Feed.ToggleKeepsKeyUnique | CineTrack.DataAccess/CineTrackDbContext.cs:30-31 | toggling keeps the (UserId, ActivityId) key of the like table unique |
| Feed.ToggleTwiceRestores | CineTrack.WebAPI/Services/FeedService.cs:171-189 | two toggles leave the same like rows |
| Feed.ToggleMovesCount | CineTrack.WebAPI/Services/FeedService.cs:174-189 | a toggle moves that activity's like count by one in the direction of the new state and leaves every other activity's count alone |
| Feed.FeedService.AddComment | CineTrack.WebAPI/Services/FeedService.cs:193-218 | a comment row is appended with the next id and the answer carries the commenter's name and avatar; with foreign keys not enforced, a commenter without a user row gives a failure answer |
| Feed.PostComment | CineTrack.WebAPI/Controllers/ActivityController.cs:33-39 | a missing or blank text is a bad request that stores nothing and uses no comment id; otherwise the comment is added |
| Feed.FeedService.GetComments | CineTrack.WebAPI/Services/FeedService.cs:221-236 | one DTO per comment of the activity, oldest first |
| Feed.CommentsOldestFirst | CineTrack.WebAPI/Services/FeedService.cs:223-235 | the rows listed are exactly the comments of that activity, each shown with its text, in time order |
| Reviews.ReviewService.AddOrUpdateReview | CineTrack.WebAPI/Services/ReviewService.cs:27-68 | an existing review of the viewer for the content gets the new text and time, otherwise a review is added; a review activity is logged either way; with foreign keys not enforced, the answer fails exactly when the user row is missing |
| Reviews.UpsertKeepsOneReview | CineTrack.WebAPI/Services/ReviewService.cs:30-49 | after an upsert the user has exactly one review of the content, it is the latest and carries the new text, other reviews are untouched, and the table grows by one only when there was none |
| Reviews.ReviewService.DeleteReview | CineTrack.WebAPI/Services/ReviewService.cs:110-128 | the answer is true exactly when the viewer had a review of the content; the new tables are those of AfterDelete |
| Reviews.ReviewService.RemoveReviewActivity | CineTrack.WebAPI/Services/ReviewService.cs:121-124 | the first review activity of the viewer and the content goes, with its likes and comments, and the tables stay valid |
| Reviews.DeleteRemovesTheReview | CineTrack.WebAPI/Services/ReviewService.cs:113-118 | delete removes one review of that user and content and no other; with unique reviews none is left |
| Reviews.DeleteRemovesAtMostOneActivity | CineTrack.WebAPI/Services/ReviewService.cs:121-124 | delete removes at most the first review activity of that user and content and leaves every other activity, user, content and rating |
| Reviews.DeleteCascades | CineTrack.DataAccess/CineTrackDbContext.cs:34-55 | the likes and comments of the removed activity go with it, and only those |
| Reviews.DeleteWithoutReviewIsNoop | CineTrack.WebAPI/Services/ReviewService.cs:116 | without a review, delete changes nothing |
| Reviews.StaleActivityAfterDelete | CineTrack.WebAPI/Services/ReviewService.cs:52-57 | a review written twice and then deleted leaves no review, but its second review activity stays in the log |
| Reviews.ReviewService.GetReviewsByContent | CineTrack.WebAPI/Services/ReviewService.cs:71-88 | one DTO per review of the content, newest first |
| Reviews.ReviewsByContentExact | CineTrack.WebAPI/Services/ReviewService.cs:73-87 | the listing holds a DTO for every review of the content and only those, newest first |
| Reviews.ListingShape | CineTrack.WebAPI/Services/ReviewService.cs:79-87 | a review listing has one DTO per matching review, in descending time order, and contains the DTO of each |
| Reviews.ListingSound | CineTrack.WebAPI/Services/ReviewService.cs:79-87 | each DTO of a listing comes from a matching review |
| Reviews.ReviewService.GetReviewsByUser | CineTrack.WebAPI/Services/ReviewService.cs:91-108 | one DTO per review of the user, newest first, under the corrected listing |
| Reviews.ReviewsByUserExact | CineTrack.WebAPI/Services/ReviewService.cs:93-107 | the corrected listing holds a DTO for every review of the user and only those, newest first |
| Reviews.ReviewsByUserAsWrittenFails | CineTrack.WebAPI/Services/ReviewService.cs:94-105 | the listing as written fails exactly when the user has a review, and otherwise equals the corrected one |
| Reviews.ReviewsByUserCounterexample | CineTrack.WebAPI/Services/ReviewService.cs:94-105 | a user with one review gets an error from the listing as written and one DTO from the corrected one |
| Catalog.Lookup | CineTrack.WebAPI/Services/ContentService.cs:236-246 | the lookup fails exactly when no key equals the name ignoring case, and otherwise answers the value of such a key |
| Catalog.GenreIdMeaning | CineTrack.WebAPI/Services/ContentService.cs:234-247 | a genre id is found exactly when a table name equals the given one ignoring case |
| Catalog.GenreIdIgnoresCase | CineTrack.WebAPI/Services/ContentService.cs:236-242 | "bilim kurgu" is 878 and "SUÇ" is 80; an English name is not in the table |
| Catalog.MapToDtoMeaning | CineTrack.WebAPI/Services/ContentService.cs:249-266 | mapping fails exactly on a missing or non-Int32 id or a bad year; the DTO's id parses back to the record's id; the cover is the TMDb prefix plus a non-empty poster path; the year is the first four digits of the date |
| Catalog.CollectMembers | CineTrack.WebAPI/Services/ContentService.cs:77-107 | the filter loop fails exactly when some record throws, and otherwise keeps exactly the DTOs of the records that pass |
| Catalog.MovieKeptMeaning | CineTrack.WebAPI/Services/ContentService.cs:79-104 | a film passes exactly when its genre list has the genre, its vote is not under the minimum, and its year lies in a year range; without a usable date it fails a range |
| Catalog.SearchReadsFetchedPages | CineTrack.WebAPI/Services/ContentService.cs:44-58 | a search reads pages 1 to n of the query and nothing else |
| Catalog.SearchMoviesPageBound | CineTrack.WebAPI/Services/ContentService.cs:111 | a film search answers at most 18 items |
| Catalog.SearchMoviesFiltered | CineTrack.WebAPI/Services/ContentService.cs:39-111 | every film a search answers is the DTO of a fetched record that passes the filters |
| Catalog.FetchPool | CineTrack.WebAPI/Services/ContentService.cs:44-74 | the page loop gathers the records of pages 1 to n, or fails |
| Catalog.FilterMovie | CineTrack.WebAPI/Services/ContentService.cs:79-106 | the per-record filter and mapping |
| Catalog.CollectLoop | CineTrack.WebAPI/Services/ContentService.cs:141-144 | the mapping loop gathers the DTOs or stops at the first exception |
| Catalog.FilterPool | CineTrack.WebAPI/Services/ContentService.cs:77-107 | the filter loop over the pool |
| Catalog.SearchMovies | CineTrack.WebAPI/Services/ContentService.cs:23-156 | the film search: the search mode skips the Int32 offset `(page-1)*18` of the filtered pool and takes 18, the discover mode takes 18 of one discover page, and any exception gives an empty list |
| Catalog.PageOffsetMeaning | CineTrack.WebAPI/Services/ContentService.cs:110 | up to page 119,304,648 the skip count is exactly (page-1)*18; page 119,304,649 wraps to -2,147,483,632 |
| Catalog.WrappedPageIsFirstPage | CineTrack.WebAPI/Services/ContentService.cs:110 | a search page whose offset wraps negative skips nothing and answers the first page again |
| Catalog.BookRequestMeaning | CineTrack.WebAPI/Services/ContentService.cs:161-170 | the book query is never blank (it defaults to "bestseller"), the subject is sent exactly when a genre is given, 18 results are asked for, and the start index is an Int32: exactly (page-1)*18 up to page 119,304,648 and wrapped past it |
| Catalog.BookKeptMeaning | CineTrack.WebAPI/Services/ContentService.cs:185-206 | a book passes exactly when its rating is not under the minimum and its year equals the year, or lies in the range; with a year given, a book without a usable published date never passes |
| Catalog.SearchBooksFiltered | CineTrack.WebAPI/Services/ContentService.cs:172-231 | every book a search answers is built from a response item that passes the filters: typed "book", with that item's id (a fresh Guid when null), title (a placeholder when null), thumbnail, rating and published year |
| Catalog.SearchBooks | CineTrack.WebAPI/Services/ContentService.cs:159-232 | the book search loop, with any exception giving an empty list |
| Auth.AuthService.Register | CineTrack.WebAPI/Services/AuthService.cs:24-55 | a taken address fails and changes nothing; otherwise the user is added and the answer is for that user |
| Auth.RegisterThenLogin | CineTrack.WebAPI/Services/AuthService.cs:24-78 | after registering, logging in with the same address and password succeeds for the new user |
| Auth.RegisterKeepsEmailsUnique | CineTrack.WebAPI/Services/AuthService.cs:26-37 | registration keeps addresses unique |
| Auth.AuthService.Login | CineTrack.WebAPI/Services/AuthService.cs:57-78 | login answers for a user with that address and password hash, and fails for an unknown address |
| Auth.LoginIff | CineTrack.WebAPI/Services/AuthService.cs:59-61 | with unique addresses, login succeeds exactly when a user has that address and the hash of the password |
| Auth.AuthService.GeneratePasswordResetToken | CineTrack.WebAPI/Services/AuthService.cs:92-102 | the first user with the address gets the token and an expiry one hour on; an unknown address changes nothing |
| Auth.AuthService.ResetPassword | CineTrack.WebAPI/Services/AuthService.cs:113-127 | the reset succeeds exactly when the user exists, the token matches and has not expired; then the hash is replaced and the token cleared, otherwise nothing changes |
| Auth.UpdateKeepsInvariants | CineTrack.WebAPI/Services/AuthService.cs:99-124 | changing one user's hash or token keeps addresses unique and tokens paired with expiries |
| Auth.ResetLifecycle | CineTrack.WebAPI/Services/AuthService.cs:92-127 | a token used within its hour resets the password, the new password logs in, and the same token then fails |
| Auth.ExpiredTokenRefused | CineTrack.WebAPI/Services/AuthService.cs:100-117 | a token used after its hour is refused |
| Search.BuildSearchEndpoint | CineTrack.MvcUI/Controllers/SearchController.cs:98-120 | the endpoint is the route followed by the parameters joined with "&" |
| Search.EndpointRoundTrip | CineTrack.MvcUI/Controllers/SearchController.cs:98-120 | reading the endpoint back gives the escaped query, the escaped genre and year exactly when they are not blank, and the minimum rating exactly when given; the books route is taken exactly for type "book" |
| Search.QueryStringRoundTrip | CineTrack.MvcUI/Controllers/SearchController.cs:100-115 | the query string holds each parameter's value under its key |
| Search.RouteChoice | CineTrack.MvcUI/Controllers/SearchController.cs:117-119 | "book" selects the books route and anything else the films route |
| Search.Index | CineTrack.MvcUI/Controllers/SearchController.cs:17-57 | the page model is IndexView of the API answers |
| Search.IndexChoosesSearchOrShowcases | CineTrack.MvcUI/Controllers/SearchController.cs:19-95 | the content type defaults to "movie"; a non-blank query runs the search and leaves the showcases empty; otherwise the showcases load, no search runs and no error is shown |
| Search.SearchReadsOneEndpoint | CineTrack.MvcUI/Controllers/SearchController.cs:36-43 | with a query, the page depends on the search endpoint's answer alone |
| Profile.ShowProfile | CineTrack.MvcUI/Controllers/UserController.cs:18-85 | no target id redirects to login, an unknown user is not found, and otherwise the page shows the user, flags, counts, buckets and activities |
| Profile.TargetChoice | CineTrack.MvcUI/Controllers/UserController.cs:21-33 | an explicit id wins; a signed-in user without one sees their own profile as owner; target 0 exactly when neither is given |
| Profile.FollowingFlag | CineTrack.MvcUI/Controllers/UserController.cs:35-39 | the following flag holds exactly when a signed-in visitor other than the owner has the target in a non-null following list |
| Profile.AnyWithId | CineTrack.MvcUI/Controllers/UserController.cs:38 | the search answers whether some user in the list has the id |
| Profile.UserProfileView.SetFlags | CineTrack.MvcUI/Controllers/UserController.cs:33-45 | the owner and following flags and the counts, with null lists counting 0 |
| Profile.UserProfileView.SortLists | CineTrack.MvcUI/Controllers/UserController.cs:54-78 | each bucket grows by the contents of the lists with its name, its id becomes that of the last such list, and the other lists join the custom lists |
| Profile.UserProfileView.AddList | CineTrack.MvcUI/Controllers/UserController.cs:56-77 | one list goes to its bucket or to the custom lists |
| Profile.SortAllBuckets | CineTrack.MvcUI/Controllers/UserController.cs:54-78 | sorting the lists one at a time leaves each bucket with the contents of the lists of its name and the id of the last of them, and the rest as custom lists, in order |
| Profile.EachListOnePlace | CineTrack.MvcUI/Controllers/UserController.cs:56-77 | every list lands in exactly one place: the four bucket counts and the custom lists add up to all lists, and a list is custom exactly when its name is not a bucket name |
| Profile.GatheredIsFlattenedLists | CineTrack.MvcUI/Controllers/UserController.cs:58-72 | a bucket is the contents of the lists with its name, one after the other, with null contents as empty |
| Profile.LastIdIsLastNamed | CineTrack.MvcUI/Controllers/UserController.cs:60-72 | a bucket's list id is that of the last list with its name, or stays 0 |

## Left out

- HTTP, JSON parsing, SMTP e-mail and the ASP.NET pipeline are not modelled. API answers and parsed records are parameters, and the reset e-mail is not sent.
- Concurrency is not modelled: the parallel page requests (`Task.WhenAll`) are read in page order, and concurrent requests to the database are not considered.
- Floating point is not modelled: TMDb and Google ratings and `minRating` are whole numbers, and only `<` is used on them. The culture-dependent formatting of `minRating` in the search endpoint is written as `Int32.ToString`.
- Search.BuildSearchEndpoint: `Uri.EscapeDataString` is an uninterpreted parameter. The round trip assumes it never leaves a bare '&', which is its percent-encoding contract (section 2.1 of RFC 3986).
- Catalog.FoldChar: ignore-case comparison is modelled for ASCII, Latin-1 and Latin Extended-A letters only. Other scripts compare exactly.
- Auth: e-mail comparison is exact. The SQL collation may compare addresses ignoring case; that is not modelled.
- Auth: SHA-256, JWT issuing and `Guid.NewGuid` are the parameters `hash`, `jwt` and `token`. The Guid used for a book without an id is `guid(k)` for the k-th result.
- Auth.AuthService.ResetPassword: the request's token is a non-null string. ResetPasswordDto is not part of this model, so a null token, which would match a user with no reset pending, is not covered.
- Tables: foreign keys are not enforced. A review, activity or like may name a user or content that has no row. The feed and comment listings then show the entry with no username or avatar. The source would throw at `a.User!.Username` (FeedService.cs:70,148), or its inner join would drop the row. The writes are unchecked too, where the database refuses them, throws and stores nothing:
  - ToggleLike on an activity id with no row: the model adds a dangling like and answers true, while the insert at FeedService.cs:188 breaks FK_ActivityLikes_ActivityLogs_ActivityId (Migrations/20251130095338_AddSocialFeatures.cs:52-63).
  - AddComment for a viewer or activity with no row: the model stores the comment (and answers a failure for a missing viewer), while the insert at FeedService.cs:207 breaks FK_ActivityComments_Users_UserId or FK_ActivityComments_ActivityLogs_ActivityId (same migration, lines 28-39), so `user!` at line 214 is never reached.
  - AddOrUpdateReview for a viewer with no row: the model writes the review and the activity and answers a failure; the database would refuse the insert branch's save at ReviewService.cs:48, given the usual key from Reviews.UserId to Users (Review.cs, which declares it, is not part of this model).
- Feed.FeedService.GetFeed: a page size below 1 is not refused as SQL Server's `FETCH NEXT` would refuse it; the endpoint always passes 15 (FeedController.cs:23). Rows with equal creation times come in table order, where SQL fixes no order between two queries.
- Feed.ConsecutivePagesDisjoint: stated only for feed activities with distinct creation times, because SQL `ORDER BY CreatedAt` may order ties differently in two queries and repeat a row. It is also stated only for pages whose end fits in Int32; past that the offset wraps (Feed.LargePageOffsetWraps) and a negative one makes the query fail.
- Tables: the database identity columns are counters on the `Database` class. `CreatedAt` defaults, which are set by entity code not in this model, are taken as `now`.
- Feed.FeedService.Assemble: the feed's bulk content lookup (`ToDictionaryAsync`) is a `map` from content id to content. The `Distinct` and null filtering of ids is subsumed by that lookup.
- Profile: the UserListDto and ContentDto of the MVC project are not part of this model. A list entry carries only an id, a title and a content type.
- Profile: an exception from the user API is not modelled; each answer is a value or null. `SetFlags` also sets the recent activities, which the source fetches last; with the answers as parameters the order does not matter.
- Search: `SearchPartial` (SearchController.cs:61-76) is not modelled. It builds the same endpoint as Index.
- Content caching (`GetContentAsync`, `FetchAndSave*Async`) and the user, list and rating controllers are not part of this model.

## Findings

| source | as written | input that shows it | evidently intended | confidence | as-written member | corrected member |
|---|---|---|---|---|---|---|
| CineTrack.WebAPI/Services/ReviewService.cs:93-105 | the query loads `r.Content` (`.Include(r => r.Content)`) but reads `r.User!.Username`, so `r.User` is null and the listing throws a NullReferenceException for every user who has a review | user 1 "ada" with one review (id 7): the listing fails instead of answering one DTO | load the reviewer (`.Include(r => r.User)`) and answer one DTO per review of the user with the reviewer's name | not executed; medium, because EF Core would fill `r.User` if the user were already tracked by the same context | Reviews.ReviewsByUserAsWritten, with Reviews.ReviewsByUserAsWrittenFails and Reviews.ReviewsByUserCounterexample | Reviews.ReviewsByUser, with Reviews.ReviewsByUserExact; Reviews.ReviewService.GetReviewsByUser uses it |
