/** FeedService: the activity feed, a user's recent activities, and the likes
    and comments attached to an activity. The service reads and writes the
    tables of one Database; the signed-in user (GetUserId) is the explicit
    parameter `viewer`, with 0 meaning "no user", as in the service. */
module Feed {
  import opened Common
  import opened Query
  import opened Tables

  /** The page size the feed endpoint passes, and the size of the profile view. */
  const DefaultPageSize: int := 15
  const UserActivityLimit: int := 30

  datatype ActivityDto = ActivityDto(
    id: int,
    userId: int,
    username: Option<string>,
    userAvatar: Option<string>,
    actionType: string,
    targetId: Option<string>,
    targetTitle: string,
    contentType: string,
    coverUrl: Option<string>,
    createdAt: int,
    ratingValue: Option<int>,
    reviewText: Option<string>,
    reviewId: Option<int>,
    likeCount: nat,
    commentCount: nat,
    isLiked: bool)

  datatype CommentDto = CommentDto(
    id: int,
    activityId: int,
    text: string,
    username: Option<string>,
    userAvatar: Option<string>,
    createdAt: int)

  datatype FeedError =
    | UserNotFound     // `user!.Username` when the signed-in user has no row
    | BlankComment     // the comment endpoint's bad request
    | NegativeOffset   // SQL Server refuses a negative OFFSET

  // ---------------------------------------------------------------------------
  // The queries the service sends to the database
  // ---------------------------------------------------------------------------

  predicate IsFeedType(a: ActivityLog)
  {
    a.actionType == "rating" || a.actionType == "review"
  }

  /** Sort key for OrderByDescending(a => a.CreatedAt). */
  function NewestActivityFirst(a: ActivityLog): int { -a.createdAt }

  function ByUser(userId: int): ActivityLog -> bool
  {
    (a: ActivityLog) => a.userId == userId
  }

  /** The OFFSET of a feed page: (page - 1) * pageSize in unchecked Int32
      arithmetic. */
  function FeedOffset(page: int, pageSize: int): int
  {
    Wrap32((page - 1) * pageSize)
  }

  /** The activities of one feed page: rating and review entries, newest
      first, skipping the page's offset and taking pageSize. */
  function FeedWindow(activities: seq<ActivityLog>, page: int, pageSize: int): seq<ActivityLog>
  {
    Window(SortBy(Filter(IsFeedType, activities), NewestActivityFirst), FeedOffset(page, pageSize), pageSize)
  }

  /** The most recent activities of one user, any action type, at most 30. */
  function UserWindow(activities: seq<ActivityLog>, userId: int): seq<ActivityLog>
  {
    Take(SortBy(Filter(ByUser(userId), activities), NewestActivityFirst), UserActivityLimit)
  }

  function HasContentIn(contents: map<string, Content>): ActivityLog -> bool
  {
    (a: ActivityLog) => a.contentId.Some? && a.contentId.value in contents
  }

  function LikesActivity(activityId: int): ActivityLike -> bool
  {
    (l: ActivityLike) => l.activityId == activityId
  }

  function CommentsActivity(activityId: int): ActivityComment -> bool
  {
    (c: ActivityComment) => c.activityId == activityId
  }

  function LikeCount(likes: seq<ActivityLike>, activityId: int): nat
  {
    Count(LikesActivity(activityId), likes)
  }

  function CommentCount(comments: seq<ActivityComment>, activityId: int): nat
  {
    Count(CommentsActivity(activityId), comments)
  }

  /** Ratings.FirstOrDefault(r => r.UserId == userId && r.ContentId == contentId) */
  function FirstRating(ratings: seq<Rating>, userId: int, contentId: string): (r: Option<Rating>)
    ensures r.Some? ==> r.value in ratings && r.value.userId == userId && r.value.contentId == contentId
    ensures r.None? ==> forall k :: 0 <= k < |ratings| ==> !(ratings[k].userId == userId && ratings[k].contentId == contentId)
  {
    if ratings == [] then None
    else if ratings[0].userId == userId && ratings[0].contentId == contentId then Some(ratings[0])
    else FirstRating(ratings[1..], userId, contentId)
  }

  /** The review a feed entry shows is the most recent review of that user for
      that content, and there is one exactly when such a review exists. */
  lemma LatestReviewIsNewest(reviews: seq<Review>, userId: int, contentId: string)
    ensures LatestReview(reviews, userId, contentId).None? <==>
            forall k :: 0 <= k < |reviews| ==> !(reviews[k].userId == userId && reviews[k].contentId == contentId)
    ensures LatestReview(reviews, userId, contentId).Some? ==>
            var r := LatestReview(reviews, userId, contentId).value;
            r in reviews && r.userId == userId && r.contentId == contentId &&
            forall k :: 0 <= k < |reviews| && reviews[k].userId == userId && reviews[k].contentId == contentId ==>
              reviews[k].createdAt <= r.createdAt
  {
    var p := ReviewOf(userId, contentId);
    var matching := Filter(p, reviews);
    var newest := SortBy(matching, NewestReviewFirst);
    SortBySortedPermutation(matching, NewestReviewFirst);
    if newest == [] {
      forall k | 0 <= k < |reviews| ensures !p(reviews[k]) {
        FilterMembers(p, reviews, reviews[k]);
      }
    } else {
      assert newest[0] in multiset(matching);
      FilterMembers(p, reviews, newest[0]);
      forall k | 0 <= k < |reviews| && p(reviews[k]) ensures reviews[k].createdAt <= newest[0].createdAt {
        FilterMembers(p, reviews, reviews[k]);
        assert reviews[k] in multiset(newest);
        var j :| 0 <= j < |newest| && newest[j] == reviews[k];
        if j > 0 {
          assert NewestReviewFirst(newest[0]) <= NewestReviewFirst(newest[j]);
        }
      }
    }
  }

  // ---------------------------------------------------------------------------
  // The DTOs the service assembles
  // ---------------------------------------------------------------------------

  /** The DTO of one activity whose content exists: title, type and cover from
      the content row, author from the user row, engagement counts, the
      viewer's like, and, with details, the rating value or the latest review. */
  function Enrich(t: Tables, viewer: int, withDetail: bool, a: ActivityLog): ActivityDto
    requires HasContentIn(t.contents)(a)
  {
    var content := t.contents[a.contentId.value];
    var author := FindUser(t.users, a.userId);
    var rating := if withDetail && a.actionType == "rating"
                  then FirstRating(t.ratings, a.userId, a.contentId.value) else None;
    var review := if withDetail && a.actionType == "review"
                  then LatestReview(t.reviews, a.userId, a.contentId.value) else None;
    ActivityDto(
      a.id, a.userId,
      if author.Some? then Some(author.value.username) else None,
      if author.Some? then author.value.avatarUrl else None,
      a.actionType, a.contentId, content.title, content.contentType, content.coverUrl,
      a.createdAt + DisplayOffset,
      if rating.Some? then Some(rating.value.ratingValue) else None,
      if review.Some? then Some(review.value.reviewText) else None,
      if review.Some? then Some(review.value.id) else None,
      LikeCount(t.likes, a.id), CommentCount(t.comments, a.id),
      ActivityLike(viewer, a.id) in t.likes)
  }

  /** The activities of a window whose content row exists, in window order. */
  function Kept(contents: map<string, Content>, window: seq<ActivityLog>): seq<ActivityLog>
  {
    Filter(HasContentIn(contents), window)
  }

  /** The service's answer for a window of activities. */
  function FeedView(t: Tables, viewer: int, withDetail: bool, window: seq<ActivityLog>): seq<ActivityDto>
  {
    var kept := Kept(t.contents, window);
    seq(|kept|, k requires 0 <= k < |kept| => Enrich(t, viewer, withDetail, kept[k]))
  }

  /** One more activity in the window adds its DTO when its content exists. */
  lemma FeedViewSnoc(t: Tables, viewer: int, withDetail: bool, window: seq<ActivityLog>, a: ActivityLog)
    ensures FeedView(t, viewer, withDetail, window + [a]) ==
            FeedView(t, viewer, withDetail, window) +
            (if HasContentIn(t.contents)(a) then [Enrich(t, viewer, withDetail, a)] else [])
  {
    FilterSnoc(HasContentIn(t.contents), window, a);
  }

  function CommentView(users: seq<User>): ActivityComment -> CommentDto
  {
    (c: ActivityComment) =>
      var author := FindUser(users, c.userId);
      CommentDto(c.id, c.activityId, c.text,
                 if author.Some? then Some(author.value.username) else None,
                 if author.Some? then author.value.avatarUrl else None,
                 c.createdAt)
  }

  function OldestCommentFirst(c: ActivityComment): int { c.createdAt }

  /** The comment rows of one activity, oldest first. */
  function CommentRows(comments: seq<ActivityComment>, activityId: int): seq<ActivityComment>
  {
    SortBy(Filter(CommentsActivity(activityId), comments), OldestCommentFirst)
  }

  /** GetCommentsAsync: that activity's comments, oldest first, as DTOs. */
  function Comments(t: Tables, activityId: int): seq<CommentDto>
  {
    MapSeq(CommentView(t.users), CommentRows(t.comments, activityId))
  }

  // ---------------------------------------------------------------------------
  // Like toggling as a function of the like table
  // ---------------------------------------------------------------------------

  /** The index of the first row equal to x. */
  function FirstIndex<T(==)>(s: seq<T>, x: T): (i: nat)
    requires x in s
    ensures i < |s| && s[i] == x && x !in s[..i]
  {
    if s[0] == x then 0
    else
      var i := FirstIndex(s[1..], x);
      assert s[..i + 1] == [s[0]] + s[1..][..i];
      i + 1
  }

  /** The table without its first row equal to x. */
  function RemoveRow<T(==)>(s: seq<T>, x: T): (r: seq<T>)
    requires x in s
  {
    var i := FirstIndex(s, x);
    s[..i] + s[i + 1..]
  }

  /** The like table after (viewer, activity) toggles its like. */
  function ToggledLikes(likes: seq<ActivityLike>, viewer: int, activityId: int): seq<ActivityLike>
  {
    var key := ActivityLike(viewer, activityId);
    if key in likes then RemoveRow(likes, key) else likes + [key]
  }

  /** A toggle keeps the composite key unique, and afterwards the pair is liked
      exactly when it was not liked before. */
  lemma ToggleKeepsKeyUnique(likes: seq<ActivityLike>, viewer: int, activityId: int)
    requires LikesUnique(likes)
    ensures LikesUnique(ToggledLikes(likes, viewer, activityId))
    ensures ActivityLike(viewer, activityId) in ToggledLikes(likes, viewer, activityId)
            <==> ActivityLike(viewer, activityId) !in likes
  {
    var key := ActivityLike(viewer, activityId);
    var r := ToggledLikes(likes, viewer, activityId);
    if key in likes {
      var i := FirstIndex(likes, key);
      forall a, b | 0 <= a < b < |r| ensures r[a] != r[b] {
        var a' := if a < i then a else a + 1;
        var b' := if b < i then b else b + 1;
        assert r[a] == likes[a'] && r[b] == likes[b'];
      }
      forall j | 0 <= j < |r| ensures r[j] != key {
        var j' := if j < i then j else j + 1;
        assert r[j] == likes[j'] && j' != i;
      }
    } else {
      assert r == likes + [key];
    }
  }

  /** Two consecutive toggles by the same user restore the like table (up to
      the position of the row). */
  lemma ToggleTwiceRestores(likes: seq<ActivityLike>, viewer: int, activityId: int)
    requires LikesUnique(likes)
    ensures multiset(ToggledLikes(ToggledLikes(likes, viewer, activityId), viewer, activityId)) == multiset(likes)
  {
    var key := ActivityLike(viewer, activityId);
    var once := ToggledLikes(likes, viewer, activityId);
    ToggleKeepsKeyUnique(likes, viewer, activityId);
    if key in likes {
      var i := FirstIndex(likes, key);
      assert likes == likes[..i] + [key] + likes[i + 1..];
      assert multiset(once + [key]) == multiset(likes);
    } else {
      assert once == likes + [key];
      var j := FirstIndex(once, key);
      assert j == |likes|;
      assert once[..j] == likes;
    }
  }

  /** A toggle moves the like count of that activity by one, in the direction
      of the new state, and leaves every other activity's count alone. */
  lemma ToggleMovesCount(likes: seq<ActivityLike>, viewer: int, activityId: int, other: int)
    requires LikesUnique(likes)
    ensures var after := ToggledLikes(likes, viewer, activityId);
            LikeCount(after, activityId) ==
              if ActivityLike(viewer, activityId) in likes then LikeCount(likes, activityId) - 1
              else LikeCount(likes, activityId) + 1
    ensures other != activityId ==>
            LikeCount(ToggledLikes(likes, viewer, activityId), other) == LikeCount(likes, other)
  {
    var key := ActivityLike(viewer, activityId);
    var after := ToggledLikes(likes, viewer, activityId);
    if key in likes {
      var i := FirstIndex(likes, key);
      CountRemove(LikesActivity(activityId), likes, i);
      CountRemove(LikesActivity(other), likes, i);
    } else {
      CountSnoc(LikesActivity(activityId), likes, key);
      CountSnoc(LikesActivity(other), likes, key);
    }
  }

  // ---------------------------------------------------------------------------
  // Properties of the read paths
  // ---------------------------------------------------------------------------

  /** A feed page holds at most pageSize rating or review activities of the
      table, newest first. */
  lemma FeedWindowShape(activities: seq<ActivityLog>, page: int, pageSize: int)
    ensures |FeedWindow(activities, page, pageSize)| <= if pageSize < 0 then 0 else pageSize
    ensures forall k :: 0 <= k < |FeedWindow(activities, page, pageSize)| ==>
              var a := FeedWindow(activities, page, pageSize)[k];
              a in activities && IsFeedType(a)
    ensures forall i, j :: 0 <= i < j < |FeedWindow(activities, page, pageSize)| ==>
              FeedWindow(activities, page, pageSize)[i].createdAt >= FeedWindow(activities, page, pageSize)[j].createdAt
  {
    var feedType := Filter(IsFeedType, activities);
    var sorted := SortBy(feedType, NewestActivityFirst);
    var w := FeedWindow(activities, page, pageSize);
    SortBySortedPermutation(feedType, NewestActivityFirst);
    forall k | 0 <= k < |w| ensures w[k] in activities && IsFeedType(w[k]) {
      WindowMembers(sorted, FeedOffset(page, pageSize), pageSize, w[k]);
      assert w[k] in multiset(feedType);
      FilterMembers(IsFeedType, activities, w[k]);
    }
    WindowSorted(sorted, FeedOffset(page, pageSize), pageSize, NewestActivityFirst);
    forall i, j | 0 <= i < j < |w| ensures w[i].createdAt >= w[j].createdAt {
      assert NewestActivityFirst(w[i]) <= NewestActivityFirst(w[j]);
    }
  }

  function ActivityId(a: ActivityLog): int { a.id }

  /** While the end of page p fits in Int32, page p starts at (p - 1) * pageSize
      and page p + 1 starts where page p ends. */
  lemma PageOffsets(page: int, pageSize: int)
    requires page >= 1 && pageSize >= 0 && page * pageSize <= Int32Max
    ensures FeedOffset(page, pageSize) == (page - 1) * pageSize >= 0
    ensures FeedOffset(page + 1, pageSize) == FeedOffset(page, pageSize) + pageSize
  {
    var q := page - 1;
    assert q >= 0;
    assert 0 <= q * pageSize;
    assert (q + 1) * pageSize == q * pageSize + pageSize;
    Wrap32InRange(q * pageSize);
    Wrap32InRange(q * pageSize + pageSize);
  }

  /** A page below 1 has a negative offset (while the product fits in Int32),
      so the query is refused. */
  lemma PageBelowOneIsNegative(page: int, pageSize: int)
    requires page <= 0 && pageSize > 0 && (page - 1) * pageSize >= Int32Min
    ensures FeedOffset(page, pageSize) < 0
  {
    var q := 1 - page;
    assert q >= 1;
    assert q * pageSize >= pageSize by { MulMonotone(q, pageSize); }
    assert (page - 1) * pageSize == -(q * pageSize);
    Wrap32InRange((page - 1) * pageSize);
  }

  lemma MulMonotone(q: int, n: int)
    requires q >= 1 && n > 0
    ensures q * n >= n
  {
  }

  /** With the endpoint's page size of 15, page 143,165,578 has an offset past
      Int32Max, which wraps to a negative OFFSET. */
  lemma LargePageOffsetWraps()
    ensures FeedOffset(143165578, DefaultPageSize) == -2147483641
  {
    assert (143165578 - 1) * DefaultPageSize == 2147483655;
  }

  /** Consecutive pages never deliver the same activity twice when activity
      ids are distinct and no two rating or review activities share a creation
      time (so the order by creation time is fully determined). */
  lemma ConsecutivePagesDisjoint(activities: seq<ActivityLog>, page: int, pageSize: int)
    requires page >= 1 && pageSize >= 0 && page * pageSize <= Int32Max
    requires DistinctBy(activities, ActivityId)
    requires forall i, j :: 0 <= i < j < |activities| && IsFeedType(activities[i]) && IsFeedType(activities[j]) ==>
               activities[i].createdAt != activities[j].createdAt
    ensures forall x, y :: x in FeedWindow(activities, page, pageSize) && y in FeedWindow(activities, page + 1, pageSize)
              ==> x.id != y.id
  {
    var sorted := SortBy(Filter(IsFeedType, activities), NewestActivityFirst);
    assert DistinctBy(sorted, ActivityId) by {
      FilterDistinctBy(IsFeedType, activities, ActivityId);
      SortByDistinctBy(Filter(IsFeedType, activities), NewestActivityFirst, ActivityId);
    }
    PageOffsets(page, pageSize);
    var skip := FeedOffset(page, pageSize);
    forall x, y | x in FeedWindow(activities, page, pageSize) && y in FeedWindow(activities, page + 1, pageSize)
      ensures x.id != y.id
    {
      AdjacentWindowsDisjoint(sorted, skip, pageSize, ActivityId, x, y);
    }
  }

  /** Every feed entry belongs to a kept activity of the window, whose content
      exists; entries keep the window's order and there are at most as many
      entries as activities in the window. */
  lemma FeedViewShape(t: Tables, viewer: int, withDetail: bool, window: seq<ActivityLog>)
    ensures |FeedView(t, viewer, withDetail, window)| <= |window|
    ensures forall a :: a in Kept(t.contents, window) <==> a in window && HasContentIn(t.contents)(a)
    ensures forall k :: 0 <= k < |FeedView(t, viewer, withDetail, window)| ==>
              var dto := FeedView(t, viewer, withDetail, window)[k];
              var a := Kept(t.contents, window)[k];
              a in window && dto.id == a.id && dto.targetId == a.contentId &&
              dto.targetId.Some? && dto.targetId.value in t.contents &&
              dto.targetTitle == t.contents[dto.targetId.value].title &&
              dto.createdAt == a.createdAt + DisplayOffset
  {
    forall a ensures a in Kept(t.contents, window) <==> a in window && HasContentIn(t.contents)(a) {
      FilterMembers(HasContentIn(t.contents), window, a);
    }
  }

  /** The engagement figures of a feed entry: its like and comment counts are
      the numbers of rows for that activity, and it is marked liked exactly
      when the viewer has a like row for it. */
  lemma EngagementCounts(t: Tables, viewer: int, withDetail: bool, window: seq<ActivityLog>, k: nat)
    requires k < |FeedView(t, viewer, withDetail, window)|
    ensures var dto := FeedView(t, viewer, withDetail, window)[k];
            dto.likeCount == |Filter(LikesActivity(dto.id), t.likes)| &&
            dto.commentCount == |Filter(CommentsActivity(dto.id), t.comments)| &&
            (dto.isLiked <==> exists i :: 0 <= i < |t.likes| && t.likes[i].userId == viewer && t.likes[i].activityId == dto.id) &&
            (dto.likeCount == 0 <==> forall i :: 0 <= i < |t.likes| ==> t.likes[i].activityId != dto.id)
  {
    var dto := FeedView(t, viewer, withDetail, window)[k];
    CountZero(LikesActivity(dto.id), t.likes);
    if dto.isLiked {
      var i :| 0 <= i < |t.likes| && t.likes[i] == ActivityLike(viewer, dto.id);
    }
  }

  /** A rating value is attached only to rating entries of the feed and a
      review only to review entries; each comes from that author's row for
      that content. Conversely, a rating entry whose author has a rating row
      for the content shows a value, and a review entry whose author has a
      review of the content shows the newest such review. */
  lemma DetailMatchesAction(t: Tables, viewer: int, window: seq<ActivityLog>, k: nat)
    requires k < |FeedView(t, viewer, true, window)|
    ensures var dto := FeedView(t, viewer, true, window)[k];
            var a := Kept(t.contents, window)[k];
            (dto.ratingValue.Some? ==>
               a.actionType == "rating" &&
               exists i :: 0 <= i < |t.ratings| && t.ratings[i].userId == a.userId &&
                 t.ratings[i].contentId == a.contentId.value && t.ratings[i].ratingValue == dto.ratingValue.value) &&
            (dto.reviewText.Some? <==> dto.reviewId.Some?) &&
            (dto.reviewText.Some? ==>
               a.actionType == "review" &&
               exists i :: 0 <= i < |t.reviews| && t.reviews[i].userId == a.userId &&
                 t.reviews[i].contentId == a.contentId.value && t.reviews[i].reviewText == dto.reviewText.value &&
                 t.reviews[i].id == dto.reviewId.value &&
                 forall j :: 0 <= j < |t.reviews| && ReviewOf(a.userId, a.contentId.value)(t.reviews[j]) ==>
                   t.reviews[j].createdAt <= t.reviews[i].createdAt)
    ensures var dto := FeedView(t, viewer, true, window)[k];
            var a := Kept(t.contents, window)[k];
            (a.actionType == "rating" &&
             (exists i :: 0 <= i < |t.ratings| && t.ratings[i].userId == a.userId && t.ratings[i].contentId == a.contentId.value)
             ==> dto.ratingValue.Some?) &&
            (a.actionType == "review" &&
             (exists i :: 0 <= i < |t.reviews| && t.reviews[i].userId == a.userId && t.reviews[i].contentId == a.contentId.value)
             ==> dto.reviewText.Some?)
  {
    var a := Kept(t.contents, window)[k];
    var dto := FeedView(t, viewer, true, window)[k];
    FilterMembers(HasContentIn(t.contents), window, a);
    LatestReviewIsNewest(t.reviews, a.userId, a.contentId.value);
    if dto.ratingValue.Some? {
      var r := FirstRating(t.ratings, a.userId, a.contentId.value).value;
      var i :| 0 <= i < |t.ratings| && t.ratings[i] == r;
    }
    if dto.reviewText.Some? {
      var r := LatestReview(t.reviews, a.userId, a.contentId.value).value;
      var i :| 0 <= i < |t.reviews| && t.reviews[i] == r;
    }
  }

  /** The profile view lists only the given user's activities, newest first,
      at most 30 of them, and never attaches rating or review details. */
  lemma UserActivitiesShape(t: Tables, viewer: int, userId: int)
    ensures |UserWindow(t.activities, userId)| <= UserActivityLimit
    ensures forall k :: 0 <= k < |UserWindow(t.activities, userId)| ==>
              UserWindow(t.activities, userId)[k] in t.activities && UserWindow(t.activities, userId)[k].userId == userId
    ensures forall i, j :: 0 <= i < j < |UserWindow(t.activities, userId)| ==>
              UserWindow(t.activities, userId)[i].createdAt >= UserWindow(t.activities, userId)[j].createdAt
    ensures forall k :: 0 <= k < |FeedView(t, viewer, false, UserWindow(t.activities, userId))| ==>
              var dto := FeedView(t, viewer, false, UserWindow(t.activities, userId))[k];
              dto.userId == userId && dto.ratingValue.None? && dto.reviewText.None? && dto.reviewId.None?
  {
    var mine := Filter(ByUser(userId), t.activities);
    var sorted := SortBy(mine, NewestActivityFirst);
    var w := UserWindow(t.activities, userId);
    SortBySortedPermutation(mine, NewestActivityFirst);
    assert forall k :: 0 <= k < |w| ==> w[k] == sorted[k];
    forall k | 0 <= k < |w| ensures w[k] in t.activities && w[k].userId == userId {
      assert w[k] in multiset(mine);
      FilterMembers(ByUser(userId), t.activities, w[k]);
    }
    forall i, j | 0 <= i < j < |w| ensures w[i].createdAt >= w[j].createdAt {
      assert NewestActivityFirst(sorted[i]) <= NewestActivityFirst(sorted[j]);
    }
    var kept := Kept(t.contents, w);
    forall k | 0 <= k < |kept| ensures kept[k].userId == userId {
      FilterMembers(HasContentIn(t.contents), w, kept[k]);
    }
  }

  /** GetComments lists exactly the activity's comments, oldest first. */
  lemma CommentsOldestFirst(t: Tables, activityId: int)
    ensures multiset(CommentRows(t.comments, activityId)) == multiset(Filter(CommentsActivity(activityId), t.comments))
    ensures forall c :: c in CommentRows(t.comments, activityId) <==> c in t.comments && c.activityId == activityId
    ensures |Comments(t, activityId)| == |CommentRows(t.comments, activityId)|
    ensures forall k :: 0 <= k < |Comments(t, activityId)| ==>
              Comments(t, activityId)[k].activityId == activityId &&
              Comments(t, activityId)[k].text == CommentRows(t.comments, activityId)[k].text
    ensures forall i, j :: 0 <= i < j < |Comments(t, activityId)| ==>
              Comments(t, activityId)[i].createdAt <= Comments(t, activityId)[j].createdAt
  {
    var mine := Filter(CommentsActivity(activityId), t.comments);
    var rows := CommentRows(t.comments, activityId);
    SortBySortedPermutation(mine, OldestCommentFirst);
    forall c ensures c in rows <==> c in t.comments && c.activityId == activityId {
      FilterMembers(CommentsActivity(activityId), t.comments, c);
      assert c in rows <==> c in multiset(mine);
    }
    forall k | 0 <= k < |rows| ensures rows[k].activityId == activityId {
      assert rows[k] in rows;
    }
    forall i, j | 0 <= i < j < |rows| ensures rows[i].createdAt <= rows[j].createdAt {
      assert OldestCommentFirst(rows[i]) <= OldestCommentFirst(rows[j]);
    }
  }

  // ---------------------------------------------------------------------------
  // The service
  // ---------------------------------------------------------------------------

  class FeedService {
    const db: Database

    constructor (db: Database)
      ensures this.db == db
    {
      this.db := db;
    }

    /** The DTO of one activity whose content row is `content`. */
    method BuildDto(a: ActivityLog, content: Content, viewer: int, withDetail: bool) returns (dto: ActivityDto)
      requires HasContentIn(db.contents)(a) && content == db.contents[a.contentId.value]
      ensures dto == Enrich(db.Snapshot(), viewer, withDetail, a)
    {
      var likeCount := LikeCount(db.likes, a.id);
      var commentCount := CommentCount(db.comments, a.id);
      var isLiked := ActivityLike(viewer, a.id) in db.likes;
      var author := FindUser(db.users, a.userId);
      dto := ActivityDto(
        a.id, a.userId,
        if author.Some? then Some(author.value.username) else None,
        if author.Some? then author.value.avatarUrl else None,
        a.actionType, a.contentId, content.title, content.contentType, content.coverUrl,
        a.createdAt + DisplayOffset,
        None, None, None,
        likeCount, commentCount, isLiked);
      if withDetail && a.actionType == "rating" {
        var rating := FirstRating(db.ratings, a.userId, a.contentId.value);
        if rating.Some? {
          dto := dto.(ratingValue := Some(rating.value.ratingValue));
        }
      }
      if withDetail && a.actionType == "review" {
        var review := LatestReview(db.reviews, a.userId, a.contentId.value);
        if review.Some? {
          dto := dto.(reviewText := Some(review.value.reviewText), reviewId := Some(review.value.id));
        }
      }
    }

    /** The loop GetFeedAsync and GetUserActivitiesAsync share: skip activities
        whose content is missing, build the DTO of the others, in order. */
    method Assemble(activities: seq<ActivityLog>, viewer: int, withDetail: bool) returns (resultList: seq<ActivityDto>)
      ensures resultList == FeedView(db.Snapshot(), viewer, withDetail, activities)
    {
      ghost var t := db.Snapshot();
      // The batch load of the content rows the window refers to.
      var contentIds := set a | a in activities && a.contentId.Some? :: a.contentId.value;
      var contents := map id | id in contentIds && id in db.contents :: db.contents[id];
      resultList := [];
      for i := 0 to |activities|
        invariant resultList == FeedView(t, viewer, withDetail, activities[..i])
      {
        var a := activities[i];
        assert activities[..i + 1] == activities[..i] + [a];
        FeedViewSnoc(t, viewer, withDetail, activities[..i], a);
        if a.contentId.None? || a.contentId.value !in contents {
          continue;
        }
        var dto := BuildDto(a, contents[a.contentId.value], viewer, withDetail);
        resultList := resultList + [dto];
      }
      assert activities[..|activities|] == activities;
    }

    /** GetFeedAsync: one page of rating and review activities, newest first,
        without those whose content is missing, with engagement and details.
        The database refuses the query when the page's offset is negative. */
    method GetFeed(page: int, pageSize: int, viewer: int) returns (r: Result<seq<ActivityDto>, FeedError>)
      ensures r.Failure? <==> FeedOffset(page, pageSize) < 0
      ensures r.Failure? ==> r.error == NegativeOffset
      ensures r.Success? ==> r.value == FeedView(db.Snapshot(), viewer, true, FeedWindow(db.activities, page, pageSize))
    {
      if FeedOffset(page, pageSize) < 0 {
        return Failure(NegativeOffset);
      }
      var activities := FeedWindow(db.activities, page, pageSize);
      var resultList := Assemble(activities, viewer, true);
      r := Success(resultList);
    }

    /** GetUserActivitiesAsync: the user's 30 newest activities of any type,
        without those whose content is missing, with engagement only. */
    method GetUserActivities(userId: int, viewer: int) returns (resultList: seq<ActivityDto>)
      ensures resultList == FeedView(db.Snapshot(), viewer, false, UserWindow(db.activities, userId))
    {
      var activities := UserWindow(db.activities, userId);
      resultList := Assemble(activities, viewer, false);
    }

    /** ToggleLikeAsync: without a signed-in user nothing happens and false is
        returned; otherwise the viewer's like row for the activity is removed
        (false) or added (true). */
    method ToggleLike(activityId: int, viewer: int) returns (liked: bool)
      requires db.Valid()
      modifies db`likes
      ensures db.Valid()
      ensures viewer == 0 ==> !liked && db.likes == old(db.likes)
      ensures viewer != 0 ==> db.likes == ToggledLikes(old(db.likes), viewer, activityId)
      ensures viewer != 0 ==> (liked <==> ActivityLike(viewer, activityId) !in old(db.likes))
      ensures liked <==> viewer != 0 && ActivityLike(viewer, activityId) in db.likes
    {
      if viewer == 0 {
        return false;
      }
      var key := ActivityLike(viewer, activityId);
      ToggleKeepsKeyUnique(db.likes, viewer, activityId);
      // FirstOrDefault(l => l.ActivityId == activityId && l.UserId == userId)
      var i := 0;
      while i < |db.likes| && db.likes[i] != key
        invariant 0 <= i <= |db.likes|
        invariant key !in db.likes[..i]
      {
        i := i + 1;
      }
      if i < |db.likes| {
        assert db.likes[i] == key;
        db.likes := RemoveRow(db.likes, key);
        return false;
      }
      assert db.likes[..i] == db.likes;
      db.likes := db.likes + [key];
      return true;
    }

    /** AddCommentAsync: stores the comment (activity, viewer, text, now) with
        the next comment id and echoes it with the author's name and avatar.
        The tables here do not enforce foreign keys, so for a viewer without a
        user row the model stores the row and answers a failure; the database
        would refuse the insert instead (see the README's "Left out"). */
    method AddComment(activityId: int, viewer: int, text: string, now: int) returns (r: Result<CommentDto, FeedError>)
      modifies db`comments, db`nextCommentId
      ensures db.comments == old(db.comments) + [ActivityComment(old(db.nextCommentId), viewer, activityId, text, now)]
      ensures db.nextCommentId == old(db.nextCommentId) + 1
      ensures r.Success? <==> FindUser(db.users, viewer).Some?
      ensures r.Success? ==>
                r.value == CommentDto(old(db.nextCommentId), activityId, text,
                                      Some(FindUser(db.users, viewer).value.username),
                                      FindUser(db.users, viewer).value.avatarUrl, now)
    {
      var user := FindUser(db.users, viewer);
      var comment := ActivityComment(db.nextCommentId, viewer, activityId, text, now);
      db.comments := db.comments + [comment];
      db.nextCommentId := db.nextCommentId + 1;
      if user.None? {
        return Failure(UserNotFound);
      }
      r := Success(CommentDto(comment.id, activityId, text, Some(user.value.username), user.value.avatarUrl, comment.createdAt));
    }

    /** GetCommentsAsync */
    function GetComments(activityId: int): (r: seq<CommentDto>)
      reads db
      ensures |r| == |Filter(CommentsActivity(activityId), db.comments)|
      ensures forall k :: 0 <= k < |r| ==> r[k].activityId == activityId
      ensures forall i, j :: 0 <= i < j < |r| ==> r[i].createdAt <= r[j].createdAt
    {
      CommentsOldestFirst(db.Snapshot(), activityId);
      SortBySortedPermutation(Filter(CommentsActivity(activityId), db.comments), OldestCommentFirst);
      Comments(db.Snapshot(), activityId)
    }
  }

  /** The comment endpoint: a missing or blank text is a bad request and
      stores nothing; otherwise the comment is added. */
  method PostComment(feed: FeedService, activityId: int, viewer: int, text: Option<string>, now: int)
    returns (r: Result<CommentDto, FeedError>)
    modifies feed.db`comments, feed.db`nextCommentId
    ensures IsNullOrWhiteSpace(text) ==>
              r == Failure(BlankComment) && feed.db.comments == old(feed.db.comments) &&
              feed.db.nextCommentId == old(feed.db.nextCommentId)
    ensures !IsNullOrWhiteSpace(text) ==>
              feed.db.comments == old(feed.db.comments) + [ActivityComment(old(feed.db.nextCommentId), viewer, activityId, text.value, now)]
    ensures r.Success? ==> r.value.text == text.value && r.value.activityId == activityId
  {
    if IsNullOrWhiteSpace(text) {
      return Failure(BlankComment);
    }
    r := feed.AddComment(activityId, viewer, text.value, now);
  }
}
