/** ReviewService: a user's review of a content item, written or replaced by
    AddOrUpdateReviewAsync and removed by DeleteReviewAsync, and the two
    review listings. The signed-in user is the parameter `viewer`, the clock
    the parameter `now`. */
module Reviews {
  import opened Common
  import opened Query
  import opened Tables

  datatype ReviewDto = ReviewDto(
    id: int,
    contentId: string,
    text: string,
    userId: int,
    username: Option<string>,
    createdAt: int)

  datatype ReviewError =
    | UserNotFound   // `user!.Username` when the signed-in user has no row
    | UserNotLoaded  // `r.User!.Username` on a navigation the query never loaded

  // ---------------------------------------------------------------------------
  // AddOrUpdateReviewAsync on the tables
  // ---------------------------------------------------------------------------

  /** The first review of (userId, contentId), as FirstOrDefaultAsync finds it. */
  function ReviewIndex(reviews: seq<Review>, userId: int, contentId: string): Option<nat>
  {
    FirstWhere(ReviewOf(userId, contentId), reviews)
  }

  /** The review table after an upsert: the existing review gets the new text
      and time; without one, a new row with the next id is appended. */
  function UpsertedReviews(reviews: seq<Review>, userId: int, contentId: string, text: string, now: int, newId: int)
    : seq<Review>
  {
    match ReviewIndex(reviews, userId, contentId)
    case Some(i) => reviews[i := reviews[i].(reviewText := text, createdAt := now)]
    case None => reviews + [Review(newId, userId, contentId, text, now)]
  }

  /** The activity log after an upsert: one "review" entry, whether the review
      was new or replaced. */
  function LoggedReview(activities: seq<ActivityLog>, newId: int, userId: int, contentId: string, now: int)
    : seq<ActivityLog>
  {
    activities + [ActivityLog(newId, userId, "review", Some(contentId), now)]
  }

  /** An upsert keeps one review per user and content, makes that review carry
      the new text and time, grows the table only when there was none, and
      leaves every other review where and as it was. */
  lemma UpsertKeepsOneReview(reviews: seq<Review>, userId: int, contentId: string, text: string, now: int, newId: int)
    requires ReviewsUnique(reviews)
    ensures ReviewsUnique(UpsertedReviews(reviews, userId, contentId, text, now, newId))
    ensures |UpsertedReviews(reviews, userId, contentId, text, now, newId)| ==
            if ReviewIndex(reviews, userId, contentId).Some? then |reviews| else |reviews| + 1
    ensures Count(ReviewOf(userId, contentId), UpsertedReviews(reviews, userId, contentId, text, now, newId)) == 1
    ensures var latest := LatestReview(UpsertedReviews(reviews, userId, contentId, text, now, newId), userId, contentId);
            latest.Some? && latest.value.reviewText == text && latest.value.createdAt == now
    ensures forall k :: 0 <= k < |reviews| && !ReviewOf(userId, contentId)(reviews[k]) ==>
              UpsertedReviews(reviews, userId, contentId, text, now, newId)[k] == reviews[k]
  {
    var p := ReviewOf(userId, contentId);
    var after := UpsertedReviews(reviews, userId, contentId, text, now, newId);
    var i: nat;
    match ReviewIndex(reviews, userId, contentId) {
      case Some(j) =>
        i := j;
        forall k | 0 <= k < |reviews| && k != i ensures !p(reviews[k]) {
          if k > i {
            assert !(reviews[i].userId == reviews[k].userId && reviews[i].contentId == reviews[k].contentId);
          }
        }
      case None =>
        i := |reviews|;
    }
    assert i < |after| && p(after[i]) && after[i].reviewText == text && after[i].createdAt == now;
    assert forall k :: 0 <= k < |after| && k != i ==> !p(after[k]);
    SingleMatch(p, after, i);
    assert SortBy([after[i]], NewestReviewFirst) == [after[i]];
  }

  // ---------------------------------------------------------------------------
  // DeleteReviewAsync on the tables
  // ---------------------------------------------------------------------------

  function IsReviewActivity(userId: int, contentId: string): ActivityLog -> bool
  {
    (a: ActivityLog) => a.userId == userId && a.contentId == Some(contentId) && a.actionType == "review"
  }

  /** The first "review" activity of (userId, contentId). */
  function ReviewActivityIndex(activities: seq<ActivityLog>, userId: int, contentId: string): Option<nat>
  {
    FirstWhere(IsReviewActivity(userId, contentId), activities)
  }

  function NotLiking(activityId: int): ActivityLike -> bool
  {
    (l: ActivityLike) => l.activityId != activityId
  }

  function NotCommenting(activityId: int): ActivityComment -> bool
  {
    (c: ActivityComment) => c.activityId != activityId
  }

  /** The activity DeleteReviewAsync removes, if any: the first "review" entry
      of that user and content, provided a review was found at all. */
  function RemovedActivity(t: Tables, userId: int, contentId: string): Option<ActivityLog>
  {
    if ReviewIndex(t.reviews, userId, contentId).None? then None
    else
      match ReviewActivityIndex(t.activities, userId, contentId)
      case None => None
      case Some(j) => Some(t.activities[j])
  }

  /** The tables after DeleteReviewAsync: the first review of the pair goes,
      with the first matching "review" activity, whose likes and comments the
      database deletes with it (cascade). Without a review nothing changes. */
  function AfterDelete(t: Tables, userId: int, contentId: string): Tables
  {
    match ReviewIndex(t.reviews, userId, contentId)
    case None => t
    case Some(i) => WithoutReviewActivity(t.(reviews := RemoveAt(t.reviews, i)), userId, contentId)
  }

  /** The second half of DeleteReviewAsync: the first matching "review"
      activity goes, with its likes and comments (cascade). */
  function WithoutReviewActivity(t: Tables, userId: int, contentId: string): Tables
  {
    match ReviewActivityIndex(t.activities, userId, contentId)
    case None => t
    case Some(j) =>
      var gone := t.activities[j].id;
      t.(activities := RemoveAt(t.activities, j),
         likes := Filter(NotLiking(gone), t.likes),
         comments := Filter(NotCommenting(gone), t.comments))
  }

  /** Removing a review keeps one review per user and content. */
  lemma RemoveKeepsReviewsUnique(reviews: seq<Review>, i: nat)
    requires i < |reviews| && ReviewsUnique(reviews)
    ensures ReviewsUnique(RemoveAt(reviews, i))
  {
    var after := RemoveAt(reviews, i);
    forall a, b | 0 <= a < b < |after|
      ensures !(after[a].userId == after[b].userId && after[a].contentId == after[b].contentId)
    {
      var a' := if a < i then a else a + 1;
      var b' := if b < i then b else b + 1;
      assert after[a] == reviews[a'] && after[b] == reviews[b'];
    }
  }

  /** Without a review for the pair, DeleteReview changes nothing. */
  lemma DeleteWithoutReviewIsNoop(t: Tables, userId: int, contentId: string)
    requires forall k :: 0 <= k < |t.reviews| ==> !(t.reviews[k].userId == userId && t.reviews[k].contentId == contentId)
    ensures AfterDelete(t, userId, contentId) == t
    ensures RemovedActivity(t, userId, contentId).None?
  {
  }

  /** DeleteReview removes exactly one review of the pair, and every other
      review stays, in order; with one review per pair none is left. */
  lemma DeleteRemovesTheReview(t: Tables, userId: int, contentId: string)
    requires ReviewIndex(t.reviews, userId, contentId).Some?
    ensures var after := AfterDelete(t, userId, contentId).reviews;
            var p := ReviewOf(userId, contentId);
            |after| == |t.reviews| - 1 &&
            Count(p, after) == Count(p, t.reviews) - 1 &&
            Filter((r: Review) => !p(r), after) == Filter((r: Review) => !p(r), t.reviews)
    ensures ReviewsUnique(t.reviews) ==>
            forall k :: 0 <= k < |AfterDelete(t, userId, contentId).reviews| ==>
              !ReviewOf(userId, contentId)(AfterDelete(t, userId, contentId).reviews[k])
  {
    var p := ReviewOf(userId, contentId);
    var i := ReviewIndex(t.reviews, userId, contentId).value;
    CountRemoveAt(p, t.reviews, i);
    FilterRemoveAt((r: Review) => !p(r), t.reviews, i);
    if ReviewsUnique(t.reviews) {
      var after := RemoveAt(t.reviews, i);
      forall k | 0 <= k < |after| ensures !p(after[k]) {
        var k' := if k < i then k else k + 1;
        assert after[k] == t.reviews[k'] && k' != i;
      }
    }
  }

  /** DeleteReview removes at most one activity, and only a "review" activity
      of that user and content; every other activity stays, in order. Users,
      contents and ratings are untouched. */
  lemma DeleteRemovesAtMostOneActivity(t: Tables, userId: int, contentId: string)
    ensures var after := AfterDelete(t, userId, contentId);
            var p := IsReviewActivity(userId, contentId);
            Filter((a: ActivityLog) => !p(a), after.activities) == Filter((a: ActivityLog) => !p(a), t.activities) &&
            Count(p, after.activities) == Count(p, t.activities) - (if RemovedActivity(t, userId, contentId).Some? then 1 else 0)
    ensures AfterDelete(t, userId, contentId).users == t.users
    ensures AfterDelete(t, userId, contentId).contents == t.contents
    ensures AfterDelete(t, userId, contentId).ratings == t.ratings
  {
    var p := IsReviewActivity(userId, contentId);
    if RemovedActivity(t, userId, contentId).Some? {
      var j := ReviewActivityIndex(t.activities, userId, contentId).value;
      CountRemoveAt(p, t.activities, j);
      FilterRemoveAt((a: ActivityLog) => !p(a), t.activities, j);
    }
  }

  /** The likes and comments that disappear are exactly those of the removed
      activity. */
  lemma DeleteCascades(t: Tables, userId: int, contentId: string)
    ensures var after := AfterDelete(t, userId, contentId);
            var gone := RemovedActivity(t, userId, contentId);
            (forall l :: l in after.likes <==> l in t.likes && (gone.None? || l.activityId != gone.value.id)) &&
            (forall c :: c in after.comments <==> c in t.comments && (gone.None? || c.activityId != gone.value.id))
  {
    var gone := RemovedActivity(t, userId, contentId);
    if gone.Some? {
      forall l ensures l in AfterDelete(t, userId, contentId).likes <==> l in t.likes && l.activityId != gone.value.id {
        FilterMembers(NotLiking(gone.value.id), t.likes, l);
      }
      forall c ensures c in AfterDelete(t, userId, contentId).comments <==> c in t.comments && c.activityId != gone.value.id {
        FilterMembers(NotCommenting(gone.value.id), t.comments, c);
      }
    }
  }

  /** The tables after AddOrUpdateReviewAsync, given the ids the database
      hands out to a new review and to the new activity. */
  function AfterUpsert(t: Tables, userId: int, contentId: string, text: string, now: int, reviewId: int, activityId: int)
    : Tables
  {
    t.(reviews := UpsertedReviews(t.reviews, userId, contentId, text, now, reviewId),
       activities := LoggedReview(t.activities, activityId, userId, contentId, now))
  }

  /** A delete that finds an older "review" activity of the pair keeps the
      last row of the log. */
  lemma DeleteKeepsLastLog(t: Tables, userId: int, contentId: string)
    requires |t.activities| >= 2
    requires IsReviewActivity(userId, contentId)(t.activities[|t.activities| - 2])
    ensures t.activities[|t.activities| - 1] in AfterDelete(t, userId, contentId).activities
  {
    var n := |t.activities|;
    if ReviewIndex(t.reviews, userId, contentId).Some? {
      var j := ReviewActivityIndex(t.activities, userId, contentId).value;
      assert j <= n - 2;
      assert RemoveAt(t.activities, j)[n - 2] == t.activities[n - 1];
    }
  }

  /** Every upsert logs an activity but a delete removes at most one: after a
      review is written twice and then deleted, the review is gone and the
      second "review" activity of that user and content is still in the log. */
  lemma StaleActivityAfterDelete(t: Tables, userId: int, contentId: string, text1: string, text2: string,
                                 now1: int, now2: int, reviewId: int, activityId1: int, activityId2: int)
    requires ReviewsUnique(t.reviews)
    ensures var t2 := AfterUpsert(AfterUpsert(t, userId, contentId, text1, now1, reviewId, activityId1),
                                  userId, contentId, text2, now2, reviewId + 1, activityId2);
            var t3 := AfterDelete(t2, userId, contentId);
            (forall k :: 0 <= k < |t3.reviews| ==> !ReviewOf(userId, contentId)(t3.reviews[k])) &&
            ActivityLog(activityId2, userId, "review", Some(contentId), now2) in t3.activities
  {
    var p := ReviewOf(userId, contentId);
    var t1 := AfterUpsert(t, userId, contentId, text1, now1, reviewId, activityId1);
    UpsertKeepsOneReview(t.reviews, userId, contentId, text1, now1, reviewId);
    var t2 := AfterUpsert(t1, userId, contentId, text2, now2, reviewId + 1, activityId2);
    UpsertKeepsOneReview(t1.reviews, userId, contentId, text2, now2, reviewId + 1);
    CountZero(p, t2.reviews);
    assert ReviewIndex(t2.reviews, userId, contentId).Some?;
    DeleteRemovesTheReview(t2, userId, contentId);
    var n := |t2.activities|;
    assert t2.activities[n - 2] == ActivityLog(activityId1, userId, "review", Some(contentId), now1);
    DeleteKeepsLastLog(t2, userId, contentId);
  }

  // ---------------------------------------------------------------------------
  // The two listings
  // ---------------------------------------------------------------------------

  function ForContent(contentId: string): Review -> bool
  {
    (r: Review) => r.contentId == contentId
  }

  function ByReviewer(userId: int): Review -> bool
  {
    (r: Review) => r.userId == userId
  }

  /** A review row as a DTO, with its author's name and the display time. */
  function ReviewView(users: seq<User>): Review -> ReviewDto
  {
    (r: Review) =>
      var author := FindUser(users, r.userId);
      ReviewDto(r.id, r.contentId, r.reviewText, r.userId,
                if author.Some? then Some(author.value.username) else None,
                r.createdAt + DisplayOffset)
  }

  /** The reviews satisfying p, newest first, as DTOs. */
  function Listing(t: Tables, p: Review -> bool): seq<ReviewDto>
  {
    MapSeq(ReviewView(t.users), SortBy(Filter(p, t.reviews), NewestReviewFirst))
  }

  /** GetReviewsByContentAsync */
  function ReviewsByContent(t: Tables, contentId: string): seq<ReviewDto>
  {
    Listing(t, ForContent(contentId))
  }

  /** GetReviewsByUserAsync with the author loaded, as its result promises. */
  function ReviewsByUser(t: Tables, userId: int): seq<ReviewDto>
  {
    Listing(t, ByReviewer(userId))
  }

  /** GetReviewsByUserAsync as written: the query includes the content, not the
      user, so `r.User!` fails on the first row and only an empty result gets
      through. */
  function ReviewsByUserAsWritten(t: Tables, userId: int): Result<seq<ReviewDto>, ReviewError>
  {
    var rows := SortBy(Filter(ByReviewer(userId), t.reviews), NewestReviewFirst);
    if rows == [] then Success([]) else Failure(UserNotLoaded)
  }

  /** A listing has one entry per review satisfying p, newest first, and
      every such review appears in it. */
  lemma ListingShape(t: Tables, p: Review -> bool)
    ensures |Listing(t, p)| == Count(p, t.reviews)
    ensures forall i, j :: 0 <= i < j < |Listing(t, p)| ==> Listing(t, p)[i].createdAt >= Listing(t, p)[j].createdAt
    ensures forall r :: r in t.reviews && p(r) ==> ReviewView(t.users)(r) in Listing(t, p)
  {
    var rows := SortBy(Filter(p, t.reviews), NewestReviewFirst);
    var out := Listing(t, p);
    OrderedWhere(p, t.reviews, NewestReviewFirst);
    forall i, j | 0 <= i < j < |out| ensures out[i].createdAt >= out[j].createdAt {
      assert NewestReviewFirst(rows[i]) <= NewestReviewFirst(rows[j]);
    }
    forall r | r in t.reviews && p(r) ensures ReviewView(t.users)(r) in out {
      var k :| 0 <= k < |rows| && rows[k] == r;
      assert out[k] == ReviewView(t.users)(r);
    }
  }

  /** Every entry of a listing is the DTO of a review satisfying p. */
  lemma ListingSound(t: Tables, p: Review -> bool, k: nat)
    requires k < |Listing(t, p)|
    ensures exists r :: r in t.reviews && p(r) && Listing(t, p)[k] == ReviewView(t.users)(r)
  {
    var rows := SortBy(Filter(p, t.reviews), NewestReviewFirst);
    OrderedWhere(p, t.reviews, NewestReviewFirst);
    assert rows[k] in rows;
  }

  /** GetReviewsByContent lists every review of that content and nothing
      else, newest first. */
  lemma ReviewsByContentExact(t: Tables, contentId: string)
    ensures |ReviewsByContent(t, contentId)| == Count(ForContent(contentId), t.reviews)
    ensures forall k :: 0 <= k < |ReviewsByContent(t, contentId)| ==> ReviewsByContent(t, contentId)[k].contentId == contentId
    ensures forall r :: r in t.reviews && r.contentId == contentId ==> ReviewView(t.users)(r) in ReviewsByContent(t, contentId)
    ensures forall i, j :: 0 <= i < j < |ReviewsByContent(t, contentId)| ==>
              ReviewsByContent(t, contentId)[i].createdAt >= ReviewsByContent(t, contentId)[j].createdAt
  {
    ListingShape(t, ForContent(contentId));
    forall k | 0 <= k < |ReviewsByContent(t, contentId)| ensures ReviewsByContent(t, contentId)[k].contentId == contentId {
      ListingSound(t, ForContent(contentId), k);
    }
  }

  /** GetReviewsByUser lists every review of that user and nothing else,
      newest first, with the author's name. */
  lemma ReviewsByUserExact(t: Tables, userId: int)
    ensures |ReviewsByUser(t, userId)| == Count(ByReviewer(userId), t.reviews)
    ensures forall k :: 0 <= k < |ReviewsByUser(t, userId)| ==>
              ReviewsByUser(t, userId)[k].userId == userId &&
              (FindUser(t.users, userId).Some? ==>
                 ReviewsByUser(t, userId)[k].username == Some(FindUser(t.users, userId).value.username))
    ensures forall r :: r in t.reviews && r.userId == userId ==> ReviewView(t.users)(r) in ReviewsByUser(t, userId)
    ensures forall i, j :: 0 <= i < j < |ReviewsByUser(t, userId)| ==>
              ReviewsByUser(t, userId)[i].createdAt >= ReviewsByUser(t, userId)[j].createdAt
  {
    ListingShape(t, ByReviewer(userId));
    forall k | 0 <= k < |ReviewsByUser(t, userId)| ensures ReviewsByUser(t, userId)[k].userId == userId {
      ListingSound(t, ByReviewer(userId), k);
    }
  }

  /** As written, GetReviewsByUser fails exactly when the user has a review. */
  lemma ReviewsByUserAsWrittenFails(t: Tables, userId: int)
    ensures ReviewsByUserAsWritten(t, userId).Failure? <==>
            exists k :: 0 <= k < |t.reviews| && t.reviews[k].userId == userId
    ensures ReviewsByUserAsWritten(t, userId).Success? ==> ReviewsByUserAsWritten(t, userId).value == ReviewsByUser(t, userId)
  {
    OrderedWhere(ByReviewer(userId), t.reviews, NewestReviewFirst);
    CountZero(ByReviewer(userId), t.reviews);
  }

  /** One user with one review: the listing as written fails, the corrected
      listing returns that review. */
  lemma ReviewsByUserCounterexample()
    ensures var t := Tables([User(1, "ada", "ada@example.com", "h", None, None, 0, None, None)], map[], [],
                            [Review(7, 1, "tt0111161", "great", 100)], [], [], []);
            ReviewsByUserAsWritten(t, 1) == Failure(UserNotLoaded) &&
            ReviewsByUser(t, 1) == [ReviewDto(7, "tt0111161", "great", 1, Some("ada"), 100 + DisplayOffset)]
  {
    var t := Tables([User(1, "ada", "ada@example.com", "h", None, None, 0, None, None)], map[], [],
                    [Review(7, 1, "tt0111161", "great", 100)], [], [], []);
    var r := Review(7, 1, "tt0111161", "great", 100);
    assert t.reviews == [] + [r];
    assert Filter(ByReviewer(1), t.reviews) == [r];
  }

  // ---------------------------------------------------------------------------
  // The service
  // ---------------------------------------------------------------------------

  class ReviewService {
    const db: Database

    constructor (db: Database)
      ensures this.db == db
    {
      this.db := db;
    }

    /** AddOrUpdateReviewAsync: replace the viewer's review of the content or
        add one, log a "review" activity either way, and echo the review with
        the author's name. The tables here do not enforce foreign keys, so for
        a viewer without a user row the model writes both rows and answers a
        failure; the database would refuse the writes instead (see the
        README's "Left out"). */
    method AddOrUpdateReview(contentId: string, text: string, viewer: int, now: int)
      returns (r: Result<ReviewDto, ReviewError>)
      requires db.Valid()
      modifies db`reviews, db`activities, db`nextReviewId, db`nextActivityId
      ensures db.Valid()
      ensures db.reviews == UpsertedReviews(old(db.reviews), viewer, contentId, text, now, old(db.nextReviewId))
      ensures db.nextReviewId == old(db.nextReviewId) + if ReviewIndex(old(db.reviews), viewer, contentId).Some? then 0 else 1
      ensures db.activities == LoggedReview(old(db.activities), old(db.nextActivityId), viewer, contentId, now)
      ensures db.nextActivityId == old(db.nextActivityId) + 1
      ensures r.Success? <==> FindUser(db.users, viewer).Some?
      ensures r.Success? ==>
                r.value == ReviewDto(0, contentId, text, viewer, Some(FindUser(db.users, viewer).value.username),
                                     now + DisplayOffset)
    {
      UpsertKeepsOneReview(db.reviews, viewer, contentId, text, now, db.nextReviewId);
      var i := 0;
      while i < |db.reviews| && !(db.reviews[i].userId == viewer && db.reviews[i].contentId == contentId)
        invariant 0 <= i <= |db.reviews|
        invariant forall k :: 0 <= k < i ==> !ReviewOf(viewer, contentId)(db.reviews[k])
      {
        i := i + 1;
      }
      if i < |db.reviews| {
        db.reviews := db.reviews[i := db.reviews[i].(reviewText := text, createdAt := now)];
      } else {
        db.reviews := db.reviews + [Review(db.nextReviewId, viewer, contentId, text, now)];
        db.nextReviewId := db.nextReviewId + 1;
      }
      var user := FindUser(db.users, viewer);
      db.activities := db.activities + [ActivityLog(db.nextActivityId, viewer, "review", Some(contentId), now)];
      db.nextActivityId := db.nextActivityId + 1;
      if user.None? {
        return Failure(UserNotFound);
      }
      r := Success(ReviewDto(0, contentId, text, viewer, Some(user.value.username), now + DisplayOffset));
    }

    /** DeleteReviewAsync: false when the viewer has no review of the content;
        otherwise the review and its first "review" activity are removed. */
    method DeleteReview(contentId: string, viewer: int) returns (deleted: bool)
      requires db.Valid()
      modifies db`reviews, db`activities, db`likes, db`comments
      ensures db.Valid()
      ensures deleted <==> ReviewIndex(old(db.reviews), viewer, contentId).Some?
      ensures db.Snapshot() == AfterDelete(old(db.Snapshot()), viewer, contentId)
    {
      var i := 0;
      while i < |db.reviews| && !(db.reviews[i].userId == viewer && db.reviews[i].contentId == contentId)
        invariant 0 <= i <= |db.reviews|
        invariant forall k :: 0 <= k < i ==> !ReviewOf(viewer, contentId)(db.reviews[k])
      {
        i := i + 1;
      }
      if i == |db.reviews| {
        return false;
      }
      RemoveKeepsReviewsUnique(db.reviews, i);
      db.reviews := RemoveAt(db.reviews, i);
      RemoveReviewActivity(contentId, viewer);
      return true;
    }

    /** Removes the first "review" activity of the viewer and the content, and
        the likes and comments of that activity. */
    method RemoveReviewActivity(contentId: string, viewer: int)
      requires db.Valid()
      modifies db`activities, db`likes, db`comments
      ensures db.Valid()
      ensures db.Snapshot() == WithoutReviewActivity(old(db.Snapshot()), viewer, contentId)
    {
      var j := 0;
      while j < |db.activities| && !IsReviewActivity(viewer, contentId)(db.activities[j])
        invariant 0 <= j <= |db.activities|
        invariant forall k :: 0 <= k < j ==> !IsReviewActivity(viewer, contentId)(db.activities[k])
      {
        j := j + 1;
      }
      if j < |db.activities| {
        var gone := db.activities[j].id;
        db.activities := RemoveAt(db.activities, j);
        // ON DELETE CASCADE of ActivityLikes and ActivityComments
        FilterKeepsDistinct(NotLiking(gone), db.likes);
        db.likes := Filter(NotLiking(gone), db.likes);
        db.comments := Filter(NotCommenting(gone), db.comments);
      }
    }

    /** GetReviewsByContentAsync */
    function GetReviewsByContent(contentId: string): (r: seq<ReviewDto>)
      reads db
      ensures |r| == Count(ForContent(contentId), db.reviews)
      ensures forall k :: 0 <= k < |r| ==> r[k].contentId == contentId
      ensures forall i, j :: 0 <= i < j < |r| ==> r[i].createdAt >= r[j].createdAt
    {
      ReviewsByContentExact(db.Snapshot(), contentId);
      ReviewsByContent(db.Snapshot(), contentId)
    }

    /** GetReviewsByUserAsync, with the author loaded. */
    function GetReviewsByUser(userId: int): (r: seq<ReviewDto>)
      reads db
      ensures |r| == Count(ByReviewer(userId), db.reviews)
      ensures forall k :: 0 <= k < |r| ==> r[k].userId == userId
      ensures forall i, j :: 0 <= i < j < |r| ==> r[i].createdAt >= r[j].createdAt
    {
      ReviewsByUserExact(db.Snapshot(), userId);
      ReviewsByUser(db.Snapshot(), userId)
    }
  }
}
