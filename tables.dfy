/** The rows of the CineTrack database that the services read and write, and the
    database itself: one sequence per table, in storage order, plus the identity
    counters the database uses to number new rows. Times are whole seconds. */
module Tables {
  import opened Common
  import opened Query

  const Hour: int := 3600

  datatype User = User(
    id: int,
    username: string,
    email: string,
    passwordHash: string,
    avatarUrl: Option<string>,
    bio: Option<string>,
    createdAt: int,
    resetToken: Option<string>,
    resetExpires: Option<int>)

  /** A cached catalog item, keyed by its external id. */
  datatype Content = Content(id: string, title: string, contentType: string, coverUrl: Option<string>)

  datatype Rating = Rating(userId: int, contentId: string, ratingValue: int)

  datatype Review = Review(id: int, userId: int, contentId: string, reviewText: string, createdAt: int)

  /** Times the API reports (feed entries, review listings) are three hours
      ahead of the stored time. */
  const DisplayOffset: int := 3 * Hour

  /** The reviews of one user for one content item. */
  function ReviewOf(userId: int, contentId: string): Review -> bool
  {
    (r: Review) => r.userId == userId && r.contentId == contentId
  }

  function NewestReviewFirst(r: Review): int { -r.createdAt }

  /** The most recent review of one user for one content item:
      OrderByDescending(r => r.CreatedAt).FirstOrDefault(...) over the reviews. */
  function LatestReview(reviews: seq<Review>, userId: int, contentId: string): Option<Review>
  {
    var newest := SortBy(Filter(ReviewOf(userId, contentId), reviews), NewestReviewFirst);
    if newest == [] then None else Some(newest[0])
  }


  datatype ActivityLog = ActivityLog(id: int, userId: int, actionType: string, contentId: Option<string>, createdAt: int)

  /** A like row; (userId, activityId) is the table's key. */
  datatype ActivityLike = ActivityLike(userId: int, activityId: int)

  datatype ActivityComment = ActivityComment(id: int, userId: int, activityId: int, text: string, createdAt: int)

  /** The state of every table at one moment. */
  datatype Tables = Tables(
    users: seq<User>,
    contents: map<string, Content>,
    ratings: seq<Rating>,
    reviews: seq<Review>,
    activities: seq<ActivityLog>,
    likes: seq<ActivityLike>,
    comments: seq<ActivityComment>)

  /** The composite key of ActivityLike: no two rows share (UserId, ActivityId). */
  predicate LikesUnique(likes: seq<ActivityLike>)
  {
    forall i, j :: 0 <= i < j < |likes| ==> likes[i] != likes[j]
  }

  /** AddOrUpdateReview keeps at most one review per user and content. */
  predicate ReviewsUnique(reviews: seq<Review>)
  {
    forall i, j :: 0 <= i < j < |reviews| ==>
      !(reviews[i].userId == reviews[j].userId && reviews[i].contentId == reviews[j].contentId)
  }

  /** Registration keeps e-mail addresses unique. */
  predicate EmailsUnique(users: seq<User>)
  {
    forall i, j :: 0 <= i < j < |users| ==> users[i].email != users[j].email
  }

  /** A reset token is stored together with its expiry, or neither is. */
  predicate ResetTokensPaired(users: seq<User>)
  {
    forall i :: 0 <= i < |users| ==> (users[i].resetToken.Some? <==> users[i].resetExpires.Some?)
  }

  /** Users.FindAsync(id): the user with that primary key. */
  function FindUser(users: seq<User>, id: int): (r: Option<User>)
    ensures r.Some? ==> r.value in users && r.value.id == id
    ensures r.None? ==> forall k :: 0 <= k < |users| ==> users[k].id != id
  {
    if users == [] then None
    else if users[0].id == id then Some(users[0])
    else FindUser(users[1..], id)
  }

  class Database {
    var users: seq<User>
    var contents: map<string, Content>
    var ratings: seq<Rating>
    var reviews: seq<Review>
    var activities: seq<ActivityLog>
    var likes: seq<ActivityLike>
    var comments: seq<ActivityComment>
    var nextUserId: int
    var nextReviewId: int
    var nextActivityId: int
    var nextCommentId: int

    /** The constraints the database and the services keep. */
    ghost predicate Valid()
      reads this
    {
      LikesUnique(likes) && ReviewsUnique(reviews) && EmailsUnique(users) && ResetTokensPaired(users)
    }

    function Snapshot(): Tables
      reads this
    {
      Tables(users, contents, ratings, reviews, activities, likes, comments)
    }

    constructor ()
      ensures Valid()
      ensures Snapshot() == Tables([], map[], [], [], [], [], [])
      ensures nextUserId == nextReviewId == nextActivityId == nextCommentId == 1
    {
      users, contents, ratings, reviews := [], map[], [], [];
      activities, likes, comments := [], [], [];
      nextUserId, nextReviewId, nextActivityId, nextCommentId := 1, 1, 1, 1;
    }
  }
}
