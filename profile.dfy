/** The profile page of the MVC site (UserController.Profile): whose profile
    is shown, the owner and following flags, the follower counts, and the
    sorting of the user's lists into the four default lists and the custom
    ones. The user API's answers are a parameter, by user id; an answer is
    the value or null. */
module Profile {
  import opened Common
  import opened Query
  import Auth
  import Feed

  const Watched: string := "izlediklerim"
  const Watchlist: string := "izlenecekler"
  const ReadBooks: string := "okuduklarim"
  const ReadingList: string := "okunacaklar"

  /** A content entry of a list, as far as the profile page uses it. */
  datatype ContentDto = ContentDto(id: string, title: string, contentType: string)

  datatype UserList = UserList(id: int, name: string, contents: Option<seq<ContentDto>>)

  /** GET api/user/{id}, api/user/{id}/followers, api/user/{id}/following,
      api/userlist/user/{id} and api/feed/user/{id}; None is a null answer. */
  datatype UserApi = UserApi(
    user: int -> Option<Auth.UserResponse>,
    followers: int -> Option<seq<Auth.UserResponse>>,
    following: int -> Option<seq<Auth.UserResponse>>,
    lists: int -> Option<seq<UserList>>,
    activities: int -> Option<seq<Feed.ActivityDto>>)

  // ---------------------------------------------------------------------------
  // Whose profile, and the flags
  // ---------------------------------------------------------------------------

  /** `id ?? currentUserId ?? 0` */
  function TargetUserId(id: Option<int>, session: Option<int>): int
  {
    if id.Some? then id.value else if session.Some? then session.value else 0
  }

  /** `currentUserId == targetUserId` on a nullable int: false for a visitor. */
  predicate IsOwnerOf(session: Option<int>, target: int)
  {
    session == Some(target)
  }

  /** Looked up only for a signed-in visitor who is not the owner; a null
      following list counts as not following. */
  predicate FollowsTarget(api: UserApi, session: Option<int>, target: int)
  {
    if !IsOwnerOf(session, target) && session.Some? then
      match api.following(session.value)
      case None => false
      case Some(mine) => exists u :: u in mine && u.id == target
    else false
  }

  /** `list?.Count ?? 0` */
  function CountOf<T>(answer: Option<seq<T>>): nat
  {
    if answer.None? then 0 else |answer.value|
  }

  /** Who is shown: an explicit id wins; a signed-in visitor without one sees
      their own profile as its owner; a visitor with neither is sent to the
      login page. */
  lemma TargetChoice(id: Option<int>, session: Option<int>)
    ensures id.Some? ==> TargetUserId(id, session) == id.value
    ensures id.None? && session.Some? ==> IsOwnerOf(session, TargetUserId(id, session))
    ensures TargetUserId(id, session) == 0 <==> (id.Some? && id.value == 0) || (id.None? && (session.None? || session.value == 0))
    ensures session.None? ==> !IsOwnerOf(session, TargetUserId(id, session))
  {
  }

  /** The following flag holds exactly when a signed-in visitor other than
      the owner has the target in their following list; the owner and a
      visitor never follow. */
  lemma FollowingFlag(api: UserApi, session: Option<int>, target: int)
    ensures FollowsTarget(api, session, target) <==>
              session.Some? && session.value != target && api.following(session.value).Some? &&
              exists u :: u in api.following(session.value).value && u.id == target
    ensures IsOwnerOf(session, target) || session.None? ==> !FollowsTarget(api, session, target)
  {
  }

  // ---------------------------------------------------------------------------
  // Sorting the lists
  // ---------------------------------------------------------------------------

  predicate IsDefaultName(name: string)
  {
    name == Watched || name == Watchlist || name == ReadBooks || name == ReadingList
  }

  /** `list.Contents ?? new()` */
  function ContentsOf(list: UserList): seq<ContentDto>
  {
    if list.contents.None? then [] else list.contents.value
  }

  /** The contents of the lists with this name, in list order. */
  function Gathered(lists: seq<UserList>, name: string): seq<ContentDto>
  {
    if lists == [] then []
    else
      var last := lists[|lists| - 1];
      Gathered(lists[..|lists| - 1], name) + (if last.name == name then ContentsOf(last) else [])
  }

  /** The id of the last list with this name, or `start` when there is none. */
  function LastIdNamed(lists: seq<UserList>, name: string, start: int): int
  {
    if lists == [] then start
    else if lists[|lists| - 1].name == name then lists[|lists| - 1].id
    else LastIdNamed(lists[..|lists| - 1], name, start)
  }

  function Customs(lists: seq<UserList>): seq<UserList>
  {
    Filter((l: UserList) => !IsDefaultName(l.name), lists)
  }

  function Flatten<T>(parts: seq<seq<T>>): seq<T>
  {
    if parts == [] then [] else Flatten(parts[..|parts| - 1]) + parts[|parts| - 1]
  }

  /** A bucket holds the contents of the lists with its name, one list after
      the other. */
  lemma {:induction false} GatheredIsFlattenedLists(lists: seq<UserList>, name: string)
    ensures Gathered(lists, name) == Flatten(MapSeq(ContentsOf, Filter((l: UserList) => l.name == name, lists)))
  {
    var named := (l: UserList) => l.name == name;
    if lists != [] {
      var init, last := lists[..|lists| - 1], lists[|lists| - 1];
      assert lists == init + [last];
      GatheredIsFlattenedLists(init, name);
      FilterSnoc(named, init, last);
      if named(last) {
        var f := Filter(named, init);
        var m := MapSeq(ContentsOf, f + [last]);
        assert m[..|f|] == MapSeq(ContentsOf, f);
        assert Flatten(m) == Flatten(MapSeq(ContentsOf, f)) + ContentsOf(last);
      }
    }
  }

  /** A bucket's list id is the id of the last list with its name, or stays
      as it was when there is none. */
  lemma {:induction false} LastIdIsLastNamed(lists: seq<UserList>, name: string, start: int)
    ensures var named := Filter((l: UserList) => l.name == name, lists);
            LastIdNamed(lists, name, start) == if named == [] then start else named[|named| - 1].id
  {
    if lists != [] {
      var init, last := lists[..|lists| - 1], lists[|lists| - 1];
      assert lists == init + [last];
      LastIdIsLastNamed(init, name, start);
      FilterSnoc((l: UserList) => l.name == name, init, last);
    }
  }

  /** Every list lands in exactly one place: one of the four default lists by
      its name, or the custom lists. */
  lemma {:induction false} EachListOnePlace(lists: seq<UserList>)
    ensures Count((l: UserList) => l.name == Watched, lists) + Count((l: UserList) => l.name == Watchlist, lists) +
            Count((l: UserList) => l.name == ReadBooks, lists) + Count((l: UserList) => l.name == ReadingList, lists) +
            |Customs(lists)| == |lists|
    ensures forall l :: l in lists ==> (l in Customs(lists) <==> !IsDefaultName(l.name))
  {
    var custom := (l: UserList) => !IsDefaultName(l.name);
    forall l | l in lists ensures l in Customs(lists) <==> !IsDefaultName(l.name) {
      FilterMembers(custom, lists, l);
    }
    if lists != [] {
      var init, last := lists[..|lists| - 1], lists[|lists| - 1];
      assert lists == init + [last];
      EachListOnePlace(init);
      CountSnoc((l: UserList) => l.name == Watched, init, last);
      CountSnoc((l: UserList) => l.name == Watchlist, init, last);
      CountSnoc((l: UserList) => l.name == ReadBooks, init, last);
      CountSnoc((l: UserList) => l.name == ReadingList, init, last);
      CountSnoc(custom, init, last);
    }
  }

  // ---------------------------------------------------------------------------
  // The view model and Profile
  // ---------------------------------------------------------------------------

  class UserProfileView {
    var user: Auth.UserResponse
    var isOwner: bool
    var isFollowing: bool
    var followersCount: int
    var followingCount: int
    var watchedMovies: seq<ContentDto>
    var watchedListId: int
    var watchlistMovies: seq<ContentDto>
    var watchlistListId: int
    var readBooks: seq<ContentDto>
    var readListId: int
    var readingListBooks: seq<ContentDto>
    var readingListId: int
    var customLists: seq<UserList>
    var recentActivities: seq<Feed.ActivityDto>

    constructor (user: Auth.UserResponse)
      ensures this.user == user && !isOwner && !isFollowing && followersCount == 0 && followingCount == 0
      ensures watchedMovies == [] && watchlistMovies == [] && readBooks == [] && readingListBooks == []
      ensures watchedListId == 0 && watchlistListId == 0 && readListId == 0 && readingListId == 0
      ensures customLists == [] && recentActivities == []
    {
      this.user := user;
      isOwner, isFollowing := false, false;
      followersCount, followingCount := 0, 0;
      watchedMovies, watchlistMovies, readBooks, readingListBooks := [], [], [], [];
      watchedListId, watchlistListId, readListId, readingListId := 0, 0, 0, 0;
      customLists, recentActivities := [], [];
    }

    /** The owner and following flags, the counts and the recent activities. */
    method SetFlags(api: UserApi, session: Option<int>, target: int)
      modifies this`isOwner, this`isFollowing, this`followersCount, this`followingCount, this`recentActivities
      requires !isFollowing
      ensures isOwner == IsOwnerOf(session, target)
      ensures isFollowing == FollowsTarget(api, session, target)
      ensures followersCount == CountOf(api.followers(target))
      ensures followingCount == CountOf(api.following(target))
      ensures recentActivities == if api.activities(target).None? then [] else api.activities(target).value
    {
      isOwner := session == Some(target);
      if !isOwner && session.Some? {
        var myFollowing := api.following(session.value);
        if myFollowing.Some? {
          isFollowing := AnyWithId(myFollowing.value, target);
        }
      }
      var followers := api.followers(target);
      var following := api.following(target);
      followersCount := if followers.None? then 0 else |followers.value|;
      followingCount := if following.None? then 0 else |following.value|;
      var activities := api.activities(target);
      recentActivities := if activities.None? then [] else activities.value;
    }

    /** The nine fields the list sorting writes. */
    function Sorting(): Buckets
      reads this
    {
      Buckets(watchedMovies, watchedListId, watchlistMovies, watchlistListId, readBooks, readListId,
              readingListBooks, readingListId, customLists)
    }

    /** One pass of the switch. */
    method AddList(list: UserList)
      modifies this`watchedMovies, this`watchedListId, this`watchlistMovies, this`watchlistListId
      modifies this`readBooks, this`readListId, this`readingListBooks, this`readingListId, this`customLists
      ensures Sorting() == SortOne(old(Sorting()), list)
    {
      if list.name == Watched {
        watchedMovies := watchedMovies + ContentsOf(list);
        watchedListId := list.id;
      } else if list.name == Watchlist {
        watchlistMovies := watchlistMovies + ContentsOf(list);
        watchlistListId := list.id;
      } else if list.name == ReadBooks {
        readBooks := readBooks + ContentsOf(list);
        readListId := list.id;
      } else if list.name == ReadingList {
        readingListBooks := readingListBooks + ContentsOf(list);
        readingListId := list.id;
      } else {
        customLists := customLists + [list];
      }
    }

    /** The foreach over the user's lists: each bucket grows by the contents
        of the lists with its name and takes the id of the last of them; the
        other lists join the custom lists. */
    method SortLists(lists: seq<UserList>)
      modifies this`watchedMovies, this`watchedListId, this`watchlistMovies, this`watchlistListId
      modifies this`readBooks, this`readListId, this`readingListBooks, this`readingListId, this`customLists
      ensures Sorting() == SortAll(old(Sorting()), lists)
      ensures watchedMovies == old(watchedMovies) + Gathered(lists, Watched)
      ensures watchlistMovies == old(watchlistMovies) + Gathered(lists, Watchlist)
      ensures readBooks == old(readBooks) + Gathered(lists, ReadBooks)
      ensures readingListBooks == old(readingListBooks) + Gathered(lists, ReadingList)
      ensures watchedListId == LastIdNamed(lists, Watched, old(watchedListId))
      ensures watchlistListId == LastIdNamed(lists, Watchlist, old(watchlistListId))
      ensures readListId == LastIdNamed(lists, ReadBooks, old(readListId))
      ensures readingListId == LastIdNamed(lists, ReadingList, old(readingListId))
      ensures customLists == old(customLists) + Customs(lists)
    {
      for i := 0 to |lists|
        invariant Sorting() == SortAll(old(Sorting()), lists[..i])
      {
        assert lists[..i + 1] == lists[..i] + [lists[i]];
        assert lists[..i + 1][..i] == lists[..i];
        AddList(lists[i]);
      }
      assert lists[..|lists|] == lists;
      SortAllBuckets(old(Sorting()), lists);
    }
  }

  /** The nine fields of the view model the list sorting writes. */
  datatype Buckets = Buckets(
    watched: seq<ContentDto>, watchedId: int,
    watchlist: seq<ContentDto>, watchlistId: int,
    read: seq<ContentDto>, readId: int,
    readingList: seq<ContentDto>, readingListId: int,
    custom: seq<UserList>)

  /** The switch on the list name. */
  function SortOne(b: Buckets, list: UserList): Buckets
  {
    if list.name == Watched then b.(watched := b.watched + ContentsOf(list), watchedId := list.id)
    else if list.name == Watchlist then b.(watchlist := b.watchlist + ContentsOf(list), watchlistId := list.id)
    else if list.name == ReadBooks then b.(read := b.read + ContentsOf(list), readId := list.id)
    else if list.name == ReadingList then b.(readingList := b.readingList + ContentsOf(list), readingListId := list.id)
    else b.(custom := b.custom + [list])
  }

  function SortAll(b: Buckets, lists: seq<UserList>): Buckets
  {
    if lists == [] then b else SortOne(SortAll(b, lists[..|lists| - 1]), lists[|lists| - 1])
  }

  /** The contents bucket a default list name feeds. */
  function Bucket(b: Buckets, name: string): seq<ContentDto>
  {
    if name == Watched then b.watched
    else if name == Watchlist then b.watchlist
    else if name == ReadBooks then b.read
    else if name == ReadingList then b.readingList
    else []
  }

  /** The list id a default list name sets. */
  function BucketId(b: Buckets, name: string): int
  {
    if name == Watched then b.watchedId
    else if name == Watchlist then b.watchlistId
    else if name == ReadBooks then b.readId
    else if name == ReadingList then b.readingListId
    else 0
  }

  /** Sorting one list touches only the bucket of its own name. */
  lemma SortOneBucket(b: Buckets, list: UserList, name: string)
    requires IsDefaultName(name)
    ensures Bucket(SortOne(b, list), name) == Bucket(b, name) + (if list.name == name then ContentsOf(list) else [])
    ensures BucketId(SortOne(b, list), name) == if list.name == name then list.id else BucketId(b, name)
  {
  }

  /** Sorting lists one by one gives a default bucket the contents of the
      lists with its name and the id of the last of them. */
  lemma {:induction false} SortAllBucket(b: Buckets, lists: seq<UserList>, name: string)
    requires IsDefaultName(name)
    ensures Bucket(SortAll(b, lists), name) == Bucket(b, name) + Gathered(lists, name)
    ensures BucketId(SortAll(b, lists), name) == LastIdNamed(lists, name, BucketId(b, name))
  {
    if lists != [] {
      var init, last := lists[..|lists| - 1], lists[|lists| - 1];
      assert lists == init + [last];
      SortAllBucket(b, init, name);
      SortOneBucket(SortAll(b, init), last, name);
      SortSnoc(init, last, name, BucketId(b, name));
    }
  }

  /** Sorting lists one by one keeps the lists without a default name, in order. */
  lemma {:induction false} SortAllCustom(b: Buckets, lists: seq<UserList>)
    ensures SortAll(b, lists).custom == b.custom + Customs(lists)
  {
    if lists != [] {
      var init, last := lists[..|lists| - 1], lists[|lists| - 1];
      assert lists == init + [last];
      SortAllCustom(b, init);
      FilterSnoc((l: UserList) => !IsDefaultName(l.name), init, last);
    }
  }

  /** Sorting lists one by one fills each bucket with the contents of the lists
      with its name and the id of the last of them; the rest go to the custom lists. */
  lemma SortAllBuckets(b: Buckets, lists: seq<UserList>)
    ensures SortAll(b, lists).watched == b.watched + Gathered(lists, Watched)
    ensures SortAll(b, lists).watchlist == b.watchlist + Gathered(lists, Watchlist)
    ensures SortAll(b, lists).read == b.read + Gathered(lists, ReadBooks)
    ensures SortAll(b, lists).readingList == b.readingList + Gathered(lists, ReadingList)
    ensures SortAll(b, lists).watchedId == LastIdNamed(lists, Watched, b.watchedId)
    ensures SortAll(b, lists).watchlistId == LastIdNamed(lists, Watchlist, b.watchlistId)
    ensures SortAll(b, lists).readId == LastIdNamed(lists, ReadBooks, b.readId)
    ensures SortAll(b, lists).readingListId == LastIdNamed(lists, ReadingList, b.readingListId)
    ensures SortAll(b, lists).custom == b.custom + Customs(lists)
  {
    SortAllBucket(b, lists, Watched);
    SortAllBucket(b, lists, Watchlist);
    SortAllBucket(b, lists, ReadBooks);
    SortAllBucket(b, lists, ReadingList);
    SortAllCustom(b, lists);
  }

  /** Sorting one more list extends each bucket by that list alone. */
  lemma SortSnoc(lists: seq<UserList>, list: UserList, name: string, start: int)
    ensures Gathered(lists + [list], name) == Gathered(lists, name) + (if list.name == name then ContentsOf(list) else [])
    ensures LastIdNamed(lists + [list], name, start) == if list.name == name then list.id else LastIdNamed(lists, name, start)
  {
    assert (lists + [list])[..|lists|] == lists;
  }

  /** `list.Any(u => u.Id == target)` */
  method AnyWithId(users: seq<Auth.UserResponse>, target: int) returns (found: bool)
    ensures found <==> exists u :: u in users && u.id == target
  {
    found := false;
    for k := 0 to |users|
      invariant found <==> exists j :: 0 <= j < k && users[j].id == target
    {
      if users[k].id == target {
        found := true;
      }
    }
  }

  datatype ProfilePage = RedirectToLogin | NotFound | Shown(view: UserProfileView)

  /** `allLists`, with a null answer as no lists. */
  function ListsOf(api: UserApi, target: int): seq<UserList>
  {
    if api.lists(target).None? then [] else api.lists(target).value
  }

  /** The user, flags, counts and activities the page shows for `target`. */
  predicate ShowsProfile(v: UserProfileView, api: UserApi, session: Option<int>, target: int)
    reads v
  {
    Some(v.user) == api.user(target) &&
    v.isOwner == IsOwnerOf(session, target) &&
    v.isFollowing == FollowsTarget(api, session, target) &&
    v.followersCount == CountOf(api.followers(target)) &&
    v.followingCount == CountOf(api.following(target)) &&
    v.recentActivities == (if api.activities(target).None? then [] else api.activities(target).value)
  }

  /** The buckets of a fresh view model after sorting `lists`. */
  predicate ShowsLists(v: UserProfileView, lists: seq<UserList>)
    reads v
  {
    v.watchedMovies == Gathered(lists, Watched) && v.watchedListId == LastIdNamed(lists, Watched, 0) &&
    v.watchlistMovies == Gathered(lists, Watchlist) && v.watchlistListId == LastIdNamed(lists, Watchlist, 0) &&
    v.readBooks == Gathered(lists, ReadBooks) && v.readListId == LastIdNamed(lists, ReadBooks, 0) &&
    v.readingListBooks == Gathered(lists, ReadingList) && v.readingListId == LastIdNamed(lists, ReadingList, 0) &&
    v.customLists == Customs(lists)
  }

  /** UserController.Profile */
  method ShowProfile(api: UserApi, id: Option<int>, session: Option<int>) returns (page: ProfilePage)
    ensures page.RedirectToLogin? <==> TargetUserId(id, session) == 0
    ensures page.NotFound? <==> TargetUserId(id, session) != 0 && api.user(TargetUserId(id, session)).None?
    ensures page.Shown? ==> fresh(page.view)
    ensures page.Shown? ==> ShowsProfile(page.view, api, session, TargetUserId(id, session))
    ensures page.Shown? ==> ShowsLists(page.view, ListsOf(api, TargetUserId(id, session)))
  {
    var target := TargetUserId(id, session);
    if target == 0 {
      return RedirectToLogin;
    }
    var user := api.user(target);
    if user.None? {
      return NotFound;
    }
    var model := new UserProfileView(user.value);
    var allLists := api.lists(target);
    if allLists.Some? {
      model.SortLists(allLists.value);
    }
    model.SetFlags(api, session, target);
    page := Shown(model);
  }
}
