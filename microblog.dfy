/** The microblog of the tenth backend: a posts table and a likes table, a login whose access
    token is the username, an ownership rule on delete and one like per user and post. */
module Microblog {
  import opened Http
  import opened Text
  import opened Bearer
  import opened Seqs
  import opened Sorting

  datatype UserRecord = UserRecord(id: string, username: string, password: string)

  /** The `User` model: who is asking. */
  datatype User = User(id: string, username: string)

  /** The body answered by login. */
  datatype LoginReply = LoginReply(accessToken: string, tokenType: string, user: User)

  /** A row of the `posts` table; `timestamp` counts seconds. */
  datatype PostRow = PostRow(id: string, text: string, timestamp: int, ownerId: string, ownerUsername: string)

  /** A row of the `likes` table. */
  datatype LikeRow = LikeRow(id: string, userId: string, postId: string)

  /** `FAKE_USERS_DB`. */
  const UsersDb: map<string, UserRecord> := map[
    "user1" := UserRecord("1", "user1", "password1"),
    "user2" := UserRecord("2", "user2", "password2")
  ]

  function UserOf(u: UserRecord): User {
    User(u.id, u.username)
  }

  /** get_current_user: the bearer token must be a username of `FAKE_USERS_DB`. */
  function CurrentUser(authorization: string): (r: Result<User>)
    ensures r.Ok? <==> Credential(authorization).Some? && Credential(authorization).value in UsersDb
    ensures r.Ok? ==> r.value == UserOf(UsersDb[Credential(authorization).value])
    ensures r.Err? ==> r.status == Unauthorized
  {
    match Credential(authorization)
    case None => Err(Unauthorized)
    case Some(token) => if token in UsersDb then Ok(UserOf(UsersDb[token])) else Err(Unauthorized)
  }

  /** login: `form_data.get` may find no field, which never matches a user or a password. */
  function Login(username: Option<string>, password: Option<string>): (r: Result<LoginReply>)
    ensures r.Ok? <==> username.Some? && username.value in UsersDb && password == Some(UsersDb[username.value].password)
    ensures r.Err? ==> r.status == Unauthorized
    ensures r.Ok? ==> r.value == LoginReply(username.value, "bearer", UserOf(UsersDb[username.value]))
  {
    if username.None? || username.value !in UsersDb then Err(Unauthorized)
    else
      var user := UsersDb[username.value];
      if password != Some(user.password) then Err(Unauthorized)
      else Ok(LoginReply(user.username, "bearer", UserOf(user)))
  }

  /** The token a login hands out authenticates as the user who logged in. */
  lemma LoginThenAuthenticate(username: Option<string>, password: Option<string>)
    requires Login(username, password).Ok?
    ensures CurrentUser(Scheme + Login(username, password).value.accessToken) == Ok(Login(username, password).value.user)
  {
    var name := username.value;
    assert name == "user1" || name == "user2";
    assert forall i :: 0 <= i < |name| ==> name[i] != ' ';
    CredentialRoundTrip(name);
  }

  // ---------------------------------------------------------------- queries

  function Timestamp(p: PostRow): int {
    p.timestamp
  }

  function OwnedBy(username: string): PostRow -> bool {
    (p: PostRow) => p.ownerUsername == username
  }

  function OnPost(postId: string): LikeRow -> bool {
    (l: LikeRow) => l.postId == postId
  }

  /** get_posts_db: newest first; rows with equal timestamps keep table order. */
  function ListPosts(posts: seq<PostRow>): (r: seq<PostRow>)
    ensures multiset(r) == multiset(posts)
    ensures Sorted(r, Timestamp, true)
  {
    SortBy(posts, Timestamp, true)
  }

  /** get_user_posts: the rows owned by `username`, newest first. */
  function UserPosts(posts: seq<PostRow>, username: string): (r: seq<PostRow>)
    ensures Sorted(r, Timestamp, true)
    ensures forall p :: p in r <==> p in posts && p.ownerUsername == username
  {
    var r := SortBy(Filter(posts, OwnedBy(username)), Timestamp, true);
    forall p ensures p in r <==> p in posts && p.ownerUsername == username {
      assert p in r <==> p in multiset(r);
      if p in posts && p.ownerUsername == username {
        var j :| 0 <= j < |posts| && posts[j] == p;
      }
      if p in Filter(posts, OwnedBy(username)) {
        var f := Filter(posts, OwnedBy(username));
        var j :| 0 <= j < |f| && f[j] == p;
      }
    }
    r
  }

  /** A user's page is the full listing with the other users' posts left out, in the same order. */
  lemma UserPostsFollowListing(posts: seq<PostRow>, username: string)
    ensures UserPosts(posts, username) == Filter(ListPosts(posts), OwnedBy(username))
  {
    SortFilter(posts, Timestamp, true, OwnedBy(username));
  }

  function PostIds(posts: seq<PostRow>): (ids: seq<string>)
    ensures |ids| == |posts|
    ensures forall i :: 0 <= i < |posts| ==> ids[i] == posts[i].id
  {
    seq(|posts|, i requires 0 <= i < |posts| => posts[i].id)
  }

  /** The (user, post) pair of each like, in table order. */
  function Pairs(likes: seq<LikeRow>): (ps: seq<(string, string)>)
    ensures |ps| == |likes|
    ensures forall i :: 0 <= i < |likes| ==> ps[i] == (likes[i].userId, likes[i].postId)
  {
    seq(|likes|, i requires 0 <= i < |likes| => (likes[i].userId, likes[i].postId))
  }

  /** get_likes_count. */
  function LikesCount(likes: seq<LikeRow>, postId: string): (n: nat)
    ensures n <= |likes|
    ensures n == 0 <==> forall i :: 0 <= i < |likes| ==> likes[i].postId != postId
  {
    var f := Filter(likes, OnPost(postId));
    assert f != [] ==> f[0] in likes && f[0].postId == postId;
    |f|
  }

  /** is_post_liked_by_user. */
  predicate LikedBy(likes: seq<LikeRow>, postId: string, userId: string) {
    (userId, postId) in Pairs(likes)
  }

  /** The two read endpoints agree: a post some user likes has a positive count, and a post
      with a positive count is liked by someone. */
  lemma LikedMeansCounted(likes: seq<LikeRow>, postId: string)
    ensures LikesCount(likes, postId) >= 1 <==> exists u :: LikedBy(likes, postId, u)
  {
    if LikesCount(likes, postId) >= 1 {
      var i :| 0 <= i < |likes| && likes[i].postId == postId;
      assert Pairs(likes)[i] == (likes[i].userId, postId);
      assert LikedBy(likes, postId, likes[i].userId);
    }
    if exists u :: LikedBy(likes, postId, u) {
      var u :| LikedBy(likes, postId, u);
      var i :| 0 <= i < |likes| && Pairs(likes)[i] == (u, postId);
      assert likes[i].postId == postId;
    }
  }

  /** The `unique_user_post` constraint. */
  ghost predicate UniquePairs(likes: seq<LikeRow>) {
    forall i, j :: 0 <= i < j < |likes| ==> Pairs(likes)[i] != Pairs(likes)[j]
  }

  /** The primary key of `posts`. */
  ghost predicate UniquePostIds(posts: seq<PostRow>) {
    forall i, j :: 0 <= i < j < |posts| ==> posts[i].id != posts[j].id
  }

  /** A new like raises the count of its own post by one and leaves every other count alone. */
  lemma LikeRaisesCount(likes: seq<LikeRow>, like: LikeRow, postId: string)
    ensures LikesCount(likes + [like], postId) == LikesCount(likes, postId) + (if like.postId == postId then 1 else 0)
  {
    FilterAppend(likes, [like], OnPost(postId));
  }

  /** Removing a like lowers the count of its own post by one and leaves every other count alone. */
  lemma UnlikeLowersCount(likes: seq<LikeRow>, i: nat, postId: string)
    requires i < |likes|
    ensures LikesCount(RemoveAt(likes, i), postId) == LikesCount(likes, postId) - (if likes[i].postId == postId then 1 else 0)
  {
    FilterRemoveAt(likes, i, OnPost(postId));
  }

  /** Under the constraint, removing the like of a pair leaves no like of that pair, and the
      constraint still holds. */
  lemma RemovePairLike(likes: seq<LikeRow>, i: nat)
    requires i < |likes| && UniquePairs(likes)
    ensures !LikedBy(RemoveAt(likes, i), likes[i].postId, likes[i].userId)
    ensures UniquePairs(RemoveAt(likes, i))
    ensures forall u, p :: (u, p) != Pairs(likes)[i] ==> (LikedBy(RemoveAt(likes, i), p, u) <==> LikedBy(likes, p, u))
  {
    var r := RemoveAt(likes, i);
    var pr := Pairs(r);
    var pl := Pairs(likes);
    assert forall j :: 0 <= j < |r| ==> pr[j] == pl[if j < i then j else j + 1];
    forall u, p | (u, p) != pl[i] && (u, p) in pl ensures (u, p) in pr {
      var k :| 0 <= k < |pl| && pl[k] == (u, p);
      assert pr[if k < i then k else k - 1] == (u, p);
    }
  }

  /** Under the constraint, adding a like for a pair not yet liked keeps it. */
  lemma AddPairLike(likes: seq<LikeRow>, like: LikeRow)
    requires UniquePairs(likes) && !LikedBy(likes, like.postId, like.userId)
    ensures UniquePairs(likes + [like])
    ensures LikedBy(likes + [like], like.postId, like.userId)
    ensures forall u, p :: LikedBy(likes + [like], p, u) <==> LikedBy(likes, p, u) || (u, p) == (like.userId, like.postId)
  {
    var l := likes + [like];
    assert Pairs(l) == Pairs(likes) + [(like.userId, like.postId)];
  }

  /** Deleting a row by position keeps the primary key unique and leaves no row with its id. */
  lemma RemovePostRow(posts: seq<PostRow>, i: nat)
    requires i < |posts| && UniquePostIds(posts)
    ensures UniquePostIds(RemoveAt(posts, i))
    ensures posts[i].id !in PostIds(RemoveAt(posts, i))
  {
    var r := RemoveAt(posts, i);
    forall j | 0 <= j < |r| ensures r[j].id != posts[i].id {
      assert r[j] == posts[if j < i then j else j + 1];
    }
  }

  /** The two tables. The SQLite session, its commits and its engine are not modelled. */
  class Blog {
    var posts: seq<PostRow>
    var likes: seq<LikeRow>

    ghost predicate Valid()
      reads this
    {
      UniquePostIds(posts) && UniquePairs(likes)
    }

    constructor ()
      ensures posts == [] && likes == [] && Valid()
    {
      posts := [];
      likes := [];
    }

    /** get_posts_db. */
    method GetPosts() returns (r: seq<PostRow>)
      ensures r == ListPosts(posts)
    {
      r := SortBy(posts, Timestamp, true);
    }

    /** get_user_posts. */
    method GetUserPosts(username: string) returns (r: seq<PostRow>)
      ensures r == UserPosts(posts, username)
    {
      r := UserPosts(posts, username);
    }

    /** create_post_db, with the fresh uuid4 supplied as `id` and the clock as `now`. */
    method CreatePost(text: string, user: User, id: string, now: int) returns (r: PostRow)
      requires Valid() && id !in PostIds(posts)
      modifies this
      ensures Valid()
      ensures r == PostRow(id, text, now, user.id, user.username)
      ensures posts == old(posts) + [r] && likes == old(likes)
    {
      r := PostRow(id, text, now, user.id, user.username);
      posts := posts + [r];
    }

    /** delete_post_db: 404 for no such post, 403 for someone else's; the post's likes stay. */
    method DeletePost(postId: string, user: User) returns (r: Result<()>)
      requires Valid()
      modifies this
      ensures Valid() && likes == old(likes)
      ensures r.Err? ==> posts == old(posts) && (r.status == NotFound || r.status == Forbidden)
      ensures r.Ok? <==> postId in PostIds(old(posts))
                         && old(posts)[IndexOf(PostIds(old(posts)), postId).value].ownerId == user.id
      ensures r == Err(NotFound) <==> postId !in PostIds(old(posts))
      ensures r == Err(Forbidden) <==>
        postId in PostIds(old(posts)) && old(posts)[IndexOf(PostIds(old(posts)), postId).value].ownerId != user.id
      ensures r.Ok? ==> posts == RemoveAt(old(posts), IndexOf(PostIds(old(posts)), postId).value)
                        && postId !in PostIds(posts)
    {
      match IndexOf(PostIds(posts), postId)
      case None =>
        return Err(NotFound);
      case Some(i) =>
        if posts[i].ownerId != user.id {
          return Err(Forbidden);
        }
        RemovePostRow(posts, i);
        posts := RemoveAt(posts, i);
        r := Ok(());
    }

    /** like_post_db, with the fresh uuid4 supplied as `likeId`. */
    method Like(postId: string, user: User, likeId: string) returns (r: Result<()>)
      requires Valid()
      modifies this
      ensures Valid() && posts == old(posts)
      ensures r == Err(NotFound) <==> postId !in PostIds(posts)
      ensures r == Err(BadRequest) <==> postId in PostIds(posts) && LikedBy(old(likes), postId, user.id)
      ensures r.Err? ==> likes == old(likes)
      ensures r.Ok? ==> likes == old(likes) + [LikeRow(likeId, user.id, postId)]
      ensures r.Ok? ==> LikesCount(likes, postId) == LikesCount(old(likes), postId) + 1
      ensures LikedBy(likes, postId, user.id) <==> postId in PostIds(posts) || LikedBy(old(likes), postId, user.id)
    {
      if postId !in PostIds(posts) {
        return Err(NotFound);
      }
      if LikedBy(likes, postId, user.id) {
        return Err(BadRequest);
      }
      var like := LikeRow(likeId, user.id, postId);
      AddPairLike(likes, like);
      LikeRaisesCount(likes, like, postId);
      likes := likes + [like];
      r := Ok(());
    }

    /** unlike_post_db: removes the like of the pair, without looking the post up. */
    method Unlike(postId: string, user: User) returns (r: Result<()>)
      requires Valid()
      modifies this
      ensures Valid() && posts == old(posts)
      ensures r.Err? <==> !LikedBy(old(likes), postId, user.id)
      ensures r.Err? ==> r.status == NotFound && likes == old(likes)
      ensures r.Ok? ==> likes == RemoveAt(old(likes), IndexOf(Pairs(old(likes)), (user.id, postId)).value)
      ensures r.Ok? ==> LikesCount(likes, postId) == LikesCount(old(likes), postId) - 1
      ensures !LikedBy(likes, postId, user.id)
    {
      match IndexOf(Pairs(likes), (user.id, postId))
      case None =>
        return Err(NotFound);
      case Some(i) =>
        RemovePairLike(likes, i);
        UnlikeLowersCount(likes, i, postId);
        likes := RemoveAt(likes, i);
        r := Ok(());
    }

    /** get_likes_count. */
    method GetLikesCount(postId: string) returns (r: nat)
      ensures r == LikesCount(likes, postId)
    {
      r := |Filter(likes, OnPost(postId))|;
    }

    /** is_post_liked_by_user. */
    method IsLikedBy(postId: string, user: User) returns (r: bool)
      ensures r <==> exists i :: 0 <= i < |likes| && likes[i].userId == user.id && likes[i].postId == postId
    {
      r := LikedBy(likes, postId, user.id);
      if r {
        var i :| 0 <= i < |likes| && Pairs(likes)[i] == (user.id, postId);
      }
    }
  }
}
