/**
 * The like table and the like service: insert a like, look one up by
 * (user, post), and list the users who liked a post (or anything at all).
 */
module Likes {
  import opened Base
  import opened Query
  import opened Users

  /** A row of the like table: `userId` liked `postId` at time `createdAt`. */
  datatype Like = Like(id: nat, userId: int, postId: int, createdAt: int)

  /** A row of the user table, as far as the liker query returns it. */
  datatype User = User(id: int, nickname: string, role: Role)

  /** The lookup filter: a like by `userId` on `postId`. */
  function ForPair(userId: int, postId: int): Like -> bool
  {
    (l: Like) => l.userId == userId && l.postId == postId
  }

  /** The liker query's filter on likes: a truthy `postId` keeps that post only; None or 0 keeps every like. */
  function LikerFilter(postId: Option<int>): Like -> bool
  {
    (l: Like) => !TruthyInt(postId) || l.postId == postId.value
  }

  /** Some row records a like by `userId` on `postId`. */
  ghost predicate Liked(rows: seq<Like>, userId: int, postId: int)
  {
    exists i :: 0 <= i < |rows| && rows[i].userId == userId && rows[i].postId == postId
  }

  /** No (user, post) pair is recorded twice. */
  ghost predicate PairsUnique(rows: seq<Like>)
  {
    forall i, j :: 0 <= i < |rows| && 0 <= j < |rows| && rows[i].userId == rows[j].userId && rows[i].postId == rows[j].postId ==> i == j
  }

  /** The primary key of a like. */
  function LikeId(l: Like): int
  {
    l.id
  }

  /** The user table, keyed by primary key: each row is stored under its own id. */
  ghost predicate KeyedById(users: map<int, User>)
  {
    forall k :: k in users ==> users[k].id == k
  }

  /**
   * `select(User).join(Like)`: joining each like with the user row its
   * `userId` refers to gives one user per like, in like order; a user who
   * liked several posts appears once per like.
   */
  function JoinUsers(likes: seq<Like>, users: map<int, User>): (r: seq<User>)
    requires KeyedById(users)
    ensures |r| <= |likes|
    ensures forall u :: u in r ==> exists l :: l in likes && u.id == l.userId
    ensures forall u :: u in r ==> exists l :: l in likes && l.userId in users && users[l.userId] == u
    ensures forall l :: l in likes && l.userId in users ==> users[l.userId] in r
  {
    if likes == [] then []
    else
      var rest := JoinUsers(likes[1..], users);
      var l := likes[0];
      assert forall m :: m in likes[1..] ==> m in likes;
      if l.userId in users then [users[l.userId]] + rest else rest
  }

  class LikeService {
    /** The like table in storage order. */
    var likes: seq<Like>
    /** The id the database hands to the next inserted like. */
    var nextId: nat

    /** Like ids grow with storage order, so no two rows share an id, and all lie below `nextId`. */
    ghost predicate Valid()
      reads this
    {
      KeysIncreasing(likes, LikeId, nextId)
    }

    constructor ()
      ensures Valid() && likes == [] && nextId == 0
    {
      likes := [];
      nextId := 0;
    }

    /**
     * `create_like`: appends one like with the given user and post, stamped
     * with the insertion time, and returns it. It checks no uniqueness.
     */
    method CreateLike(userId: int, postId: int, now: int) returns (like: Like)
      requires Valid()
      modifies this
      ensures Valid()
      ensures like == Like(old(nextId), userId, postId, now)
      ensures forall l :: l in old(likes) ==> l.id < like.id
      ensures likes == old(likes) + [like] && nextId == old(nextId) + 1
    {
      like := Like(nextId, userId, postId, now);
      likes := likes + [like];
      nextId := nextId + 1;
    }

    /** `get_like_by_user_and_post`: a like by `userId` on `postId`, or None exactly when there is none. */
    function GetLikeByUserAndPost(userId: int, postId: int): (r: Option<Like>)
      reads this
      ensures r.None? <==> !Liked(likes, userId, postId)
      ensures r.Some? ==> r.value in likes && r.value.userId == userId && r.value.postId == postId
    {
      First(likes, ForPair(userId, postId))
    }

    /**
     * `get_like_users`: the users having a like on `postId` when it is
     * truthy, and the users having any like when it is None or 0.
     */
    function GetLikeUsers(users: map<int, User>, postId: Option<int>): (r: seq<User>)
      reads this
      requires KeyedById(users)
      ensures forall u :: u in r ==> exists l :: l in likes && LikerFilter(postId)(l) && l.userId in users && users[l.userId] == u
      ensures forall u :: u in r ==> exists l :: l in likes && LikerFilter(postId)(l) && u.id == l.userId
      ensures forall l :: l in likes && LikerFilter(postId)(l) && l.userId in users ==> users[l.userId] in r
      ensures TruthyInt(postId) ==> forall u :: u in r ==> exists l :: l in likes && l.postId == postId.value && l.userId in users && users[l.userId] == u
    {
      JoinUsers(Where(likes, LikerFilter(postId)), users)
    }
  }

  /** Without a post filter the liker query lists every user who liked something. */
  lemma AllLikersWithoutFilter(likes: seq<Like>, users: map<int, User>, l: Like)
    requires KeyedById(users) && l in likes && l.userId in users
    ensures users[l.userId] in JoinUsers(Where(likes, LikerFilter(None)), users)
    ensures users[l.userId] in JoinUsers(Where(likes, LikerFilter(Some(0))), users)
  {
  }
}
