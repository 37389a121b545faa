/**
 * The create-like route: the post must exist, then the current user must
 * not have liked it yet, and only then is one like inserted.
 */
module LikeApi {
  import opened Base
  import opened SessionStore
  import opened Likes

  /** Both refusals are answered with HTTP 400. */
  datatype LikeError = PostNotFound | AlreadyLiked

  /** The body of a 201 answer: the new like's fields. */
  datatype CreateLikeResponse = CreateLikeResponse(id: nat, userId: int, postId: int, createdAt: int)

  /**
   * The route handler. `posts` holds the ids of the existing posts and
   * `currentUser` is the resolved session; `now` stamps the new row.
   */
  method CreateLike(likeService: LikeService, posts: set<int>, currentUser: SessionContent, postId: int, now: int)
    returns (r: Result<CreateLikeResponse, LikeError>)
    requires likeService.Valid()
    modifies likeService
    ensures likeService.Valid()
    ensures postId !in posts ==> r == Err(PostNotFound) && unchanged(likeService)
    ensures postId in posts && Liked(old(likeService.likes), currentUser.userId, postId) ==>
      r == Err(AlreadyLiked) && unchanged(likeService)
    ensures postId in posts && !Liked(old(likeService.likes), currentUser.userId, postId) ==>
      && r == Ok(CreateLikeResponse(old(likeService.nextId), currentUser.userId, postId, now))
      && likeService.likes == old(likeService.likes) + [Like(old(likeService.nextId), currentUser.userId, postId, now)]
      && likeService.nextId == old(likeService.nextId) + 1
    ensures PairsUnique(old(likeService.likes)) ==> PairsUnique(likeService.likes)
    ensures Liked(likeService.likes, currentUser.userId, postId) <==> Liked(old(likeService.likes), currentUser.userId, postId) || r.Ok?
  {
    var userId := currentUser.userId;
    if postId !in posts {
      return Err(PostNotFound);
    }
    var existing := likeService.GetLikeByUserAndPost(userId, postId);
    if existing.Some? {
      return Err(AlreadyLiked);
    }
    ghost var before := likeService.likes;
    var newLike := likeService.CreateLike(userId, postId, now);
    AppendKeepsPairsUnique(before, newLike);
    r := Ok(CreateLikeResponse(newLike.id, newLike.userId, newLike.postId, newLike.createdAt));
    assert likeService.likes[|before|] == newLike;
  }

  /** Appending a like for a pair not yet recorded keeps every pair recorded at most once. */
  lemma AppendKeepsPairsUnique(rows: seq<Like>, l: Like)
    requires !Liked(rows, l.userId, l.postId)
    ensures PairsUnique(rows) ==> PairsUnique(rows + [l])
  {
  }

  /** Under sequential calls, a second like of the same post by the same user is refused and adds nothing. */
  method RepeatedLikeIsRejected(likeService: LikeService, posts: set<int>, currentUser: SessionContent, postId: int, now: int, later: int)
    returns (first: Result<CreateLikeResponse, LikeError>, second: Result<CreateLikeResponse, LikeError>)
    requires likeService.Valid() && postId in posts
    modifies likeService
    ensures second == Err(AlreadyLiked)
    ensures |likeService.likes| <= |old(likeService.likes)| + 1
  {
    first := CreateLike(likeService, posts, currentUser, postId, now);
    second := CreateLike(likeService, posts, currentUser, postId, later);
  }
}
