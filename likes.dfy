/** The like store: the existence check, the conditional insert and the per-post count. */
module Likes {
  import opened Domain

  /** existsByPostIdAndUser: a like for this post by this user is already recorded. */
  predicate HasLike(likes: seq<PostLike>, postId: Id, userId: Id) {
    exists i :: 0 <= i < |likes| && likes[i].postId == postId && likes[i].user.id == userId
  }

  /** At most one like per (post, user) pair. */
  ghost predicate UniqueLikes(likes: seq<PostLike>) {
    forall i, j :: 0 <= i < j < |likes| ==>
      !(likes[i].postId == likes[j].postId && likes[i].user.id == likes[j].user.id)
  }

  /** The like store after a like of `postId` by `user`: a new record only if none exists yet. */
  function LikeOnce(likes: seq<PostLike>, postId: Id, user: User, likeId: Id): (r: seq<PostLike>)
    ensures HasLike(r, postId, user.id)
    ensures likes <= r && |r| <= |likes| + 1
    ensures |r| == |likes| + 1 <==> !HasLike(likes, postId, user.id)
  {
    if HasLike(likes, postId, user.id) then likes
    else
      var after := likes + [PostLike(likeId, postId, user)];
      assert after[|likes|].postId == postId && after[|likes|].user.id == user.id;
      after
  }

  /** countByPostId: the number of like records of the post. */
  function LikeCount(likes: seq<PostLike>, postId: Id): (n: nat)
    ensures n <= |likes|
    ensures n == 0 <==> forall i :: 0 <= i < |likes| ==> likes[i].postId != postId
  {
    if likes == [] then 0
    else
      var n := |likes| - 1;
      assert forall i :: 0 <= i < n ==> likes[..n][i] == likes[i];
      LikeCount(likes[..n], postId) + (if likes[n].postId == postId then 1 else 0)
  }

  /** The number of like records for one (post, user) pair. */
  function PairCount(likes: seq<PostLike>, postId: Id, userId: Id): nat {
    if likes == [] then 0
    else
      var last := likes[|likes| - 1];
      PairCount(likes[..|likes| - 1], postId, userId) + (if last.postId == postId && last.user.id == userId then 1 else 0)
  }

  /** The indices of the like records of a post. */
  ghost function LikeIndices(likes: seq<PostLike>, postId: Id): set<nat> {
    set i: nat | i < |likes| && likes[i].postId == postId
  }

  /** The recursive count agrees with the number of matching records. */
  lemma {:induction false} LikeCountIsCardinality(likes: seq<PostLike>, postId: Id)
    ensures LikeCount(likes, postId) == |LikeIndices(likes, postId)|
  {
    if likes != [] {
      var n := |likes| - 1;
      var prefix := likes[..n];
      LikeCountIsCardinality(prefix, postId);
      if likes[n].postId == postId {
        assert LikeIndices(likes, postId) == LikeIndices(prefix, postId) + {n};
        assert n !in LikeIndices(prefix, postId);
      } else {
        assert LikeIndices(likes, postId) == LikeIndices(prefix, postId);
      }
    }
  }

  /** A pair that is never recorded has a zero pair count, and conversely. */
  lemma {:induction false} PairCountZero(likes: seq<PostLike>, postId: Id, userId: Id)
    ensures PairCount(likes, postId, userId) == 0 <==> !HasLike(likes, postId, userId)
  {
    if likes != [] {
      var n := |likes| - 1;
      PairCountZero(likes[..n], postId, userId);
      if HasLike(likes[..n], postId, userId) {
        var i :| 0 <= i < n && likes[..n][i].postId == postId && likes[..n][i].user.id == userId;
        assert likes[i] == likes[..n][i];
      }
      if HasLike(likes, postId, userId) && !(likes[n].postId == postId && likes[n].user.id == userId) {
        var i :| 0 <= i < |likes| && likes[i].postId == postId && likes[i].user.id == userId;
        assert likes[..n][i] == likes[i];
      }
    }
  }

  /** Under the uniqueness invariant every (post, user) pair is recorded at most once. */
  lemma {:induction false} UniqueLikesPairCount(likes: seq<PostLike>, postId: Id, userId: Id)
    requires UniqueLikes(likes)
    ensures PairCount(likes, postId, userId) <= 1
  {
    if likes != [] {
      var n := |likes| - 1;
      var prefix := likes[..n];
      assert UniqueLikes(prefix) by {
        forall i, j | 0 <= i < j < |prefix|
          ensures !(prefix[i].postId == prefix[j].postId && prefix[i].user.id == prefix[j].user.id)
        {
          assert prefix[i] == likes[i] && prefix[j] == likes[j];
        }
      }
      UniqueLikesPairCount(prefix, postId, userId);
      if likes[n].postId == postId && likes[n].user.id == userId {
        PairCountZero(prefix, postId, userId);
      }
    }
  }

  /** Liking a second time changes nothing: the like store is the same as after one like. */
  lemma LikeOnceIdempotent(likes: seq<PostLike>, postId: Id, user: User, firstId: Id, secondId: Id)
    ensures LikeOnce(LikeOnce(likes, postId, user, firstId), postId, user, secondId)
         == LikeOnce(likes, postId, user, firstId)
  {
  }

  /** A like keeps at most one record per (post, user) pair. */
  lemma LikeOnceKeepsUnique(likes: seq<PostLike>, postId: Id, user: User, likeId: Id)
    requires UniqueLikes(likes)
    ensures UniqueLikes(LikeOnce(likes, postId, user, likeId))
  {
    if !HasLike(likes, postId, user.id) {
      var after := likes + [PostLike(likeId, postId, user)];
      forall i, j | 0 <= i < j < |after|
        ensures !(after[i].postId == after[j].postId && after[i].user.id == after[j].user.id)
      {
        if j == |likes| {
          assert after[i] == likes[i];
        } else {
          assert after[i] == likes[i] && after[j] == likes[j];
        }
      }
    }
  }

  /** A like raises the liked post's count by one exactly when the pair was new; other counts stay. */
  lemma LikeOnceCount(likes: seq<PostLike>, postId: Id, user: User, likeId: Id, other: Id)
    ensures LikeCount(LikeOnce(likes, postId, user, likeId), other)
         == LikeCount(likes, other) + (if other == postId && !HasLike(likes, postId, user.id) then 1 else 0)
  {
    if !HasLike(likes, postId, user.id) {
      var after := likes + [PostLike(likeId, postId, user)];
      assert after[..|after| - 1] == likes;
    }
  }

  /** Two likes of a post by a user who had not liked it record the pair exactly once and count once. */
  lemma LikeTwiceCountsOnce(likes: seq<PostLike>, postId: Id, user: User, firstId: Id, secondId: Id)
    requires UniqueLikes(likes)
    requires !HasLike(likes, postId, user.id)
    ensures var twice := LikeOnce(LikeOnce(likes, postId, user, firstId), postId, user, secondId);
      && PairCount(twice, postId, user.id) == 1
      && LikeCount(twice, postId) == LikeCount(likes, postId) + 1
  {
    var once := LikeOnce(likes, postId, user, firstId);
    LikeOnceIdempotent(likes, postId, user, firstId, secondId);
    LikeOnceCount(likes, postId, user, firstId, postId);
    LikeOnceKeepsUnique(likes, postId, user, firstId);
    UniqueLikesPairCount(once, postId, user.id);
    PairCountZero(once, postId, user.id);
  }
}
