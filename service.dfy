/**
 * The post service: posts, comments and likes held as repository contents, with the mutating
 * operations as methods and the read operations as functions of the current state.
 */
module Service {
  import opened Domain
  import opened Sequences
  import opened Likes
  import opened Assembler

  predicate IsInstructorNamed(u: User, username: string) {
    u.username == username && u.role == Instructor
  }

  /**
   * getCurrentInstructor: among the users with the current username, in repository order,
   * the first whose role is instructor.
   */
  function FindInstructor(users: seq<User>, username: string): (r: Result<User>)
    ensures r.Ok? ==> exists i :: 0 <= i < |users| && users[i] == r.value
                        && IsInstructorNamed(users[i], username)
                        && forall j :: 0 <= j < i ==> !IsInstructorNamed(users[j], username)
    ensures r.Err? ==> r.error == NotAnInstructor
    ensures r.Err? <==> forall i :: 0 <= i < |users| ==> !IsInstructorNamed(users[i], username)
  {
    if users == [] then Err(NotAnInstructor)
    else if IsInstructorNamed(users[0], username) then Ok(users[0])
    else
      var r := FindInstructor(users[1..], username);
      assert forall i :: 0 < i < |users| ==> users[i] == users[1..][i - 1];
      r
  }

  /** findById: the position of the post with this id, if any. */
  function PostIndex(posts: seq<Post>, id: Id): (r: Option<nat>)
    ensures r.Some? ==> r.value < |posts| && posts[r.value].id == id
    ensures r.None? <==> forall i :: 0 <= i < |posts| ==> posts[i].id != id
  {
    if posts == [] then None
    else if posts[0].id == id then Some(0)
    else
      match PostIndex(posts[1..], id)
      case None => None
      case Some(k) => Some(k + 1)
  }

  ghost predicate UniquePostIds(posts: seq<Post>) {
    forall i, j :: 0 <= i < j < |posts| ==> posts[i].id != posts[j].id
  }

  /**
   * The repository invariants: post ids are distinct and below the next id to hand out, no post
   * has more than MaxMedia URLs, every comment and like refers to an id already handed out, like
   * ids are below the next like id, and at most one like is recorded per (post, user) pair.
   */
  ghost predicate ValidState(posts: seq<Post>, comments: seq<Comment>, likes: seq<PostLike>, nextPostId: Id, nextLikeId: Id) {
    && UniquePostIds(posts)
    && (forall i :: 0 <= i < |posts| ==> posts[i].id < nextPostId && |posts[i].mediaUrls| <= MaxMedia)
    && (forall i :: 0 <= i < |comments| ==> comments[i].postId < nextPostId)
    && (forall i :: 0 <= i < |likes| ==> likes[i].postId < nextPostId)
    && (forall i :: 0 <= i < |likes| ==> likes[i].id < nextLikeId)
    && UniqueLikes(likes)
  }

  /** deleteById: every post but those with this id, in storage order. */
  function WithoutPost(posts: seq<Post>, id: Id): (r: seq<Post>)
    ensures |r| <= |posts|
    ensures forall k :: 0 <= k < |r| ==> r[k].id != id
  {
    if posts == [] then []
    else if posts[0].id == id then WithoutPost(posts[1..], id)
    else [posts[0]] + WithoutPost(posts[1..], id)
  }

  /** Deleting takes out the one post with that id and keeps the others in order. */
  lemma DeleteRemovesExactlyThatPost(posts: seq<Post>, id: Id)
    requires UniquePostIds(posts)
    ensures PostIndex(posts, id).None? ==> WithoutPost(posts, id) == posts
    ensures PostIndex(posts, id).Some? ==>
      var i := PostIndex(posts, id).value;
      WithoutPost(posts, id) == posts[..i] + posts[i + 1..]
  {
    var found := PostIndex(posts, id);
    if found.None? {
      WithoutAbsent(posts, id);
    } else {
      WithoutPostAt(posts, id, found.value);
    }
  }

  lemma {:induction false} WithoutAbsent(posts: seq<Post>, id: Id)
    requires forall i :: 0 <= i < |posts| ==> posts[i].id != id
    ensures WithoutPost(posts, id) == posts
  {
    if posts != [] {
      WithoutAbsent(posts[1..], id);
    }
  }

  lemma {:induction false} WithoutPostAt(posts: seq<Post>, id: Id, i: nat)
    requires UniquePostIds(posts) && i < |posts| && posts[i].id == id
    ensures WithoutPost(posts, id) == posts[..i] + posts[i + 1..]
  {
    var tail := posts[1..];
    if i == 0 {
      forall j | 0 <= j < |tail| ensures tail[j].id != id {
        assert tail[j] == posts[j + 1];
      }
      WithoutAbsent(tail, id);
      assert posts[..0] + posts[1..] == tail;
    } else {
      UniqueTail(posts);
      assert tail[i - 1] == posts[i];
      WithoutPostAt(tail, id, i - 1);
      assert posts[0].id != posts[i].id;
      assert [posts[0]] + tail[..i - 1] == posts[..i];
      assert tail[i..] == posts[i + 1..];
    }
  }

  lemma UniqueTail(posts: seq<Post>)
    requires UniquePostIds(posts) && posts != []
    ensures UniquePostIds(posts[1..])
  {
    var tail := posts[1..];
    forall a, b | 0 <= a < b < |tail| ensures tail[a].id != tail[b].id {
      assert tail[a] == posts[a + 1] && tail[b] == posts[b + 1];
    }
  }

  /** Deleting a post keeps the repository invariants. */
  lemma WithoutPostKeepsValid(posts: seq<Post>, comments: seq<Comment>, likes: seq<PostLike>, nextPostId: Id, nextLikeId: Id, id: Id)
    requires ValidState(posts, comments, likes, nextPostId, nextLikeId)
    ensures ValidState(WithoutPost(posts, id), comments, likes, nextPostId, nextLikeId)
  {
    DeleteRemovesExactlyThatPost(posts, id);
    var found := PostIndex(posts, id);
    if found.Some? {
      RemoveAtKeepsValid(posts, comments, likes, nextPostId, nextLikeId, found.value);
    }
  }

  lemma RemoveAtKeepsValid(posts: seq<Post>, comments: seq<Comment>, likes: seq<PostLike>, nextPostId: Id, nextLikeId: Id, i: nat)
    requires ValidState(posts, comments, likes, nextPostId, nextLikeId) && i < |posts|
    ensures ValidState(posts[..i] + posts[i + 1..], comments, likes, nextPostId, nextLikeId)
  {
    var r := posts[..i] + posts[i + 1..];
    forall a | 0 <= a < |r| ensures r[a] == posts[if a < i then a else a + 1] {
      if a < i {
        assert r[a] == posts[..i][a];
      } else {
        assert r[a] == posts[i + 1..][a - i];
      }
    }
  }

  /** An id not yet handed out has no comments and no likes, so a new post starts bare. */
  lemma FreshPostIsBare(comments: seq<Comment>, likes: seq<PostLike>, id: Id)
    requires forall i :: 0 <= i < |comments| ==> comments[i].postId < id
    requires forall i :: 0 <= i < |likes| ==> likes[i].postId < id
    ensures CommentsOf(comments, id) == [] && LikeCount(likes, id) == 0
  {
  }

  function OwnedBy(userId: Id): Post -> bool {
    (p: Post) => p.instructor.id == userId
  }

  /**
   * The responses built for an instructor follow the owner's posts one for one, in storage order:
   * response k is the projection of the post at the k-th owned position.
   */
  lemma InstructorPostsInOrder(posts: seq<Post>, userId: Id)
    ensures var rs := MapSeq(MapToResponse, Filter(OwnedBy(userId), posts));
      var idx := KeptIndices(OwnedBy(userId), posts);
      && |rs| == |idx|
      && (forall k :: 0 <= k < |idx| ==> rs[k] == MapToResponse(posts[idx[k]]))
  {
    FilterAtKeptIndices(OwnedBy(userId), posts);
  }

  /** Every response built for an instructor is the projection of one of their posts. */
  lemma InstructorPostsAreOwned(posts: seq<Post>, userId: Id)
    ensures var rs := MapSeq(MapToResponse, Filter(OwnedBy(userId), posts));
      forall k :: 0 <= k < |rs| ==>
        exists i :: 0 <= i < |posts| && posts[i].instructor.id == userId && rs[k] == MapToResponse(posts[i])
  {
    var rs := MapSeq(MapToResponse, Filter(OwnedBy(userId), posts));
    var idx := KeptIndices(OwnedBy(userId), posts);
    InstructorPostsInOrder(posts, userId);
    forall k | 0 <= k < |rs|
      ensures exists i :: 0 <= i < |posts| && posts[i].instructor.id == userId && rs[k] == MapToResponse(posts[i])
    {
      var i := idx[k];
      assert i < |posts| && OwnedBy(userId)(posts[i]);
      assert posts[i].instructor.id == userId && rs[k] == MapToResponse(posts[i]);
    }
  }

  /** Every post of an instructor is represented among the responses built for them. */
  lemma OwnedPostsAllListed(posts: seq<Post>, userId: Id)
    ensures var rs := MapSeq(MapToResponse, Filter(OwnedBy(userId), posts));
      forall i :: 0 <= i < |posts| && posts[i].instructor.id == userId ==> MapToResponse(posts[i]) in rs
  {
    var rs := MapSeq(MapToResponse, Filter(OwnedBy(userId), posts));
    var idx := KeptIndices(OwnedBy(userId), posts);
    InstructorPostsInOrder(posts, userId);
    forall i | 0 <= i < |posts| && posts[i].instructor.id == userId
      ensures MapToResponse(posts[i]) in rs
    {
      assert OwnedBy(userId)(posts[i]) && i in idx;
      var k :| 0 <= k < |idx| && idx[k] == i;
      assert rs[k] == MapToResponse(posts[i]);
    }
  }

  class PostService {
    /** The file store: turns an uploaded item into the URL it is served from. */
    const store: MediaItem -> Url
    var users: seq<User>
    var posts: seq<Post>
    var comments: seq<Comment>
    var likes: seq<PostLike>
    /** Every item handed to the file store, in the order it was handed over. */
    var uploads: seq<MediaItem>
    var nextPostId: Id
    var nextLikeId: Id

    ghost predicate Valid()
      reads this
    {
      ValidState(posts, comments, likes, nextPostId, nextLikeId)
    }

    constructor (store: MediaItem -> Url, users: seq<User>, posts: seq<Post>, comments: seq<Comment>,
                 likes: seq<PostLike>, nextPostId: Id, nextLikeId: Id)
      requires ValidState(posts, comments, likes, nextPostId, nextLikeId)
      ensures Valid()
      ensures this.store == store && this.users == users && this.posts == posts
      ensures this.comments == comments && this.likes == likes && this.uploads == []
      ensures this.nextPostId == nextPostId && this.nextLikeId == nextLikeId
    {
      this.store := store;
      this.users := users;
      this.posts := posts;
      this.comments := comments;
      this.likes := likes;
      this.uploads := [];
      this.nextPostId := nextPostId;
      this.nextLikeId := nextLikeId;
    }

    /**
     * createPost: the current user must be an instructor; more than MaxMedia items are refused
     * before anything is stored; otherwise each item is stored in order and a new post owned by
     * the instructor is saved with the resulting URLs.
     */
    method CreatePost(username: string, request: PostRequest, now: Timestamp) returns (r: Result<PostResponse>)
      requires Valid()
      modifies this
      ensures Valid()
      ensures users == old(users) && comments == old(comments) && likes == old(likes)
      ensures nextLikeId == old(nextLikeId)
      ensures FindInstructor(users, username).Err? ==> r == Err(NotAnInstructor)
      ensures FindInstructor(users, username).Ok? && |MediaOf(request)| > MaxMedia ==> r == Err(MediaLimitExceeded)
      ensures r.Err? ==> posts == old(posts) && uploads == old(uploads) && nextPostId == old(nextPostId)
      ensures FindInstructor(users, username).Ok? && |MediaOf(request)| <= MaxMedia ==>
        var media := MediaOf(request);
        var p := Post(old(nextPostId), request.title, request.description,
                      FindInstructor(users, username).value, MapSeq(store, media), now, now);
        && posts == old(posts) + [p]
        && uploads == old(uploads) + media
        && nextPostId == old(nextPostId) + 1
        && r == Ok(MapToResponse(p))
        && (forall i :: 0 <= i < |comments| ==> comments[i].postId != p.id)
        && (forall i :: 0 <= i < |likes| ==> likes[i].postId != p.id)
    {
      var instructor := FindInstructor(users, username);
      if instructor.Err? {
        return Err(NotAnInstructor);
      }
      var media := MediaOf(request);
      if |media| > MaxMedia {
        return Err(MediaLimitExceeded);
      }
      var urls := MapSeq(store, media);
      uploads := uploads + media;
      var post := Post(nextPostId, request.title, request.description, instructor.value, urls, now, now);
      posts := posts + [post];
      nextPostId := nextPostId + 1;
      r := Ok(MapToResponse(post));
    }

    /**
     * updatePost: an unknown id fails; a non-empty media list of more than MaxMedia items fails
     * before anything is stored; otherwise title and description are overwritten, the media URLs
     * are replaced wholesale when new media were supplied and kept otherwise.
     */
    method UpdatePost(id: Id, request: PostRequest, now: Timestamp) returns (r: Result<PostResponse>)
      requires Valid()
      modifies this
      ensures Valid()
      ensures users == old(users) && comments == old(comments) && likes == old(likes)
      ensures nextPostId == old(nextPostId) && nextLikeId == old(nextLikeId)
      ensures PostIndex(old(posts), id).None? ==> r == Err(PostNotFound(id))
      ensures PostIndex(old(posts), id).Some? && |MediaOf(request)| > MaxMedia ==> r == Err(MediaLimitExceeded)
      ensures r.Err? ==> posts == old(posts) && uploads == old(uploads)
      ensures PostIndex(old(posts), id).Some? && |MediaOf(request)| <= MaxMedia ==>
        var i := PostIndex(old(posts), id).value;
        var before := old(posts)[i];
        var media := MediaOf(request);
        var after := Post(before.id, request.title, request.description, before.instructor,
                          if media == [] then before.mediaUrls else MapSeq(store, media),
                          before.createdAt, now);
        && posts == old(posts)[i := after]
        && uploads == old(uploads) + media
        && r == Ok(MapToResponse(after))
    {
      var found := PostIndex(posts, id);
      if found.None? {
        return Err(PostNotFound(id));
      }
      var i := found.value;
      var existing := posts[i];
      var media := MediaOf(request);
      if media != [] {
        if |media| > MaxMedia {
          return Err(MediaLimitExceeded);
        }
        var urls := MapSeq(store, media);
        uploads := uploads + media;
        existing := existing.(mediaUrls := urls);
      }
      existing := existing.(title := request.title, description := request.description, updatedAt := now);
      posts := posts[i := existing];
      r := Ok(MapToResponse(existing));
    }

    /** deletePost: removes the post with this id, if there is one; nothing else changes. */
    method DeletePost(id: Id)
      requires Valid()
      modifies this
      ensures Valid()
      ensures posts == WithoutPost(old(posts), id)
      ensures users == old(users) && comments == old(comments) && likes == old(likes)
      ensures uploads == old(uploads) && nextPostId == old(nextPostId) && nextLikeId == old(nextLikeId)
    {
      WithoutPostKeepsValid(posts, comments, likes, nextPostId, nextLikeId, id);
      posts := WithoutPost(posts, id);
    }

    /**
     * likePost: the current user must be an instructor and the post must exist; a like is
     * recorded only when this user has not liked the post yet.
     */
    method LikePost(username: string, postId: Id) returns (r: Result<()>)
      requires Valid()
      modifies this
      ensures Valid()
      ensures users == old(users) && posts == old(posts) && comments == old(comments)
      ensures uploads == old(uploads) && nextPostId == old(nextPostId)
      ensures FindInstructor(users, username).Err? ==> r == Err(NotAnInstructor)
      ensures FindInstructor(users, username).Ok? && PostIndex(posts, postId).None? ==> r == Err(PostNotFound(postId))
      ensures r.Err? ==> likes == old(likes) && nextLikeId == old(nextLikeId)
      ensures FindInstructor(users, username).Ok? && PostIndex(posts, postId).Some? ==>
        && r == Ok(())
        && var me := FindInstructor(users, username).value;
        && likes == LikeOnce(old(likes), postId, me, old(nextLikeId))
        && nextLikeId == (if HasLike(old(likes), postId, me.id) then old(nextLikeId) else old(nextLikeId) + 1)
        && HasLike(likes, postId, me.id)
    {
      var me := FindInstructor(users, username);
      if me.Err? {
        return Err(NotAnInstructor);
      }
      if PostIndex(posts, postId).None? {
        return Err(PostNotFound(postId));
      }
      var user := me.value;
      assert postId < nextPostId by {
        assert posts[PostIndex(posts, postId).value].id == postId;
      }
      var after := LikeOnce(likes, postId, user, nextLikeId);
      LikeOnceKeepsUnique(likes, postId, user, nextLikeId);
      if !HasLike(likes, postId, user.id) {
        assert after == likes + [PostLike(nextLikeId, postId, user)];
        nextLikeId := nextLikeId + 1;
      }
      likes := after;
      r := Ok(());
    }

    /** getPost: the plain response of the stored post with this id, or PostNotFound. */
    function GetPost(id: Id): (r: Result<PostResponse>)
      reads this
      ensures r.Err? <==> forall i :: 0 <= i < |posts| ==> posts[i].id != id
      ensures r.Err? ==> r.error == PostNotFound(id)
      ensures r.Ok? ==> exists i :: 0 <= i < |posts| && posts[i].id == id && r.value == MapToResponse(posts[i])
    {
      match PostIndex(posts, id)
      case None => Err(PostNotFound(id))
      case Some(i) => Ok(MapToResponse(posts[i]))
    }

    /**
     * getInstructorPosts: for the current instructor, the plain responses of exactly the posts
     * they own, each once, in storage order.
     */
    function GetInstructorPosts(username: string): (r: Result<seq<PostResponse>>)
      reads this
      ensures FindInstructor(users, username).Err? <==> r.Err?
      ensures r.Err? ==> r.error == NotAnInstructor
      ensures r.Ok? ==> var me := FindInstructor(users, username).value;
        && (forall k :: 0 <= k < |r.value| ==>
              exists i :: 0 <= i < |posts| && posts[i].instructor.id == me.id && r.value[k] == MapToResponse(posts[i]))
        && (forall i :: 0 <= i < |posts| && posts[i].instructor.id == me.id ==> MapToResponse(posts[i]) in r.value)
        && var idx := KeptIndices(OwnedBy(me.id), posts);
        && |r.value| == |idx|
        && (forall k :: 0 <= k < |idx| ==> r.value[k] == MapToResponse(posts[idx[k]]))
    {
      match FindInstructor(users, username)
      case Err(e) => Err(e)
      case Ok(me) =>
        InstructorPostsAreOwned(posts, me.id);
        OwnedPostsAllListed(posts, me.id);
        InstructorPostsInOrder(posts, me.id);
        var responses := MapSeq(MapToResponse, Filter(OwnedBy(me.id), posts));
        Ok(responses)
    }

    /** getAllPosts: one enriched response per stored post, in storage order. */
    function GetAllPosts(): (r: seq<PostResponse>)
      reads this
      ensures |r| == |posts|
      ensures forall i :: 0 <= i < |posts| ==> r[i] == EnrichAndMap(posts[i], comments, likes)
    {
      var cs, ls := comments, likes;
      MapSeq((p: Post) => EnrichAndMap(p, cs, ls), posts)
    }
  }
}
