/** Read side: plain mapping of a post, and enrichment with its ordered comments and like count. */
module Assembler {
  import opened Domain
  import opened Sequences
  import opened Likes

  /** mapToResponse: the post's own fields and its instructor's identity; comments and like count are not set. */
  function MapToResponse(p: Post): (r: PostResponse)
    ensures r.id == p.id && r.title == p.title && r.description == p.description
    ensures r.instructorId == p.instructor.id && r.instructorUsername == p.instructor.username
    ensures r.mediaUrls == p.mediaUrls && r.createdAt == p.createdAt && r.updatedAt == p.updatedAt
    ensures r.comments.None? && r.likeCount.None?
  {
    PostResponse(p.id, p.title, p.description, p.instructor.id, p.instructor.username,
                 p.mediaUrls, p.createdAt, p.updatedAt, None, None)
  }

  /** Two posts agree on everything a plain response shows: all fields but the instructor's role. */
  ghost predicate SameView(p: Post, q: Post) {
    && p.id == q.id && p.title == q.title && p.description == q.description
    && p.instructor.id == q.instructor.id && p.instructor.username == q.instructor.username
    && p.mediaUrls == q.mediaUrls && p.createdAt == q.createdAt && p.updatedAt == q.updatedAt
  }

  /** The plain response is a field-for-field projection: it loses exactly the instructor's role. */
  lemma PlainResponseCharacterised(p: Post, q: Post)
    ensures MapToResponse(p) == MapToResponse(q) <==> SameView(p, q)
    ensures MapToResponse(p).comments.None? && MapToResponse(p).likeCount.None?
  {
  }

  /** The comment part of an enriched response: the comment and its author's identity. */
  function MapComment(c: Comment): (r: CommentResponse)
    ensures r.id == c.id && r.content == c.content
    ensures r.authorId == c.author.id && r.authorUsername == c.author.username
    ensures r.createdAt == c.createdAt && r.updatedAt == c.updatedAt
  {
    CommentResponse(c.id, c.content, c.author.id, c.author.username, c.createdAt, c.updatedAt)
  }

  /** The comments of one post, in storage order. */
  function CommentsOf(comments: seq<Comment>, postId: Id): (r: seq<Comment>)
    ensures |r| <= |comments|
    ensures forall c :: c in r <==> c in comments && c.postId == postId
    ensures var idx := KeptIndices(OnPost(postId), comments);
      |r| == |idx| && forall k :: 0 <= k < |idx| ==> r[k] == comments[idx[k]]
  {
    FilterAtKeptIndices(OnPost(postId), comments);
    Filter(OnPost(postId), comments)
  }

  function OnPost(postId: Id): Comment -> bool {
    (c: Comment) => c.postId == postId
  }

  predicate SortedByCreatedAt(cs: seq<Comment>) {
    forall i, j :: 0 <= i < j < |cs| ==> cs[i].createdAt <= cs[j].createdAt
  }

  predicate ResponsesSortedByCreatedAt(rs: seq<CommentResponse>) {
    forall i, j :: 0 <= i < j < |rs| ==> rs[i].createdAt <= rs[j].createdAt
  }

  /** Puts `c` before the first comment that is not older than it. */
  function InsertByCreatedAt(c: Comment, cs: seq<Comment>): (r: seq<Comment>)
    requires SortedByCreatedAt(cs)
    ensures SortedByCreatedAt(r)
    ensures multiset(r) == multiset(cs) + multiset{c}
  {
    if cs == [] then [c]
    else if c.createdAt <= cs[0].createdAt then [c] + cs
    else
      var rest := InsertByCreatedAt(c, cs[1..]);
      assert cs == [cs[0]] + cs[1..];
      InsertBehindHead(c, cs, rest);
      [cs[0]] + rest
  }

  /** When `c` goes behind the head, the head stays below everything inserted after it. */
  lemma {:induction false} InsertBehindHead(c: Comment, cs: seq<Comment>, rest: seq<Comment>)
    requires SortedByCreatedAt(cs) && cs != [] && cs[0].createdAt < c.createdAt
    requires SortedByCreatedAt(rest) && multiset(rest) == multiset(cs[1..]) + multiset{c}
    ensures SortedByCreatedAt([cs[0]] + rest)
  {
    forall k | 0 <= k < |rest| ensures cs[0].createdAt <= rest[k].createdAt {
      assert rest[k] in multiset(rest);
      if rest[k] != c {
        assert rest[k] in multiset(cs[1..]);
        var m :| 0 <= m < |cs[1..]| && cs[1..][m] == rest[k];
        assert cs[m + 1] == rest[k];
      }
    }
    var r := [cs[0]] + rest;
    forall i, j | 0 <= i < j < |r| ensures r[i].createdAt <= r[j].createdAt {
      if i == 0 {
        assert r[j] == rest[j - 1];
      } else {
        assert r[i] == rest[i - 1] && r[j] == rest[j - 1];
      }
    }
  }

  /**
   * findByPostOrderByCreatedAtAsc: ascending by creation time. Comments created at the same
   * instant keep their storage order.
   */
  function SortByCreatedAt(cs: seq<Comment>): (r: seq<Comment>)
    ensures SortedByCreatedAt(r)
    ensures multiset(r) == multiset(cs)
  {
    if cs == [] then []
    else
      assert cs == [cs[0]] + cs[1..];
      InsertByCreatedAt(cs[0], SortByCreatedAt(cs[1..]))
  }

  /** enrichAndMap: the plain response with the post's ordered comments and its like count. */
  function EnrichAndMap(p: Post, comments: seq<Comment>, likes: seq<PostLike>): (r: PostResponse)
    ensures r.(comments := None, likeCount := None) == MapToResponse(p)
    ensures r.comments.Some? && ResponsesSortedByCreatedAt(r.comments.value)
    ensures r.likeCount.Some?
  {
    var ordered := SortByCreatedAt(CommentsOf(comments, p.id));
    MapToResponse(p).(comments := Some(MapSeq(MapComment, ordered)),
                      likeCount := Some(LikeCount(likes, p.id)),
                      createdAt := p.createdAt,
                      updatedAt := p.updatedAt)
  }

  /** `s` holds exactly the comments of `mine`, each as often as there, oldest first. */
  ghost predicate ArrangedOldestFirst(s: seq<Comment>, mine: seq<Comment>) {
    SortedByCreatedAt(s) && multiset(s) == multiset(mine)
  }

  /**
   * The enriched comments are the projections of that post's comments, oldest first, each as often
   * as it is stored; the like count is the number of like records whose post id is the post's.
   */
  lemma EnrichAndMapCharacterised(p: Post, comments: seq<Comment>, likes: seq<PostLike>)
    ensures var r := EnrichAndMap(p, comments, likes);
      && (exists s :: ArrangedOldestFirst(s, CommentsOf(comments, p.id)) && r.comments == Some(MapSeq(MapComment, s)))
      && r.likeCount == Some(|LikeIndices(likes, p.id)|)
  {
    var ordered := SortByCreatedAt(CommentsOf(comments, p.id));
    assert ArrangedOldestFirst(ordered, CommentsOf(comments, p.id));
    LikeCountIsCardinality(likes, p.id);
  }

  /** Every comment response of an enriched post is the projection of a stored comment of that post. */
  lemma EnrichedCommentsComeFromPost(p: Post, comments: seq<Comment>, likes: seq<PostLike>)
    ensures var cr := EnrichAndMap(p, comments, likes).comments.value;
      forall k :: 0 <= k < |cr| ==>
        exists j :: 0 <= j < |comments| && comments[j].postId == p.id && cr[k] == MapComment(comments[j])
  {
    var mine := CommentsOf(comments, p.id);
    var ordered := SortByCreatedAt(mine);
    var cr := MapSeq(MapComment, ordered);
    forall k | 0 <= k < |cr|
      ensures exists j :: 0 <= j < |comments| && comments[j].postId == p.id && cr[k] == MapComment(comments[j])
    {
      assert ordered[k] in multiset(mine);
      var j :| 0 <= j < |comments| && comments[j] == ordered[k];
    }
  }

  /** Every stored comment of a post appears, projected, among its enriched comment responses. */
  lemma PostCommentsAllEnriched(p: Post, comments: seq<Comment>, likes: seq<PostLike>)
    ensures var cr := EnrichAndMap(p, comments, likes).comments.value;
      forall j :: 0 <= j < |comments| && comments[j].postId == p.id ==> MapComment(comments[j]) in cr
  {
    var mine := CommentsOf(comments, p.id);
    var ordered := SortByCreatedAt(mine);
    var cr := MapSeq(MapComment, ordered);
    forall j | 0 <= j < |comments| && comments[j].postId == p.id
      ensures MapComment(comments[j]) in cr
    {
      assert comments[j] in mine;
      assert comments[j] in multiset(mine);
      assert comments[j] in multiset(ordered);
      var k :| 0 <= k < |ordered| && ordered[k] == comments[j];
      assert cr[k] == MapComment(comments[j]);
    }
  }
}
