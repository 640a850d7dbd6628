/** Sessions as a caller sees them, using only the contracts of the service. */
module Scenario {
  import opened Domain
  import opened Sequences
  import opened Likes
  import opened Assembler
  import opened Service

  /** An instructor posts two files; a second post with four files is refused and stores nothing. */
  method PostTwoFilesThenFour(store: MediaItem -> Url, a: MediaItem, b: MediaItem) {
    var alice := User(1, "alice", Instructor);
    var service := new PostService(store, [alice], [], [], [], 0, 0);
    assert FindInstructor([alice], "alice") == Ok(alice);

    var created := service.CreatePost("alice", PostRequest("Intro", "Week one", Some([a, b])), 100);
    var post := Post(0, "Intro", "Week one", alice, [store(a), store(b)], 100, 100);
    assert MapSeq(store, [a, b]) == [store(a), store(b)];
    assert service.posts == [post] && service.uploads == [a, b];
    assert created == Ok(MapToResponse(post));

    var tooMany := service.CreatePost("alice", PostRequest("Big", "", Some([a, b, a, b])), 101);
    assert tooMany == Err(MediaLimitExceeded) && service.posts == [post] && service.uploads == [a, b];
  }

  /** A student with a user record is refused by the role check: they can neither post nor like. */
  method StudentIsRefused(store: MediaItem -> Url) {
    var alice := User(1, "alice", Instructor);
    var bob := User(2, "bob", OtherRole("student"));
    var p := Post(0, "Intro", "Week one", alice, [], 100, 100);
    var service := new PostService(store, [alice, bob], [p], [], [], 1, 0);
    assert FindInstructor([alice, bob], "bob").Err? by {
      assert !IsInstructorNamed(alice, "bob") && !IsInstructorNamed(bob, "bob");
    }

    var posted := service.CreatePost("bob", PostRequest("Hi", "", None), 102);
    assert posted == Err(NotAnInstructor) && service.posts == [p];

    var liked := service.LikePost("bob", 0);
    assert liked == Err(NotAnInstructor) && service.likes == [];
  }

  /** An instructor likes a post twice: one like record, so the post counts one like. */
  method LikeTwice() {
    var alice := User(1, "alice", Instructor);
    var p := Post(0, "Intro", "Week one", alice, [], 100, 100);
    var service := new PostService((m: MediaItem) => m.filename, [alice], [p], [], [], 1, 0);
    assert FindInstructor([alice], "alice") == Ok(alice);
    assert PostIndex([p], 0) == Some(0);

    var first := service.LikePost("alice", 0);
    var once := [PostLike(0, 0, alice)];
    assert service.likes == once && service.nextLikeId == 1;
    assert once[0].postId == 0 && once[0].user.id == alice.id;

    var again := service.LikePost("alice", 0);
    assert service.likes == once && service.nextLikeId == 1;
    assert LikeCount(service.likes, 0) == 1;

    var missing := service.LikePost("alice", 7);
    assert missing == Err(PostNotFound(7)) && service.likes == once;
  }
}
