# Post service model

A Dafny model of the post service of the Nexus backend, the learning platform's server. Instructors
publish posts that carry up to three media files. Users comment on posts and like them. The service
reads posts back, either plain or enriched with their comments and like count.

The model has six modules:

- `Domain` (domain.dfy) holds the entities: users with a role, posts, comments and like records.
  It also holds the request and response shapes and the error kinds:
  - `PostNotFound` stands for `PostNotFoundException`;
  - `MediaLimitExceeded` stands for the `IllegalArgumentException` of the media check;
  - `NotAnInstructor` stands for the `IllegalStateException` of instructor resolution.
- `Sequences` (sequences.dfy) holds two order-preserving sequence operations:
  - `MapSeq` is the stream `map(...).collect` of the URL lists, the plain responses and the comment responses;
  - `Filter` stands for the repository queries that select rows by a condition in storage order:
    `findByInstructor` (through `OwnedBy`) and the post selection in
    `findByPostOrderByCreatedAtAsc` (through `CommentsOf`);
  - `KeptIndices` gives the positions `Filter` keeps, which fixes order and multiplicity.

  The one stream `filter(...).findFirst()`, in instructor resolution, is `Service.FindInstructor`.
- `Likes` (likes.dfy) models the like repository:
  - `existsByPostIdAndUser` as `HasLike`;
  - `countByPostId` as `LikeCount`;
  - the conditional insert of `likePost` as `LikeOnce`;
  - the invariant of at most one like per (post, user) pair as `UniqueLikes`.
- `Assembler` (assembler.dfy) holds the read-side mappings `mapToResponse` and `enrichAndMap`.
  Comments come out in ascending creation time, as `findByPostOrderByCreatedAtAsc` returns them.
- `Service` (service.dfy) holds the `PostService` class. Its fields are the contents of the user,
  post, comment and like repositories. It also keeps a log of the items handed to the file store.
  - `createPost`, `updatePost`, `deletePost` and `likePost` are methods that modify the object.
  - `getPost`, `getInstructorPosts` and `getAllPosts` are functions of its state.
  - `getCurrentInstructor` is the function `FindInstructor` over the user table, taking the acting
    username as an argument.
  - `Valid()` is the class invariant. It holds these facts:
    - post ids are distinct and below the next id;
    - no post has more than three URLs;
    - every comment and every like refers to a post id already handed out;
    - like ids are below the next like id;
    - there is at most one like per (post, user) pair.
  - Every mutating method keeps `Valid()` and states the whole new state.
- `Scenario` (scenario.dfy) has three client sessions that use only the contracts:
  - an instructor posts two files, then a post with four files is refused;
  - a student with a user record of that name is refused, both when posting and when liking;
  - an instructor likes a post twice and ends with a single like record.

`likePost` resolves the acting user through the instructor lookup, as the code does, so a
non-instructor cannot like a post. The code's comment at line 123 names `getCurrentUser()` as an
alternative, which the model does not take.

## Model

| member | source | states |
|---|---|---|
| Service.FindInstructor | nexus-backend/src/main/java/com/roboticgen/nexus/service/PostService.java:105-113 | success returns a user at some index who has the username and the instructor role, and no earlier user matches; failure is NotAnInstructor, and happens exactly when no user matches |
| Service.PostIndex | nexus-backend/src/main/java/com/roboticgen/nexus/service/PostService.java:79-80 | a found index is in range and holds a post with the id; nothing is found exactly when no post has the id |
| Sequences.MapSeq | nexus-backend/src/main/java/com/roboticgen/nexus/service/PostService.java:50-52 | one output per input, in the same order, and output i is f applied to input i |
| Sequences.Filter | nexus-backend/src/main/java/com/roboticgen/nexus/service/PostService.java:68 | the result is no longer than the input and holds exactly the input's elements that satisfy the predicate |
| Sequences.KeptIndices | nexus-backend/src/main/java/com/roboticgen/nexus/service/PostService.java:68 | the positions of the kept elements: each is in range and kept, they strictly increase, and every kept position is among them |
| Sequences.FilterAtKeptIndices | nexus-backend/src/main/java/com/roboticgen/nexus/service/PostService.java:68 | the filter's result is the input read at the kept positions, in ascending order, so each kept element appears once and in storage order |
| Sequences.FilterConcat | nexus-backend/src/main/java/com/roboticgen/nexus/service/PostService.java:68 | filtering distributes over concatenation, so the kept elements stay in storage order |
| Domain.MediaOf | nexus-backend/src/main/java/com/roboticgen/nexus/service/PostService.java:43-45 | an absent media list becomes the empty list and a present list is used unchanged (the same step is at lines 82-84) |
| Service.PostService.CreatePost | nexus-backend/src/main/java/com/roboticgen/nexus/service/PostService.java:40-64 | a non-instructor gets NotAnInstructor; more than three items gets MediaLimitExceeded; on either error posts, uploads and the id counter are unchanged; otherwise exactly one post is appended, owned by the resolved instructor, with URL i = store(item i), and the items are stored in order; the response is its plain projection; no stored comment or like refers to the new post's id; users, comments and likes never change; the invariant is kept |
| Service.FreshPostIsBare | nexus-backend/src/main/java/com/roboticgen/nexus/service/PostService.java:62 | an id no comment or like refers to selects no comments and counts no likes, so a post just created has none of either |
| Service.PostService.UpdatePost | nexus-backend/src/main/java/com/roboticgen/nexus/service/PostService.java:78-98 | an unknown id gets PostNotFound; a non-empty list of more than three items gets MediaLimitExceeded; on either error nothing changes; otherwise only that post's slot is replaced; title and description are overwritten; the URLs are replaced wholesale by the stored items when media were sent and kept when none were sent; id, owner and creation time stay; the invariant is kept |
| Service.PostService.DeletePost | nexus-backend/src/main/java/com/roboticgen/nexus/service/PostService.java:101-103 | posts become the old posts without that id; every other field is unchanged; the invariant is kept |
| Service.WithoutPost | nexus-backend/src/main/java/com/roboticgen/nexus/service/PostService.java:102 | the result is no longer than the input and holds no post with the deleted id |
| Service.DeleteRemovesExactlyThatPost | nexus-backend/src/main/java/com/roboticgen/nexus/service/PostService.java:101-103 | with distinct ids, deleting an absent id leaves the posts as they were, and deleting a present id removes exactly that one position and keeps the rest in order |
| Service.WithoutAbsent | nexus-backend/src/main/java/com/roboticgen/nexus/service/PostService.java:101-103 | deleting an id no post has is a no-op |
| Service.WithoutPostAt | nexus-backend/src/main/java/com/roboticgen/nexus/service/PostService.java:101-103 | with distinct ids, deleting the id at position i gives the posts before i followed by the posts after i |
| Service.WithoutPostKeepsValid | nexus-backend/src/main/java/com/roboticgen/nexus/service/PostService.java:101-103 | deleting any id keeps the repository invariants |
| Service.PostService.LikePost | nexus-backend/src/main/java/com/roboticgen/nexus/service/PostService.java:122-133 | a non-instructor gets NotAnInstructor; an unknown post gets PostNotFound; on either error the like store and its counter are unchanged; otherwise the like store becomes LikeOnce of the old one, the counter moves only when a record is added, and afterwards the pair is recorded; users, posts, comments and uploads never change; the at-most-one-like invariant is kept |
| Likes.LikeOnce | nexus-backend/src/main/java/com/roboticgen/nexus/service/PostService.java:127-132 | after a like the (post, user) pair is recorded; the old store is a prefix of the new one, at most one record is added, and one is added exactly when the pair was not recorded before |
| Likes.LikeOnceIdempotent | nexus-backend/src/main/java/com/roboticgen/nexus/service/PostService.java:127-132 | liking a second time leaves the same like store as liking once |
| Likes.LikeOnceKeepsUnique | nexus-backend/src/main/java/com/roboticgen/nexus/service/PostService.java:127-132 | a like preserves the at-most-one-record-per-pair invariant |
| Likes.LikeOnceCount | nexus-backend/src/main/java/com/roboticgen/nexus/service/PostService.java:127-132 | a like raises the liked post's count by one exactly when the pair was not yet recorded, and leaves every other post's count unchanged |
| Likes.PairCountZero | nexus-backend/src/main/java/com/roboticgen/nexus/service/PostService.java:127 | `HasLike`, the existence check, is false if and only if the pair has no records, counted independently |
| Likes.UniqueLikesPairCount | nexus-backend/src/main/java/com/roboticgen/nexus/service/PostService.java:127-132 | under the invariant every pair has at most one record |
| Likes.LikeTwiceCountsOnce | nexus-backend/src/main/java/com/roboticgen/nexus/service/PostService.java:122-133 | two likes by a user who had not liked the post leave exactly one record for the pair and raise the post's count by exactly one |
| Likes.LikeCount | nexus-backend/src/main/java/com/roboticgen/nexus/service/PostService.java:166 | the per-post count is at most the number of like records, and it is zero exactly when no record has the post id |
| Likes.LikeCountIsCardinality | nexus-backend/src/main/java/com/roboticgen/nexus/service/PostService.java:166 | the per-post count equals the number of like records whose post id matches |
| Assembler.MapToResponse | nexus-backend/src/main/java/com/roboticgen/nexus/service/PostService.java:135-146 | each response field is copied from the same-named post field: id, title, description, the instructor's id and username, URLs and both timestamps; comments and like count are left unset |
| Assembler.PlainResponseCharacterised | nexus-backend/src/main/java/com/roboticgen/nexus/service/PostService.java:135-146 | two posts give the same plain response if and only if they agree on all of those fields, so the projection loses only the instructor's role |
| Assembler.CommentsOf | nexus-backend/src/main/java/com/roboticgen/nexus/service/PostService.java:152 | the selected comments are exactly the stored comments whose post id is the post's; comment k is the stored comment at the k-th such position, so each appears as often as it is stored and in storage order |
| Assembler.InsertByCreatedAt | nexus-backend/src/main/java/com/roboticgen/nexus/service/PostService.java:152 | inserting into a list sorted by creation time keeps it sorted and adds exactly that one comment |
| Assembler.SortByCreatedAt | nexus-backend/src/main/java/com/roboticgen/nexus/service/PostService.java:152 | the result is sorted ascending by creation time and is a permutation of the input |
| Assembler.EnrichAndMap | nexus-backend/src/main/java/com/roboticgen/nexus/service/PostService.java:148-172 | the enriched response equals the plain one in every field but comments and like count; both are set, and the comment responses are ascending by creation time |
| Assembler.EnrichAndMapCharacterised | nexus-backend/src/main/java/com/roboticgen/nexus/service/PostService.java:148-172 | its comments are the projections of an oldest-first arrangement of exactly that post's comments, each as often as stored; the like count is the number of like records of the post |
| Assembler.MapComment | nexus-backend/src/main/java/com/roboticgen/nexus/service/PostService.java:153-162 | each comment response field is copied from the comment: id, content, the author's id and username, and both timestamps |
| Assembler.EnrichedCommentsComeFromPost | nexus-backend/src/main/java/com/roboticgen/nexus/service/PostService.java:152-163 | every comment response is the projection of a stored comment whose post id is the post's |
| Assembler.PostCommentsAllEnriched | nexus-backend/src/main/java/com/roboticgen/nexus/service/PostService.java:152-163 | every stored comment of the post appears, projected, among the comment responses |
| Service.PostService.GetPost | nexus-backend/src/main/java/com/roboticgen/nexus/service/PostService.java:73-76 | it fails exactly when no post has the id, and the error is PostNotFound for that id; otherwise it is the plain projection of a stored post with that id |
| Service.InstructorPostsInOrder | nexus-backend/src/main/java/com/roboticgen/nexus/service/PostService.java:68-70 | response k is the projection of the post at the k-th position owned by the instructor, so the owner's posts appear once each, in storage order |
| Service.InstructorPostsAreOwned | nexus-backend/src/main/java/com/roboticgen/nexus/service/PostService.java:68-70 | every response built for an owner is the projection of a post of that owner |
| Service.OwnedPostsAllListed | nexus-backend/src/main/java/com/roboticgen/nexus/service/PostService.java:68-70 | every post of the owner is represented among the responses |
| Service.PostService.GetInstructorPosts | nexus-backend/src/main/java/com/roboticgen/nexus/service/PostService.java:66-71 | it fails with NotAnInstructor exactly when instructor resolution fails; otherwise the responses are the projections of the resolved instructor's posts, one per post, in storage order (indexed by the owned positions), and each response projects an owned post and each owned post is represented |
| Service.PostService.GetAllPosts | nexus-backend/src/main/java/com/roboticgen/nexus/service/PostService.java:115-120 | one response per stored post, in storage order, each the enriched response of that post |

## Left out

- The security context is not modelled: the acting username is an argument of the operations that need it.
- The file store's internals are not modelled. `store` is a fixed function from item to URL, and the `uploads` log records the items handed to it. A store that fails, or that fails part-way through a list, is not modelled.
- Repository failures are not modelled, and neither is JPA state outside these four tables.
- Ids and timestamps that JPA generates on save are modelled as counters and as a `now` argument. On update the modification time is taken to be `now`.
- The service's unused `createdAt` and `updatedAt` fields are not modelled, because they are never read or written.
- The concurrent check-then-insert race in `likePost` is not modelled. The model is sequential, so at most one like per pair is proved only for sequential calls.
- The media type is not modelled. The check counts items only, and the error message text is not modelled.
- The frontend components `ProcessForm.tsx` and `ProcessFeed.tsx` are not part of this model, because they are user-interface code.
- Cascade or foreign-key failure on delete is not modelled. `deletePost` removes only the post, and its comments and likes stay in place. The entity mappings that would decide this are not part of this model.
- Comment creation and deletion are not part of this service, so the comment table is only read.
- Java `null` title or description is not modelled: strings are always present. An absent media list is modelled, and is treated as empty.
- The entities' object identity is not modelled. Owner and like-user matching compare user ids, as the queries do.
- `updatePost` and `deletePost` perform no ownership or role check in the code, and the model has none either.
- Comments with equal creation times come out in storage order, which is one of the orders the query may return.
- Service.PostService.UpdatePost: the ensures take the first post with the id. Under `Valid()` post ids are distinct, so that post is the only one with the id.
