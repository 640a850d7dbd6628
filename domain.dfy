/** Entities, requests, responses and errors of the post service. */
module Domain {

  type Id = nat
  type Timestamp = int
  type Url = string

  /** At most this many media items may be attached to one post. */
  const MaxMedia: nat := 3

  datatype Role = Instructor | OtherRole(name: string)

  datatype User = User(id: Id, username: string, role: Role)

  /** An uploaded file as the client sent it; its content is opaque to the service. */
  datatype MediaItem = MediaItem(filename: string, content: seq<bv8>)

  datatype Post = Post(
    id: Id,
    title: string,
    description: string,
    instructor: User,
    mediaUrls: seq<Url>,
    createdAt: Timestamp,
    updatedAt: Timestamp)

  datatype Comment = Comment(
    id: Id,
    content: string,
    author: User,
    postId: Id,
    createdAt: Timestamp,
    updatedAt: Timestamp)

  datatype PostLike = PostLike(id: Id, postId: Id, user: User)

  /** The media part of a request may be absent (a null list). */
  datatype PostRequest = PostRequest(title: string, description: string, media: Option<seq<MediaItem>>)

  datatype CommentResponse = CommentResponse(
    id: Id,
    content: string,
    authorId: Id,
    authorUsername: string,
    createdAt: Timestamp,
    updatedAt: Timestamp)

  /** `comments` and `likeCount` are None when the response was never enriched. */
  datatype PostResponse = PostResponse(
    id: Id,
    title: string,
    description: string,
    instructorId: Id,
    instructorUsername: string,
    mediaUrls: seq<Url>,
    createdAt: Timestamp,
    updatedAt: Timestamp,
    comments: Option<seq<CommentResponse>>,
    likeCount: Option<nat>)

  datatype Option<+T> = None | Some(value: T)

  datatype Error =
    | PostNotFound(postId: Id)   // no post has the requested id
    | MediaLimitExceeded         // more than MaxMedia media items (an illegal argument)
    | NotAnInstructor            // no user of the current name has the instructor role

  datatype Result<+T> = Ok(value: T) | Err(error: Error)

  /** An absent media list is treated as an empty one. */
  function MediaOf(request: PostRequest): (r: seq<MediaItem>)
    ensures request.media.None? ==> r == []
    ensures request.media.Some? ==> r == request.media.value
  {
    match request.media
    case None => []
    case Some(items) => items
  }
}
