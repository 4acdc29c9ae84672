/** The values the two route handlers exchange: the post record (the `Post`
    interface of lib/db.ts) and the JSON responses they return. */
module Api {
  import opened Common

  /** A point in time as milliseconds since the epoch: the value
      `new Date(s).getTime()` gives for the ISO-8601 string `s` that the
      handlers store. */
  type Instant = nat

  datatype Post = Post(
    id: nat,
    title: string,
    content: string,
    createdAt: Instant,
    updatedAt: Instant,
    imageUrl: Option<string>)

  /** The JSON bodies the handlers send. */
  datatype Body =
    | PostJson(post: Post)                            // one post
    | PostListJson(posts: seq<Post>)                  // an array of posts
    | SuccessJson                                     // {success: true}
    | ErrorJson(error: string, details: Option<string>) // {error, details?}

  /** A response: status code, JSON body and the `Set-Cookie` header, if
      any. */
  datatype Response = Response(status: nat, body: Body, setCookie: Option<string>)
}
