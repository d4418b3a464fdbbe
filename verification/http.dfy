/**
  What a handler sends back, and the pair every handler returns: the
  response and the store after the request.
 */
module Http {
  import opened Seqs
  import opened Store
  import opened External

  /** One entry of an `errors` array: a failed field check as the request
      validator reports it, or a bare `{ msg }` written by a handler. */
  datatype ErrorItem =
    | FieldError(param: string, value: Field, msg: string)
    | Message(msg: string)

  datatype Body =
    | Errors(errors: seq<ErrorItem>)       // { errors: [...] }
    | Msg(msg: string)                     // { msg }
    | JsonString(text: string)             // a bare JSON string
    | TokenJson(token: Token)              // { token }
    | UserJson(user: Option<PublicUser>)   // a user record, or null
    | PostJson(post: Post)
    | PostsJson(posts: seq<Post>)
    | LikesJson(likes: seq<Like>)
    | CommentsJson(comments: seq<Comment>)
    | PlainText(text: string)              // a non-JSON body

  datatype Response = Response(status: nat, body: Body)

  /** A handled request: the response and the resulting store. */
  datatype Outcome = Outcome(response: Response, db: Db)

  /** What the catch-all of every post handler sends. */
  const ServerError := Response(500, PlainText("Server Error"))

  /** What the catch-all of the registration and login handlers sends. */
  const AccountServerError := Response(500, PlainText("Server error"))

  /** Is there a failed check on this field among the errors? */
  ghost predicate Flags(errors: seq<ErrorItem>, param: string)
  {
    exists k :: 0 <= k < |errors| && errors[k].FieldError? && errors[k].param == param
  }
}
