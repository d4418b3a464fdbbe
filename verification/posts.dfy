/**
  The post routes under `/api/posts`: create, list, get, delete, like,
  unlike, comment and delete a comment. Each handler is a pure transition
  from a store to an outcome. The requester's id is what the authentication
  middleware attached to the request; the ids and dates of new documents are
  what the store and the clock would supply.

  Where the route reads a post (or the requester's user record) that is not
  there and then dereferences it, the JavaScript throws and the catch-all
  answers 500 "Server Error"; the model gives that same answer.
 */
module Posts {
  import opened Seqs
  import opened Store
  import opened Http

  // The two text checks carry different messages; the first is spelled as in the route.
  const PostTextRequired := "Text is require"
  const CommentTextRequired := "Text is required"

  const PostNotFound := Response(404, Msg("Post not found"))
  const PostDeleted := Response(200, Msg("Post deleted"))
  const AlreadyLiked := Response(400, Msg("Post already liked"))
  const NotLiked := Response(400, JsonString("You did not like the post"))
  const CommentMissing := Response(404, Msg("Comment does not exist"))
  /** A delete of someone else's post. */
  const NotAuthorized := Response(401, Msg("User not authorized"))
  /** A delete of someone else's comment: same message, status 400. */
  const NotCommentAuthor := Response(400, Msg("User not authorized"))

  /** The `text` check of the create and comment routes. */
  function TextErrors(text: Field, message: string): (errors: seq<ErrorItem>)
  {
    if AsText(text) == "" then [FieldError("text", text, message)] else []
  }

  // ---------------------------------------------------------------------------
  // Likes

  /** Has `me` liked the post? */
  ghost predicate Liked(likes: seq<Like>, me: Id)
  {
    exists k :: 0 <= k < |likes| && likes[k].user == me
  }

  /** Each user appears at most once among the likes. */
  ghost predicate NoDuplicateLikers(likes: seq<Like>)
  {
    forall i, j :: 0 <= i < j < |likes| ==> likes[i].user != likes[j].user
  }

  /** Every stored post has at most one like per user. */
  ghost predicate LikersUnique(db: Db)
  {
    forall i :: 0 <= i < |db.posts| ==> NoDuplicateLikers(db.posts[i].likes)
  }

  /** `after` is `before` without any like of `me`: every other like keeps
      its multiplicity and the order among them is kept. */
  ghost predicate RemovesLikesBy(before: seq<Like>, after: seq<Like>, me: Id)
  {
    && !Liked(after, me)
    && Subseq(after, before)
    && forall l: Like :: l.user != me ==> multiset(after)[l] == multiset(before)[l]
  }

  /** The test of the like routes' `find`. */
  function IsLikeBy(me: Id): Like -> bool
  {
    (l: Like) => l.user == me
  }

  /** The test of the unlike route's `filter`. */
  function IsLikeByOther(me: Id): Like -> bool
  {
    (l: Like) => l.user != me
  }

  // ---------------------------------------------------------------------------
  // Comments

  /** `find(comment => comment.id === commentId)`: the first comment with this id. */
  function CommentById(comments: seq<Comment>, cid: Id): (r: Option<nat>)
    ensures r.None? <==> forall k :: 0 <= k < |comments| ==> comments[k].id != cid
    ensures r.Some? ==> r.value < |comments| && comments[r.value].id == cid
    ensures r.Some? ==> forall k :: 0 <= k < r.value ==> comments[k].id != cid
  {
    FirstIndex(comments, (c: Comment) => c.id == cid)
  }

  /** `after` is `before` without any comment with id `cid`, and strictly
      shorter: every other comment keeps its multiplicity and the order among
      them is kept. */
  ghost predicate RemovesComment(before: seq<Comment>, after: seq<Comment>, cid: Id)
  {
    && (forall k :: 0 <= k < |after| ==> after[k].id != cid)
    && Subseq(after, before)
    && (forall c: Comment :: c.id != cid ==> multiset(after)[c] == multiset(before)[c])
    && |after| < |before|
  }

  /** The test of the delete-comment route's `filter`. */
  function IsOtherComment(cid: Id): Comment -> bool
  {
    (c: Comment) => c.id != cid
  }

  // ---------------------------------------------------------------------------
  // Frame conditions

  /** `after` differs from `before` at most in the post at index `i`. */
  ghost predicate ChangesOnlyPost(before: Db, after: Db, i: nat)
  {
    && after.users == before.users
    && |after.posts| == |before.posts|
    && i < |before.posts|
    && forall j :: 0 <= j < |before.posts| && j != i ==> after.posts[j] == before.posts[j]
  }

  /** Writing back a post with the same id does not change which post a lookup finds. */
  lemma {:induction false} PostByIdAfterUpdate(posts: seq<Post>, i: nat, p: Post)
    requires i < |posts| && PostById(posts, p.id) == Some(i)
    ensures PostById(posts[i := p], p.id) == Some(i)
  {
    var posts' := posts[i := p];
    assert posts'[i].id == p.id;
    forall k | 0 <= k < i
      ensures posts'[k].id != p.id
    {
      assert posts'[k] == posts[k];
    }
  }

  // ---------------------------------------------------------------------------
  // POST /api/posts

  /** Create a post owned by the requester, carrying the requester's name and avatar. */
  function CreatePost(db: Db, me: Id, text: Field, newId: Id, now: int): (r: Outcome)
    ensures AsText(text) == "" ==>
              r == Outcome(Response(400, Errors([FieldError("text", text, "Text is require")])), db)
    ensures AsText(text) != "" && (forall k :: 0 <= k < |db.users| ==> db.users[k].id != me) ==>
              r == Outcome(ServerError, db)
    ensures r.response.status == 200 <==>
              AsText(text) != "" && exists k :: 0 <= k < |db.users| && db.users[k].id == me
    ensures r.response.status != 200 ==> r.db == db
    ensures r.response.status == 200 ==>
              && r.db.users == db.users
              && |r.db.posts| == |db.posts| + 1
              && r.db.posts[..|db.posts|] == db.posts
              && var p := r.db.posts[|db.posts|];
                 && r.response.body == PostJson(p)
                 && p.id == newId && p.user == me && p.text == AsText(text) && p.date == now
                 && p.likes == [] && p.comments == []
                 && exists k :: 0 <= k < |db.users| && db.users[k].id == me
                                && p.name == db.users[k].name && p.avatar == db.users[k].avatar
  {
    var errors := TextErrors(text, PostTextRequired);
    if errors != [] then Outcome(Response(400, Errors(errors)), db)
    else
      match UserById(db.users, me)
      case None => Outcome(ServerError, db)
      case Some(u) =>
        var author := db.users[u];
        var post := Post(newId, me, AsText(text), author.name, author.avatar, [], [], now);
        var db' := db.(posts := db.posts + [post]);
        assert db'.posts[..|db.posts|] == db.posts;
        Outcome(Response(200, PostJson(post)), db')
  }

  // ---------------------------------------------------------------------------
  // GET /api/posts

  /** Newest first: dates never increase along the sequence. */
  ghost predicate NewestFirst(posts: seq<Post>)
  {
    forall i, j :: 0 <= i < j < |posts| ==> posts[i].date >= posts[j].date
  }

  /** A post no older than anything in a newest-first sequence may go in front of it. */
  lemma NewestFirstCons(first: Post, rest: seq<Post>)
    requires NewestFirst(rest)
    requires forall k :: 0 <= k < |rest| ==> rest[k].date <= first.date
    ensures NewestFirst([first] + rest)
  {
    var r := [first] + rest;
    forall i, j | 0 <= i < j < |r|
      ensures r[i].date >= r[j].date
    {
      assert r[j] == rest[j - 1];
      if i > 0 {
        assert r[i] == rest[i - 1];
      }
    }
  }

  /** Insert a post into a newest-first sequence. */
  function InsertByDate(p: Post, sorted: seq<Post>): (r: seq<Post>)
    requires NewestFirst(sorted)
    ensures NewestFirst(r)
    ensures multiset(r) == multiset(sorted) + multiset{p}
    ensures forall k :: 0 <= k < |r| ==> r[k] == p || r[k] in sorted
    decreases |sorted|
  {
    if |sorted| == 0 || p.date >= sorted[0].date then
      NewestFirstCons(p, sorted);
      [p] + sorted
    else
      var tail := sorted[1..];
      assert sorted == [sorted[0]] + tail;
      var rest := InsertByDate(p, tail);
      assert forall k :: 0 <= k < |rest| ==> rest[k].date <= sorted[0].date by {
        forall k | 0 <= k < |rest|
          ensures rest[k].date <= sorted[0].date
        {
          if rest[k] != p {
            var m :| 0 <= m < |tail| && tail[m] == rest[k];
            assert sorted[m + 1] == rest[k];
          }
        }
      }
      NewestFirstCons(sorted[0], rest);
      [sorted[0]] + rest
  }

  /** The posts ordered by date, newest first (`sort({ date: -1 })`). */
  function SortNewestFirst(posts: seq<Post>): (r: seq<Post>)
    ensures NewestFirst(r)
    ensures multiset(r) == multiset(posts)
    decreases |posts|
  {
    if |posts| == 0 then []
    else
      assert posts == [posts[0]] + posts[1..];
      InsertByDate(posts[0], SortNewestFirst(posts[1..]))
  }

  /** List every post, newest first. */
  function ListPosts(db: Db): (r: Outcome)
    ensures r.db == db
    ensures r.response.status == 200 && r.response.body.PostsJson?
    ensures multiset(r.response.body.posts) == multiset(db.posts)
    ensures NewestFirst(r.response.body.posts)
  {
    Outcome(Response(200, PostsJson(SortNewestFirst(db.posts))), db)
  }

  // ---------------------------------------------------------------------------
  // GET /api/posts/:postId

  /** Fetch one post by id. */
  function GetPost(db: Db, pid: Id): (r: Outcome)
    ensures r.db == db
    ensures (forall k :: 0 <= k < |db.posts| ==> db.posts[k].id != pid) <==> r.response == PostNotFound
    ensures r.response != PostNotFound ==>
              && r.response.status == 200 && r.response.body.PostJson?
              && r.response.body.post.id == pid && r.response.body.post in db.posts
  {
    match PostById(db.posts, pid)
    case None => Outcome(PostNotFound, db)
    case Some(i) => Outcome(Response(200, PostJson(db.posts[i])), db)
  }

  // ---------------------------------------------------------------------------
  // DELETE /api/posts/:postId

  /** Delete a post; only its owner may. */
  function DeletePost(db: Db, me: Id, pid: Id): (r: Outcome)
    ensures r.db.users == db.users
    ensures PostById(db.posts, pid).None? ==> r == Outcome(PostNotFound, db)
    ensures PostById(db.posts, pid).Some? ==>
              var i := PostById(db.posts, pid).value;
              && (db.posts[i].user != me ==> r == Outcome(NotAuthorized, db))
              && (db.posts[i].user == me ==>
                    && r.response == PostDeleted
                    && |r.db.posts| == |db.posts| - 1
                    && (forall j :: 0 <= j < i ==> r.db.posts[j] == db.posts[j])
                    && (forall j :: i < j < |db.posts| ==> r.db.posts[j - 1] == db.posts[j]))
  {
    match PostById(db.posts, pid)
    case None => Outcome(PostNotFound, db)
    case Some(i) =>
      if db.posts[i].user != me then Outcome(NotAuthorized, db)
      else Outcome(PostDeleted, db.(posts := db.posts[..i] + db.posts[i + 1..]))
  }

  // ---------------------------------------------------------------------------
  // PUT /api/posts/like/:postId

  /** Like a post: refused when the requester already likes it, otherwise the
      requester's like goes in front of the others. */
  function LikePost(db: Db, me: Id, pid: Id): (r: Outcome)
    ensures PostById(db.posts, pid).None? ==> r == Outcome(ServerError, db)
    ensures PostById(db.posts, pid).Some? ==>
              var i := PostById(db.posts, pid).value;
              var p := db.posts[i];
              && (Liked(p.likes, me) ==> r == Outcome(AlreadyLiked, db))
              && (!Liked(p.likes, me) ==>
                    && ChangesOnlyPost(db, r.db, i)
                    && r.db.posts[i] == p.(likes := r.db.posts[i].likes)
                    && |r.db.posts[i].likes| == |p.likes| + 1
                    && r.db.posts[i].likes[0] == Like(me)
                    && r.db.posts[i].likes[1..] == p.likes
                    && r.response == Response(200, LikesJson(r.db.posts[i].likes)))
  {
    match PostById(db.posts, pid)
    case None => Outcome(ServerError, db)
    case Some(i) =>
      var p := db.posts[i];
      if Find(p.likes, IsLikeBy(me)).Some? then Outcome(AlreadyLiked, db)
      else
        var likes := [Like(me)] + p.likes;
        Outcome(Response(200, LikesJson(likes)), db.(posts := db.posts[i := p.(likes := likes)]))
  }

  // ---------------------------------------------------------------------------
  // PUT /api/posts/unlike/:postId

  /** Unlike a post: refused when the requester has no like on it, otherwise
      every like of the requester goes and the others keep their order. */
  function UnlikePost(db: Db, me: Id, pid: Id): (r: Outcome)
    ensures PostById(db.posts, pid).None? ==> r == Outcome(ServerError, db)
    ensures PostById(db.posts, pid).Some? ==>
              var i := PostById(db.posts, pid).value;
              var p := db.posts[i];
              && (!Liked(p.likes, me) ==> r == Outcome(NotLiked, db))
              && (Liked(p.likes, me) ==>
                    && ChangesOnlyPost(db, r.db, i)
                    && r.db.posts[i] == p.(likes := r.db.posts[i].likes)
                    && RemovesLikesBy(p.likes, r.db.posts[i].likes, me)
                    && r.response == Response(200, LikesJson(r.db.posts[i].likes)))
  {
    match PostById(db.posts, pid)
    case None => Outcome(ServerError, db)
    case Some(i) =>
      var p := db.posts[i];
      if Find(p.likes, IsLikeBy(me)).None? then Outcome(NotLiked, db)
      else
        var likes := Filter(p.likes, IsLikeByOther(me));
        Outcome(Response(200, LikesJson(likes)), db.(posts := db.posts[i := p.(likes := likes)]))
  }

  // ---------------------------------------------------------------------------
  // POST /api/posts/comments/:postId

  /** Comment on a post: the requester's comment goes in front of the others. */
  function AddComment(db: Db, me: Id, pid: Id, text: Field, cid: Id, now: int): (r: Outcome)
    ensures AsText(text) == "" ==>
              r == Outcome(Response(400, Errors([FieldError("text", text, "Text is required")])), db)
    ensures r.response.status == 200 <==>
              && AsText(text) != ""
              && (exists k :: 0 <= k < |db.users| && db.users[k].id == me)
              && PostById(db.posts, pid).Some?
    ensures r.response.status != 200 ==> r.db == db
    ensures AsText(text) != "" && r.response.status != 200 ==> r.response == ServerError
    ensures r.response.status == 200 ==>
              var i := PostById(db.posts, pid).value;
              var p := db.posts[i];
              && ChangesOnlyPost(db, r.db, i)
              && var comments := r.db.posts[i].comments;
              && r.db.posts[i] == p.(comments := comments)
              && |comments| == |p.comments| + 1
              && comments[1..] == p.comments
              && comments[0].id == cid && comments[0].user == me
              && comments[0].text == AsText(text) && comments[0].date == now
              && (exists k :: 0 <= k < |db.users| && db.users[k].id == me
                              && comments[0].name == db.users[k].name
                              && comments[0].avatar == db.users[k].avatar)
              && r.response == Response(200, CommentsJson(comments))
  {
    var errors := TextErrors(text, CommentTextRequired);
    if errors != [] then Outcome(Response(400, Errors(errors)), db)
    else
      match (UserById(db.users, me), PostById(db.posts, pid))
      case (Some(u), Some(i)) =>
        var author := db.users[u];
        var p := db.posts[i];
        var comments := [Comment(cid, me, AsText(text), author.name, author.avatar, now)] + p.comments;
        Outcome(Response(200, CommentsJson(comments)), db.(posts := db.posts[i := p.(comments := comments)]))
      case _ => Outcome(ServerError, db)
  }

  // ---------------------------------------------------------------------------
  // DELETE /api/posts/:postId/comments/:commentId

  /** Delete a comment: the first comment with the id must exist (404) and be
      the requester's (400); then every comment with that id goes and the
      others keep their order. */
  function DeleteComment(db: Db, me: Id, pid: Id, cid: Id): (r: Outcome)
    ensures PostById(db.posts, pid).None? ==> r == Outcome(ServerError, db)
    ensures PostById(db.posts, pid).Some? ==>
              var i := PostById(db.posts, pid).value;
              var p := db.posts[i];
              var found := CommentById(p.comments, cid);
              && (found.None? ==> r == Outcome(CommentMissing, db))
              && (found.Some? && p.comments[found.value].user != me ==>
                    r == Outcome(NotCommentAuthor, db))
              && (found.Some? && p.comments[found.value].user == me ==>
                    && ChangesOnlyPost(db, r.db, i)
                    && r.db.posts[i] == p.(comments := r.db.posts[i].comments)
                    && RemovesComment(p.comments, r.db.posts[i].comments, cid)
                    && r.response == Response(200, CommentsJson(r.db.posts[i].comments)))
  {
    match PostById(db.posts, pid)
    case None => Outcome(ServerError, db)
    case Some(i) =>
      var p := db.posts[i];
      match CommentById(p.comments, cid)
      case None => Outcome(CommentMissing, db)
      case Some(j) =>
        if me != p.comments[j].user then Outcome(NotCommentAuthor, db)
        else
          var comments := Filter(p.comments, IsOtherComment(cid));
          FilterShrinks(p.comments, IsOtherComment(cid), j);
          Outcome(Response(200, CommentsJson(comments)), db.(posts := db.posts[i := p.(comments := comments)]))
  }
}
