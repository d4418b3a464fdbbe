/**
  Properties that relate several post requests made one after another: the
  one-like-per-user invariant, the like/unlike and comment/uncomment round
  trips, and the ownership rule for deleting a post.
 */
module PostLaws {
  import opened Seqs
  import opened Store
  import opened Http
  import opened Posts

  /** One like per user means the likes are pairwise distinct, since a like
      records nothing but its user. */
  lemma NoDuplicateLikersIsDistinct(likes: seq<Like>)
    ensures NoDuplicateLikers(likes) <==> Distinct(likes)
  {
    if Distinct(likes) {
      forall i, j | 0 <= i < j < |likes|
        ensures likes[i].user != likes[j].user
      {
        assert likes[i] == Like(likes[i].user) && likes[j] == Like(likes[j].user);
      }
    }
  }

  /** Liking keeps at most one like per user on every post. */
  lemma LikeKeepsLikersUnique(db: Db, me: Id, pid: Id)
    requires LikersUnique(db)
    ensures LikersUnique(LikePost(db, me, pid).db)
  {
    var r := LikePost(db, me, pid);
    if r.db != db {
      var i := PostById(db.posts, pid).value;
      var before := db.posts[i].likes;
      var after := r.db.posts[i].likes;
      forall a, b | 0 <= a < b < |after|
        ensures after[a].user != after[b].user
      {
        assert after[b] == before[b - 1];
        if a > 0 {
          assert after[a] == before[a - 1];
        }
      }
    }
  }

  /** Unliking keeps at most one like per user on every post. */
  lemma UnlikeKeepsLikersUnique(db: Db, me: Id, pid: Id)
    requires LikersUnique(db)
    ensures LikersUnique(UnlikePost(db, me, pid).db)
  {
    var r := UnlikePost(db, me, pid);
    if r.db != db {
      var i := PostById(db.posts, pid).value;
      NoDuplicateLikersIsDistinct(db.posts[i].likes);
      SubseqDistinct(r.db.posts[i].likes, db.posts[i].likes);
      NoDuplicateLikersIsDistinct(r.db.posts[i].likes);
    }
  }

  /** Liking a post one does not like and then unliking it gives back the
      store exactly as it was, and the unlike answers with the original likes. */
  lemma LikeThenUnlike(db: Db, me: Id, pid: Id)
    requires PostById(db.posts, pid).Some?
    requires !Liked(db.posts[PostById(db.posts, pid).value].likes, me)
    ensures var r1 := LikePost(db, me, pid);
            var r2 := UnlikePost(r1.db, me, pid);
            && r1.response.status == 200
            && r2.db == db
            && r2.response == Response(200, LikesJson(db.posts[PostById(db.posts, pid).value].likes))
  {
    var i := PostById(db.posts, pid).value;
    var p := db.posts[i];
    var liked := p.(likes := [Like(me)] + p.likes);
    var r1 := LikePost(db, me, pid);
    assert r1.db.posts == db.posts[i := liked];
    PostByIdAfterUpdate(db.posts, i, liked);
    assert Liked(liked.likes, me) by {
      assert liked.likes[0].user == me;
    }
    FilterDropsHead(Like(me), p.likes, IsLikeByOther(me));
    assert db.posts[i := liked][i := p] == db.posts;
  }

  /** Liking the same post twice: the second request is refused and changes nothing. */
  lemma LikeTwice(db: Db, me: Id, pid: Id)
    requires PostById(db.posts, pid).Some?
    ensures var r1 := LikePost(db, me, pid);
            LikePost(r1.db, me, pid) == Outcome(AlreadyLiked, r1.db)
  {
    var i := PostById(db.posts, pid).value;
    var p := db.posts[i];
    var r1 := LikePost(db, me, pid);
    if r1.db != db {
      var liked := r1.db.posts[i];
      assert r1.db.posts == db.posts[i := liked];
      PostByIdAfterUpdate(db.posts, i, liked);
      assert liked.likes[0].user == me;
    }
  }

  /** After a successful unlike the requester may like the post again. */
  lemma UnlikeThenLike(db: Db, me: Id, pid: Id)
    requires PostById(db.posts, pid).Some?
    requires Liked(db.posts[PostById(db.posts, pid).value].likes, me)
    ensures var r1 := UnlikePost(db, me, pid);
            && r1.response.status == 200
            && LikePost(r1.db, me, pid).response.status == 200
  {
    var i := PostById(db.posts, pid).value;
    var r1 := UnlikePost(db, me, pid);
    var unliked := r1.db.posts[i];
    assert r1.db.posts == db.posts[i := unliked];
    PostByIdAfterUpdate(db.posts, i, unliked);
  }

  /** Adding a comment under a fresh id and deleting it again, as its author,
      gives back the store exactly as it was. */
  lemma AddThenDeleteComment(db: Db, me: Id, pid: Id, text: Field, cid: Id, now: int)
    requires AsText(text) != ""
    requires exists k :: 0 <= k < |db.users| && db.users[k].id == me
    requires PostById(db.posts, pid).Some?
    requires forall k :: 0 <= k < |db.posts[PostById(db.posts, pid).value].comments| ==>
               db.posts[PostById(db.posts, pid).value].comments[k].id != cid
    ensures var r1 := AddComment(db, me, pid, text, cid, now);
            var r2 := DeleteComment(r1.db, me, pid, cid);
            && r1.response.status == 200
            && r2.db == db
            && r2.response == Response(200, CommentsJson(db.posts[PostById(db.posts, pid).value].comments))
  {
    var i := PostById(db.posts, pid).value;
    var p := db.posts[i];
    var r1 := AddComment(db, me, pid, text, cid, now);
    var commented := r1.db.posts[i];
    assert r1.db.posts == db.posts[i := commented];
    PostByIdAfterUpdate(db.posts, i, commented);
    assert CommentById(commented.comments, cid) == Some(0);
    assert commented.comments == [commented.comments[0]] + p.comments;
    FilterDropsHead(commented.comments[0], p.comments, IsOtherComment(cid));
    assert db.posts[i := commented][i := p] == db.posts;
  }

  /** The ownership rule on a freshly created post: anyone but its author is
      refused with 401 and changes nothing; the author's delete gives back the
      store as it was before the post, and the post is then not found. */
  lemma CreateThenDelete(db: Db, author: Id, other: Id, text: Field, newId: Id, now: int)
    requires AsText(text) != ""
    requires exists k :: 0 <= k < |db.users| && db.users[k].id == author
    requires forall k :: 0 <= k < |db.posts| ==> db.posts[k].id != newId
    requires other != author
    ensures var created := CreatePost(db, author, text, newId, now);
            && created.response.status == 200
            && GetPost(created.db, newId).response == Response(200, created.response.body)
            && DeletePost(created.db, other, newId) == Outcome(NotAuthorized, created.db)
            && DeletePost(created.db, author, newId) == Outcome(PostDeleted, db)
            && GetPost(db, newId).response == PostNotFound
  {
    var created := CreatePost(db, author, text, newId, now);
    var n := |db.posts|;
    forall k | 0 <= k < n
      ensures created.db.posts[k].id != newId
    {
      assert created.db.posts[k] == created.db.posts[..n][k];
    }
    assert PostById(created.db.posts, newId) == Some(n);
    assert created.db.posts[..n] + created.db.posts[n + 1..] == db.posts;
  }
}
