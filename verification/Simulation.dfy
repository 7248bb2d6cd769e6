/**
 The two stores side by side. PostgreSQL numbers posts 1, 2, 3, ... and comments 1, 2, 3,
 ...; DynamoDB draws both from one counter. A renaming records the DynamoDB id of each
 PostgreSQL id. Every sequential run keeps the stores equal up to that order-preserving
 renaming and gives equal answers.
 */
module Simulation {
  import opened Options
  import opened Community
  import opened Arrangements
  import Dy = DynamoStore
  import Pg = PostgresStore

  /** The DynamoDB id of post i + 1, and of comment i + 1. */
  datatype Renaming = Renaming(posts: seq<int>, comments: seq<int>)

  ghost predicate Increasing(ids: seq<int>) {
    forall i, j :: 0 <= i < j < |ids| ==> ids[i] < ids[j]
  }

  /** `q` is the DynamoDB name of the row PostgreSQL calls `p`. */
  predicate Pair(ids: seq<int>, p: int, q: int) {
    1 <= p <= |ids| && ids[p - 1] == q
  }

  /** Two ids name the same row, or neither was ever issued. */
  predicate SameId(ids: seq<int>, p: int, q: int) {
    Pair(ids, p, q) || (!(1 <= p <= |ids|) && q !in ids)
  }

  lemma PairsMatch(ids: seq<int>)
    requires Increasing(ids)
    ensures forall p, q, p', q' :: Pair(ids, p, q) && Pair(ids, p', q') ==> (p == p' <==> q == q')
  {
  }

  predicate SameParent(ids: seq<int>, a: Option<int>, b: Option<int>) {
    match a
    case None => b == None
    case Some(x) => b.Some? && SameId(ids, x, b.value)
  }

  /** A post's row holds in its counters what PostgreSQL counts from rows. */
  predicate SamePost(t: Pg.Tables, p: int, row: Dy.PostRow)
    requires p in t.posts
  {
    var rec := t.posts[p];
    && (rec.author, rec.title, rec.body, rec.postType, rec.created)
        == (row.author, row.title, row.body, row.postType, row.created)
    && rec.up == row.up == Tally(t.thumbs, p, 1)
    && rec.down == row.down == Tally(t.thumbs, p, -1)
    && |Pg.CommentsOn(t, p)| == row.comments
  }

  predicate SameComment(m: Renaming, rec: Pg.CommentRec, row: Dy.CommentRow) {
    && (rec.author, rec.body, rec.created) == (row.author, row.body, row.created)
    && (rec.parent == None <==> row.parent == None)
    && (rec.parent.Some? && row.parent.Some? ==> Pair(m.comments, rec.parent.value, row.parent.value))
  }

  predicate PostMatches(t: Pg.Tables, p: int, s: Dy.Store, q: int) {
    && (p in t.posts <==> q in s.posts)
    && (p in t.posts && q in s.posts ==> SamePost(t, p, s.posts[q]))
  }

  predicate CommentMatches(t: Pg.Tables, p: int, c: int, s: Dy.Store, q: int, e: int, m: Renaming) {
    && (c in t.comments && t.comments[c].postId == p <==> (q, e) in s.comments)
    && (c in t.comments && (q, e) in s.comments ==> SameComment(m, t.comments[c], s.comments[(q, e)]))
  }

  ghost predicate IdsOk(t: Pg.Tables, s: Dy.Store, m: Renaming) {
    && |m.posts| == t.nextPost - 1 && |m.comments| == t.nextComment - 1
    && Increasing(m.posts) && Increasing(m.comments)
    && (forall q :: q in m.posts ==> 1 <= q <= s.lastId)
    && (forall e :: e in m.comments ==> 1 <= e <= s.lastId)
    && s.lastId >= 0
  }

  ghost predicate PostsOk(t: Pg.Tables, s: Dy.Store, m: Renaming) {
    && (forall p, q :: Pair(m.posts, p, q) ==> PostMatches(t, p, s, q))
    && (forall p :: p in t.posts ==> 1 <= p <= |m.posts|)
    && (forall q :: q in s.posts ==> q in m.posts)
  }

  ghost predicate CommentsOk(t: Pg.Tables, s: Dy.Store, m: Renaming) {
    && (forall p, q, c, e :: Pair(m.posts, p, q) && Pair(m.comments, c, e) ==> CommentMatches(t, p, c, s, q, e, m))
    && (forall c :: c in t.comments ==> 1 <= c <= |m.comments| && t.comments[c].postId in t.posts)
    && (forall k :: k in s.comments ==> k.0 in s.posts && k.1 in m.comments)
  }

  ghost predicate ThumbsOk(t: Pg.Tables, s: Dy.Store, m: Renaming) {
    && (forall p, q, v :: Pair(m.posts, p, q) ==> Lookup(t.thumbs, (p, v)) == Lookup(s.thumbs, (q, v)))
    && (forall k :: k in t.thumbs ==> k.0 in t.posts)
    && (forall k :: k in s.thumbs ==> k.0 in s.posts)
  }

  /** The stores hold the same board. */
  ghost predicate Same(t: Pg.Tables, s: Dy.Store, m: Renaming) {
    IdsOk(t, s, m) && PostsOk(t, s, m) && CommentsOk(t, s, m) && ThumbsOk(t, s, m)
  }

  lemma SamePostPresent(t: Pg.Tables, s: Dy.Store, m: Renaming, p: int, q: int)
    requires PostsOk(t, s, m) && SameId(m.posts, p, q)
    ensures p in t.posts <==> q in s.posts
    ensures p in t.posts ==> Pair(m.posts, p, q) && SamePost(t, p, s.posts[q])
  {
    assert Pair(m.posts, p, q) ==> PostMatches(t, p, s, q);
  }

  lemma EmptyStoresSame()
    ensures Same(Pg.EMPTY, Dy.EMPTY, Renaming([], []))
  {
  }

  // ---- Toggle ----

  lemma TogglePost(
    t: Pg.Tables, s: Dy.Store, m: Renaming, p: int, q: int, voter: string, d: Direction, p': int, q': int)
    requires Same(t, s, m) && Pair(m.posts, p, q) && Pair(m.posts, p', q') && p in t.posts
    ensures PostMatches(Pg.Toggle(t, p, voter, d).0, p', Dy.Toggle(s, q, voter, d).0, q')
  {
    hide CommentsOk, Tally;
    PairsMatch(m.posts);
    assert PostMatches(t, p', s, q') && PostMatches(t, p, s, q);
    var t' := Pg.Toggle(t, p, voter, d).0;
    var before := Lookup(t.thumbs, (p, voter));
    assert before == Lookup(s.thumbs, (q, voter));
    TallySet(t.thumbs, (p, voter), Flip(before, d), p', 1);
    TallySet(t.thumbs, (p, voter), Flip(before, d), p', -1);
    assert Pg.CommentsOn(t', p') == Pg.CommentsOn(t, p');
  }

  lemma ToggleThumbs(t: Pg.Tables, s: Dy.Store, m: Renaming, p: int, q: int, voter: string, d: Direction)
    requires Same(t, s, m) && Pair(m.posts, p, q) && p in t.posts
    ensures ThumbsOk(Pg.Toggle(t, p, voter, d).0, Dy.Toggle(s, q, voter, d).0, m)
  {
    hide CommentsOk, SamePost;
    PairsMatch(m.posts);
    var t', s' := Pg.Toggle(t, p, voter, d).0, Dy.Toggle(s, q, voter, d).0;
    assert PostMatches(t, p, s, q);
    assert Lookup(t.thumbs, (p, voter)) == Lookup(s.thumbs, (q, voter));
    forall a, b, v | Pair(m.posts, a, b) ensures Lookup(t'.thumbs, (a, v)) == Lookup(s'.thumbs, (b, v)) {
      assert Lookup(t.thumbs, (a, v)) == Lookup(s.thumbs, (b, v));
    }
  }

  /** A vote counted by delta and a vote counted from rows give the same answer. */
  lemma ToggleSame(t: Pg.Tables, s: Dy.Store, m: Renaming, p: int, q: int, voter: string, d: Direction)
    requires Same(t, s, m) && SameId(m.posts, p, q)
    ensures Same(Pg.Toggle(t, p, voter, d).0, Dy.Toggle(s, q, voter, d).0, m)
    ensures Pg.Toggle(t, p, voter, d).1 == Dy.Toggle(s, q, voter, d).1
  {
    SamePostPresent(t, s, m, p, q);
    if p in t.posts {
      hide Tally;
      var t', s' := Pg.Toggle(t, p, voter, d).0, Dy.Toggle(s, q, voter, d).0;
      forall a, b | Pair(m.posts, a, b) ensures PostMatches(t', a, s', b) {
        TogglePost(t, s, m, p, q, voter, d, a, b);
      }
      ToggleThumbs(t, s, m, p, q, voter, d);
      CommentsFrame(t, s, m, t', s');
      assert PostMatches(t', p, s', q);
    }
  }

  lemma CommentsFrame(t: Pg.Tables, s: Dy.Store, m: Renaming, t': Pg.Tables, s': Dy.Store)
    requires CommentsOk(t, s, m) && t'.comments == t.comments && s'.comments == s.comments
    requires t.posts.Keys <= t'.posts.Keys && s.posts.Keys <= s'.posts.Keys
    ensures CommentsOk(t', s', m)
  {
    forall p, q, c, e | Pair(m.posts, p, q) && Pair(m.comments, c, e) ensures CommentMatches(t', p, c, s', q, e, m) {
      assert CommentMatches(t, p, c, s, q, e, m);
    }
  }

  // ---- Delete ----

  lemma DeletePostMatches(t: Pg.Tables, s: Dy.Store, m: Renaming, p: int, q: int, p': int, q': int)
    requires Same(t, s, m) && Pair(m.posts, p, q) && Pair(m.posts, p', q')
    ensures PostMatches(Pg.WithoutPost(t, p), p', Dy.WithoutPost(s, q), q')
  {
    hide CommentsOk;
    PairsMatch(m.posts);
    assert PostMatches(t, p', s, q');
    var t' := Pg.WithoutPost(t, p);
    if p' != p {
      Pg.TallyElsewhere(t.thumbs, t'.thumbs, p', 1);
      Pg.TallyElsewhere(t.thumbs, t'.thumbs, p', -1);
      assert Pg.CommentsOn(t', p') == Pg.CommentsOn(t, p');
    }
  }

  /** The looped delete and the cascade leave the same board. */
  lemma DeleteSame(t: Pg.Tables, s: Dy.Store, m: Renaming, p: int, q: int, user: string)
    requires Same(t, s, m) && SameId(m.posts, p, q)
    ensures Same(Pg.DeletePost(t, p, user).0, Dy.DeletePost(s, q, user).0, m)
    ensures Pg.DeletePost(t, p, user).1 == Dy.DeletePost(s, q, user).1
  {
    SamePostPresent(t, s, m, p, q);
    if p in t.posts && t.posts[p].author == user {
      hide SamePost, SameComment;
      PairsMatch(m.posts);
      var t', s' := Pg.WithoutPost(t, p), Dy.WithoutPost(s, q);
      forall a, b | Pair(m.posts, a, b) ensures PostMatches(t', a, s', b) {
        DeletePostMatches(t, s, m, p, q, a, b);
      }
      forall a, b, c, e | Pair(m.posts, a, b) && Pair(m.comments, c, e) ensures CommentMatches(t', a, c, s', b, e, m) {
        assert CommentMatches(t, a, c, s, b, e, m);
      }
      forall a, b, v | Pair(m.posts, a, b) ensures Lookup(t'.thumbs, (a, v)) == Lookup(s'.thumbs, (b, v)) {
        assert Lookup(t.thumbs, (a, v)) == Lookup(s.thumbs, (b, v));
      }
    }
  }

  // ---- Creation ----

  lemma PairExtends(ids: seq<int>, x: int)
    ensures forall p, q :: Pair(ids + [x], p, q) <==> Pair(ids, p, q) || (p == |ids| + 1 && q == x)
  {
  }

  function WithPost(m: Renaming, q: int): Renaming {
    m.(posts := m.posts + [q])
  }

  function WithComment(m: Renaming, e: int): Renaming {
    m.(comments := m.comments + [e])
  }

  lemma NewPostMatches(
    t: Pg.Tables, s: Dy.Store, m: Renaming, author: string, title: string, body: string,
    postType: string, now: int, p: int, q: int)
    requires Same(t, s, m) && Pair(m.posts + [s.lastId + 1], p, q)
    ensures PostMatches(Pg.CreatePost(t, author, title, body, postType, now).0, p,
                        Dy.CreatePost(s, author, title, body, postType, now).0, q)
  {
    hide CommentsOk;
    PairExtends(m.posts, s.lastId + 1);
    var t' := Pg.CreatePost(t, author, title, body, postType, now).0;
    if Pair(m.posts, p, q) {
      assert q in m.posts;
      assert PostMatches(t, p, s, q);
      assert Pg.CommentsOn(t', p) == Pg.CommentsOn(t, p);
    } else {
      assert Ballots(t'.thumbs, p, 1) == {} && Ballots(t'.thumbs, p, -1) == {};
      NoCommentsYet(t, s, m, p);
      assert Pg.CommentsOn(t', p) == Pg.CommentsOn(t, p);
    }
  }

  lemma NoCommentsYet(t: Pg.Tables, s: Dy.Store, m: Renaming, p: int)
    requires CommentsOk(t, s, m) && p !in t.posts
    ensures Pg.CommentsOn(t, p) == {}
  {
    assert forall c :: c in t.comments ==> t.comments[c].postId != p;
    NoMembers(Pg.CommentsOn(t, p));
  }

  /** A new post takes the next id of each store, and the renaming grows by that pair. */
  lemma CreatePostSame(
    t: Pg.Tables, s: Dy.Store, m: Renaming, author: string, title: string, body: string,
    postType: string, now: int)
    requires Same(t, s, m)
    ensures var (t', p) := Pg.CreatePost(t, author, title, body, postType, now);
      var (s', v) := Dy.CreatePost(s, author, title, body, postType, now);
      Same(t', s', WithPost(m, v.id)) && Pair(WithPost(m, v.id).posts, p, v.id)
  {
    hide SamePost, SameComment;
    var t' := Pg.CreatePost(t, author, title, body, postType, now).0;
    var s' := Dy.CreatePost(s, author, title, body, postType, now).0;
    var q := s.lastId + 1;
    var m' := WithPost(m, q);
    PairExtends(m.posts, q);
    assert forall i :: 0 <= i < |m.posts| ==> m.posts[i] in m.posts;
    forall a, b | Pair(m'.posts, a, b) ensures PostMatches(t', a, s', b) {
      NewPostMatches(t, s, m, author, title, body, postType, now, a, b);
    }
    assert t.nextPost !in t.posts && q !in s.posts;
    forall a, b, c, e | Pair(m'.posts, a, b) && Pair(m'.comments, c, e) ensures CommentMatches(t', a, c, s', b, e, m') {
      assert Pair(m.posts, a, b) ==> CommentMatches(t, a, c, s, b, e, m);
      SameCommentFrame(m, m');
    }
    forall a, b, v | Pair(m'.posts, a, b) ensures Lookup(t'.thumbs, (a, v)) == Lookup(s'.thumbs, (b, v)) {
      assert Pair(m.posts, a, b) ==> Lookup(t.thumbs, (a, v)) == Lookup(s.thumbs, (b, v));
    }
  }

  lemma SameCommentFrame(m: Renaming, m': Renaming)
    requires m.comments <= m'.comments
    ensures forall rec, row :: SameComment(m, rec, row) ==> SameComment(m', rec, row)
  {
  }

  lemma ParentSame(t: Pg.Tables, s: Dy.Store, m: Renaming, p: int, q: int, x: Option<int>, y: Option<int>)
    requires Same(t, s, m) && Pair(m.posts, p, q) && SameParent(m.comments, x, y)
    ensures Pg.ParentError(t, p, x) == Dy.ParentError(s, q, y)
    ensures Pg.ParentError(t, p, x) == None && x.Some? ==> Pair(m.comments, x.value, y.value)
  {
    if x.Some? {
      if Pair(m.comments, x.value, y.value) {
        assert CommentMatches(t, p, x.value, s, q, y.value, m);
        if (q, y.value) in s.comments {
          var parent := s.comments[(q, y.value)].parent;
          assert parent.Some? ==> parent.value in m.comments;
        }
      } else {
        assert (q, y.value) !in s.comments;
      }
    }
  }

  lemma NewCommentPost(t: Pg.Tables, s: Dy.Store, p: int, row: Dy.PostRow, c: int, rec: Pg.CommentRec, p': int)
    requires p' in t.posts && SamePost(t, p', row) && c !in t.comments && rec.postId == p
    ensures var t' := t.(comments := t.comments[c := rec], nextComment := c + 1);
      SamePost(t', p', if p' == p then row.(comments := row.comments + 1) else row)
  {
    hide Tally;
    var t' := t.(comments := t.comments[c := rec], nextComment := c + 1);
    assert c !in Pg.CommentsOn(t, p');
    assert Pg.CommentsOn(t', p') == Pg.CommentsOn(t, p') + if p' == p then {c} else {};
  }

  lemma CreateCommentSame(t: Pg.Tables, s: Dy.Store, m: Renaming, p: int, q: int, author: string, body: string,
                          x: Option<int>, y: Option<int>, now: int)
    requires Same(t, s, m) && SameId(m.posts, p, q) && SameParent(m.comments, x, y)
    ensures var (t', r) := Pg.CreateComment(t, p, author, body, x, now);
      var (s', r') := Dy.CreateComment(s, q, author, body, y, now);
      match r
      case Err(e) => r' == Err(e) && t' == t && s' == s
      case Ok(c) =>
        && r'.Ok? && r'.value.postId == q
        && Same(t', s', WithComment(m, r'.value.id)) && Pair(WithComment(m, r'.value.id).comments, c, r'.value.id)
  {
    SamePostPresent(t, s, m, p, q);
    if p in t.posts {
      ParentSame(t, s, m, p, q, x, y);
      if Pg.ParentError(t, p, x) == None {
        AcceptedSame(t, s, m, p, q, author, body, x, y, now);
      } else {
        RefusedSame(t, s, p, q, author, body, x, y, now);
      }
    }
    hide Same, Pg.ParentError, Dy.ParentError;
  }

  lemma RefusedSame(t: Pg.Tables, s: Dy.Store, p: int, q: int, author: string, body: string,
                    x: Option<int>, y: Option<int>, now: int)
    requires p in t.posts && q in s.posts && Pg.ParentError(t, p, x) == Dy.ParentError(s, q, y) != None
    ensures var e := Pg.ParentError(t, p, x).value;
      && Pg.CreateComment(t, p, author, body, x, now) == (t, Err(e))
      && Dy.CreateComment(s, q, author, body, y, now) == (s, Err(e))
  {
    hide Pg.ParentError, Dy.ParentError;
  }

  lemma AcceptedSame(t: Pg.Tables, s: Dy.Store, m: Renaming, p: int, q: int, author: string, body: string,
                     x: Option<int>, y: Option<int>, now: int)
    requires Same(t, s, m) && Pair(m.posts, p, q) && p in t.posts && q in s.posts
    requires Pg.ParentError(t, p, x) == None && Dy.ParentError(s, q, y) == None
    requires (x == None <==> y == None) && (x.Some? ==> Pair(m.comments, x.value, y.value))
    ensures var (t', r) := Pg.CreateComment(t, p, author, body, x, now);
      var (s', r') := Dy.CreateComment(s, q, author, body, y, now);
      && r == Ok(t.nextComment) && r'.Ok? && r'.value.postId == q && r'.value.id == s.lastId + 1
      && Same(t', s', WithComment(m, s.lastId + 1))
          && Pair(WithComment(m, s.lastId + 1).comments, r.value, s.lastId + 1)
  {
    NewCommentSame(t, s, m, p, q, author, body, x, y, now);
    assert |m.comments| == t.nextComment - 1;
    hide Same, Pg.ParentError, Dy.ParentError;
  }

  lemma NewCommentMatches(
    t: Pg.Tables, s: Dy.Store, m: Renaming, p: int, q: int, author: string, body: string,
    x: Option<int>, y: Option<int>, now: int, a: int, b: int, c: int, e: int)
    requires Same(t, s, m) && Pair(m.posts, p, q) && p in t.posts && q in s.posts && Pair(m.posts, a, b)
    requires Pg.ParentError(t, p, x) == None && Dy.ParentError(s, q, y) == None
    requires (x == None <==> y == None) && (x.Some? ==> Pair(m.comments, x.value, y.value))
    requires Pair(WithComment(m, s.lastId + 1).comments, c, e)
    ensures CommentMatches(
      Pg.CreateComment(t, p, author, body, x, now).0, a, c, Dy.CreateComment(s, q, author, body, y, now).0, b, e,
      WithComment(m, s.lastId + 1))
  {
    hide SamePost, Pg.ParentError, Dy.ParentError, ThumbsOk, PostsOk;
    PairsMatch(m.posts);
    PairExtends(m.comments, s.lastId + 1);
    SameCommentFrame(m, WithComment(m, s.lastId + 1));
    assert Pair(m.comments, c, e) ==> CommentMatches(t, a, c, s, b, e, m);
    assert forall i :: 0 <= i < |m.comments| ==> m.comments[i] in m.comments;
  }

  lemma NewCommentSame(t: Pg.Tables, s: Dy.Store, m: Renaming, p: int, q: int, author: string, body: string,
                       x: Option<int>, y: Option<int>, now: int)
    requires Same(t, s, m) && Pair(m.posts, p, q) && p in t.posts && q in s.posts
    requires Pg.ParentError(t, p, x) == None && Dy.ParentError(s, q, y) == None
    requires (x == None <==> y == None) && (x.Some? ==> Pair(m.comments, x.value, y.value))
    ensures Same(Pg.CreateComment(t, p, author, body, x, now).0, Dy.CreateComment(s, q, author, body, y, now).0,
        WithComment(m, s.lastId + 1))
  {
    hide SamePost, SameComment, Pg.ParentError, Dy.ParentError;
    PairsMatch(m.posts);
    var t', s' := Pg.CreateComment(t, p, author, body, x, now).0, Dy.CreateComment(s, q, author, body, y, now).0;
    var e := s.lastId + 1;
    var m' := WithComment(m, e);
    PairExtends(m.comments, e);
    assert forall i :: 0 <= i < |m.comments| ==> m.comments[i] in m.comments;
    assert t.nextComment !in t.comments && e !in m.comments;
    forall a, b | Pair(m'.posts, a, b) ensures PostMatches(t', a, s', b) {
      assert PostMatches(t, a, s, b);
      if a in t.posts {
        NewCommentPost(t, s, p, s.posts[b], t.nextComment, t'.comments[t.nextComment], a);
      }
    }
    forall a, b, c, f | Pair(m'.posts, a, b) && Pair(m'.comments, c, f) ensures CommentMatches(t', a, c, s', b, f, m') {
      NewCommentMatches(t, s, m, p, q, author, body, x, y, now, a, b, c, f);
    }
    forall a, b, v | Pair(m'.posts, a, b) ensures Lookup(t'.thumbs, (a, v)) == Lookup(s'.thumbs, (b, v)) {
      assert Lookup(t.thumbs, (a, v)) == Lookup(s.thumbs, (b, v));
    }
  }

  // ---- Reads ----

  /** Two sets of ids that name the same rows, created at the same times. */
  predicate SameRow(a: set<int>, at: map<int, int>, p: int, b: set<int>, bt: map<int, int>, q: int) {
    && (p in a <==> q in b)
    && (p in a && q in b ==> p in at && q in bt && at[p] == bt[q])
  }

  ghost predicate SameRows(ids: seq<int>, a: set<int>, at: map<int, int>, b: set<int>, bt: map<int, int>) {
    && (forall p, q :: Pair(ids, p, q) ==> SameRow(a, at, p, b, bt, q))
    && (forall p :: p in a ==> 1 <= p <= |ids|)
    && (forall q :: q in b ==> q in ids)
  }

  /** The rows of `x` under their DynamoDB names. */
  function Renamed(ids: seq<int>, x: seq<int>): seq<int>
    requires forall i :: 0 <= i < |x| ==> 1 <= x[i] <= |ids|
  {
    seq(|x|, i requires 0 <= i < |x| => ids[x[i] - 1])
  }

  lemma RenamedMembers(ids: seq<int>, a: set<int>, at: map<int, int>, x: seq<int>, b: set<int>, bt: map<int, int>)
    requires SameRows(ids, a, at, b, bt) && forall p :: p in x <==> p in a
    requires forall i :: 0 <= i < |x| ==> 1 <= x[i] <= |ids|
    ensures forall q :: q in Renamed(ids, x) <==> q in b
  {
    var z := Renamed(ids, x);
    forall i | 0 <= i < |z| ensures z[i] in b {
      assert x[i] in x && Pair(ids, x[i], z[i]) && SameRow(a, at, x[i], b, bt, z[i]);
    }
    forall q | q in b ensures q in z {
      var j :| 0 <= j < |ids| && ids[j] == q;
      assert Pair(ids, j + 1, q) && SameRow(a, at, j + 1, b, bt, q);
      assert j + 1 in x;
      var i :| 0 <= i < |x| && x[i] == j + 1;
      assert z[i] == q;
    }
  }

  lemma RenamedOrder(ids: seq<int>, x: seq<int>, at: map<int, int>, z: seq<int>, bt: map<int, int>)
    requires Increasing(ids) && SortedByTime(x, at) && forall i, j :: 0 <= i < j < |x| ==> x[i] != x[j]
    requires |z| == |x| && forall i :: 0 <= i < |x| ==>
      1 <= x[i] <= |ids| && z[i] == ids[x[i] - 1] && TimeOf(bt, z[i]) == TimeOf(at, x[i])
    ensures SortedByTime(z, bt) && forall i, j :: 0 <= i < j < |z| ==> z[i] != z[j]
  {
  }

  /** An arrangement stays one under an order-preserving renaming. */
  lemma RenamedArranges(ids: seq<int>, a: set<int>, at: map<int, int>, x: seq<int>, b: set<int>, bt: map<int, int>)
    requires Increasing(ids) && SameRows(ids, a, at, b, bt) && Arranges(x, a, at)
    ensures forall i :: 0 <= i < |x| ==> 1 <= x[i] <= |ids| && x[i] in a
    ensures var z := Renamed(ids, x);
      Arranges(z, b, bt) && forall i :: 0 <= i < |x| ==> z[i] in b && TimeOf(bt, z[i]) == TimeOf(at, x[i])
  {
    ArrangesMembers(x, a, at);
    forall i | 0 <= i < |x| ensures 1 <= x[i] <= |ids| && x[i] in a {
      assert x[i] in x;
    }
    var z := Renamed(ids, x);
    forall i | 0 <= i < |x| ensures z[i] in b && TimeOf(bt, z[i]) == TimeOf(at, x[i]) {
      assert Pair(ids, x[i], z[i]) && SameRow(a, at, x[i], b, bt, z[i]);
    }
    NoRepeats(x, a);
    RenamedMembers(ids, a, at, x, b, bt);
    assert forall q :: q in z <==> q in b;
    assert forall i :: 0 <= i < |x| ==> z[i] == ids[x[i] - 1];
    hide SameRows, Renamed, Pair;
    RenamedOrder(ids, x, at, z, bt);
    OneEach(z, b);
  }

  /** Two stores' arrangements of the same rows name the same rows and show the same time at every place; without
      equal times they name the same row at every place. */
  lemma ArrangedAlike(
    ids: seq<int>, a: set<int>, at: map<int, int>, x: seq<int>, b: set<int>, bt: map<int, int>, y: seq<int>)
    requires Increasing(ids) && SameRows(ids, a, at, b, bt) && Arranges(x, a, at) && Arranges(y, b, bt)
    ensures |x| == |y|
    ensures forall i :: 0 <= i < |x| ==> 1 <= x[i] <= |ids| && x[i] in a && TimeOf(at, x[i]) == TimeOf(bt, y[i])
    ensures multiset(Renamed(ids, x)) == multiset(y)
    ensures b <= bt.Keys && DistinctTimes(bt) ==> Renamed(ids, x) == y
  {
    RenamedArranges(ids, a, at, x, b, bt);
    var z := Renamed(ids, x);
    SameTimes(z, y, b, bt);
    if b <= bt.Keys && DistinctTimes(bt) {
      OneArrangement(z, y, b, bt);
    }
  }

  lemma CommentRowsSame(t: Pg.Tables, s: Dy.Store, m: Renaming, p: int, q: int)
    requires Same(t, s, m) && Pair(m.posts, p, q)
    ensures SameRows(m.comments, Pg.CommentsOn(t, p), Pg.CommentTimes(t), Dy.CommentIds(s, q), Dy.CommentTimes(s, q))
  {
    forall c, e | Pair(m.comments, c, e)
      ensures SameRow(Pg.CommentsOn(t, p), Pg.CommentTimes(t), c, Dy.CommentIds(s, q), Dy.CommentTimes(s, q), e)
    {
      assert CommentMatches(t, p, c, s, q, e, m);
      assert e in Dy.CommentIds(s, q) <==> (q, e) in s.comments;
    }
    forall e | e in Dy.CommentIds(s, q) ensures e in m.comments {
      assert (q, e) in s.comments;
    }
  }

  /** A comment as PostgreSQL numbers it and as DynamoDB shows it. */
  predicate SameView(t: Pg.Tables, m: Renaming, p: int, c: int, q: int, v: Dy.CommentView) {
    && c in t.comments && t.comments[c].postId == p && v.postId == q
    && Pair(m.posts, p, q) && Pair(m.comments, c, v.id)
    && SameComment(m, t.comments[c], v.row)
  }

  lemma ViewSame(t: Pg.Tables, s: Dy.Store, m: Renaming, p: int, q: int, c: int, v: Dy.CommentView)
    requires CommentsOk(t, s, m) && Pair(m.posts, p, q) && Pair(m.comments, c, v.id)
    requires (q, v.id) in s.comments && v == Dy.CommentView(v.id, q, s.comments[(q, v.id)])
    ensures SameView(t, m, p, c, q, v)
  {
    assert CommentMatches(t, p, c, s, q, v.id, m);
  }

  ghost predicate SameViews(t: Pg.Tables, m: Renaming, p: int, x: seq<int>, q: int, y: seq<Dy.CommentView>) {
    |x| == |y| && forall i :: 0 <= i < |x| ==> SameView(t, m, p, x[i], q, y[i])
  }

  /** The two lists hold the same comments at the same times, and place by place when no two times are equal. */
  ghost predicate CommentsAlike(
    t: Pg.Tables, s: Dy.Store, m: Renaming, p: int, x: seq<int>, q: int, y: seq<Dy.CommentView>)
  {
    && |x| == |y|
    && (forall i :: 0 <= i < |x| ==> x[i] in t.comments && t.comments[x[i]].created == y[i].row.created)
    && (forall v :: v in y ==> exists i :: 0 <= i < |x| && SameView(t, m, p, x[i], q, v))
    && (DistinctTimes(Dy.CommentTimes(s, q)) ==> SameViews(t, m, p, x, q, y))
  }

  /** `x` and `ids` name the same comments of one post. */
  ghost predicate SameComments(t: Pg.Tables, m: Renaming, p: int, x: seq<int>, ids: seq<int>) {
    && |x| == |ids|
    && (forall i :: 0 <= i < |x| ==> 1 <= x[i] <= |m.comments| && x[i] in t.comments && t.comments[x[i]].postId == p)
    && multiset(Renamed(m.comments, x)) == multiset(ids)
  }

  lemma CounterpartFound(
    t: Pg.Tables, s: Dy.Store, m: Renaming, p: int, x: seq<int>, q: int, ids: seq<int>, y: seq<Dy.CommentView>, j: nat)
    requires CommentsOk(t, s, m) && Pair(m.posts, p, q)
    requires SameComments(t, m, p, x, ids) && Dy.ShowsComments(s, q, ids, y) && j < |y|
    ensures exists i :: 0 <= i < |x| && SameView(t, m, p, x[i], q, y[j])
  {
    hide CommentsOk;
    var z := Renamed(m.comments, x);
    assert ids[j] in multiset(ids) && ids[j] in multiset(z);
    var i :| 0 <= i < |z| && z[i] == ids[j];
    ViewSame(t, s, m, p, q, x[i], y[j]);
  }

  lemma PairedCommentsAlike(
    t: Pg.Tables, s: Dy.Store, m: Renaming, p: int, x: seq<int>, q: int, ids: seq<int>, y: seq<Dy.CommentView>)
    requires CommentsOk(t, s, m) && Pair(m.posts, p, q)
    requires SameComments(t, m, p, x, ids) && Dy.ShowsComments(s, q, ids, y)
    requires forall i :: 0 <= i < |x| ==> t.comments[x[i]].created == y[i].row.created
    requires DistinctTimes(Dy.CommentTimes(s, q)) ==> Renamed(m.comments, x) == ids
    ensures CommentsAlike(t, s, m, p, x, q, y)
  {
    hide CommentsOk, SameView;
    forall v | v in y ensures exists i :: 0 <= i < |x| && SameView(t, m, p, x[i], q, v) {
      var j :| 0 <= j < |y| && y[j] == v;
      CounterpartFound(t, s, m, p, x, q, ids, y, j);
    }
    if DistinctTimes(Dy.CommentTimes(s, q)) {
      forall i | 0 <= i < |x| ensures SameView(t, m, p, x[i], q, y[i]) {
        assert Renamed(m.comments, x)[i] == ids[i];
        ViewSame(t, s, m, p, q, x[i], y[i]);
      }
    }
  }

  /** What two arrangements of one post's comments have in common. */
  lemma CommentsArranged(t: Pg.Tables, s: Dy.Store, m: Renaming, p: int, x: seq<int>, q: int, ids: seq<int>)
    requires Same(t, s, m) && Pair(m.posts, p, q)
    requires Pg.CommentsListed(t, p, x) && Arranges(ids, Dy.CommentIds(s, q), Dy.CommentTimes(s, q))
    ensures SameComments(t, m, p, x, ids)
    ensures forall i :: 0 <= i < |x| ==> TimeOf(Pg.CommentTimes(t), x[i]) == TimeOf(Dy.CommentTimes(s, q), ids[i])
    ensures DistinctTimes(Dy.CommentTimes(s, q)) ==> Renamed(m.comments, x) == ids
  {
    CommentRowsSame(t, s, m, p, q);
    hide SameRows, Arranges, Same, Pair;
    ArrangedAlike(
      m.comments, Pg.CommentsOn(t, p), Pg.CommentTimes(t), x, Dy.CommentIds(s, q), Dy.CommentTimes(s, q), ids);
  }

  lemma PairedCommentsArranged(
    t: Pg.Tables, s: Dy.Store, m: Renaming, p: int, x: seq<int>, q: int, ids: seq<int>, y: seq<Dy.CommentView>)
    requires Same(t, s, m) && Pair(m.posts, p, q) && Dy.ShowsComments(s, q, ids, y)
    requires Pg.CommentsListed(t, p, x) && Arranges(ids, Dy.CommentIds(s, q), Dy.CommentTimes(s, q))
    ensures CommentsAlike(t, s, m, p, x, q, y)
  {
    CommentsArranged(t, s, m, p, x, q, ids);
    assert CommentsOk(t, s, m);
    assert forall i :: 0 <= i < |x| ==> x[i] in t.comments by { assert SameComments(t, m, p, x, ids); }
    assert |x| == |ids|;
    hide *;
    TimesShown(t, s, x, q, ids, y);
    PairedCommentsAlike(t, s, m, p, x, q, ids, y);
  }

  lemma TimesShown(t: Pg.Tables, s: Dy.Store, x: seq<int>, q: int, ids: seq<int>, y: seq<Dy.CommentView>)
    requires Dy.ShowsComments(s, q, ids, y) && |x| == |ids|
    requires forall i :: 0 <= i < |x| ==>
      x[i] in t.comments && TimeOf(Pg.CommentTimes(t), x[i]) == TimeOf(Dy.CommentTimes(s, q), ids[i])
    ensures forall i :: 0 <= i < |x| ==> t.comments[x[i]].created == y[i].row.created
  {
    forall i | 0 <= i < |x| ensures t.comments[x[i]].created == y[i].row.created {
      assert ids[i] in Dy.CommentIds(s, q);
    }
  }

  /** Whatever order each store gives to equal times. */
  lemma GetCommentsSame(
    t: Pg.Tables, s: Dy.Store, m: Renaming, p: int, x: seq<int>, q: int, y: seq<Dy.CommentView>)
    requires Same(t, s, m) && SameId(m.posts, p, q)
    requires Pg.CommentsListed(t, p, x) && Dy.ListsComments(s, q, y) && Dy.OldestFirst(y)
    ensures CommentsAlike(t, s, m, p, x, q, y)
  {
    var b, bt := Dy.CommentIds(s, q), Dy.CommentTimes(s, q);
    var ids := seq(|y|, i requires 0 <= i < |y| => y[i].id);
    Dy.ListedIds(s, q, y, ids);
    if Pair(m.posts, p, q) {
      PairedCommentsArranged(t, s, m, p, x, q, ids, y);
    } else {
      NoCommentsYet(t, s, m, p);
      ArrangesMembers(x, Pg.CommentsOn(t, p), Pg.CommentTimes(t));
      assert forall k :: k in s.comments ==> k.0 != q;
      NoMembers(b);
      ArrangesMembers(ids, b, bt);
    }
  }

  // ---- Pages ----

  predicate SamePostView(t: Pg.Tables, m: Renaming, p: int, v: Dy.PostView) {
    Pair(m.posts, p, v.id) && p in t.posts && SamePost(t, p, v.row)
  }

  lemma PostViewSame(t: Pg.Tables, s: Dy.Store, m: Renaming, p: int, v: Dy.PostView)
    requires PostsOk(t, s, m) && Pair(m.posts, p, v.id) && v.id in s.posts && v.row == s.posts[v.id]
    ensures SamePostView(t, m, p, v)
  {
    assert PostMatches(t, p, s, v.id);
  }

  /** The two lists show the same times, and the same posts place by place when no two times are equal. */
  ghost predicate PostsAlike(t: Pg.Tables, s: Dy.Store, m: Renaming, x: seq<int>, y: seq<Dy.PostView>) {
    && |x| == |y|
    && (forall i :: 0 <= i < |x| ==> x[i] in t.posts && t.posts[x[i]].created == y[i].row.created)
    && (DistinctTimes(Dy.Times(s.posts)) ==> forall i :: 0 <= i < |x| ==> SamePostView(t, m, x[i], y[i]))
  }

  lemma SelectedRowsSame(t: Pg.Tables, s: Dy.Store, m: Renaming, filter: Option<string>)
    requires Same(t, s, m) && filter != Some("")
    ensures SameRows(m.posts, Pg.SelectedIds(t, filter), Pg.PostTimes(t), Dy.SelectedIds(s.posts, filter),
        Dy.Times(s.posts))
  {
    var a, b := Pg.SelectedIds(t, filter), Dy.SelectedIds(s.posts, filter);
    forall p, q | Pair(m.posts, p, q) ensures SameRow(a, Pg.PostTimes(t), p, b, Dy.Times(s.posts), q) {
      assert PostMatches(t, p, s, q);
    }
  }

  /** The whole lists of both stores. */
  lemma ListsAlike(
    t: Pg.Tables, s: Dy.Store, m: Renaming, filter: Option<string>, x: seq<int>, y: seq<int>, all: seq<Dy.PostView>)
    requires Same(t, s, m) && filter != Some("")
    requires Arranges(x, Pg.SelectedIds(t, filter), Pg.PostTimes(t)) && Dy.ListsPosts(s, filter, y, all)
    ensures PostsAlike(t, s, m, Reverse(x), all)
  {
    var a, at, b, bt := Pg.SelectedIds(t, filter), Pg.PostTimes(t), Dy.SelectedIds(s.posts, filter), Dy.Times(s.posts);
    SelectedRowsSame(t, s, m, filter);
    ArrangedAlike(m.posts, a, at, x, b, bt, y);
    assert b <= bt.Keys;
    assert PostsOk(t, s, m);
    hide SameRows, Arranges, Same, PostsOk, SamePostView;
    forall i | 0 <= i < |x|
      ensures Reverse(x)[i] in t.posts && t.posts[Reverse(x)[i]].created == all[i].row.created
      ensures DistinctTimes(bt) ==> SamePostView(t, m, Reverse(x)[i], all[i])
    {
      var j := |x| - 1 - i;
      assert Reverse(x)[i] == x[j] && Reverse(y)[i] == y[j];
      assert TimeOf(at, x[j]) == TimeOf(bt, y[j]);
      if DistinctTimes(bt) {
        assert Renamed(m.posts, x)[j] == y[j];
        PostViewSame(t, s, m, x[j], all[i]);
      }
    }
  }

  /** A page is cut from the same place of both lists. The totals agree exactly when the page starts inside the list
      or the list is empty: past the last page PostgreSQL reports 0. */
  lemma ListPostsSame(
    t: Pg.Tables, s: Dy.Store, m: Renaming, page: nat, size: nat, filter: Option<string>,
    x: seq<int>, total: nat, y: seq<Dy.PostView>, total': nat)
    requires Same(t, s, m) && page >= 1 && size >= 1 && filter != Some("")
    requires Pg.PageListed(t, page, size, filter, x, total) && Dy.PageOf(s, page, size, filter, y, total')
    ensures PostsAlike(t, s, m, x, y)
    ensures total' == |Dy.SelectedIds(s.posts, filter)|
    ensures total == total' <==> Offset(page, size) < total' || total' == 0
  {
    var oldest :| Arranges(oldest, Pg.SelectedIds(t, filter), Pg.PostTimes(t))
      && x == Slice(Reverse(oldest), Offset(page, size), size) && total == if x == [] then 0 else |oldest|;
    var ids, all :| Dy.ListsPosts(s, filter, ids, all) && y == Slice(all, Offset(page, size), size) && total' == |all|;
    ListsAlike(t, s, m, filter, oldest, ids, all);
    ArrangesMembers(ids, Dy.SelectedIds(s.posts, filter), Dy.Times(s.posts));
    hide *;
    SlicesAlike(t, s, m, Reverse(oldest), all, Offset(page, size), size);
  }

  lemma SlicesAlike(
    t: Pg.Tables, s: Dy.Store, m: Renaming, x: seq<int>, y: seq<Dy.PostView>, start: nat, size: nat)
    requires PostsAlike(t, s, m, x, y) && size >= 1
    ensures PostsAlike(t, s, m, Slice(x, start, size), Slice(y, start, size))
    ensures Slice(x, start, size) == [] <==> start >= |y|
  {
    SliceAt(x, start, size);
    SliceAt(y, start, size);
    hide Slice, SamePostView;
  }

  /** Past the last page of a list that is not empty the totals differ: PostgreSQL reports 0. */
  lemma PastLastPageDiffers(
    t: Pg.Tables, s: Dy.Store, m: Renaming, page: nat, size: nat, filter: Option<string>,
    x: seq<int>, total: nat, y: seq<Dy.PostView>, total': nat)
    requires Same(t, s, m) && page >= 1 && size >= 1 && filter != Some("")
    requires Pg.PageListed(t, page, size, filter, x, total) && Dy.PageOf(s, page, size, filter, y, total')
    requires Offset(page, size) >= total' > 0
    ensures x == [] && y == [] && total == 0
  {
    ListPostsSame(t, s, m, page, size, filter, x, total, y, total');
    var ids, all :| Dy.ListsPosts(s, filter, ids, all) && y == Slice(all, Offset(page, size), size) && total' == |all|;
    hide Same, Offset, Dy.ListsPosts;
  }

  /** One post is enough: on its second page, of any size, the totals are 0 and 1. */
  lemma SecondPageDiffers(
    author: string, title: string, body: string, postType: string, now: int, size: nat)
    requires size >= 1
    ensures var t := Pg.CreatePost(Pg.EMPTY, author, title, body, postType, now).0;
      var s := Dy.CreatePost(Dy.EMPTY, author, title, body, postType, now).0;
      && (forall x, total :: Pg.PageListed(t, 2, size, None, x, total) ==> total == 0)
      && (forall y, total :: Dy.PageOf(s, 2, size, None, y, total) ==> total == 1)
  {
    var t := Pg.CreatePost(Pg.EMPTY, author, title, body, postType, now).0;
    var s := Dy.CreatePost(Dy.EMPTY, author, title, body, postType, now).0;
    EmptyStoresSame();
    CreatePostSame(Pg.EMPTY, Dy.EMPTY, Renaming([], []), author, title, body, postType, now);
    EmptySelectsAll(s, None);
    assert s.posts.Keys == {1};
    assert Offset(2, size) == size;
    var m := WithPost(Renaming([], []), 1);
    PostCountsSame(t, s, m);
    hide Same;
    forall x, total | Pg.PageListed(t, 2, size, None, x, total) ensures total == 0 {
      var oldest :| Arranges(oldest, Pg.SelectedIds(t, None), Pg.PostTimes(t))
        && x == Slice(Reverse(oldest), Offset(2, size), size) && total == if x == [] then 0 else |oldest|;
      SameSet(Pg.SelectedIds(t, None), t.posts.Keys);
      ArrangesMembers(oldest, Pg.SelectedIds(t, None), Pg.PostTimes(t));
    }
    forall y, total | Dy.PageOf(s, 2, size, None, y, total) ensures total == 1 {
      var ids, all :| Dy.ListsPosts(s, None, ids, all) && total == |all|;
      ArrangesMembers(ids, Dy.SelectedIds(s.posts, None), Dy.Times(s.posts));
    }
  }

  // ---- The empty filter ----

  /** The two stores select the same posts. */
  ghost predicate SelectAlike(t: Pg.Tables, s: Dy.Store, m: Renaming, filter: Option<string>) {
    forall p, q :: Pair(m.posts, p, q) ==> (p in Pg.SelectedIds(t, filter) <==> q in Dy.SelectedIds(s.posts, filter))
  }

  /** An empty filter is no filter to DynamoDB and an empty type to PostgreSQL: the stores select alike exactly when
      every post has the empty type. */
  lemma EmptyFilterExactly(t: Pg.Tables, s: Dy.Store, m: Renaming)
    requires Same(t, s, m)
    ensures SelectAlike(t, s, m, Some("")) <==> forall q :: q in s.posts ==> s.posts[q].postType == ""
  {
    forall p, q | Pair(m.posts, p, q)
      ensures (p in Pg.SelectedIds(t, Some("")) <==> q in Dy.SelectedIds(s.posts, Some("")))
        <==> (q in s.posts ==> s.posts[q].postType == "")
    {
      assert PostMatches(t, p, s, q);
    }
    forall q | q in s.posts ensures exists p :: Pair(m.posts, p, q) {
      var j :| 0 <= j < |m.posts| && m.posts[j] == q;
      assert Pair(m.posts, j + 1, q);
    }
  }

  lemma EmptySelectsAll(s: Dy.Store, filter: Option<string>)
    requires filter == None || filter == Some("")
    ensures Dy.SelectedIds(s.posts, filter) == s.posts.Keys
  {
    forall q ensures q in Dy.SelectedIds(s.posts, filter) <==> q in s.posts {
      assert q in s.posts ==> Dy.Selects(filter, s.posts[q].postType);
    }
    SameSet(Dy.SelectedIds(s.posts, filter), s.posts.Keys);
  }

  lemma PostCountsSame(t: Pg.Tables, s: Dy.Store, m: Renaming)
    requires Same(t, s, m)
    ensures |t.posts.Keys| == |s.posts.Keys|
  {
    var a, at, b, bt := t.posts.Keys, Pg.PostTimes(t), s.posts.Keys, Dy.Times(s.posts);
    EmptySelectsAll(s, None);
    SameSet(Pg.SelectedIds(t, None), a);
    SelectedRowsSame(t, s, m, None);
    CreationOrderArranges(a, at);
    CreationOrderArranges(b, bt);
    hide Same, SameRows, Arranges, ByTime;
    ArrangedAlike(m.posts, a, at, ByTime(a, at), b, bt, ByTime(b, bt));
    ArrangesMembers(ByTime(a, at), a, at);
    ArrangesMembers(ByTime(b, bt), b, bt);
  }

  lemma UntypedExactly(t: Pg.Tables, s: Dy.Store, m: Renaming)
    requires Same(t, s, m)
    ensures Pg.SelectedIds(t, Some("")) == t.posts.Keys <==> forall q :: q in s.posts ==> s.posts[q].postType == ""
  {
    hide CommentsOk, ThumbsOk;
    var chosen := Pg.SelectedIds(t, Some(""));
    if forall q :: q in s.posts ==> s.posts[q].postType == "" {
      forall p | p in t.posts ensures p in chosen {
        assert Pair(m.posts, p, m.posts[p - 1]) && PostMatches(t, p, s, m.posts[p - 1]);
      }
      SameSet(chosen, t.posts.Keys);
    }
    if chosen == t.posts.Keys {
      forall q | q in s.posts ensures s.posts[q].postType == "" {
        var j :| 0 <= j < |m.posts| && m.posts[j] == q;
        assert Pair(m.posts, j + 1, q) && PostMatches(t, j + 1, s, q);
        assert j + 1 in chosen;
      }
    }
  }

  /** A first page long enough to show everything has the same total in both stores exactly when no post has a type. */
  lemma EmptyFilterAnswers(
    t: Pg.Tables, s: Dy.Store, m: Renaming, size: nat,
    x: seq<int>, total: nat, y: seq<Dy.PostView>, total': nat)
    requires Same(t, s, m) && size >= 1
    requires Pg.PageListed(t, 1, size, Some(""), x, total) && Dy.PageOf(s, 1, size, Some(""), y, total')
    ensures total == total' <==> forall q :: q in s.posts ==> s.posts[q].postType == ""
  {
    EmptySelectsAll(s, Some(""));
    PostCountsSame(t, s, m);
    UntypedExactly(t, s, m);
    var oldest :| Arranges(oldest, Pg.SelectedIds(t, Some("")), Pg.PostTimes(t))
      && x == Slice(Reverse(oldest), Offset(1, size), size) && total == if x == [] then 0 else |oldest|;
    var ids, all :| Dy.ListsPosts(s, Some(""), ids, all) && y == Slice(all, Offset(1, size), size) && total' == |all|;
    ArrangesMembers(oldest, Pg.SelectedIds(t, Some("")), Pg.PostTimes(t));
    ArrangesMembers(ids, Dy.SelectedIds(s.posts, Some("")), Dy.Times(s.posts));
    SliceAt(Reverse(oldest), Offset(1, size), size);
    assert total == |Pg.SelectedIds(t, Some(""))| && total' == |t.posts.Keys|;
    hide Arranges, Slice, Same, Dy.ListsPosts;
    if total == total' {
      SameSize(Pg.SelectedIds(t, Some("")), t.posts.Keys);
    }
  }

  /** One post with a type is enough: an empty filter finds it in DynamoDB and not in PostgreSQL. */
  lemma TypedPostDiffers(author: string, title: string, body: string, postType: string, now: int)
    requires postType != ""
    ensures var t := Pg.CreatePost(Pg.EMPTY, author, title, body, postType, now).0;
      var s := Dy.CreatePost(Dy.EMPTY, author, title, body, postType, now).0;
      Same(t, s, Renaming([1], [])) && !SelectAlike(t, s, Renaming([1], []), Some(""))
  {
    EmptyStoresSame();
    CreatePostSame(Pg.EMPTY, Dy.EMPTY, Renaming([], []), author, title, body, postType, now);
    var t := Pg.CreatePost(Pg.EMPTY, author, title, body, postType, now).0;
    var s := Dy.CreatePost(Dy.EMPTY, author, title, body, postType, now).0;
    assert WithPost(Renaming([], []), 1) == Renaming([1], []);
    EmptyFilterExactly(t, s, Renaming([1], []));
    assert 1 in s.posts && s.posts[1].postType == postType;
  }
}
