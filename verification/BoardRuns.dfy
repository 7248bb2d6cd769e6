/** Sequential runs of the whole repository interface on both stores at once. */
module BoardRuns {
  import opened Options
  import opened Community
  import opened Simulation
  import Dy = DynamoStore
  import Pg = PostgresStore

  datatype Op =
    | CreatePost(author: string, title: string, body: string, postType: string, now: int)
    | DeletePost(p: int, user: string)
    | CreateComment(p: int, author: string, body: string, parent: Option<int>, now: int)
    | ToggleThumb(p: int, voter: string, d: Direction)
    | ReadPost(p: int)
    | ReadComments(p: int)
    | ListPosts(page: nat, size: nat, filter: Option<string>)
  {
    /** The router checks page numbers and sizes; an empty filter is a known difference. */
    predicate Proper() {
      ListPosts? ==> page >= 1 && size >= 1 && filter != Some("")
    }
  }

  datatype Answer<P, C> =
    | NewPost(post: P)
    | NewComment(comment: C)
    | OnePost(post: P)
    | Refused(error: Error)
    | Voted(counts: Counts)
    | Deleted
    | Comments(comments: seq<C>)
    | Page(posts: seq<P>, total: nat)

  /** The tables after an operation. */
  function PgNext(t: Pg.Tables, op: Op): Pg.Tables {
    match op
    case CreatePost(author, title, body, postType, now) => Pg.CreatePost(t, author, title, body, postType, now).0
    case DeletePost(p, user) => Pg.DeletePost(t, p, user).0
    case CreateComment(p, author, body, parent, now) => Pg.CreateComment(t, p, author, body, parent, now).0
    case ToggleThumb(p, voter, d) => Pg.Toggle(t, p, voter, d).0
    case _ => t
  }

  /** What PostgreSQL may answer; it may give rows of equal time in any order. */
  ghost predicate PgMay(t: Pg.Tables, op: Op, x: Answer<int, int>)
    requires op.Proper()
  {
    match op
    case CreatePost(author, title, body, postType, now) =>
      x == NewPost(Pg.CreatePost(t, author, title, body, postType, now).1)
    case DeletePost(p, user) =>
      var r := Pg.DeletePost(t, p, user).1; x == if r.Ok? then Deleted else Refused(r.error)
    case CreateComment(p, author, body, parent, now) =>
      var r := Pg.CreateComment(t, p, author, body, parent, now).1;
      x == if r.Ok? then NewComment(r.value) else Refused(r.error)
    case ToggleThumb(p, voter, d) =>
      var r := Pg.Toggle(t, p, voter, d).1; x == if r.Ok? then Voted(r.value) else Refused(r.error)
    case ReadPost(p) => x == if p in t.posts then OnePost(p) else Refused(PostNotFound)
    case ReadComments(p) => x.Comments? && Pg.CommentsListed(t, p, x.comments)
    case ListPosts(page, size, filter) => x.Page? && Pg.PageListed(t, page, size, filter, x.posts, x.total)
  }

  function DyNext(s: Dy.Store, op: Op): Dy.Store {
    match op
    case CreatePost(author, title, body, postType, now) => Dy.CreatePost(s, author, title, body, postType, now).0
    case DeletePost(p, user) => Dy.DeletePost(s, p, user).0
    case CreateComment(p, author, body, parent, now) => Dy.CreateComment(s, p, author, body, parent, now).0
    case ToggleThumb(p, voter, d) => Dy.Toggle(s, p, voter, d).0
    case _ => s
  }

  /** What DynamoDB may answer; its order of rows of equal time is left open too. */
  ghost predicate DyMay(s: Dy.Store, op: Op, y: Answer<Dy.PostView, Dy.CommentView>)
    requires op.Proper()
  {
    match op
    case CreatePost(author, title, body, postType, now) =>
      y == NewPost(Dy.CreatePost(s, author, title, body, postType, now).1)
    case DeletePost(p, user) =>
      var r := Dy.DeletePost(s, p, user).1; y == if r.Ok? then Deleted else Refused(r.error)
    case CreateComment(p, author, body, parent, now) =>
      var r := Dy.CreateComment(s, p, author, body, parent, now).1;
      y == if r.Ok? then NewComment(r.value) else Refused(r.error)
    case ToggleThumb(p, voter, d) =>
      var r := Dy.Toggle(s, p, voter, d).1; y == if r.Ok? then Voted(r.value) else Refused(r.error)
    case ReadPost(p) => var r := Dy.GetPost(s, p); y == if r.Ok? then OnePost(r.value) else Refused(r.error)
    case ReadComments(p) => y.Comments? && Dy.ListsComments(s, p, y.comments) && Dy.OldestFirst(y.comments)
    case ListPosts(page, size, filter) => y.Page? && Dy.PageOf(s, page, size, filter, y.posts, y.total)
  }

  /** The same request, with each store's own ids. */
  predicate SameOp(m: Renaming, a: Op, b: Op) {
    && a.Proper() && b.Proper()
    && match a
       case DeletePost(p, user) => b.DeletePost? && SameId(m.posts, p, b.p) && b.user == user
       case CreateComment(p, author, body, parent, now) =>
         && b.CreateComment? && SameId(m.posts, p, b.p) && SameParent(m.comments, parent, b.parent)
         && b == CreateComment(b.p, author, body, b.parent, now)
       case ToggleThumb(p, voter, d) => b.ToggleThumb? && SameId(m.posts, p, b.p) && b == ToggleThumb(b.p, voter, d)
       case ReadPost(p) => b.ReadPost? && SameId(m.posts, p, b.p)
       case ReadComments(p) => b.ReadComments? && SameId(m.posts, p, b.p)
       case _ => a == b
  }

  /** The same answer, read through the renaming after the operation. */
  ghost predicate SameAnswer(
    t: Pg.Tables, s: Dy.Store, m: Renaming, a: Op, b: Op, x: Answer<int, int>, y: Answer<Dy.PostView, Dy.CommentView>)
  {
    match x
    case NewPost(p) => y.NewPost? && SamePostView(t, m, p, y.post)
    case NewComment(c) =>
      y.NewComment? && a.CreateComment? && b.CreateComment? && SameView(t, m, a.p, c, b.p, y.comment)
    case OnePost(p) => y.OnePost? && SamePostView(t, m, p, y.post)
    case Refused(e) => y == Refused(e)
    case Voted(counts) => y == Voted(counts)
    case Deleted => y == Deleted
    case Comments(list) =>
      y.Comments? && a.ReadComments? && b.ReadComments? && CommentsAlike(t, s, m, a.p, list, b.p, y.comments)
    case Page(posts, total) =>
      && y.Page? && a.ListPosts? && a.page >= 1 && PostsAlike(t, s, m, posts, y.posts)
      && (total == y.total <==> Offset(a.page, a.size) < y.total || y.total == 0)
  }

  /** The renaming grows with each id DynamoDB hands out. */
  function Grown(m: Renaming, y: Answer<Dy.PostView, Dy.CommentView>): Renaming {
    match y
    case NewPost(v) => WithPost(m, v.id)
    case NewComment(v) => WithComment(m, v.id)
    case _ => m
  }

  lemma NewPostAgrees(
    t: Pg.Tables, s: Dy.Store, m: Renaming, a: Op, x: Answer<int, int>, y: Answer<Dy.PostView, Dy.CommentView>)
    requires Same(t, s, m) && a.CreatePost? && PgMay(t, a, x) && DyMay(s, a, y)
    ensures Same(PgNext(t, a), DyNext(s, a), Grown(m, y))
    ensures SameAnswer(PgNext(t, a), DyNext(s, a), Grown(m, y), a, a, x, y)
  {
    CreatePostSame(t, s, m, a.author, a.title, a.body, a.postType, a.now);
    var (s', v) := Dy.CreatePost(s, a.author, a.title, a.body, a.postType, a.now);
    var (t', p) := Pg.CreatePost(t, a.author, a.title, a.body, a.postType, a.now);
    PostViewSame(t', s', WithPost(m, v.id), p, v);
    hide SamePostView, Same;
  }

  lemma NewCommentAgrees(
    t: Pg.Tables, s: Dy.Store, m: Renaming, a: Op, b: Op, x: Answer<int, int>, y: Answer<Dy.PostView, Dy.CommentView>)
    requires Same(t, s, m) && a.CreateComment? && SameOp(m, a, b) && PgMay(t, a, x) && DyMay(s, b, y)
    ensures Same(PgNext(t, a), DyNext(s, b), Grown(m, y))
    ensures SameAnswer(PgNext(t, a), DyNext(s, b), Grown(m, y), a, b, x, y)
  {
    CreateCommentSame(t, s, m, a.p, b.p, a.author, a.body, a.parent, b.parent, a.now);
    SamePostPresent(t, s, m, a.p, b.p);
    var (t', r) := Pg.CreateComment(t, a.p, a.author, a.body, a.parent, a.now);
    var (s', q) := Dy.CreateComment(s, b.p, a.author, a.body, b.parent, a.now);
    if q.Ok? {
      ViewSame(t', s', WithComment(m, q.value.id), a.p, b.p, r.value, q.value);
    }
    hide Same, SameView;
  }

  /** One operation made to both stores keeps them the same board, and whatever each may answer is the same answer. */
  lemma OpSame(
    t: Pg.Tables, s: Dy.Store, m: Renaming, a: Op, b: Op, x: Answer<int, int>, y: Answer<Dy.PostView, Dy.CommentView>)
    requires Same(t, s, m) && SameOp(m, a, b) && PgMay(t, a, x) && DyMay(s, b, y)
    ensures Same(PgNext(t, a), DyNext(s, b), Grown(m, y))
    ensures SameAnswer(PgNext(t, a), DyNext(s, b), Grown(m, y), a, b, x, y)
  {
    match a
    case CreatePost(_, _, _, _, _) => NewPostAgrees(t, s, m, a, x, y);
    case DeletePost(p, user) => DeleteSame(t, s, m, p, b.p, user);
    case CreateComment(_, _, _, _, _) => NewCommentAgrees(t, s, m, a, b, x, y);
    case ToggleThumb(p, voter, d) => ToggleSame(t, s, m, p, b.p, voter, d);
    case ReadPost(p) => SamePostPresent(t, s, m, p, b.p);
    case ReadComments(p) => GetCommentsSame(t, s, m, p, x.comments, b.p, y.comments);
    case ListPosts(page, size, filter) =>
      ListPostsSame(t, s, m, page, size, filter, x.posts, x.total, y.posts, y.total);
  }

  /** One request made to both stores, and what each answered. */
  datatype Exchange = Exchange(a: Op, b: Op, x: Answer<int, int>, y: Answer<Dy.PostView, Dy.CommentView>)

  /** A run in which both stores get the same requests, each with its own ids, and answer as they may. */
  ghost predicate Served(t: Pg.Tables, s: Dy.Store, m: Renaming, run: seq<Exchange>)
    decreases |run|
  {
    run == [] ||
    var e := run[0];
    && SameOp(m, e.a, e.b) && PgMay(t, e.a, e.x) && DyMay(s, e.b, e.y)
    && Served(PgNext(t, e.a), DyNext(s, e.b), Grown(m, e.y), run[1..])
  }

  ghost predicate SameAnswers(t: Pg.Tables, s: Dy.Store, m: Renaming, run: seq<Exchange>)
    decreases |run|
  {
    run == [] ||
    var e := run[0];
    var (t', s', m') := (PgNext(t, e.a), DyNext(s, e.b), Grown(m, e.y));
    SameAnswer(t', s', m', e.a, e.b, e.x, e.y) && SameAnswers(t', s', m', run[1..])
  }

  /** Every run of equal requests gets equal answers from the two stores. */
  lemma {:induction false} EveryRunSame(t: Pg.Tables, s: Dy.Store, m: Renaming, run: seq<Exchange>)
    requires Same(t, s, m) && Served(t, s, m, run)
    ensures SameAnswers(t, s, m, run)
    decreases |run|
  {
    if run != [] {
      var e := run[0];
      OpSame(t, s, m, e.a, e.b, e.x, e.y);
      hide Same, SameAnswer, SameOp, PgMay, DyMay, PgNext, DyNext, Grown;
      EveryRunSame(PgNext(t, e.a), DyNext(s, e.b), Grown(m, e.y), run[1..]);
    }
  }

  lemma StoresAgreeFromTheStart(run: seq<Exchange>)
    requires Served(Pg.EMPTY, Dy.EMPTY, Renaming([], []), run)
    ensures SameAnswers(Pg.EMPTY, Dy.EMPTY, Renaming([], []), run)
  {
    hide Served, SameAnswers;
    EmptyStoresSame();
    EveryRunSame(Pg.EMPTY, Dy.EMPTY, Renaming([], []), run);
  }
}
