/** Interleaved DynamoDB writers against PostgreSQL: together, the two main simulations. */
module InterleavedBoards {
  import opened Options
  import opened Community
  import opened Simulation
  import opened SequentialOrder
  import Interleaving
  import Dy = DynamoStore
  import Pg = PostgresStore

  /** One operation on the tables, with PostgreSQL's ids. */
  datatype PgWork =
    | PgVote(p: int, voter: string, d: Direction)
    | PgComment(p: int, author: string, body: string, parent: Option<int>, now: int)
    | PgPost(author: string, title: string, body: string, postType: string, now: int)
    | PgDelete(p: int, user: string)

  function PgDo(t: Pg.Tables, w: PgWork): Pg.Tables {
    match w
    case PgVote(p, voter, d) => Pg.Toggle(t, p, voter, d).0
    case PgComment(p, author, body, parent, now) => Pg.CreateComment(t, p, author, body, parent, now).0
    case PgPost(author, title, body, postType, now) => Pg.CreatePost(t, author, title, body, postType, now).0
    case PgDelete(p, user) => Pg.DeletePost(t, p, user).0
  }

  function PgDoAll(t: Pg.Tables, works: seq<PgWork>): Pg.Tables
    decreases |works|
  {
    if works == [] then t else PgDoAll(PgDo(t, works[0]), works[1..])
  }

  /** The same operation, with each store's own ids. */
  predicate SameWork(m: Renaming, x: PgWork, w: Work) {
    match w
    case Vote(p, voter, d) => x.PgVote? && SameId(m.posts, x.p, p) && (x.voter, x.d) == (voter, d)
    case Comment(v) =>
      && x.PgComment? && SameId(m.posts, x.p, v.postId) && SameParent(m.comments, x.parent, v.row.parent)
      && (x.author, x.body, x.now) == (v.row.author, v.row.body, v.row.created)
    case Post(v) => x == PgPost(v.row.author, v.row.title, v.row.body, v.row.postType, v.row.created)
    case Delete(p, user) => x.PgDelete? && SameId(m.posts, x.p, p) && x.user == user
  }

  /** PostgreSQL's id for a DynamoDB id, or one never issued. */
  lemma IdFor(ids: seq<int>, q: int) returns (p: int)
    ensures SameId(ids, p, q)
  {
    if q in ids {
      var j :| 0 <= j < |ids| && ids[j] == q;
      return j + 1;
    }
    return 0;
  }

  lemma WorkFor(m: Renaming, w: Work) returns (x: PgWork)
    ensures SameWork(m, x, w)
  {
    match w
    case Vote(p, voter, d) =>
      var q := IdFor(m.posts, p);
      return PgVote(q, voter, d);
    case Comment(v) =>
      var p := IdFor(m.posts, v.postId);
      var parent: Option<int> := None;
      if v.row.parent.Some? {
        var c := IdFor(m.comments, v.row.parent.value);
        parent := Some(c);
      }
      return PgComment(p, v.row.author, v.row.body, parent, v.row.created);
    case Post(v) => return PgPost(v.row.author, v.row.title, v.row.body, v.row.postType, v.row.created);
    case Delete(p, user) =>
      var q := IdFor(m.posts, p);
      return PgDelete(q, user);
  }

  function GrownBy(m: Renaming, w: Work): Renaming {
    match w
    case Comment(v) => WithComment(m, v.id)
    case Post(v) => WithPost(m, v.id)
    case _ => m
  }

  lemma WorkSame(t: Pg.Tables, s: Dy.Store, m: Renaming, x: PgWork, w: Work)
    requires Same(t, s, m) && Answers(s, w) && SameWork(m, x, w)
    ensures Same(PgDo(t, x), Do(s, w), GrownBy(m, w))
  {
    match w
    case Vote(p, voter, d) => ToggleSame(t, s, m, x.p, p, voter, d);
    case Comment(v) =>
      CreateCommentSame(t, s, m, x.p, v.postId, x.author, x.body, x.parent, v.row.parent, x.now);
    case Post(v) => CreatePostSame(t, s, m, x.author, x.title, x.body, x.postType, x.now);
    case Delete(p, user) => DeleteSame(t, s, m, x.p, p, user);
  }

  /** A PostgreSQL run that follows a sequential DynamoDB run. */
  ghost predicate Follows(m: Renaming, xs: seq<PgWork>, works: seq<Work>)
    decreases |works|
  {
    |xs| == |works| && (works == [] || (SameWork(m, xs[0], works[0])
        && Follows(GrownBy(m, works[0]), xs[1..], works[1..])))
  }

  lemma {:induction false} RunFollowed(t: Pg.Tables, s: Dy.Store, m: Renaming, works: seq<Work>)
    returns (xs: seq<PgWork>, m': Renaming)
    requires Same(t, s, m) && AllAnswer(s, works)
    ensures Follows(m, xs, works) && Same(PgDoAll(t, xs), DoAll(s, works), m')
    decreases |works|
  {
    if works == [] {
      return [], m;
    }
    var x := WorkFor(m, works[0]);
    WorkSame(t, s, m, x, works[0]);
    hide Same, SameWork, Do, PgDo;
    var rest;
    rest, m' := RunFollowed(PgDo(t, x), Do(s, works[0]), GrownBy(m, works[0]), works[1..]);
    xs := [x] + rest;
  }

  /** Whatever the interleaving, once every call has returned DynamoDB holds the board that PostgreSQL holds after the
      same operations, one after another in the order in which they took effect. */
  lemma InterleavingsAreBoards(actions: seq<Interleaving.Action>) returns (xs: seq<PgWork>, m: Renaming)
    requires var sys := Interleaving.System(Dy.EMPTY, []);
      && Interleaving.AllAdmissible(sys, actions)
      && forall i :: 0 <= i < |Interleaving.Run(sys, actions).tasks| ==>
          Interleaving.Run(sys, actions).tasks[i].Finished?
    ensures var sys := Interleaving.System(Dy.EMPTY, []);
      && Follows(Renaming([], []), xs, Effects(sys, actions))
      && Same(PgDoAll(Pg.EMPTY, xs), Interleaving.Run(sys, actions).store, m)
  {
    Interleaving.EmptyIsValid();
    EveryRunIsSequential(Dy.EMPTY, actions);
    EmptyStoresSame();
    var works := Effects(Interleaving.System(Dy.EMPTY, []), actions);
    hide Same;
    xs, m := RunFollowed(Pg.EMPTY, Dy.EMPTY, Renaming([], []), works);
  }
}
