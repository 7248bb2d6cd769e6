/**
 Every admissible interleaving ends in the store of a sequential run: each operation
 takes effect at one of its table calls, a vote when it is written, a post or comment
 when it is numbered, a delete when it has found the post.
 */
module SequentialOrder {
  import opened Options
  import opened Community
  import opened DynamoStore
  import opened Interleaving
  import SoloRuns

  /** An operation that took effect, with the post or comment it answers. */
  datatype Work =
    | Vote(p: int, voter: string, d: Direction)
    | Comment(comment: CommentView)
    | Post(post: PostView)
    | Delete(p: int, user: string)

  /** What the operation does when it runs alone. */
  function Do(s: Store, w: Work): Store {
    match w
    case Vote(p, voter, d) => Toggle(s, p, voter, d).0
    case Comment(v) => CreateComment(s, v.postId, v.row.author, v.row.body, v.row.parent, v.row.created).0
    case Post(v) => CreatePost(s, v.row.author, v.row.title, v.row.body, v.row.postType, v.row.created).0
    case Delete(p, user) => DeletePost(s, p, user).0
  }

  /** Alone, the operation succeeds and answers the same post or comment. A delete may find its work done. */
  predicate Answers(s: Store, w: Work) {
    match w
    case Vote(p, voter, d) => p in s.posts
    case Comment(v) =>
      CreateComment(s, v.postId, v.row.author, v.row.body, v.row.parent, v.row.created).1 == Ok(v)
    case Post(v) => CreatePost(s, v.row.author, v.row.title, v.row.body, v.row.postType, v.row.created).1 == v
    case Delete(p, user) => DeletePost(s, p, user).1 != Err(NotOwner)
  }

  function DoAll(s: Store, works: seq<Work>): Store
    decreases |works|
  {
    if works == [] then s else DoAll(Do(s, works[0]), works[1..])
  }

  predicate AllAnswer(s: Store, works: seq<Work>)
    decreases |works|
  {
    works == [] || (Answers(s, works[0]) && AllAnswer(Do(s, works[0]), works[1..]))
  }

  /** The operation that takes effect at a step, if any. */
  function EffectOf(s: Store, t: Task, now: int): seq<Work> {
    match t
    case ToggleWrite(p, voter, d, _) => [Vote(p, voter, d)]
    case CommentNumber(p, author, body, parent) =>
      [Comment(CommentView(s.lastId + 1, p, CommentRow(parent, author, body, now)))]
    case PostNumber(author, title, body, postType) =>
      [Post(PostView(s.lastId + 1, PostRow(author, title, body, postType, now, 0, 0, 0)))]
    case DeleteStart(p, user) => if p in s.posts && s.posts[p].author == user then [Delete(p, user)] else []
    case _ => []
  }

  /** The operations of a run in the order in which they take effect. */
  ghost function Effects(sys: System, actions: seq<Action>): seq<Work>
    requires AllAdmissible(sys, actions)
    decreases |actions|
  {
    if actions == [] then []
    else
      (if actions[0].Start? then [] else EffectOf(sys.store, sys.tasks[actions[0].i], actions[0].now))
      + Effects(Act(sys, actions[0]), actions[1..])
  }

  // ---- The store as if every effect were complete ----

  /** A post or comment that has its number and is not yet stored. */
  datatype Late = LateComment(p: int, id: int, comment: CommentRow) | LatePost(p: int, post: PostRow)

  function LateOf(t: Task): Option<Late> {
    match t
    case CommentPut(p, w) => Some(LateComment(p, w.id, w.row))
    case PostPut(post) => Some(LatePost(post.id, post.row))
    case _ => None
  }

  ghost predicate IsLate(tasks: seq<Task>, l: Late) {
    exists i :: 0 <= i < |tasks| && LateOf(tasks[i]) == Some(l)
  }

  function BareAt(s: Store, p: int): Option<PostRow> {
    if p in s.posts then Some(Bare(s.posts[p])) else None
  }

  ghost predicate PostShown(sys: System, b: Store, p: int, row: PostRow) {
    BareAt(b, p) == Some(row) <==>
      !Removing(sys.tasks, p) && (BareAt(sys.store, p) == Some(row) || IsLate(sys.tasks, LatePost(p, row)))
  }

  ghost predicate CommentShown(sys: System, b: Store, k: (int, int), row: CommentRow) {
    Lookup(b.comments, k) == Some(row) <==>
      && !Removing(sys.tasks, k.0)
      && (Lookup(sys.store.comments, k) == Some(row) || IsLate(sys.tasks, LateComment(k.0, k.1, row)))
  }

  ghost predicate VoteShown(sys: System, b: Store, k: VoteKey) {
    Lookup(b.thumbs, k) == if Removing(sys.tasks, k.0) then None else Lookup(sys.store.thumbs, k)
  }

  /** `b` has what is stored or late and is not being removed. */
  ghost predicate Shows(sys: System, b: Store) {
    && b.lastId == sys.store.lastId
    && (forall p, row :: PostShown(sys, b, p, row))
    && (forall k, row :: CommentShown(sys, b, k, row))
    && (forall k :: VoteShown(sys, b, k))
  }

  /** A post under removal has been stored before, so its id is no longer late. */
  ghost predicate RemovalsFound(sys: System) {
    forall p :: Removing(sys.tasks, p) ==>
      p <= sys.store.lastId && forall i :: 0 <= i < |sys.tasks| && sys.tasks[i].PostPut? ==> sys.tasks[i].post.id != p
  }

  ghost predicate Complete(sys: System, b: Store) {
    Invariant(sys) && RemovalsFound(sys) && Shows(sys, b) && Valid(b)
  }

  // ---- How a step changes what is late and what is being removed ----

  lemma LateStep(tasks: seq<Task>, i: nat, t': Task, l: Late)
    requires i < |tasks|
    requires forall j, k :: 0 <= j < k < |tasks| ==> Pending(tasks[j]) == None || Pending(tasks[j]) != Pending(tasks[k])
    ensures IsLate(tasks[i := t'], l) <==>
      LateOf(t') == Some(l) || (IsLate(tasks, l) && LateOf(tasks[i]) != Some(l))
  {
    var tasks' := tasks[i := t'];
    if LateOf(t') == Some(l) {
      assert LateOf(tasks'[i]) == Some(l);
    }
    if IsLate(tasks', l) && LateOf(t') != Some(l) {
      var j :| 0 <= j < |tasks'| && LateOf(tasks'[j]) == Some(l);
      assert j != i && LateOf(tasks[j]) == Some(l);
      assert Pending(tasks[j]).Some?;
    }
    if IsLate(tasks, l) && LateOf(tasks[i]) != Some(l) {
      var j :| 0 <= j < |tasks| && LateOf(tasks[j]) == Some(l);
      assert LateOf(tasks'[j]) == Some(l);
    }
  }

  /** Removing a post starts with a successful check and may end with the post's own item. */
  lemma RemovingExactly(tasks: seq<Task>, i: nat, s: Store, now: int, p: int)
    requires i < |tasks|
    ensures var t, t' := tasks[i], Step(s, tasks[i], now).1;
      && (t.DeleteStart? && t.p == p && !t'.Finished? ==> Removing(tasks[i := t'], p))
      && (!(t.DeleteStart? && t.p == p && !t'.Finished?) && !(t.DeleteMeta? && t.p == p) ==>
        (Removing(tasks[i := t'], p) <==> Removing(tasks, p)))
      && (Deleting(t, p) ==> Removing(tasks, p))
  {
    RemovingStep(tasks, i, s, now, p);
    var t' := Step(s, tasks[i], now).1;
    if Deleting(t', p) {
      assert Deleting(tasks[i := t'][i], p);
    }
  }

  function After(sys: System, i: nat, s': Store, t': Task): System
    requires i < |sys.tasks|
  {
    System(s', sys.tasks[i := t'])
  }

  /** Outside effects, puts and removals a step writes nothing but counters. */
  lemma QuietStep(s: Store, t: Task, now: int)
    requires EffectOf(s, t, now) == [] && LateOf(t) == None
    requires !t.DeleteComments? && !t.DeleteThumbs? && !t.DeleteMeta?
    ensures var (s', t') := Step(s, t, now);
      && LateOf(t') == None
      && s'.comments == s.comments && s'.thumbs == s.thumbs && s'.lastId == s.lastId
      && (forall p :: BareAt(s', p) == BareAt(s, p))
      && (t.DeleteStart? ==> t'.Finished?)
  {
  }

  /** A step that writes nothing but counters shows the same. */
  lemma NothingShown(sys: System, b: Store, i: nat, now: int)
    requires Complete(sys, b) && i < |sys.tasks|
    requires var t := sys.tasks[i];
      && EffectOf(sys.store, t, now) == [] && LateOf(t) == None
      && !t.DeleteComments? && !t.DeleteThumbs? && !t.DeleteMeta?
    ensures var (s', t') := Step(sys.store, sys.tasks[i], now); Shows(After(sys, i, s', t'), b)
  {
    var t := sys.tasks[i];
    var (s', t') := Step(sys.store, t, now);
    var sys' := After(sys, i, s', t');
    QuietStep(sys.store, t, now);
    forall p ensures Removing(sys'.tasks, p) <==> Removing(sys.tasks, p) {
      RemovingExactly(sys.tasks, i, sys.store, now, p);
    }
    forall l ensures IsLate(sys'.tasks, l) <==> IsLate(sys.tasks, l) {
      LateStep(sys.tasks, i, t', l);
    }
    hide *;
    SameShown(sys, sys', b);
  }

  lemma SameShown(sys: System, sys': System, b: Store)
    requires Shows(sys, b)
    requires forall p :: Removing(sys'.tasks, p) <==> Removing(sys.tasks, p)
    requires forall l :: IsLate(sys'.tasks, l) <==> IsLate(sys.tasks, l)
    requires forall p :: BareAt(sys'.store, p) == BareAt(sys.store, p)
    requires sys'.store.comments == sys.store.comments && sys'.store.thumbs == sys.store.thumbs
    requires sys'.store.lastId == sys.store.lastId
    ensures Shows(sys', b)
  {
    hide Removing, IsLate, BareAt;
    forall p, row ensures PostShown(sys', b, p, row) {
      assert PostShown(sys, b, p, row);
    }
    forall k, row ensures CommentShown(sys', b, k, row) {
      assert CommentShown(sys, b, k, row);
    }
    forall k ensures VoteShown(sys', b, k) {
      assert VoteShown(sys, b, k);
    }
  }

  /** Storing what was late shows the same. */
  lemma PutShown(sys: System, b: Store, i: nat, now: int)
    requires Complete(sys, b) && i < |sys.tasks| && LateOf(sys.tasks[i]).Some?
    ensures var (s', t') := Step(sys.store, sys.tasks[i], now); Shows(After(sys, i, s', t'), b)
  {
    var t := sys.tasks[i];
    var (s', t') := Step(sys.store, t, now);
    var sys' := After(sys, i, s', t');
    var late := LateOf(t).value;
    assert TaskOk(sys.store, t);
    assert LateOf(t') == None;
    forall p ensures Removing(sys'.tasks, p) <==> Removing(sys.tasks, p) {
      RemovingExactly(sys.tasks, i, sys.store, now, p);
    }
    forall l ensures IsLate(sys'.tasks, l) <==> IsLate(sys.tasks, l) && l != late {
      LateStep(sys.tasks, i, t', l);
    }
    forall p, row
      ensures BareAt(s', p) == Some(row) <==> BareAt(sys.store, p) == Some(row) || late == LatePost(p, row) {}
    forall k: (int, int), row
      ensures Lookup(s'.comments, k) == Some(row)
        <==> Lookup(sys.store.comments, k) == Some(row) || late == LateComment(k.0, k.1, row) {}
    assert IsLate(sys.tasks, late);
    hide Removing, IsLate, Invariant, Valid, BareAt, Step, RemovalsFound, TaskOk;
    forall p, row ensures PostShown(sys', b, p, row) {
      assert PostShown(sys, b, p, row);
    }
    forall k, row ensures CommentShown(sys', b, k, row) {
      assert CommentShown(sys, b, k, row);
    }
    forall k ensures VoteShown(sys', b, k) {
      assert VoteShown(sys, b, k);
    }
  }

  /** Removing the records of a post that is not shown changes nothing that is. */
  lemma RemovalShown(sys: System, b: Store, i: nat, now: int)
    requires Complete(sys, b) && i < |sys.tasks|
    requires var t := sys.tasks[i]; t.DeleteComments? || t.DeleteThumbs? || t.DeleteMeta?
    ensures var (s', t') := Step(sys.store, sys.tasks[i], now); Shows(After(sys, i, s', t'), b)
  {
    var t := sys.tasks[i];
    var p := t.p;
    var (s', t') := Step(sys.store, t, now);
    var sys' := After(sys, i, s', t');
    assert TaskOk(sys.store, t);
    assert Deleting(t, p);
    RemovingExactly(sys.tasks, i, sys.store, now, p);
    forall q | q != p ensures Removing(sys'.tasks, q) <==> Removing(sys.tasks, q) {
      RemovingExactly(sys.tasks, i, sys.store, now, q);
    }
    forall l ensures IsLate(sys'.tasks, l) <==> IsLate(sys.tasks, l) {
      LateStep(sys.tasks, i, t', l);
    }
    GoneOrGoing(sys, i, now);
    RemovalFrame(sys.store, t, now);
    hide *;
    ShownElsewhere(sys, sys', b, p);
  }

  /** Nothing of a post is stored or late. */
  ghost predicate Vanished(sys: System, p: int) {
    && p !in sys.store.posts
    && (forall k :: k in sys.store.comments ==> k.0 != p)
    && (forall k :: k in sys.store.thumbs ==> k.0 != p)
    && (forall l :: IsLate(sys.tasks, l) ==> l.p != p)
  }

  /** What is shown of a post under removal does not depend on its records. */
  lemma ShownElsewhere(sys: System, sys': System, b: Store, p: int)
    requires Shows(sys, b) && Removing(sys.tasks, p)
    requires sys'.store.lastId == sys.store.lastId
    requires forall q :: q != p ==> (Removing(sys'.tasks, q) <==> Removing(sys.tasks, q))
    requires forall l :: IsLate(sys'.tasks, l) <==> IsLate(sys.tasks, l)
    requires forall q :: q != p ==> BareAt(sys'.store, q) == BareAt(sys.store, q)
    requires forall k: (int, int) :: k.0 != p ==> Lookup(sys'.store.comments, k) == Lookup(sys.store.comments, k)
    requires forall k: VoteKey :: k.0 != p ==> Lookup(sys'.store.thumbs, k) == Lookup(sys.store.thumbs, k)
    requires Removing(sys'.tasks, p) || Vanished(sys', p)
    ensures Shows(sys', b)
  {
    hide Removing, IsLate;
    forall q, row ensures PostShown(sys', b, q, row) {
      assert PostShown(sys, b, q, row);
    }
    forall k, row ensures CommentShown(sys', b, k, row) {
      assert CommentShown(sys, b, k, row);
    }
    forall k ensures VoteShown(sys', b, k) {
      assert VoteShown(sys, b, k);
    }
  }

  lemma RemovalFrame(s: Store, t: Task, now: int)
    requires TaskOk(s, t) && (t.DeleteComments? || t.DeleteThumbs? || t.DeleteMeta?)
    ensures var s' := Step(s, t, now).0;
      && s'.lastId == s.lastId
      && (forall q :: q != t.p ==> BareAt(s', q) == BareAt(s, q))
      && (forall k: (int, int) :: k.0 != t.p ==> Lookup(s'.comments, k) == Lookup(s.comments, k))
      && (forall k: VoteKey :: k.0 != t.p ==> Lookup(s'.thumbs, k) == Lookup(s.thumbs, k))
  {
  }

  /** After a delete's step its post is still being removed, or nothing of it is stored or late. */
  lemma GoneOrGoing(sys: System, i: nat, now: int)
    requires Invariant(sys) && RemovalsFound(sys) && i < |sys.tasks|
    requires var t := sys.tasks[i]; t.DeleteComments? || t.DeleteThumbs? || t.DeleteMeta?
    ensures var t := sys.tasks[i];
      var (s', t') := Step(sys.store, t, now);
      var sys' := After(sys, i, s', t');
      Removing(sys'.tasks, t.p) || Vanished(sys', t.p)
  {
    var t := sys.tasks[i];
    var (s', t') := Step(sys.store, t, now);
    var tasks' := sys.tasks[i := t'];
    assert TaskOk(sys.store, t);
    if t.DeleteMeta? {
      assert Deleting(t, t.p);
      assert Removing(sys.tasks, t.p);
      NothingLate(sys, i, t');
      var p := t.p;
      RecordsOf(sys.store, p);
      assert CommentIds(sys.store, p) == {} && ThumbsOf(sys.store, p) == {};
    } else {
      assert Deleting(tasks'[i], t.p);
    }
  }

  lemma NothingLate(sys: System, i: nat, t': Task)
    requires Invariant(sys) && RemovalsFound(sys) && i < |sys.tasks|
    requires sys.tasks[i].DeleteMeta? && LateOf(t') == None
    ensures forall l :: IsLate(sys.tasks[i := t'], l) ==> l.p != sys.tasks[i].p
  {
    var t := sys.tasks[i];
    assert Deleting(t, t.p);
    assert Removing(sys.tasks, t.p);
    var tasks' := sys.tasks[i := t'];
    forall j | 0 <= j < |tasks'| && LateOf(tasks'[j]).Some? ensures LateOf(tasks'[j]).value.p != t.p {
      assert j != i && tasks'[j] == sys.tasks[j];
      assert TaskOk(sys.store, sys.tasks[j]);
      if j < i {
        assert !Conflict(ClaimOf(sys.tasks[j]), ClaimOf(t));
      } else {
        assert !Conflict(ClaimOf(t), ClaimOf(sys.tasks[j]));
      }
    }
  }

  // ---- The steps that take effect ----

  lemma SameVoteShown(
    sys: System, sys': System, b: Store, b': Store, k: VoteKey, vote: Option<Direction>)
    requires Shows(sys, b) && !Removing(sys.tasks, k.0)
    requires forall p :: Removing(sys'.tasks, p) <==> Removing(sys.tasks, p)
    requires forall l :: IsLate(sys'.tasks, l) <==> IsLate(sys.tasks, l)
    requires forall p :: BareAt(sys'.store, p) == BareAt(sys.store, p) && BareAt(b', p) == BareAt(b, p)
    requires (sys'.store.comments, sys'.store.lastId) == (sys.store.comments, sys.store.lastId)
    requires (b'.comments, b'.lastId) == (b.comments, b.lastId)
    requires sys'.store.thumbs == SetVote(sys.store.thumbs, k, vote) && b'.thumbs == SetVote(b.thumbs, k, vote)
    ensures Shows(sys', b')
  {
    hide Removing, IsLate, BareAt;
    forall p, row ensures PostShown(sys', b', p, row) {
      assert PostShown(sys, b, p, row);
    }
    forall j, row ensures CommentShown(sys', b', j, row) {
      assert CommentShown(sys, b, j, row);
    }
    forall j ensures VoteShown(sys', b', j) {
      assert VoteShown(sys, b, j);
    }
  }

  lemma VoteShownNext(sys: System, b: Store, i: nat, now: int)
    requires Complete(sys, b) && i < |sys.tasks| && sys.tasks[i].ToggleWrite?
    ensures var t := sys.tasks[i];
      var (s', t') := Step(sys.store, t, now);
      var w := Vote(t.p, t.voter, t.d);
      Answers(b, w) && Shows(After(sys, i, s', t'), Do(b, w))
  {
    var t := sys.tasks[i];
    var k := (t.p, t.voter);
    var (s', t') := Step(sys.store, t, now);
    var sys' := After(sys, i, s', t');
    var b' := Do(b, Vote(t.p, t.voter, t.d));
    var vote := Flip(t.seen, t.d);
    assert TaskOk(sys.store, t);
    WritingExcludesRemoval(sys.store, sys.tasks, i);
    forall p ensures Removing(sys'.tasks, p) <==> Removing(sys.tasks, p) {
      RemovingExactly(sys.tasks, i, sys.store, now, p);
    }
    forall l ensures IsLate(sys'.tasks, l) <==> IsLate(sys.tasks, l) {
      LateStep(sys.tasks, i, t', l);
    }
    assert PostShown(sys, b, t.p, Bare(sys.store.posts[t.p]));
    assert VoteShown(sys, b, k);
    assert s'.thumbs == SetVote(sys.store.thumbs, k, vote) && b'.thumbs == SetVote(b.thumbs, k, vote);
    assert forall p :: BareAt(b', p) == BareAt(b, p);
    hide *;
    SameVoteShown(sys, sys', b, b', k, vote);
  }

  lemma CommentShownNext(sys: System, b: Store, i: nat, now: int)
    requires Complete(sys, b) && i < |sys.tasks| && sys.tasks[i].CommentNumber?
    ensures var t := sys.tasks[i];
      var (s', t') := Step(sys.store, t, now);
      t'.CommentPut? && Answers(b, Comment(t'.written)) && Shows(After(sys, i, s', t'), Do(b, Comment(t'.written)))
  {
    var t := sys.tasks[i];
    var (s', t') := Step(sys.store, t, now);
    var sys' := After(sys, i, s', t');
    var v := t'.written;
    var b' := Do(b, Comment(v));
    var late := LateComment(v.postId, v.id, v.row);
    assert TaskOk(sys.store, t);
    WritingExcludesRemoval(sys.store, sys.tasks, i);
    forall p ensures Removing(sys'.tasks, p) <==> Removing(sys.tasks, p) {
      RemovingExactly(sys.tasks, i, sys.store, now, p);
    }
    forall l ensures IsLate(sys'.tasks, l) <==> IsLate(sys.tasks, l) || l == late {
      LateStep(sys.tasks, i, t', l);
    }
    assert PostShown(sys, b, t.p, Bare(sys.store.posts[t.p]));
    assert t.p in b.posts;
    if t.parent.Some? {
      var up := (t.p, t.parent.value);
      assert CommentShown(sys, b, up, sys.store.comments[up]);
    }
    assert Answers(b, Comment(v));
    assert b'.comments == b.comments[(v.postId, v.id) := v.row] && b'.thumbs == b.thumbs;
    assert forall p :: BareAt(b', p) == BareAt(b, p);
    FreshId(sys, b, (v.postId, v.id));
    hide *;
    NewCommentShown(sys, sys', b, b', v);
  }

  lemma NewCommentShown(sys: System, sys': System, b: Store, b': Store, v: CommentView)
    requires Shows(sys, b) && !Removing(sys.tasks, v.postId)
    requires forall p :: Removing(sys'.tasks, p) <==> Removing(sys.tasks, p)
    requires forall l :: IsLate(sys'.tasks, l) <==> IsLate(sys.tasks, l) || l == LateComment(v.postId, v.id, v.row)
    requires forall l :: IsLate(sys.tasks, l) ==> (if l.LateComment? then l.id else l.p) != v.id
    requires sys'.store == sys.store.(lastId := v.id) && (v.postId, v.id) !in sys.store.comments
    requires forall p :: BareAt(b', p) == BareAt(b, p)
    requires b'.comments == b.comments[(v.postId, v.id) := v.row] && b'.thumbs == b.thumbs && b'.lastId == v.id
    ensures Shows(sys', b')
  {
    assert forall p :: BareAt(sys'.store, p) == BareAt(sys.store, p);
    hide Removing, IsLate, BareAt;
    forall p, row ensures PostShown(sys', b', p, row) {
      assert PostShown(sys, b, p, row);
    }
    forall k, row ensures CommentShown(sys', b', k, row) {
      assert CommentShown(sys, b, k, row);
    }
    forall k ensures VoteShown(sys', b', k) {
      assert VoteShown(sys, b, k);
    }
  }

  /** Nothing is stored or late under an id that is not yet issued. */
  lemma FreshId(sys: System, b: Store, k: (int, int))
    requires Complete(sys, b) && k.1 > sys.store.lastId
    ensures k !in sys.store.comments && k.1 !in sys.store.posts && k.1 !in b.posts && k !in b.comments
    ensures forall l :: IsLate(sys.tasks, l) ==> (if l.LateComment? then l.id else l.p) != k.1
    ensures !Removing(sys.tasks, k.1)
  {
    forall l | IsLate(sys.tasks, l) ensures (if l.LateComment? then l.id else l.p) != k.1 {
      var i :| 0 <= i < |sys.tasks| && LateOf(sys.tasks[i]) == Some(l);
      assert TaskOk(sys.store, sys.tasks[i]);
    }
  }

  lemma PostShownNext(sys: System, b: Store, i: nat, now: int)
    requires Complete(sys, b) && i < |sys.tasks| && sys.tasks[i].PostNumber?
    ensures var t := sys.tasks[i];
      var (s', t') := Step(sys.store, t, now);
      t'.PostPut? && Answers(b, Post(t'.post)) && Shows(After(sys, i, s', t'), Do(b, Post(t'.post)))
  {
    var t := sys.tasks[i];
    var (s', t') := Step(sys.store, t, now);
    var sys' := After(sys, i, s', t');
    var v := t'.post;
    var b' := Do(b, Post(v));
    var late := LatePost(v.id, v.row);
    forall p ensures Removing(sys'.tasks, p) <==> Removing(sys.tasks, p) {
      RemovingExactly(sys.tasks, i, sys.store, now, p);
    }
    forall l ensures IsLate(sys'.tasks, l) <==> IsLate(sys.tasks, l) || l == late {
      LateStep(sys.tasks, i, t', l);
    }
    FreshId(sys, b, (0, v.id));
    assert b'.posts == b.posts[v.id := v.row] && b'.comments == b.comments && b'.thumbs == b.thumbs;
    assert forall p :: BareAt(b', p) == if p == v.id then Some(v.row) else BareAt(b, p);
    assert BareAt(sys.store, v.id) == None && BareAt(b, v.id) == None;
    hide *;
    NewPostShown(sys, sys', b, b', v);
  }

  lemma NewPostShown(sys: System, sys': System, b: Store, b': Store, v: PostView)
    requires Shows(sys, b) && !Removing(sys.tasks, v.id)
    requires forall p :: Removing(sys'.tasks, p) <==> Removing(sys.tasks, p)
    requires forall l :: IsLate(sys'.tasks, l) <==> IsLate(sys.tasks, l) || l == LatePost(v.id, v.row)
    requires forall l :: IsLate(sys.tasks, l) ==> (if l.LateComment? then l.id else l.p) != v.id
    requires sys'.store == sys.store.(lastId := v.id) && BareAt(sys.store, v.id) == None && BareAt(b, v.id) == None
    requires forall p :: BareAt(b', p) == if p == v.id then Some(v.row) else BareAt(b, p)
    requires b'.comments == b.comments && b'.thumbs == b.thumbs && b'.lastId == v.id
    ensures Shows(sys', b')
  {
    assert forall p :: BareAt(sys'.store, p) == BareAt(sys.store, p);
    hide Removing, IsLate, BareAt;
    forall p, row ensures PostShown(sys', b', p, row) {
      assert PostShown(sys, b, p, row);
    }
    forall k, row ensures CommentShown(sys', b', k, row) {
      assert CommentShown(sys, b, k, row);
    }
    forall k ensures VoteShown(sys', b', k) {
      assert VoteShown(sys, b, k);
    }
  }

  lemma DeleteShownNext(sys: System, b: Store, i: nat, now: int)
    requires Complete(sys, b) && i < |sys.tasks| && sys.tasks[i].DeleteStart?
    requires Succeeding(sys.store, sys.tasks[i])
    ensures var t := sys.tasks[i];
      var (s', t') := Step(sys.store, t, now);
      var w := Delete(t.p, t.user);
      Answers(b, w) && Shows(After(sys, i, s', t'), Do(b, w))
  {
    var t := sys.tasks[i];
    var p := t.p;
    var (s', t') := Step(sys.store, t, now);
    var sys' := After(sys, i, s', t');
    var b' := Do(b, Delete(p, t.user));
    RemovingExactly(sys.tasks, i, sys.store, now, p);
    forall q | q != p ensures Removing(sys'.tasks, q) <==> Removing(sys.tasks, q) {
      RemovingExactly(sys.tasks, i, sys.store, now, q);
    }
    forall l ensures IsLate(sys'.tasks, l) <==> IsLate(sys.tasks, l) {
      LateStep(sys.tasks, i, t', l);
    }
    if p in b.posts {
      assert PostShown(sys, b, p, Bare(b.posts[p]));
      StoredNotLate(sys, p);
      assert Bare(b.posts[p]) == Bare(sys.store.posts[p]);
    }
    DeleteTakesEffect(b, p, t.user);
    assert sys'.store == sys.store;
    assert Answers(b, Delete(p, t.user));
    hide *;
    DeletedShown(sys, sys', b, b', p);
  }

  lemma DeletedShown(sys: System, sys': System, b: Store, b': Store, p: int)
    requires Shows(sys, b) && Removing(sys'.tasks, p) && sys'.store == sys.store
    requires forall q :: q != p ==> (Removing(sys'.tasks, q) <==> Removing(sys.tasks, q))
    requires forall l :: IsLate(sys'.tasks, l) <==> IsLate(sys.tasks, l)
    requires b'.lastId == b.lastId
    requires forall q :: BareAt(b', q) == if q == p then None else BareAt(b, q)
    requires forall k: (int, int) :: Lookup(b'.comments, k) == if k.0 == p then None else Lookup(b.comments, k)
    requires forall k: VoteKey :: Lookup(b'.thumbs, k) == if k.0 == p then None else Lookup(b.thumbs, k)
    ensures Shows(sys', b')
  {
    hide Removing, IsLate, BareAt;
    forall q, row ensures PostShown(sys', b', q, row) {
      assert PostShown(sys, b, q, row);
    }
    forall k, row ensures CommentShown(sys', b', k, row) {
      assert CommentShown(sys, b, k, row);
    }
    forall k ensures VoteShown(sys', b', k) {
      assert VoteShown(sys, b, k);
    }
  }

  predicate Succeeding(s: Store, t: Task) {
    t.DeleteStart? && t.p in s.posts && s.posts[t.p].author == t.user
  }

  lemma StoredNotLate(sys: System, p: int)
    requires Invariant(sys) && p in sys.store.posts
    ensures forall row :: !IsLate(sys.tasks, LatePost(p, row))
  {
    forall i | 0 <= i < |sys.tasks| && sys.tasks[i].PostPut? ensures sys.tasks[i].post.id != p {
      assert TaskOk(sys.store, sys.tasks[i]);
    }
  }

  /** After a permitted delete nothing is left of the post and everything else is as it was. */
  lemma DeleteTakesEffect(b: Store, p: int, user: string)
    requires Valid(b) && (p in b.posts ==> b.posts[p].author == user)
    ensures var b' := Do(b, Delete(p, user));
      && b'.lastId == b.lastId
      && (forall q :: BareAt(b', q) == if q == p then None else BareAt(b, q))
      && (forall k: (int, int) :: Lookup(b'.comments, k) == if k.0 == p then None else Lookup(b.comments, k))
      && (forall k: VoteKey :: Lookup(b'.thumbs, k) == if k.0 == p then None else Lookup(b.thumbs, k))
  {
    assert RecordsOk(b);
  }

  // ---- Every run ----

  /** One step takes effect once or not at all, and the completed store follows. */
  lemma AdvanceShown(sys: System, b: Store, i: nat, now: int)
    requires Complete(sys, b) && i < |sys.tasks|
    ensures var works := EffectOf(sys.store, sys.tasks[i], now);
      && AllAnswer(b, works)
      && Shows(Act(sys, Advance(i, now)), DoAll(b, works))
  {
    var t := sys.tasks[i];
    var works := EffectOf(sys.store, t, now);
    hide Shows, Invariant, RemovalsFound, Valid, Answers, Do;
    if t.ToggleWrite? {
      VoteShownNext(sys, b, i, now);
    } else if t.CommentNumber? {
      CommentShownNext(sys, b, i, now);
    } else if t.PostNumber? {
      PostShownNext(sys, b, i, now);
    } else if Succeeding(sys.store, t) {
      DeleteShownNext(sys, b, i, now);
    } else {
      assert works == [];
      if LateOf(t).Some? {
        PutShown(sys, b, i, now);
      } else if t.DeleteComments? || t.DeleteThumbs? || t.DeleteMeta? {
        RemovalShown(sys, b, i, now);
      } else {
        NothingShown(sys, b, i, now);
      }
    }
    if works != [] {
      assert works == [works[0]] && works[1..] == [];
      assert DoAll(Do(b, works[0]), []) == Do(b, works[0]);
    }
  }

  lemma RemovalsFoundNext(sys: System, i: nat, now: int)
    requires Invariant(sys) && RemovalsFound(sys) && i < |sys.tasks|
    ensures RemovalsFound(Act(sys, Advance(i, now)))
  {
    var t := sys.tasks[i];
    var (s', t') := Step(sys.store, t, now);
    var tasks' := sys.tasks[i := t'];
    CounterMoves(sys.store, t, now);
    assert TaskOk(sys.store, t);
    forall p | Removing(tasks', p)
      ensures p <= s'.lastId && forall j :: 0 <= j < |tasks'| && tasks'[j].PostPut? ==> tasks'[j].post.id != p
    {
      RemovingStep(sys.tasks, i, sys.store, now, p);
      RemovingExactly(sys.tasks, i, sys.store, now, p);
      assert Removing(sys.tasks, p) || p in sys.store.posts;
      forall j | 0 <= j < |tasks'| && tasks'[j].PostPut? ensures tasks'[j].post.id != p {
        if j != i {
          assert TaskOk(sys.store, sys.tasks[j]);
        }
      }
    }
  }

  lemma DoKeepsValid(b: Store, works: seq<Work>)
    requires Valid(b) && |works| <= 1
    ensures Valid(DoAll(b, works))
  {
    if works != [] {
      assert works[1..] == [];
      match works[0]
      case Vote(p, voter, d) => SoloRuns.ToggleKeepsValid(b, p, voter, d);
      case Comment(v) =>
        SoloRuns.CommentKeepsValid(b, v.postId, v.row.author, v.row.body, v.row.parent, v.row.created);
      case Post(v) => SoloRuns.PostKeepsValid(b, v.row.author, v.row.title, v.row.body, v.row.postType, v.row.created);
      case Delete(p, user) => SoloRuns.DeleteKeepsValid(b, p, user);
    }
  }

  lemma StartShown(sys: System, b: Store, t: Task)
    requires Complete(sys, b) && Admissible(sys, Start(t))
    ensures Complete(Act(sys, Start(t)), b)
  {
    StartKeeps(sys, t);
    var sys' := Act(sys, Start(t));
    forall p ensures Removing(sys'.tasks, p) <==> Removing(sys.tasks, p) {
      if Removing(sys.tasks, p) {
        var i :| 0 <= i < |sys.tasks| && Deleting(sys.tasks[i], p);
        assert Deleting(sys'.tasks[i], p);
      }
    }
    forall l ensures IsLate(sys'.tasks, l) <==> IsLate(sys.tasks, l) {
      if IsLate(sys.tasks, l) {
        var i :| 0 <= i < |sys.tasks| && LateOf(sys.tasks[i]) == Some(l);
        assert LateOf(sys'.tasks[i]) == Some(l);
      }
    }
    hide Removing, IsLate, Invariant, Valid;
    forall p, row ensures PostShown(sys', b, p, row) {
      assert PostShown(sys, b, p, row);
    }
    forall k, row ensures CommentShown(sys', b, k, row) {
      assert CommentShown(sys, b, k, row);
    }
    forall k ensures VoteShown(sys', b, k) {
      assert VoteShown(sys, b, k);
    }
  }

  lemma {:induction false} DoAllJoins(b: Store, first: seq<Work>, rest: seq<Work>)
    ensures DoAll(b, first + rest) == DoAll(DoAll(b, first), rest)
    ensures AllAnswer(b, first + rest) <==> AllAnswer(b, first) && AllAnswer(DoAll(b, first), rest)
    decreases |first|
  {
    if first == [] {
      assert first + rest == rest;
    } else {
      DoAllJoins(Do(b, first[0]), first[1..], rest);
      assert (first + rest)[0] == first[0] && (first + rest)[1..] == first[1..] + rest;
    }
  }

  /** At every moment the store, completed by what is late and without what is being removed, is the store of the
      sequential run of the effects so far, in which every operation gives the same post or comment. */
  lemma {:induction false} RunShown(sys: System, b: Store, actions: seq<Action>)
    requires Complete(sys, b) && AllAdmissible(sys, actions)
    ensures var works := Effects(sys, actions);
      AllAnswer(b, works) && Complete(Run(sys, actions), DoAll(b, works))
    decreases |actions|
  {
    if actions != [] {
      var sys' := Act(sys, actions[0]);
      var first := match actions[0] case Start(_) => [] case Advance(i, now) => EffectOf(sys.store, sys.tasks[i], now);
      match actions[0] {
        case Start(t) => StartShown(sys, b, t);
        case Advance(i, now) =>
          AdvanceShown(sys, b, i, now);
          AdvanceKeeps(sys, i, now);
          RemovalsFoundNext(sys, i, now);
          DoKeepsValid(b, first);
      }
      hide Complete, Do, Answers;
      RunShown(sys', DoAll(b, first), actions[1..]);
      DoAllJoins(b, first, Effects(sys', actions[1..]));
    }
  }

  lemma QuietShown(sys: System, b: Store)
    requires Complete(sys, b) && forall i :: 0 <= i < |sys.tasks| ==> sys.tasks[i].Finished?
    ensures sys.store == b
  {
    QuietIsValid(sys);
    ValidMeans(b);
    var s := sys.store;
    forall p ensures !Removing(sys.tasks, p) {}
    forall l ensures !IsLate(sys.tasks, l) {}
    hide Removing, IsLate, Invariant, Valid;
    forall k ensures Lookup(b.comments, k) == Lookup(s.comments, k) {
      if k in b.comments {
        assert CommentShown(sys, b, k, b.comments[k]);
      }
      if k in s.comments {
        assert CommentShown(sys, b, k, s.comments[k]);
      }
    }
    SameMap(b.comments, s.comments);
    forall k ensures Lookup(b.thumbs, k) == Lookup(s.thumbs, k) {
      assert VoteShown(sys, b, k);
    }
    SameMap(b.thumbs, s.thumbs);
    forall p ensures Lookup(b.posts, p) == Lookup(s.posts, p) {
      if p in b.posts {
        assert PostShown(sys, b, p, Bare(b.posts[p]));
      }
      if p in s.posts {
        assert PostShown(sys, b, p, Bare(s.posts[p]));
      }
      assert CommentIds(b, p) == CommentIds(s, p);
    }
    SameMap(b.posts, s.posts);
  }

  /** When every call of an interleaved run has returned, the store is the one the same operations leave when they
      run one after another in the order of their effects. */
  lemma EveryRunIsSequential(s: Store, actions: seq<Action>)
    requires Valid(s) && AllAdmissible(System(s, []), actions)
    requires forall i :: 0 <= i < |Run(System(s, []), actions).tasks| ==> Run(System(s, []), actions).tasks[i].Finished?
    ensures var works := Effects(System(s, []), actions);
      AllAnswer(s, works) && Run(System(s, []), actions).store == DoAll(s, works)
  {
    var sys := System(s, []);
    forall p ensures !Removing([], p) {}
    forall l ensures !IsLate([], l) {}
    assert Complete(sys, s);
    RunShown(sys, s, actions);
    QuietShown(Run(sys, actions), DoAll(s, Effects(sys, actions)));
  }
}
