/**
 The writers of the DynamoDB store as concurrent tasks. A task takes one atomic step for
 each table call it awaits; a scheduler picks any task at any time. Two rules of
 admission make the counters exact: a voter has at most one toggle in flight on a post,
 and a delete shares its post with no toggle or comment. Any number of deletes may run.
 */
module Interleaving {
  import opened Options
  import opened Community
  import opened DynamoStore

  datatype Outcome =
    | Failed(error: Error)
    | Voted(counts: Counts)
    | Commented(comment: CommentView)
    | Posted(post: PostView)
    | Deleted
    | Malformed

  datatype Task =
    | ToggleStart(p: int, voter: string, d: Direction)
    | ToggleRead(p: int, voter: string, d: Direction)
    | ToggleWrite(p: int, voter: string, d: Direction, seen: Option<Direction>)
    | ToggleCount(p: int, voter: string, d: Direction, seen: Option<Direction>, up: int, down: int)
    | CommentStart(p: int, author: string, body: string, parent: Option<int>)
    | CommentParent(p: int, author: string, body: string, parent: Option<int>)
    | CommentNumber(p: int, author: string, body: string, parent: Option<int>)
    | CommentPut(p: int, written: CommentView)
    | CommentCount(p: int, comment: CommentView)
    | PostNumber(author: string, title: string, body: string, postType: string)
    | PostPut(post: PostView)
    | DeleteStart(p: int, user: string)
    | DeleteFindComments(p: int)
    | DeleteComments(p: int, ids: set<int>)
    | DeleteFindThumbs(p: int)
    | DeleteThumbs(p: int, votes: set<VoteKey>)
    | DeleteMeta(p: int)
    | Finished(outcome: Outcome)

  // ---- One atomic step ----

  ghost function AnyOf<T>(s: set<T>): (x: T)
    requires s != {}
    ensures x in s
  {
    var x :| x in s; x
  }

  function AfterComments(p: int, ids: set<int>): Task {
    if ids == {} then DeleteFindThumbs(p) else DeleteComments(p, ids)
  }

  function AfterThumbs(p: int, votes: set<VoteKey>): Task {
    if votes == {} then DeleteMeta(p) else DeleteThumbs(p, votes)
  }

  function ThumbsOf(s: Store, p: int): set<VoteKey> {
    set k | k in s.thumbs && k.0 == p
  }

  ghost function Step(s: Store, t: Task, now: int): (Store, Task) {
    match t
    case ToggleStart(p, voter, d) =>
      (s, if p in s.posts then ToggleRead(p, voter, d) else Finished(Failed(PostNotFound)))
    case ToggleRead(p, voter, d) =>
      (s, ToggleWrite(p, voter, d, Lookup(s.thumbs, (p, voter))))
    case ToggleWrite(p, voter, d, seen) =>
      if seen == Some(d) then
        (s.(thumbs := s.thumbs - {(p, voter)}),
         ToggleCount(p, voter, d, seen, if d == 1 then -1 else 0, if d == -1 then -1 else 0))
      else if seen.Some? then
        (s.(thumbs := s.thumbs[(p, voter) := d]),
         ToggleCount(p, voter, d, seen, if d == 1 then 1 else -1, if d == -1 then 1 else -1))
      else
        (s.(thumbs := s.thumbs[(p, voter) := d]),
         ToggleCount(p, voter, d, seen, if d == 1 then 1 else 0, if d == -1 then 1 else 0))
    case ToggleCount(p, voter, d, seen, up, down) =>
      if p !in s.posts then (s, t)
      else
        var row := s.posts[p].(up := s.posts[p].up + up, down := s.posts[p].down + down);
        (s.(posts := s.posts[p := row]), Finished(Voted(Counts(row.up, row.down))))
    case CommentStart(p, author, body, parent) =>
      (s, if p !in s.posts then Finished(Failed(PostNotFound))
          else if parent.Some? then CommentParent(p, author, body, parent)
          else CommentNumber(p, author, body, parent))
    case CommentParent(p, author, body, parent) =>
      (s, if ParentError(s, p, parent).Some? then Finished(Failed(ParentError(s, p, parent).value))
          else CommentNumber(p, author, body, parent))
    case CommentNumber(p, author, body, parent) =>
      (s.(lastId := s.lastId + 1),
       CommentPut(p, CommentView(s.lastId + 1, p, CommentRow(parent, author, body, now))))
    case CommentPut(p, written) =>
      (s.(comments := s.comments[(p, written.id) := written.row]), CommentCount(p, written))
    case CommentCount(p, comment) =>
      if p !in s.posts then (s, t)
      else (s.(posts := s.posts[p := s.posts[p].(comments := s.posts[p].comments + 1)]), Finished(Commented(comment)))
    case PostNumber(author, title, body, postType) =>
      (s.(lastId := s.lastId + 1),
       PostPut(PostView(s.lastId + 1, PostRow(author, title, body, postType, now, 0, 0, 0))))
    case PostPut(post) =>
      (s.(posts := s.posts[post.id := post.row]), Finished(Posted(post)))
    case DeleteStart(p, user) =>
      (s, if p !in s.posts then Finished(Failed(PostNotFound))
          else if s.posts[p].author != user then Finished(Failed(NotOwner))
          else DeleteFindComments(p))
    case DeleteFindComments(p) =>
      (s, AfterComments(p, CommentIds(s, p)))
    case DeleteComments(p, ids) =>
      if ids == {} then (s, DeleteFindThumbs(p))
      else
        var c := AnyOf(ids);
        (s.(comments := s.comments - {(p, c)}), AfterComments(p, ids - {c}))
    case DeleteFindThumbs(p) =>
      (s, AfterThumbs(p, ThumbsOf(s, p)))
    case DeleteThumbs(p, votes) =>
      if votes == {} then (s, DeleteMeta(p))
      else
        var k := AnyOf(votes);
        (s.(thumbs := s.thumbs - {k}), AfterThumbs(p, votes - {k}))
    case DeleteMeta(p) =>
      (s.(posts := s.posts - {p}), Finished(Deleted))
    case Finished(_) => (s, t)
  }

  // ---- Admission ----

  /** What a task that is still running lays claim to. */
  datatype Claim = Nothing | OneVote(p: int, voter: string) | Reply(p: int) | Removal(p: int)

  function ClaimOf(t: Task): Claim {
    match t
    case ToggleStart(p, voter, _) => OneVote(p, voter)
    case ToggleRead(p, voter, _) => OneVote(p, voter)
    case ToggleWrite(p, voter, _, _) => OneVote(p, voter)
    case ToggleCount(p, voter, _, _, _, _) => OneVote(p, voter)
    case CommentStart(p, _, _, _) => Reply(p)
    case CommentParent(p, _, _, _) => Reply(p)
    case CommentNumber(p, _, _, _) => Reply(p)
    case CommentPut(p, _) => Reply(p)
    case CommentCount(p, _) => Reply(p)
    case DeleteStart(p, _) => Removal(p)
    case DeleteFindComments(p) => Removal(p)
    case DeleteComments(p, _) => Removal(p)
    case DeleteFindThumbs(p) => Removal(p)
    case DeleteThumbs(p, _) => Removal(p)
    case DeleteMeta(p) => Removal(p)
    case _ => Nothing
  }

  predicate Conflict(a: Claim, b: Claim) {
    && a != Nothing && b != Nothing && a.p == b.p
    && (a.Removal? != b.Removal? || (a.OneVote? && a == b))
  }

  datatype System = System(store: Store, tasks: seq<Task>)

  datatype Action = Start(task: Task) | Advance(i: nat, now: int)

  predicate IsStart(t: Task) {
    t.ToggleStart? || t.CommentStart? || t.PostNumber? || t.DeleteStart?
  }

  predicate Admissible(sys: System, a: Action) {
    match a
    case Start(t) => IsStart(t) && forall i :: 0 <= i < |sys.tasks| ==> !Conflict(ClaimOf(sys.tasks[i]), ClaimOf(t))
    case Advance(i, _) => i < |sys.tasks|
  }

  ghost function Act(sys: System, a: Action): System
    requires Admissible(sys, a)
  {
    match a
    case Start(t) => System(sys.store, sys.tasks + [t])
    case Advance(i, now) =>
      var (s', t') := Step(sys.store, sys.tasks[i], now);
      System(s', sys.tasks[i := t'])
  }

  ghost predicate AllAdmissible(sys: System, actions: seq<Action>)
    decreases |actions|
  {
    actions == [] || (Admissible(sys, actions[0]) && AllAdmissible(Act(sys, actions[0]), actions[1..]))
  }

  ghost function Run(sys: System, actions: seq<Action>): System
    requires AllAdmissible(sys, actions)
    decreases |actions|
  {
    if actions == [] then sys else Run(Act(sys, actions[0]), actions[1..])
  }

  // ---- The invariant ----

  predicate Deleting(t: Task, p: int) {
    (t.DeleteFindComments? || t.DeleteComments? || t.DeleteFindThumbs? || t.DeleteThumbs? || t.DeleteMeta?) && t.p == p
  }

  ghost predicate Removing(tasks: seq<Task>, p: int) {
    exists i :: 0 <= i < |tasks| && Deleting(tasks[i], p)
  }

  /** Issued, and not yet the id of anything stored. */
  predicate Unused(s: Store, id: int) {
    && 1 <= id <= s.lastId && id !in s.posts
    && forall k :: k in s.comments ==> k.1 != id
  }

  predicate TopLevel(s: Store, p: int, parent: Option<int>) {
    parent.Some? ==>
      var up := (p, parent.value); up.1 >= 1 && up in s.comments && s.comments[up].parent == None
  }

  /** What a task may rely on between its steps. */
  predicate TaskOk(s: Store, t: Task) {
    match t
    case ToggleRead(p, _, _) => p in s.posts
    case ToggleWrite(p, voter, d, seen) => p in s.posts && seen == Lookup(s.thumbs, (p, voter))
    case ToggleCount(p, voter, d, seen, up, down) =>
      && p in s.posts
      && Lookup(s.thumbs, (p, voter)) == Flip(seen, d)
      && up == Delta(seen, Flip(seen, d), 1) && down == Delta(seen, Flip(seen, d), -1)
    case CommentParent(p, _, _, _) => p in s.posts
    case CommentNumber(p, _, _, parent) => p in s.posts && TopLevel(s, p, parent)
    case CommentPut(p, written) =>
      p in s.posts && written.postId == p && TopLevel(s, p, written.row.parent) && Unused(s, written.id)
    case CommentCount(p, _) => p in s.posts
    case PostPut(post) => Unused(s, post.id) && post.row == Bare(post.row)
    case DeleteComments(p, ids) => CommentIds(s, p) <= ids
    case DeleteFindThumbs(p) => CommentIds(s, p) == {}
    case DeleteThumbs(p, votes) =>
      CommentIds(s, p) == {} && ThumbsOf(s, p) <= votes && forall k :: k in votes ==> k.0 == p
    case DeleteMeta(p) => CommentIds(s, p) == {} && ThumbsOf(s, p) == {}
    case _ => true
  }

  function Pending(t: Task): Option<int> {
    if t.CommentPut? then Some(t.written.id) else if t.PostPut? then Some(t.post.id) else None
  }

  ghost predicate TasksOk(s: Store, tasks: seq<Task>) {
    && (forall i :: 0 <= i < |tasks| ==> TaskOk(s, tasks[i]))
    && (forall i, j :: 0 <= i < j < |tasks| ==> !Conflict(ClaimOf(tasks[i]), ClaimOf(tasks[j])))
    && (forall i, j :: 0 <= i < j < |tasks| ==> Pending(tasks[i]) == None || Pending(tasks[i]) != Pending(tasks[j]))
  }

  /** Ids are positive, issued, and name at most one post or comment; records belong to stored posts. */
  ghost predicate RecordsOk(s: Store) {
    && s.lastId >= 0
    && (forall p :: p in s.posts ==> 1 <= p <= s.lastId && s.posts[p].comments >= 0)
    && (forall k :: k in s.comments ==> k.0 in s.posts && 1 <= k.1 <= s.lastId && k.1 !in s.posts)
    && (forall j, k :: j in s.comments && k in s.comments && j.1 == k.1 ==> j == k)
    && (forall k :: k in s.thumbs ==> k.0 in s.posts)
  }

  ghost predicate ParentOk(s: Store, tasks: seq<Task>, k: (int, int))
    requires k in s.comments
  {
    s.comments[k].parent.Some? ==>
      var up := (k.0, s.comments[k].parent.value);
      && up.1 >= 1
      && (up in s.comments ==> s.comments[up].parent == None)
      && (up in s.comments || Removing(tasks, k.0))
  }

  /** Replies are one level deep; only a delete in progress may separate a reply from its parent. */
  ghost predicate ParentsOk(s: Store, tasks: seq<Task>) {
    forall k :: k in s.comments ==> ParentOk(s, tasks, k)
  }

  datatype Counter = UpVotes | DownVotes | Remarks

  function Stored(row: PostRow, c: Counter): int {
    match c case UpVotes => row.up case DownVotes => row.down case Remarks => row.comments
  }

  function Actual(s: Store, p: int, c: Counter): nat {
    match c
    case UpVotes => Tally(s.thumbs, p, 1)
    case DownVotes => Tally(s.thumbs, p, -1)
    case Remarks => |CommentIds(s, p)|
  }

  /** The change a task has made to the records and still has to make to a counter. */
  function Owes(t: Task, p: int, c: Counter): int {
    match c
    case UpVotes => if t.ToggleCount? && t.p == p then t.up else 0
    case DownVotes => if t.ToggleCount? && t.p == p then t.down else 0
    case Remarks => if t.CommentCount? && t.p == p then 1 else 0
  }

  function Owed(tasks: seq<Task>, p: int, c: Counter): int {
    if tasks == [] then 0 else Owed(tasks[..|tasks| - 1], p, c) + Owes(tasks[|tasks| - 1], p, c)
  }

  /** Conservation: a stored counter plus what is still owed to it is the number of records it counts. */
  ghost predicate CountersOk(s: Store, tasks: seq<Task>) {
    forall p, c :: p in s.posts && !Removing(tasks, p) ==> Stored(s.posts[p], c) + Owed(tasks, p, c) == Actual(s, p, c)
  }

  ghost predicate Invariant(sys: System) {
    && TasksOk(sys.store, sys.tasks)
    && RecordsOk(sys.store)
    && ParentsOk(sys.store, sys.tasks)
    && CountersOk(sys.store, sys.tasks)
  }

  // ---- Owed sums ----

  lemma {:induction false} OwedUpdate(tasks: seq<Task>, i: nat, t: Task, p: int, c: Counter)
    requires i < |tasks|
    ensures Owed(tasks[i := t], p, c) == Owed(tasks, p, c) - Owes(tasks[i], p, c) + Owes(t, p, c)
  {
    var n := |tasks| - 1;
    if i < n {
      OwedUpdate(tasks[..n], i, t, p, c);
      assert tasks[i := t][..n] == tasks[..n][i := t];
    } else {
      assert tasks[i := t][..n] == tasks[..n];
    }
  }

  lemma {:induction false} OwedNothing(tasks: seq<Task>, p: int, c: Counter)
    requires forall i :: 0 <= i < |tasks| ==> Owes(tasks[i], p, c) == 0
    ensures Owed(tasks, p, c) == 0
  {
    if tasks != [] {
      OwedNothing(tasks[..|tasks| - 1], p, c);
    }
  }

  // ---- What one step changes ----

  /** A step leaves alone every record outside its task's claim. */
  lemma StepFrame(s: Store, t: Task, now: int)
    requires TaskOk(s, t)
    ensures var s' := Step(s, t, now).0;
      && s.lastId <= s'.lastId
      && (forall q ::
           (q in s'.posts <==> q in s.posts) || (t.PostPut? && q == t.post.id) || (t.DeleteMeta? && q == t.p))
      && (forall q :: Lookup(s'.posts, q) == Lookup(s.posts, q) || (t.PostPut? && q == t.post.id)
           || ((t.ToggleCount? || t.CommentCount? || t.DeleteMeta?) && q == t.p))
      && (forall k :: Lookup(s'.thumbs, k) == Lookup(s.thumbs, k)
           || (t.ToggleWrite? && k == (t.p, t.voter)) || (t.DeleteThumbs? && k.0 == t.p))
      && (forall k :: Lookup(s'.comments, k) == Lookup(s.comments, k)
           || (t.CommentPut? && k == (t.p, t.written.id)) || (t.DeleteComments? && k.0 == t.p))
  {
  }

  lemma CommentIdsFrame(s: Store, s': Store, p: int)
    requires forall k: (int, int) :: k.0 == p ==> Lookup(s'.comments, k) == Lookup(s.comments, k)
    ensures CommentIds(s', p) == CommentIds(s, p)
  {
    forall c ensures c in CommentIds(s', p) <==> c in CommentIds(s, p) {
      assert c in CommentIds(s', p) <==> (p, c) in s'.comments;
      assert c in CommentIds(s, p) <==> (p, c) in s.comments;
      assert Lookup(s'.comments, (p, c)) == Lookup(s.comments, (p, c));
    }
  }

  lemma ThumbsOfFrame(s: Store, s': Store, p: int)
    requires forall k: VoteKey :: k.0 == p ==> Lookup(s'.thumbs, k) == Lookup(s.thumbs, k)
    ensures ThumbsOf(s', p) == ThumbsOf(s, p)
    ensures Ballots(s'.thumbs, p, 1) == Ballots(s.thumbs, p, 1) && Ballots(s'.thumbs, p, -1) == Ballots(s.thumbs, p, -1)
  {
    forall k: VoteKey | k.0 == p ensures Lookup(s'.thumbs, k) == Lookup(s.thumbs, k) {}
    assert forall k: VoteKey :: k.0 == p ==> (k in s'.thumbs <==> k in s.thumbs);
    assert forall k: VoteKey :: k.0 == p && k in s.thumbs ==> s'.thumbs[k] == s.thumbs[k];
  }

  /** An id that one task has been given is not taken by another. */
  lemma NumberKept(s: Store, t: Task, u: Task, now: int)
    requires TaskOk(s, t) && TaskOk(s, u) && RecordsOk(s)
    requires Pending(u).Some? && Pending(t) != Pending(u)
    ensures Unused(Step(s, t, now).0, Pending(u).value)
  {
    StepFrame(s, t, now);
    var s' := Step(s, t, now).0;
    forall k | k in s'.comments ensures k.1 != Pending(u).value {
      assert Lookup(s'.comments, k) == Lookup(s.comments, k) || t.CommentPut? || t.DeleteComments?;
    }
  }

  /** Nothing is added to what a delete has listed; another delete may take some of it away. */
  lemma RemovalKept(s: Store, t: Task, u: Task, now: int)
    requires TaskOk(s, t) && ClaimOf(u).Removal? && !Conflict(ClaimOf(t), ClaimOf(u))
    ensures CommentIds(Step(s, t, now).0, u.p) <= CommentIds(s, u.p)
    ensures ThumbsOf(Step(s, t, now).0, u.p) <= ThumbsOf(s, u.p)
  {
    var s' := Step(s, t, now).0;
    forall c | c in CommentIds(s', u.p) ensures c in CommentIds(s, u.p) {
      assert (u.p, c) in s'.comments;
      assert (u.p, c) in s.comments;
    }
  }

  /** Nobody else deletes the post, changes the vote or deletes the parent a task has found. */
  lemma FoundKept(s: Store, t: Task, u: Task, now: int)
    requires TaskOk(s, t) && ClaimOf(u) != Nothing && !Conflict(ClaimOf(t), ClaimOf(u))
    ensures u.p in s.posts && !ClaimOf(u).Removal? ==> u.p in Step(s, t, now).0.posts
    ensures ClaimOf(u).OneVote? ==>
      Lookup(Step(s, t, now).0.thumbs, (u.p, u.voter)) == Lookup(s.thumbs, (u.p, u.voter))
    ensures forall c :: ClaimOf(u).Reply? && (u.p, c) in s.comments && Pending(t) != Some(c) ==>
      Lookup(Step(s, t, now).0.comments, (u.p, c)) == Lookup(s.comments, (u.p, c))
  {
    StepFrame(s, t, now);
    hide Step;
  }

  /** A task keeps what it relies on while another task of no conflicting claim takes a step. */
  lemma OthersKeep(s: Store, t: Task, u: Task, now: int)
    requires TaskOk(s, t) && TaskOk(s, u) && RecordsOk(s)
    requires !Conflict(ClaimOf(t), ClaimOf(u))
    requires Pending(t) == None || Pending(t) != Pending(u)
    ensures TaskOk(Step(s, t, now).0, u)
  {
    if Pending(u).Some? {
      NumberKept(s, t, u, now);
    }
    if ClaimOf(u).Removal? {
      RemovalKept(s, t, u, now);
    }
    if ClaimOf(u) != Nothing {
      FoundKept(s, t, u, now);
    }
    hide Step, CommentIds, ThumbsOf, Unused, Conflict;
  }

  lemma DeleteCommentsKeeps(s: Store, p: int, c: int)
    ensures CommentIds(s.(comments := s.comments - {(p, c)}), p) == CommentIds(s, p) - {c}
  {
    var s' := s.(comments := s.comments - {(p, c)});
    forall d ensures d in CommentIds(s', p) <==> d in CommentIds(s, p) - {c} {
      assert d in CommentIds(s', p) <==> (p, d) in s'.comments;
      assert d in CommentIds(s, p) <==> (p, d) in s.comments;
    }
  }

  /** The truthiness test on a parent's own parent is sound because stored parent ids are at least 1. */
  lemma ParentTestSound(s: Store, p: int, parent: Option<int>)
    requires RecordsOk(s)
    requires forall k :: k in s.comments && s.comments[k].parent.Some? ==> s.comments[k].parent.value >= 1
    ensures ParentError(s, p, parent) == None <==> TopLevel(s, p, parent)
  {
    if parent.Some? && (p, parent.value) in s.comments {
      var k := (p, parent.value);
      assert 1 <= k.1;
    }
  }

  lemma DeleteKeeps(s: Store, t: Task, now: int)
    requires TaskOk(s, t) && (t.DeleteComments? || t.DeleteThumbs?)
    ensures TaskOk(Step(s, t, now).0, Step(s, t, now).1)
  {
    if t.DeleteComments? {
      if t.ids != {} {
        DeleteCommentsKeeps(s, t.p, AnyOf(t.ids));
      }
    } else {
      var s' := Step(s, t, now).0;
      CommentIdsFrame(s, s', t.p);
      if t.votes != {} {
        assert ThumbsOf(s', t.p) == ThumbsOf(s, t.p) - {AnyOf(t.votes)};
      }
    }
  }

  /** A task never widens its claim, and the only id it takes up is a new one. */
  lemma SelfClaims(s: Store, t: Task, now: int)
    ensures var t' := Step(s, t, now).1;
      && (ClaimOf(t') == ClaimOf(t) || ClaimOf(t') == Nothing)
      && (t' == t || Pending(t') == None || Pending(t') == Some(s.lastId + 1))
  {
  }

  lemma ToggleSelfKeeps(s: Store, t: Task, now: int)
    requires TaskOk(s, t) && ClaimOf(t).OneVote?
    ensures TaskOk(Step(s, t, now).0, Step(s, t, now).1)
  {
    hide CommentIds, ThumbsOf, Unused, ParentError;
  }

  lemma NumberSelfKeeps(s: Store, t: Task, now: int)
    requires TaskOk(s, t) && RecordsOk(s) && TakesId(t)
    ensures TaskOk(Step(s, t, now).0, Step(s, t, now).1)
  {
    hide CommentIds, ThumbsOf, ParentError;
  }

  lemma ReplySelfKeeps(s: Store, t: Task, now: int)
    requires TaskOk(s, t) && RecordsOk(s) && ClaimOf(t).Reply? && !TakesId(t)
    requires forall k :: k in s.comments && s.comments[k].parent.Some? ==> s.comments[k].parent.value >= 1
    ensures TaskOk(Step(s, t, now).0, Step(s, t, now).1)
  {
    if t.CommentParent? {
      ParentTestSound(s, t.p, t.parent);
    }
    hide CommentIds, ThumbsOf, Unused, ParentError, RecordsOk;
  }

  /** A task establishes what it relies on next. */
  lemma SelfKeeps(s: Store, t: Task, now: int)
    requires TaskOk(s, t) && RecordsOk(s)
    requires forall k :: k in s.comments && s.comments[k].parent.Some? ==> s.comments[k].parent.value >= 1
    ensures TaskOk(Step(s, t, now).0, Step(s, t, now).1)
  {
    if t.DeleteComments? || t.DeleteThumbs? {
      DeleteKeeps(s, t, now);
    } else if TakesId(t) {
      NumberSelfKeeps(s, t, now);
    } else if ClaimOf(t).OneVote? {
      ToggleSelfKeeps(s, t, now);
    } else if ClaimOf(t).Reply? {
      ReplySelfKeeps(s, t, now);
    }
    hide Unused, RecordsOk;
  }

  lemma RecordsOf(s: Store, p: int)
    ensures forall k :: k in s.comments && k.0 == p ==> k.1 in CommentIds(s, p)
    ensures forall k :: k in s.thumbs && k.0 == p ==> k in ThumbsOf(s, p)
  {
  }

  lemma NewRecordsKeep(s: Store, t: Task, now: int)
    requires RecordsOk(s) && TaskOk(s, t) && (t.PostPut? || t.CommentPut?)
    ensures RecordsOk(Step(s, t, now).0)
  {
  }

  lemma DeletedRecordsKeep(s: Store, t: Task, now: int)
    requires RecordsOk(s) && TaskOk(s, t) && (t.DeleteMeta? || t.DeleteComments? || t.DeleteThumbs?)
    ensures RecordsOk(Step(s, t, now).0)
  {
    if t.DeleteMeta? {
      RecordsOf(s, t.p);
    }
  }

  lemma RecordsKeep(s: Store, t: Task, now: int)
    requires RecordsOk(s) && TaskOk(s, t)
    ensures RecordsOk(Step(s, t, now).0)
  {
    if t.PostPut? || t.CommentPut? {
      NewRecordsKeep(s, t, now);
    } else if t.DeleteMeta? || t.DeleteComments? || t.DeleteThumbs? {
      DeletedRecordsKeep(s, t, now);
    } else {
      assert Step(s, t, now).0.comments == s.comments;
    }
  }

  lemma RemovingStep(tasks: seq<Task>, i: nat, s: Store, now: int, p: int)
    requires i < |tasks|
    ensures var t := tasks[i];
      var t' := Step(s, t, now).1;
      && (Removing(tasks, p) && !(t.DeleteMeta? && t.p == p) ==> Removing(tasks[i := t'], p))
      && (Removing(tasks[i := t'], p) && !Removing(tasks, p) ==> t.DeleteStart? && t.p == p)
  {
    var t' := Step(s, tasks[i], now).1;
    var tasks' := tasks[i := t'];
    if Removing(tasks, p) {
      var j :| 0 <= j < |tasks| && Deleting(tasks[j], p);
      assert j != i ==> Deleting(tasks'[j], p);
      assert j == i ==> tasks'[j] == t';
    }
    if Removing(tasks', p) {
      var j :| 0 <= j < |tasks'| && Deleting(tasks'[j], p);
      assert j != i ==> Deleting(tasks[j], p);
    }
  }

  /** While a vote or a comment is being written its post is not being removed. */
  lemma WritingExcludesRemoval(s: Store, tasks: seq<Task>, i: nat)
    requires i < |tasks| && TasksOk(s, tasks) && (ClaimOf(tasks[i]).Reply? || ClaimOf(tasks[i]).OneVote?)
    ensures !Removing(tasks, tasks[i].p)
  {
    forall j | 0 <= j < |tasks| && Deleting(tasks[j], tasks[i].p) ensures false {
      assert Conflict(ClaimOf(tasks[j]), ClaimOf(tasks[i])) && Conflict(ClaimOf(tasks[i]), ClaimOf(tasks[j]));
    }
  }

  lemma NewParentKeeps(s: Store, tasks: seq<Task>, i: nat, now: int, k: (int, int))
    requires i < |tasks| && tasks[i].CommentPut? && TasksOk(s, tasks) && RecordsOk(s) && ParentsOk(s, tasks)
    requires k in Step(s, tasks[i], now).0.comments
    ensures ParentOk(Step(s, tasks[i], now).0, tasks[i := Step(s, tasks[i], now).1], k)
  {
    RemovingStep(tasks, i, s, now, k.0);
    WritingExcludesRemoval(s, tasks, i);
    hide Removing;
    assert k in s.comments ==> ParentOk(s, tasks, k);
  }

  lemma OldParentKeeps(s: Store, tasks: seq<Task>, i: nat, now: int, k: (int, int))
    requires i < |tasks| && !tasks[i].CommentPut? && TaskOk(s, tasks[i])
    requires k in s.comments && ParentOk(s, tasks, k) && k in Step(s, tasks[i], now).0.comments
    ensures ParentOk(Step(s, tasks[i], now).0, tasks[i := Step(s, tasks[i], now).1], k)
  {
    var t := tasks[i];
    var s' := Step(s, t, now).0;
    RemovingStep(tasks, i, s, now, k.0);
    if t.DeleteComments? {
      assert Deleting(t, t.p);
      hide Removing;
      assert s.comments.Keys >= s'.comments.Keys;
    } else {
      hide Removing;
      assert s'.comments == s.comments;
      RecordsOf(s, k.0);
    }
  }

  lemma ParentKeeps(s: Store, tasks: seq<Task>, i: nat, now: int, k: (int, int))
    requires i < |tasks| && TasksOk(s, tasks) && RecordsOk(s) && ParentsOk(s, tasks)
    requires k in Step(s, tasks[i], now).0.comments
    ensures ParentOk(Step(s, tasks[i], now).0, tasks[i := Step(s, tasks[i], now).1], k)
  {
    if tasks[i].CommentPut? {
      NewParentKeeps(s, tasks, i, now, k);
    } else {
      hide ParentOk, Removing;
      OldParentKeeps(s, tasks, i, now, k);
    }
  }

  lemma ParentsKeep(s: Store, tasks: seq<Task>, i: nat, now: int)
    requires i < |tasks| && TasksOk(s, tasks) && RecordsOk(s) && ParentsOk(s, tasks)
    ensures var (s', t') := Step(s, tasks[i], now); ParentsOk(s', tasks[i := t'])
  {
    var (s', t') := Step(s, tasks[i], now);
    forall k | k in s'.comments
      ensures ParentOk(s', tasks[i := t'], k)
    {
      ParentKeeps(s, tasks, i, now, k);
    }
  }

  // ---- Counters ----

  lemma ToggleWriteBalance(s: Store, t: Task, now: int, p: int, c: Counter)
    requires TaskOk(s, t) && t.ToggleWrite?
    ensures var (s', t') := Step(s, t, now); Actual(s', p, c) == Actual(s, p, c) + Owes(t', p, c)
  {
    var s' := Step(s, t, now).0;
    var k := (t.p, t.voter);
    assert s'.thumbs == SetVote(s.thumbs, k, Flip(t.seen, t.d));
    TallySet(s.thumbs, k, Flip(t.seen, t.d), p, if c == UpVotes then 1 else -1);
    CommentIdsFrame(s, s', p);
  }

  /** One step moves a counter, what its task owes, and the records counted, in balance. */
  lemma StepBalance(s: Store, t: Task, now: int, p: int, c: Counter)
    requires TaskOk(s, t) && p in s.posts && !Deleting(t, p)
    ensures var (s', t') := Step(s, t, now);
      && p in s'.posts
      && (t.PostPut? ||
          Stored(s'.posts[p], c) + Owes(t', p, c) - Actual(s', p, c)
          == Stored(s.posts[p], c) + Owes(t, p, c) - Actual(s, p, c))
  {
    if t.ToggleWrite? {
      ToggleWriteBalance(s, t, now, p, c);
    } else if t.CommentPut? {
      CommentPutBalance(s, t, now, p);
    } else {
      var s' := Step(s, t, now).0;
      StepFrame(s, t, now);
      CommentIdsFrame(s, s', p);
      ThumbsOfFrame(s, s', p);
    }
  }

  lemma CommentPutBalance(s: Store, t: Task, now: int, p: int)
    requires TaskOk(s, t) && t.CommentPut?
    ensures |CommentIds(Step(s, t, now).0, p)| == |CommentIds(s, p)| + if t.p == p then 1 else 0
  {
    var s' := Step(s, t, now).0;
    forall c ensures c in CommentIds(s', p) <==> c in CommentIds(s, p) || (t.p == p && c == t.written.id) {
      assert c in CommentIds(s', p) <==> (p, c) in s'.comments;
      assert c in CommentIds(s, p) <==> (p, c) in s.comments;
    }
    assert t.written.id !in CommentIds(s, p);
    assert CommentIds(s', p) == if t.p == p then CommentIds(s, p) + {t.written.id} else CommentIds(s, p);
  }

  lemma NewPostBalance(s: Store, tasks: seq<Task>, i: nat, now: int, c: Counter)
    requires i < |tasks| && TasksOk(s, tasks) && RecordsOk(s) && tasks[i].PostPut?
    ensures var (s', t') := Step(s, tasks[i], now);
      var p := tasks[i].post.id;
      Stored(s'.posts[p], c) + Owed(tasks[i := t'], p, c) == Actual(s', p, c)
  {
    var (s', t') := Step(s, tasks[i], now);
    var id := tasks[i].post.id;
    OwedNothing(tasks[i := t'], id, c);
    assert Ballots(s'.thumbs, id, 1) == {} && Ballots(s'.thumbs, id, -1) == {};
    forall d ensures d !in CommentIds(s', id) {
      assert d in CommentIds(s', id) <==> (id, d) in s.comments;
    }
  }

  lemma CountersKeep(s: Store, tasks: seq<Task>, i: nat, now: int)
    requires i < |tasks| && Invariant(System(s, tasks))
    ensures var (s', t') := Step(s, tasks[i], now); CountersOk(s', tasks[i := t'])
  {
    var t := tasks[i];
    var (s', t') := Step(s, t, now);
    var tasks' := tasks[i := t'];
    forall p, c | p in s'.posts && !Removing(tasks', p)
      ensures Stored(s'.posts[p], c) + Owed(tasks', p, c) == Actual(s', p, c)
    {
      StepFrame(s, t, now);
      if p in s.posts {
        RemovingStep(tasks, i, s, now, p);
        assert !Removing(tasks, p);
        OwedUpdate(tasks, i, t', p, c);
        StepBalance(s, t, now, p, c);
      } else {
        NewPostBalance(s, tasks, i, now, c);
      }
    }
  }

  // ---- Every run ----

  lemma AdvanceKeeps(sys: System, i: nat, now: int)
    requires Invariant(sys) && i < |sys.tasks|
    ensures Invariant(Act(sys, Advance(i, now)))
  {
    var s, tasks := sys.store, sys.tasks;
    var t := tasks[i];
    var (s', t') := Step(s, t, now);
    var tasks' := tasks[i := t'];
    forall k | k in s.comments && s.comments[k].parent.Some? ensures s.comments[k].parent.value >= 1 {
      assert ParentOk(s, tasks, k);
    }
    SelfKeeps(s, t, now);
    SelfClaims(s, t, now);
    forall j | 0 <= j < |tasks| && j != i ensures TaskOk(s', tasks'[j]) {
      OthersKeep(s, t, tasks[j], now);
    }
    forall j | 0 <= j < |tasks| && Pending(tasks[j]).Some? ensures Pending(tasks[j]).value <= s.lastId {
      assert TaskOk(s, tasks[j]);
    }
    RecordsKeep(s, t, now);
    ParentsKeep(s, tasks, i, now);
    CountersKeep(s, tasks, i, now);
  }

  lemma StartKeeps(sys: System, t: Task)
    requires Invariant(sys) && Admissible(sys, Start(t))
    ensures Invariant(Act(sys, Start(t)))
  {
    var tasks' := sys.tasks + [t];
    forall p ensures Removing(tasks', p) <==> Removing(sys.tasks, p) {
      if Removing(sys.tasks, p) {
        var i :| 0 <= i < |sys.tasks| && Deleting(sys.tasks[i], p);
        assert Deleting(tasks'[i], p);
      }
    }
    forall p, c ensures Owed(tasks', p, c) == Owed(sys.tasks, p, c) {
      assert tasks'[..|tasks'| - 1] == sys.tasks;
    }
    forall k | k in sys.store.comments ensures ParentOk(sys.store, tasks', k) {
      assert ParentOk(sys.store, sys.tasks, k);
    }
    hide Removing, Owed, Actual, ParentOk;
  }

  /**
   Any number of posts, comments, toggles and deletes, interleaved in any way the rules of
   admission allow, keep ids unique, replies one level deep, and every counter equal to
   its records less what calls in flight still owe it.
   */
  lemma {:induction false} EveryRunKeeps(sys: System, actions: seq<Action>)
    requires Invariant(sys) && AllAdmissible(sys, actions)
    ensures Invariant(Run(sys, actions))
    decreases |actions|
  {
    if actions != [] {
      match actions[0] {
        case Start(t) => StartKeeps(sys, t);
        case Advance(i, now) => AdvanceKeeps(sys, i, now);
      }
      EveryRunKeeps(Act(sys, actions[0]), actions[1..]);
    }
  }

  // ---- Ids over a whole run ----

  /** The ids handed out by a run, in the order of the counter updates. */
  ghost function Issued(sys: System, actions: seq<Action>): seq<int>
    requires AllAdmissible(sys, actions)
    decreases |actions|
  {
    if actions == [] then []
    else
      var rest := Issued(Act(sys, actions[0]), actions[1..]);
      if actions[0].Advance? && TakesId(sys.tasks[actions[0].i]) then [sys.store.lastId + 1] + rest else rest
  }

  predicate TakesId(t: Task) {
    t.CommentNumber? || t.PostNumber?
  }

  /** No id is ever handed out twice, even after its record is deleted: each is greater than all before it,
      and greater than every id the run started with. */
  lemma {:induction false} IdsNeverReused(sys: System, actions: seq<Action>)
    requires AllAdmissible(sys, actions)
    ensures var ids := Issued(sys, actions);
      && (forall i, j :: 0 <= i < j < |ids| ==> ids[i] < ids[j])
      && (forall i :: 0 <= i < |ids| ==> sys.store.lastId < ids[i] <= Run(sys, actions).store.lastId)
      && sys.store.lastId + |ids| == Run(sys, actions).store.lastId
    decreases |actions|
  {
    if actions != [] {
      if actions[0].Advance? {
        CounterMoves(sys.store, sys.tasks[actions[0].i], actions[0].now);
      }
      IdsNeverReused(Act(sys, actions[0]), actions[1..]);
    }
  }

  lemma CounterMoves(s: Store, t: Task, now: int)
    ensures Step(s, t, now).0.lastId == s.lastId + if TakesId(t) then 1 else 0
    ensures TakesId(t) ==> Pending(Step(s, t, now).1) == Some(s.lastId + 1)
  {
  }

  // ---- When nothing is in flight ----

  /** A store with nothing in flight. */
  ghost predicate Valid(s: Store) {
    Invariant(System(s, []))
  }

  /** Every counter is the number of records it counts. */
  ghost predicate CountersExact(s: Store) {
    forall p :: p in s.posts ==>
      && s.posts[p].up == Tally(s.thumbs, p, 1)
      && s.posts[p].down == Tally(s.thumbs, p, -1)
      && s.posts[p].comments == |CommentIds(s, p)|
  }

  /** Every reply stands under a top-level comment on its own post. */
  ghost predicate ParentsPresent(s: Store) {
    forall k :: k in s.comments && s.comments[k].parent.Some? ==>
      var up := (k.0, s.comments[k].parent.value); up in s.comments && s.comments[up].parent == None
  }

  /** Once every call has returned, the counters are exact and every reply has its parent. */
  lemma QuietIsValid(sys: System)
    requires Invariant(sys)
    requires forall i :: 0 <= i < |sys.tasks| ==> sys.tasks[i].Finished?
    ensures Valid(sys.store) && CountersExact(sys.store) && ParentsPresent(sys.store)
  {
    forall p ensures !Removing(sys.tasks, p) {}
    forall k | k in sys.store.comments ensures ParentOk(sys.store, [], k) {
      assert ParentOk(sys.store, sys.tasks, k);
    }
    forall p, c ensures Owed(sys.tasks, p, c) == 0 {
      OwedNothing(sys.tasks, p, c);
    }
    ValidMeans(sys.store);
  }

  lemma ValidMeans(s: Store)
    requires Valid(s)
    ensures CountersExact(s) && ParentsPresent(s)
  {
    forall p | p in s.posts
      ensures && s.posts[p].up == Tally(s.thumbs, p, 1)
              && s.posts[p].down == Tally(s.thumbs, p, -1)
              && s.posts[p].comments == |CommentIds(s, p)|
    {
      forall c ensures Stored(s.posts[p], c) == Actual(s, p, c) {
        assert Stored(s.posts[p], c) + Owed([], p, c) == Actual(s, p, c);
      }
      assert Stored(s.posts[p], UpVotes) == Actual(s, p, UpVotes);
      assert Stored(s.posts[p], DownVotes) == Actual(s, p, DownVotes);
      assert Stored(s.posts[p], Remarks) == Actual(s, p, Remarks);
    }
    forall k | k in s.comments ensures ParentOk(s, [], k) {}
  }

  /** A valid store is exact, and conversely. */
  lemma ValidExactly(s: Store)
    ensures Valid(s) <==> RecordsOk(s) && CountersExact(s) && ParentsPresent(s)
  {
    if Valid(s) {
      ValidMeans(s);
    }
    if RecordsOk(s) && CountersExact(s) && ParentsPresent(s) {
      forall k | k in s.comments ensures ParentOk(s, [], k) {}
      forall p, c | p in s.posts ensures Stored(s.posts[p], c) + Owed([], p, c) == Actual(s, p, c) {}
    }
  }

  lemma EmptyIsValid()
    ensures Valid(EMPTY)
  {
    forall p ensures p !in EMPTY.posts {}
  }
}
