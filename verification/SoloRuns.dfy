/**
 Consequences of the interleaving invariant: counters never show a negative number, a
 task that runs alone does exactly what the sequential operation says, and so every
 sequential operation keeps a store valid.
 */
module SoloRuns {
  import opened Options
  import opened Community
  import opened DynamoStore
  import opened Interleaving

  // ---- Counters are never negative, even while calls are in flight ----

  /** The votes as the counters know them: written votes not yet counted are taken back. */
  function Counted(votes: Votes, tasks: seq<Task>): Votes {
    if tasks == [] then votes
    else
      var t := tasks[|tasks| - 1];
      var rest := Counted(votes, tasks[..|tasks| - 1]);
      if t.ToggleCount? then SetVote(rest, (t.p, t.voter), t.seen) else rest
  }

  lemma {:induction false} CountedElsewhere(votes: Votes, tasks: seq<Task>, k: VoteKey)
    requires forall i :: 0 <= i < |tasks| && tasks[i].ToggleCount? ==> (tasks[i].p, tasks[i].voter) != k
    ensures Lookup(Counted(votes, tasks), k) == Lookup(votes, k)
  {
    if tasks != [] {
      CountedElsewhere(votes, tasks[..|tasks| - 1], k);
    }
  }

  function Side(c: Counter): Direction
    requires c != Remarks
  {
    if c == UpVotes then 1 else -1
  }

  lemma {:induction false} CountedTally(s: Store, tasks: seq<Task>, p: int, c: Counter)
    requires TasksOk(s, tasks) && c != Remarks
    ensures Tally(Counted(s.thumbs, tasks), p, Side(c)) == Tally(s.thumbs, p, Side(c)) - Owed(tasks, p, c)
  {
    if tasks != [] {
      var n := |tasks| - 1;
      var t := tasks[n];
      CountedTally(s, tasks[..n], p, c);
      if t.ToggleCount? {
        var k := (t.p, t.voter);
        forall i | 0 <= i < n && tasks[i].ToggleCount? ensures (tasks[i].p, tasks[i].voter) != k {
          assert !Conflict(ClaimOf(tasks[i]), ClaimOf(t));
        }
        CountedElsewhere(s.thumbs, tasks[..n], k);
        assert TaskOk(s, t);
        TallySet(Counted(s.thumbs, tasks[..n]), k, t.seen, p, Side(c));
      }
    }
  }

  /** At every moment the counters of a post are the tallies of the votes counted so far. */
  lemma CountersShowCountedVotes(sys: System, p: int)
    requires Invariant(sys) && p in sys.store.posts && !Removing(sys.tasks, p)
    ensures sys.store.posts[p].up == Tally(Counted(sys.store.thumbs, sys.tasks), p, 1) >= 0
    ensures sys.store.posts[p].down == Tally(Counted(sys.store.thumbs, sys.tasks), p, -1) >= 0
    ensures sys.store.posts[p].comments >= 0
  {
    CountedTally(sys.store, sys.tasks, p, UpVotes);
    CountedTally(sys.store, sys.tasks, p, DownVotes);
    assert Stored(sys.store.posts[p], UpVotes) + Owed(sys.tasks, p, UpVotes) == Actual(sys.store, p, UpVotes);
    assert Stored(sys.store.posts[p], DownVotes) + Owed(sys.tasks, p, DownVotes) == Actual(sys.store, p, DownVotes);
  }

  predicate NonNegative(s: Store) {
    forall p :: p in s.posts ==> s.posts[p].up >= 0 && s.posts[p].down >= 0 && s.posts[p].comments >= 0
  }

  lemma AdvanceNonNegative(sys: System, i: nat, now: int)
    requires Invariant(sys) && NonNegative(sys.store) && i < |sys.tasks|
    ensures NonNegative(Act(sys, Advance(i, now)).store)
  {
    var sys' := Act(sys, Advance(i, now));
    AdvanceKeeps(sys, i, now);
    forall p | p in sys'.store.posts
      ensures sys'.store.posts[p].up >= 0 && sys'.store.posts[p].down >= 0 && sys'.store.posts[p].comments >= 0
    {
      if Removing(sys'.tasks, p) {
        RemovedRowKept(sys, i, now, p);
      } else {
        CountersShowCountedVotes(sys', p);
      }
    }
    hide Invariant, Act;
  }

  lemma RemovedNotCounted(sys: System, i: nat, now: int, p: int)
    requires Invariant(sys) && i < |sys.tasks| && Removing(Act(sys, Advance(i, now)).tasks, p)
    ensures !((sys.tasks[i].ToggleCount? || sys.tasks[i].CommentCount?) && sys.tasks[i].p == p)
  {
    RemovingStep(sys.tasks, i, sys.store, now, p);
    if sys.tasks[i].ToggleCount? || sys.tasks[i].CommentCount? {
      WritingExcludesRemoval(sys.store, sys.tasks, i);
    }
    hide Removing, TasksOk, RecordsOk, ParentsOk, CountersOk;
  }

  /** The row of a post under removal does not change. */
  lemma RemovedRowKept(sys: System, i: nat, now: int, p: int)
    requires Invariant(sys) && i < |sys.tasks| && Removing(Act(sys, Advance(i, now)).tasks, p)
    requires p in Act(sys, Advance(i, now)).store.posts
    ensures var row := Act(sys, Advance(i, now)).store.posts[p];
      row == Bare(row) || (p in sys.store.posts && row == sys.store.posts[p])
  {
    var t := sys.tasks[i];
    assert TaskOk(sys.store, t);
    RemovedNotCounted(sys, i, now, p);
    hide Invariant, Removing;
    StepFrame(sys.store, t, now);
    var s' := Step(sys.store, t, now).0;
    assert Lookup(s'.posts, p) == Lookup(sys.store.posts, p) || (t.PostPut? && p == t.post.id) || t.DeleteMeta?;
  }

  /** In every run, at every moment, every stored counter is non-negative, on posts under removal too. */
  lemma {:induction false} CountersNeverNegative(sys: System, actions: seq<Action>)
    requires Invariant(sys) && NonNegative(sys.store) && AllAdmissible(sys, actions)
    ensures NonNegative(Run(sys, actions).store)
    decreases |actions|
  {
    hide Invariant, NonNegative, Act, Admissible;
    if actions != [] {
      match actions[0] {
        case Start(t) =>
          StartKeeps(sys, t);
          assert Act(sys, actions[0]).store == sys.store by { StartStore(sys, t); }
        case Advance(i, now) =>
          AdvanceEnabled(sys, i, now);
          AdvanceKeeps(sys, i, now);
          AdvanceNonNegative(sys, i, now);
      }
      CountersNeverNegative(Act(sys, actions[0]), actions[1..]);
    }
  }

  lemma StartStore(sys: System, t: Task)
    requires Admissible(sys, Start(t))
    ensures Act(sys, Start(t)).store == sys.store
  {
  }

  lemma AdvanceEnabled(sys: System, i: nat, now: int)
    requires Admissible(sys, Advance(i, now))
    ensures i < |sys.tasks|
  {
  }

  /** The counts a toggle returns are the tallies of the votes counted up to that call, its own included. */
  lemma ReturnedCounts(sys: System, i: nat, now: int)
    requires Invariant(sys) && i < |sys.tasks| && sys.tasks[i].ToggleCount?
    ensures var sys' := Act(sys, Advance(i, now));
      var counted := Counted(sys'.store.thumbs, sys'.tasks);
      var p := sys.tasks[i].p;
      sys'.tasks[i] == Finished(Voted(Counts(Tally(counted, p, 1), Tally(counted, p, -1))))
  {
    var sys' := Act(sys, Advance(i, now));
    var t := sys.tasks[i];
    assert TaskOk(sys.store, t);
    AdvanceKeeps(sys, i, now);
    WritingExcludesRemoval(sys.store, sys.tasks, i);
    RemovingStep(sys.tasks, i, sys.store, now, t.p);
    hide Invariant, Removing, Tally, Counted;
    CountersShowCountedVotes(sys', t.p);
  }

  // ---- A task running alone ----

  ghost function Steps(s: Store, t: Task, now: int, n: nat): (Store, Task)
    decreases n
  {
    if n == 0 then (s, t)
    else
      var (s', t') := Step(s, t, now);
      Steps(s', t', now, n - 1)
  }

  lemma {:induction false} StepsJoin(s: Store, t: Task, now: int, m: nat, n: nat)
    ensures Steps(s, t, now, m + n) == Steps(Steps(s, t, now, m).0, Steps(s, t, now, m).1, now, n)
    decreases m
  {
    if m > 0 {
      var (s', t') := Step(s, t, now);
      StepsJoin(s', t', now, m - 1, n);
    }
  }

  function Ended<T>(r: Result<T>, done: T -> Outcome): Task {
    match r case Ok(v) => Finished(done(v)) case Err(e) => Finished(Failed(e))
  }

  lemma SoloToggle(s: Store, p: int, voter: string, d: Direction, now: int)
    ensures Steps(s, ToggleStart(p, voter, d), now, 4)
         == (Toggle(s, p, voter, d).0, Ended(Toggle(s, p, voter, d).1, c => Voted(c)))
  {
    var (s1, t1) := Step(s, ToggleStart(p, voter, d), now);
    var (s2, t2) := Step(s1, t1, now);
    var (s3, t3) := Step(s2, t2, now);
    var (s4, t4) := Step(s3, t3, now);
    assert Steps(s, ToggleStart(p, voter, d), now, 4) == Steps(s1, t1, now, 3) == Steps(s2, t2, now, 2)
        == Steps(s3, t3, now, 1) == Steps(s4, t4, now, 0);
  }

  lemma SoloComment(s: Store, p: int, author: string, body: string, parent: Option<int>, now: int)
    ensures Steps(s, CommentStart(p, author, body, parent), now, 5)
         == (CreateComment(s, p, author, body, parent, now).0,
             Ended(CreateComment(s, p, author, body, parent, now).1, v => Commented(v)))
  {
    var (s1, t1) := Step(s, CommentStart(p, author, body, parent), now);
    var (s2, t2) := Step(s1, t1, now);
    var (s3, t3) := Step(s2, t2, now);
    var (s4, t4) := Step(s3, t3, now);
    var (s5, t5) := Step(s4, t4, now);
    assert Steps(s, CommentStart(p, author, body, parent), now, 5) == Steps(s1, t1, now, 4) == Steps(s2, t2, now, 3)
        == Steps(s3, t3, now, 2) == Steps(s4, t4, now, 1) == Steps(s5, t5, now, 0);
  }

  lemma SoloPost(s: Store, author: string, title: string, body: string, postType: string, now: int)
    ensures Steps(s, PostNumber(author, title, body, postType), now, 2)
         == (CreatePost(s, author, title, body, postType, now).0,
             Finished(Posted(CreatePost(s, author, title, body, postType, now).1)))
  {
    var (s1, t1) := Step(s, PostNumber(author, title, body, postType), now);
    var (s2, t2) := Step(s1, t1, now);
    assert Steps(s, PostNumber(author, title, body, postType), now, 2) == Steps(s1, t1, now, 1)
      == Steps(s2, t2, now, 0);
  }

  function CommentsElsewhere(s: Store, p: int): map<(int, int), CommentRow> {
    map k | k in s.comments && k.0 != p :: s.comments[k]
  }

  function ThumbsElsewhere(s: Store, p: int): Votes {
    map k | k in s.thumbs && k.0 != p :: s.thumbs[k]
  }

  lemma {:induction false} SoloDeleteComments(s: Store, p: int, now: int)
    ensures Steps(s, AfterComments(p, CommentIds(s, p)), now, |CommentIds(s, p)|)
         == (s.(comments := CommentsElsewhere(s, p)), DeleteFindThumbs(p))
    decreases |CommentIds(s, p)|
  {
    var ids := CommentIds(s, p);
    if ids == {} {
      RecordsOf(s, p);
      assert CommentsElsewhere(s, p) == s.comments;
    } else {
      var c := AnyOf(ids);
      var s' := s.(comments := s.comments - {(p, c)});
      DeleteCommentsKeeps(s, p, c);
      SoloDeleteComments(s', p, now);
      assert CommentsElsewhere(s', p) == CommentsElsewhere(s, p);
    }
  }

  lemma {:induction false} SoloDeleteThumbs(s: Store, p: int, now: int)
    ensures Steps(s, AfterThumbs(p, ThumbsOf(s, p)), now, |ThumbsOf(s, p)|)
         == (s.(thumbs := ThumbsElsewhere(s, p)), DeleteMeta(p))
    decreases |ThumbsOf(s, p)|
  {
    var votes := ThumbsOf(s, p);
    if votes == {} {
      RecordsOf(s, p);
      assert ThumbsElsewhere(s, p) == s.thumbs;
    } else {
      var k := AnyOf(votes);
      var s' := s.(thumbs := s.thumbs - {k});
      assert ThumbsOf(s', p) == votes - {k};
      SoloDeleteThumbs(s', p, now);
      assert ThumbsElsewhere(s', p) == ThumbsElsewhere(s, p);
    }
  }

  lemma SoloThumbsAndMeta(s: Store, p: int, now: int)
    ensures Steps(s, DeleteFindThumbs(p), now, |ThumbsOf(s, p)| + 2)
         == (s.(thumbs := ThumbsElsewhere(s, p), posts := s.posts - {p}), Finished(Deleted))
  {
    var n := |ThumbsOf(s, p)|;
    var s' := s.(thumbs := ThumbsElsewhere(s, p));
    SoloDeleteThumbs(s, p, now);
    StepsJoin(s, AfterThumbs(p, ThumbsOf(s, p)), now, n, 1);
    assert Steps(s', DeleteMeta(p), now, 1) == Steps(s'.(posts := s.posts - {p}), Finished(Deleted), now, 0);
    StepsJoin(s, DeleteFindThumbs(p), now, 1, n + 1);
    assert Steps(s, DeleteFindThumbs(p), now, 1) == Steps(s, AfterThumbs(p, ThumbsOf(s, p)), now, 0);
  }

  /** The looped delete removes exactly the post, its comments and its thumbs. */
  lemma SoloDelete(s: Store, p: int, user: string, now: int)
    ensures Steps(s, DeleteStart(p, user), now, |CommentIds(s, p)| + |ThumbsOf(s, p)| + 4)
         == (DeletePost(s, p, user).0, Ended(DeletePost(s, p, user).1, v => Deleted))
  {
    var m, n := |CommentIds(s, p)|, |ThumbsOf(s, p)|;
    var t1 := Step(s, DeleteStart(p, user), now).1;
    StepsJoin(s, DeleteStart(p, user), now, 1, m + n + 3);
    assert Steps(s, DeleteStart(p, user), now, 1) == Steps(s, t1, now, 0);
    if t1.Finished? {
      FinishedStays(s, t1, now, m + n + 3);
    } else {
      SoloRemoval(s, p, now);
    }
  }

  /** The calls of a delete once it has found the post. */
  lemma SoloRemoval(s: Store, p: int, now: int)
    ensures Steps(s, DeleteFindComments(p), now, |CommentIds(s, p)| + |ThumbsOf(s, p)| + 3)
         == (WithoutPost(s, p), Finished(Deleted))
  {
    var m, n := |CommentIds(s, p)|, |ThumbsOf(s, p)|;
    var t1, t2 := DeleteFindComments(p), AfterComments(p, CommentIds(s, p));
    StepsJoin(s, t1, now, 1, m + (n + 2));
    assert Steps(s, t1, now, 1) == Steps(s, t2, now, 0);
    SoloDeleteComments(s, p, now);
    StepsJoin(s, t2, now, m, n + 2);
    hide Steps;
    var s2 := s.(comments := CommentsElsewhere(s, p));
    assert ThumbsOf(s2, p) == ThumbsOf(s, p);
    SoloThumbsAndMeta(s2, p, now);
    assert s.posts - {p} == WithoutPost(s, p).posts;
  }

  lemma {:induction false} FinishedStays(s: Store, t: Task, now: int, n: nat)
    requires t.Finished?
    ensures Steps(s, t, now, n) == (s, t)
  {
    if n > 0 {
      FinishedStays(s, t, now, n - 1);
    }
  }

  // ---- Sequential operations keep a store valid ----

  lemma {:induction false} StepsKeep(s: Store, t: Task, now: int, n: nat)
    requires Invariant(System(s, [t]))
    ensures Invariant(System(Steps(s, t, now, n).0, [Steps(s, t, now, n).1]))
    decreases n
  {
    if n > 0 {
      var (s', t') := Step(s, t, now);
      AdvanceKeeps(System(s, [t]), 0, now);
      assert [t][0 := t'] == [t'];
      StepsKeep(s', t', now, n - 1);
    }
  }

  lemma SoloKeepsValid(s: Store, t: Task, now: int, n: nat)
    requires Valid(s) && IsStart(t) && Steps(s, t, now, n).1.Finished?
    ensures Valid(Steps(s, t, now, n).0)
  {
    StartKeeps(System(s, []), t);
    assert [] + [t] == [t];
    StepsKeep(s, t, now, n);
    QuietIsValid(System(Steps(s, t, now, n).0, [Steps(s, t, now, n).1]));
  }

  lemma ToggleKeepsValid(s: Store, p: int, voter: string, d: Direction)
    requires Valid(s)
    ensures Valid(Toggle(s, p, voter, d).0)
  {
    SoloToggle(s, p, voter, d, 0);
    SoloKeepsValid(s, ToggleStart(p, voter, d), 0, 4);
  }

  lemma CommentKeepsValid(s: Store, p: int, author: string, body: string, parent: Option<int>, now: int)
    requires Valid(s)
    ensures Valid(CreateComment(s, p, author, body, parent, now).0)
  {
    SoloComment(s, p, author, body, parent, now);
    SoloKeepsValid(s, CommentStart(p, author, body, parent), now, 5);
  }

  lemma PostKeepsValid(s: Store, author: string, title: string, body: string, postType: string, now: int)
    requires Valid(s)
    ensures Valid(CreatePost(s, author, title, body, postType, now).0)
  {
    SoloPost(s, author, title, body, postType, now);
    SoloKeepsValid(s, PostNumber(author, title, body, postType), now, 2);
  }

  lemma DeleteKeepsValid(s: Store, p: int, user: string)
    requires Valid(s)
    ensures Valid(DeletePost(s, p, user).0)
  {
    SoloDelete(s, p, user, 0);
    SoloKeepsValid(s, DeleteStart(p, user), 0, |CommentIds(s, p)| + |ThumbsOf(s, p)| + 4);
  }
}
