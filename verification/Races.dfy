/**
 What happens outside the rules of admission: two tasks in any order of their steps, on a
 table where counting on a deleted post leaves an item that holds counters and nothing
 else. Two tasks can do harm exactly when the rules keep them apart and both would
 succeed alone.
 */
module Races {
  import opened Options
  import opened Community
  import opened DynamoStore
  import opened Interleaving
  import opened SoloRuns

  /** A post item made by a counter update alone. */
  datatype Stub = Stub(up: int, down: int, comments: int)

  datatype Table = Table(store: Store, stubs: map<int, Stub>)

  function StubOf(w: Table, p: int): Stub {
    if p in w.stubs then w.stubs[p] else Stub(0, 0, 0)
  }

  /** One table call; an update of a missing item creates it, and a stub has neither id nor author to read. */
  ghost function TableStep(w: Table, t: Task, now: int): (Table, Task) {
    if t.ToggleStart? && t.p in w.stubs then (w, ToggleRead(t.p, t.voter, t.d))
    else if (t.CommentStart? || t.DeleteStart?) && t.p in w.stubs then (w, Finished(Malformed))
    else if t.ToggleCount? && t.p !in w.store.posts then
      var was := StubOf(w, t.p);
      var stub := was.(up := was.up + t.up, down := was.down + t.down);
      (w.(stubs := w.stubs[t.p := stub]), Finished(Voted(Counts(stub.up, stub.down))))
    else if t.CommentCount? && t.p !in w.store.posts then
      var was := StubOf(w, t.p);
      (w.(stubs := w.stubs[t.p := was.(comments := was.comments + 1)]), Finished(Commented(t.comment)))
    else
      var (s, t') := Step(w.store, t, now);
      (Table(s, if t.DeleteMeta? then w.stubs - {t.p} else w.stubs), t')
  }

  datatype Order = Stop | First(now: int, rest: Order) | Second(now: int, rest: Order)

  /** Two tasks stepped in a given order, with no rule of admission. */
  ghost function Race(w: Table, a: Task, b: Task, order: Order): (Table, Task, Task)
    decreases order
  {
    match order
    case Stop => (w, a, b)
    case First(now, rest) => var (w', a') := TableStep(w, a, now); Race(w', a', b, rest)
    case Second(now, rest) => var (w', b') := TableStep(w, b, now); Race(w', a, b', rest)
  }

  function Swap(order: Order): Order {
    match order
    case Stop => Stop
    case First(now, rest) => Second(now, Swap(rest))
    case Second(now, rest) => First(now, Swap(rest))
  }

  lemma RaceStep(w: Table, a: Task, b: Task, now: int, rest: Order)
    ensures Race(w, a, b, Stop) == (w, a, b)
    ensures Race(w, a, b, First(now, rest)) == Race(TableStep(w, a, now).0, TableStep(w, a, now).1, b, rest)
    ensures Race(w, a, b, Second(now, rest)) == Race(TableStep(w, b, now).0, a, TableStep(w, b, now).1, rest)
  {
  }

  ghost predicate Swapped(w: Table, a: Task, b: Task, order: Order) {
    var (w', a', b') := Race(w, a, b, order);
    Race(w, b, a, Swap(order)) == (w', b', a')
  }

  lemma StepSwapped(w: Table, a: Task, b: Task, now: int, rest: Order)
    ensures Swapped(w, a, b, Stop)
    ensures Swapped(TableStep(w, a, now).0, TableStep(w, a, now).1, b, rest) ==> Swapped(w, a, b, First(now, rest))
    ensures Swapped(TableStep(w, b, now).0, a, TableStep(w, b, now).1, rest) ==> Swapped(w, a, b, Second(now, rest))
  {
    hide Race, TableStep;
    RaceStep(w, a, b, now, rest);
    RaceStep(w, b, a, now, Swap(rest));
  }

  lemma {:induction false} RaceSwaps(w: Table, a: Task, b: Task, order: Order)
    ensures Swapped(w, a, b, order)
    decreases order
  {
    hide Race, TableStep, Swapped;
    match order
    case Stop =>
      StepSwapped(w, a, b, 0, Stop);
    case First(now, rest) =>
      StepSwapped(w, a, b, now, rest);
      RaceSwaps(TableStep(w, a, now).0, TableStep(w, a, now).1, b, rest);
    case Second(now, rest) =>
      StepSwapped(w, a, b, now, rest);
      RaceSwaps(TableStep(w, b, now).0, a, TableStep(w, b, now).1, rest);
  }

  ghost predicate Sound(w: Table) {
    w.stubs == map[] && Valid(w.store)
  }

  /** The order ends both tasks and leaves an unsound table. */
  ghost predicate Harms(w: Table, a: Task, b: Task, order: Order) {
    var (w', a', b') := Race(w, a, b, order);
    a'.Finished? && b'.Finished? && !Sound(w')
  }

  // ---- Two toggles by one voter ----

  /** A write falls between the other task's read and its write. */
  predicate Overlapped(order: Order, i: nat, j: nat) {
    match order
    case Stop => false
    case First(_, rest) => (i == 2 && j == 2) || Overlapped(rest, Later(i), j)
    case Second(_, rest) => (i == 2 && j == 2) || Overlapped(rest, i, Later(j))
  }

  function Later(i: nat): nat {
    if i < 4 then i + 1 else 4
  }

  /** The number of calls a toggle has made. */
  function Phase(t: Task): nat {
    match t
    case ToggleStart(_, _, _) => 0
    case ToggleRead(_, _, _) => 1
    case ToggleWrite(_, _, _, _) => 2
    case ToggleCount(_, _, _, _, _, _) => 3
    case _ => 4
  }

  predicate Toggling(t: Task, p: int, voter: string) {
    match t
    case ToggleStart(q, v, _) => (q, v) == (p, voter)
    case ToggleRead(q, v, _) => (q, v) == (p, voter)
    case ToggleWrite(q, v, _, _) => (q, v) == (p, voter)
    case ToggleCount(q, v, d, seen, up, down) =>
      && (q, v) == (p, voter)
      && up == Delta(seen, Flip(seen, d), 1) && down == Delta(seen, Flip(seen, d), -1)
    case Finished(_) => true
    case _ => false
  }

  /** Only one vote and the vote counters of one post differ. */
  ghost predicate SameElsewhere(s: Store, s': Store, p: int, voter: string) {
    && (s'.comments, s'.lastId) == (s.comments, s.lastId)
    && p in s.posts && s'.posts.Keys == s.posts.Keys
    && (forall q :: q in s.posts && q != p ==> s'.posts[q] == s.posts[q])
    && s'.posts[p].comments == s.posts[p].comments
    && forall k: VoteKey :: k != (p, voter) ==> Lookup(s'.thumbs, k) == Lookup(s.thumbs, k)
  }

  ghost predicate Duel(s: Store, w: Table, a: Task, b: Task, p: int, voter: string) {
    w.stubs == map[] && SameElsewhere(s, w.store, p, voter) && Toggling(a, p, voter) && Toggling(b, p, voter)
  }

  predicate UpToDate(s: Store, t: Task) {
    t.ToggleWrite? ==> t.seen == Lookup(s.thumbs, (t.p, t.voter))
  }

  function CounterOf(d: Direction): Counter {
    if d == 1 then UpVotes else DownVotes
  }

  /** By how much a vote counter will be wrong once both tasks have counted. */
  function Excess(s: Store, a: Task, b: Task, p: int, d: Direction): int
    requires p in s.posts
  {
    Stored(s.posts[p], CounterOf(d)) + Owes(a, p, CounterOf(d)) + Owes(b, p, CounterOf(d)) - Tally(s.thumbs, p, d)
  }

  /** A step of one task changes the error only by a write whose vote was read too early. */
  lemma DuelStep(s: Store, w: Table, a: Task, b: Task, p: int, voter: string, now: int)
    requires Duel(s, w, a, b, p, voter)
    ensures var (w', a') := TableStep(w, a, now);
      && Duel(s, w', a', b, p, voter)
      && Phase(a') == Later(Phase(a))
      && UpToDate(w'.store, a')
      && (!a.ToggleWrite? ==> w'.store.thumbs == w.store.thumbs)
      && (a.ToggleWrite? ==> Lookup(w'.store.thumbs, (p, voter)) == Flip(a.seen, a.d))
  {
  }

  lemma DuelExcess(s: Store, w: Table, a: Task, b: Task, p: int, voter: string, now: int, d: Direction)
    requires Duel(s, w, a, b, p, voter)
    ensures var (w', a') := TableStep(w, a, now);
      var current := Lookup(w.store.thumbs, (p, voter));
      p in w'.store.posts && Excess(w'.store, a', b, p, d) == Excess(w.store, a, b, p, d)
        + if a.ToggleWrite? then (if current == Some(d) then 1 else 0) - (if a.seen == Some(d) then 1 else 0) else 0
  {
    hide Tally;
    if a.ToggleWrite? {
      var after := Flip(a.seen, a.d);
      assert TableStep(w, a, now).0.store.thumbs == SetVote(w.store.thumbs, (p, voter), after);
      TallySet(w.store.thumbs, (p, voter), after, p, d);
    }
  }

  /** No vote counter will be wrong. */
  predicate Balanced(s: Store, a: Task, b: Task, p: int)
    requires p in s.posts
  {
    Excess(s, a, b, p, 1) == 0 && Excess(s, a, b, p, -1) == 0
  }

  lemma {:induction false} WrittenRace(
    s: Store, w: Table, a: Task, b: Task, p: int, voter: string, order: Order)
    requires Duel(s, w, a, b, p, voter) && Phase(a) >= 3 && Phase(b) >= 3
    ensures var (w', a', b') := Race(w, a, b, order);
      Duel(s, w', a', b', p, voter) && (Balanced(w'.store, a', b', p) <==> Balanced(w.store, a, b, p))
    decreases order
  {
    hide TableStep, Excess;
    match order
    case Stop =>
    case First(now, rest) =>
      var (w', a') := TableStep(w, a, now);
      OneDuelStep(s, w, a, b, p, voter, now);
      WrittenRace(s, w', a', b, p, voter, rest);
    case Second(now, rest) =>
      var (w', b') := TableStep(w, b, now);
      OtherDuelStep(s, w, a, b, p, voter, now);
      WrittenRace(s, w', a, b', p, voter, rest);
  }

  /** What a step of the first task does to the balance. */
  ghost predicate Stepped(s: Store, w: Table, a: Task, b: Task, w': Table, a': Task, p: int, voter: string)
    requires p in w.store.posts && p in w'.store.posts
  {
    var before, after := Lookup(w.store.thumbs, (p, voter)), Lookup(w'.store.thumbs, (p, voter));
    && Duel(s, w', a', b, p, voter)
    && Phase(a') == Later(Phase(a))
    && UpToDate(w'.store, a')
    && (!a.ToggleWrite? ==> after == before && (Balanced(w'.store, a', b, p) <==> Balanced(w.store, a, b, p)))
    && (a.ToggleWrite? && a.seen == before ==>
      after != before && (Balanced(w'.store, a', b, p) <==> Balanced(w.store, a, b, p)))
    && (a.ToggleWrite? && a.seen != before && Balanced(w.store, a, b, p) ==> !Balanced(w'.store, a', b, p))
  }

  lemma OneDuelStep(s: Store, w: Table, a: Task, b: Task, p: int, voter: string, now: int)
    requires Duel(s, w, a, b, p, voter)
    ensures var (w', a') := TableStep(w, a, now);
      p in w.store.posts && p in w'.store.posts && Stepped(s, w, a, b, w', a', p, voter)
  {
    DuelStep(s, w, a, b, p, voter, now);
    DuelExcess(s, w, a, b, p, voter, now, 1);
    DuelExcess(s, w, a, b, p, voter, now, -1);
    hide TableStep, Excess, Duel;
  }

  lemma OtherDuelStep(s: Store, w: Table, a: Task, b: Task, p: int, voter: string, now: int)
    requires Duel(s, w, a, b, p, voter)
    ensures var (w', b') := TableStep(w, b, now);
      && p in w.store.posts && p in w'.store.posts
      && Stepped(s, w, b, a, w', b', p, voter) && Duel(s, w', a, b', p, voter)
      && (Balanced(w.store, b, a, p) <==> Balanced(w.store, a, b, p))
      && (Balanced(w'.store, b', a, p) <==> Balanced(w'.store, a, b', p))
  {
    OneDuelStep(s, w, b, a, p, voter, now);
    hide TableStep, Stepped, Balanced;
    BalancedSwaps(w.store, a, b, p);
    BalancedSwaps(TableStep(w, b, now).0.store, a, TableStep(w, b, now).1, p);
  }

  lemma ExcessSwaps(s: Store, a: Task, b: Task, p: int, d: Direction)
    requires p in s.posts
    ensures Excess(s, a, b, p, d) == Excess(s, b, a, p, d)
  {
    hide Owes, Tally, Stored, CounterOf;
  }

  lemma BalancedSwaps(s: Store, a: Task, b: Task, p: int)
    requires p in s.posts
    ensures Balanced(s, a, b, p) <==> Balanced(s, b, a, p)
  {
    ExcessSwaps(s, a, b, p, 1);
    ExcessSwaps(s, a, b, p, -1);
    hide Excess;
  }

  /** Once a vote has been read too early and the other task has written, the counters cannot come out right. */
  lemma {:induction false} StaleRace(
    s: Store, w: Table, a: Task, b: Task, p: int, voter: string, order: Order)
    requires Duel(s, w, a, b, p, voter) && Phase(a) >= 3 && b.ToggleWrite? && !UpToDate(w.store, b)
    requires Balanced(w.store, a, b, p)
    ensures var (w', a', b') := Race(w, a, b, order);
      && Duel(s, w', a', b', p, voter)
      && (a'.Finished? && b'.Finished? ==> !Balanced(w'.store, a', b', p))
    decreases order
  {
    hide TableStep, Excess;
    match order
    case Stop =>
    case First(now, rest) =>
      var (w', a') := TableStep(w, a, now);
      OneDuelStep(s, w, a, b, p, voter, now);
      StaleRace(s, w', a', b, p, voter, rest);
    case Second(now, rest) =>
      var (w', b') := TableStep(w, b, now);
      OtherDuelStep(s, w, a, b, p, voter, now);
      WrittenRace(s, w', a, b', p, voter, rest);
  }

  lemma StaleRaceSwapped(s: Store, w: Table, a: Task, b: Task, p: int, voter: string, order: Order)
    requires Duel(s, w, b, a, p, voter) && Phase(b) >= 3 && a.ToggleWrite? && !UpToDate(w.store, a)
    requires Balanced(w.store, b, a, p)
    ensures var (w', a', b') := Race(w, a, b, order);
      && Duel(s, w', a', b', p, voter)
      && (a'.Finished? && b'.Finished? ==> !Balanced(w'.store, a', b', p))
  {
    RaceSwaps(w, a, b, order);
    StaleRace(s, w, b, a, p, voter, Swap(order));
    hide Race, Swap;
  }

  lemma {:induction false} FairRace(
    s: Store, w: Table, a: Task, b: Task, p: int, voter: string, order: Order)
    requires Duel(s, w, a, b, p, voter) && UpToDate(w.store, a) && UpToDate(w.store, b)
    requires Balanced(w.store, a, b, p)
    ensures var (w', a', b') := Race(w, a, b, order);
      && Duel(s, w', a', b', p, voter)
      && (a'.Finished? && b'.Finished? ==>
        (Balanced(w'.store, a', b', p) <==> !Overlapped(order, Phase(a), Phase(b))))
    decreases order
  {
    hide TableStep, Excess, Balanced, SameElsewhere;
    match order
    case Stop =>
    case First(now, rest) =>
      var (w', a') := TableStep(w, a, now);
      OneDuelStep(s, w, a, b, p, voter, now);
      if Phase(a) == 2 && Phase(b) == 2 {
        StaleRace(s, w', a', b, p, voter, rest);
      } else {
        FairRace(s, w', a', b, p, voter, rest);
      }
    case Second(now, rest) =>
      var (w', b') := TableStep(w, b, now);
      OtherDuelStep(s, w, a, b, p, voter, now);
      if Phase(a) == 2 && Phase(b) == 2 {
        StaleRaceSwapped(s, w', a, b', p, voter, rest);
      } else {
        FairRace(s, w', a, b', p, voter, rest);
      }
  }

  /** Where only one vote and its post's counters differ, validity is those counters being right. */
  lemma ElsewhereValid(s: Store, s': Store, p: int, voter: string)
    requires Valid(s) && SameElsewhere(s, s', p, voter)
    ensures Valid(s') <==> s'.posts[p].up == Tally(s'.thumbs, p, 1) && s'.posts[p].down == Tally(s'.thumbs, p, -1)
  {
    ValidExactly(s);
    ValidExactly(s');
    ElsewhereRecords(s, s', p, voter);
    forall q | q in s.posts && q != p
      ensures Tally(s'.thumbs, q, 1) == Tally(s.thumbs, q, 1) && Tally(s'.thumbs, q, -1) == Tally(s.thumbs, q, -1)
    {
      ThumbsOfFrame(s, s', q);
    }
    forall q ensures CommentIds(s', q) == CommentIds(s, q) {
      CommentIdsFrame(s, s', q);
    }
    hide Valid, RecordsOk, ParentsPresent, Tally, CommentIds;
  }

  lemma ElsewhereRecords(s: Store, s': Store, p: int, voter: string)
    requires RecordsOk(s) && ParentsPresent(s) && SameElsewhere(s, s', p, voter)
    ensures RecordsOk(s') && ParentsPresent(s')
  {
    forall k | k in s'.thumbs ensures k.0 in s'.posts {
      assert k != (p, voter) ==> Lookup(s'.thumbs, k) == Lookup(s.thumbs, k);
    }
  }

  /** Two toggles by one voter on a post end with exact counters precisely when neither writes between the
      other's read and write, for every order of their calls. */
  lemma SameVoterExactly(s: Store, p: int, voter: string, d: Direction, e: Direction, order: Order)
    requires Valid(s) && p in s.posts
    ensures var (w, a, b) := Race(Table(s, map[]), ToggleStart(p, voter, d), ToggleStart(p, voter, e), order);
      a.Finished? && b.Finished? ==> (Sound(w) <==> !Overlapped(order, 0, 0))
  {
    var w0, a0, b0 := Table(s, map[]), ToggleStart(p, voter, d), ToggleStart(p, voter, e);
    ValidMeans(s);
    FairRace(s, w0, a0, b0, p, voter, order);
    var (w, a, b) := Race(w0, a0, b0, order);
    ElsewhereValid(s, w.store, p, voter);
    hide Valid, Race, Overlapped, Tally;
  }

  // ---- Tasks the rules let run together ----

  lemma {:induction false} AdmittedRace(w: Table, a: Task, b: Task, order: Order)
    requires w.stubs == map[] && Invariant(System(w.store, [a, b]))
    ensures var (w', a', b') := Race(w, a, b, order);
      w'.stubs == map[] && Invariant(System(w'.store, [a', b']))
    decreases order
  {
    match order
    case Stop =>
    case First(now, rest) =>
      AdmittedStep(w, [a, b], 0, now);
      hide Invariant, TableStep;
      var (w', a') := TableStep(w, a, now);
      assert [a, b][0 := a'] == [a', b];
      AdmittedRace(w', a', b, rest);
    case Second(now, rest) =>
      AdmittedStep(w, [a, b], 1, now);
      hide Invariant, TableStep;
      var (w', b') := TableStep(w, b, now);
      assert [a, b][1 := b'] == [a, b'];
      AdmittedRace(w', a, b', rest);
  }

  /** Under the invariant no post is missing when it is counted on, so no stub is ever made. */
  lemma AdmittedStep(w: Table, tasks: seq<Task>, i: nat, now: int)
    requires w.stubs == map[] && i < |tasks| && Invariant(System(w.store, tasks))
    ensures var (w', t') := TableStep(w, tasks[i], now);
      && (w'.store, t') == Step(w.store, tasks[i], now)
      && w'.stubs == map[] && Invariant(System(w'.store, tasks[i := t']))
  {
    assert TaskOk(w.store, tasks[i]);
    AdvanceKeeps(System(w.store, tasks), i, now);
  }

  lemma AdmittedStart(s: Store, a: Task, b: Task)
    requires Valid(s) && IsStart(a) && IsStart(b) && !Conflict(ClaimOf(a), ClaimOf(b))
    ensures Invariant(System(s, [a, b]))
  {
    StartKeeps(System(s, []), a);
    assert [] + [a] == [a];
    hide Invariant;
    StartKeeps(System(s, [a]), b);
    assert [a] + [b] == [a, b];
  }

  lemma AdmittedHarmless(s: Store, a: Task, b: Task, order: Order)
    requires Valid(s) && IsStart(a) && IsStart(b) && !Conflict(ClaimOf(a), ClaimOf(b))
    ensures !Harms(Table(s, map[]), a, b, order)
  {
    AdmittedStart(s, a, b);
    hide Invariant, Valid, Race;
    AdmittedRace(Table(s, map[]), a, b, order);
    var (w, a', b') := Race(Table(s, map[]), a, b, order);
    if a'.Finished? && b'.Finished? {
      QuietIsValid(System(w.store, [a', b']));
    }
  }

  // ---- Tasks that would fail alone ----

  /** Whether a task run alone from this store does its work. */
  predicate Succeeds(s: Store, t: Task) {
    match t
    case ToggleStart(p, _, _) => p in s.posts
    case CommentStart(p, _, _, parent) => p in s.posts && ParentError(s, p, parent) == None
    case PostNumber(_, _, _, _) => true
    case DeleteStart(p, user) => p in s.posts && s.posts[p].author == user
    case _ => false
  }

  /** A task that can only fail from here on. */
  predicate Doomed(s: Store, t: Task) {
    match t
    case ToggleStart(_, _, _) => !Succeeds(s, t)
    case CommentStart(_, _, _, _) => !Succeeds(s, t)
    case DeleteStart(_, _) => !Succeeds(s, t)
    case CommentParent(p, _, _, parent) => ParentError(s, p, parent) != None
    case Finished(_) => true
    case _ => false
  }

  /** What may run beside a doomed task without saving it. */
  predicate NoHelp(a: Task, b: Task) {
    && !b.PostNumber? && !b.PostPut?
    && (a.CommentStart? || a.CommentParent? ==> !ClaimOf(b).Reply?)
  }

  lemma DoomedStep(w: Table, a: Task, b: Task, now: int)
    requires w.stubs == map[] && Doomed(w.store, a) && NoHelp(a, b)
    ensures var (w', a') := TableStep(w, a, now); w' == w && Doomed(w.store, a') && NoHelp(a', b)
  {
  }

  lemma DoomedKept(s: Store, a: Task, b: Task, now: int)
    requires Doomed(s, a) && NoHelp(a, b) && TaskOk(s, b)
    ensures Doomed(Step(s, b, now).0, a) && NoHelp(a, Step(s, b, now).1)
  {
    StillFailing(s, a, b, now);
    SelfClaims(s, b, now);
    hide Step, TaskOk, Doomed;
  }

  lemma StillFailing(s: Store, a: Task, b: Task, now: int)
    requires Doomed(s, a) && NoHelp(a, b) && TaskOk(s, b)
    ensures Doomed(Step(s, b, now).0, a) && !Step(s, b, now).1.PostPut? && !Step(s, b, now).1.PostNumber?
  {
  }

  lemma {:induction false} DoomedRace(w: Table, a: Task, b: Task, order: Order)
    requires w.stubs == map[] && Invariant(System(w.store, [b])) && Doomed(w.store, a) && NoHelp(a, b)
    ensures var (w', a', b') := Race(w, a, b, order);
      w'.stubs == map[] && Invariant(System(w'.store, [b']))
    decreases order
  {
    match order
    case Stop =>
    case First(now, rest) =>
      DoomedStep(w, a, b, now);
      hide Invariant, TableStep, Doomed, NoHelp;
      DoomedRace(w, TableStep(w, a, now).1, b, rest);
    case Second(now, rest) =>
      AdmittedStep(w, [b], 0, now);
      assert TaskOk(w.store, [b][0]);
      DoomedKept(w.store, a, b, now);
      hide Invariant, TableStep, Doomed, NoHelp;
      var (w', b') := TableStep(w, b, now);
      assert [b][0 := b'] == [b'];
      DoomedRace(w', a, b', rest);
  }

  lemma DoomedHarmless(s: Store, a: Task, b: Task, order: Order)
    requires Valid(s) && IsStart(a) && IsStart(b) && Conflict(ClaimOf(a), ClaimOf(b)) && !Succeeds(s, a)
    ensures !Harms(Table(s, map[]), a, b, order)
  {
    StartKeeps(System(s, []), b);
    assert [] + [b] == [b];
    DoomedRace(Table(s, map[]), a, b, order);
    var (w, a', b') := Race(Table(s, map[]), a, b, order);
    if b'.Finished? {
      QuietIsValid(System(w.store, [b']));
    }
  }

  lemma HarmSwaps(w: Table, a: Task, b: Task, order: Order)
    ensures Harms(w, a, b, order) <==> Harms(w, b, a, Swap(order))
  {
    RaceSwaps(w, a, b, order);
    hide Race, Swap, Sound;
  }

  // ---- Conflicting tasks that would both succeed ----

  function Firsts(n: nat, now: int, rest: Order): Order {
    if n == 0 then rest else First(now, Firsts(n - 1, now, rest))
  }

  function Seconds(n: nat, now: int, rest: Order): Order {
    if n == 0 then rest else Second(now, Seconds(n - 1, now, rest))
  }

  /** A delete alone on a table without stubs makes none. */
  predicate Removes(t: Task) {
    ClaimOf(t).Removal? || t.Finished?
  }

  lemma {:induction false} DeleteRuns(s: Store, a: Task, b: Task, n: nat, now: int, rest: Order)
    requires Removes(b)
    ensures Race(Table(s, map[]), a, b, Seconds(n, now, rest))
         == Race(Table(Steps(s, b, now, n).0, map[]), a, Steps(s, b, now, n).1, rest)
    decreases n
  {
    if n > 0 {
      var (s', b') := Step(s, b, now);
      DeleteStep(s, b, now);
      RaceStep(Table(s, map[]), a, b, now, Seconds(n - 1, now, rest));
      hide Race, TableStep, Step;
      DeleteRuns(s', a, b', n - 1, now, rest);
    }
  }

  lemma DeleteStep(s: Store, b: Task, now: int)
    requires Removes(b)
    ensures var (s', b') := Step(s, b, now); TableStep(Table(s, map[]), b, now) == (Table(s', map[]), b') && Removes(b')
  {
  }

  /** A delete between the checks and the writes of a task ends both and leaves the post's item with counters alone. */
  ghost predicate LeavesStub(s: Store, p: int, a: Task, user: string, order: Order) {
    var (w, a', b) := Race(Table(s, map[]), a, DeleteStart(p, user), order);
    a'.Finished? && b.Finished? && p in w.stubs && p !in w.store.posts
  }

  /** A toggle or comment that has passed its checks when its post is deleted counts on a missing item. */
  lemma DeleteBetween(s: Store, p: int, a: Task, user: string)
    requires p in s.posts && s.posts[p].author == user
    requires (a.ToggleWrite? || a.CommentPut?) && a.p == p
    ensures exists order :: LeavesStub(s, p, a, user, order)
    ensures exists order :: Harms(Table(s, map[]), a, DeleteStart(p, user), order)
  {
    var n := |CommentIds(s, p)| + |ThumbsOf(s, p)| + 4;
    var ending := First(0, First(0, Stop));
    var order := Seconds(n, 0, ending);
    var b := DeleteStart(p, user);
    DeleteRuns(s, a, b, n, 0, ending);
    SoloDelete(s, p, user, 0);
    hide Steps;
    var w := Table(WithoutPost(s, p), map[]);
    assert Race(Table(s, map[]), a, b, order) == Race(w, a, Finished(Deleted), ending);
    EndsOnStub(w, a, Finished(Deleted));
    assert LeavesStub(s, p, a, user, order);
    assert Harms(Table(s, map[]), a, b, order);
  }

  lemma EndsOnStub(w: Table, a: Task, b: Task)
    requires (a.ToggleWrite? || a.CommentPut?) && a.p !in w.store.posts
    ensures var (w', a', b') := Race(w, a, b, First(0, First(0, Stop)));
      a.p in w'.stubs && w'.store.posts == w.store.posts && a'.Finished? && b' == b
  {
    var (w1, a1) := TableStep(w, a, 0);
    var (w2, a2) := TableStep(w1, a1, 0);
    RaceStep(w, a, b, 0, First(0, Stop));
    RaceStep(w1, a1, b, 0, Stop);
    RaceStep(w2, a2, b, 0, Stop);
    hide Race;
  }

  lemma ToggleMeetsDelete(s: Store, a: Task, b: Task)
    requires a.ToggleStart? && b.DeleteStart? && a.p == b.p && Succeeds(s, a) && Succeeds(s, b)
    ensures exists order :: Harms(Table(s, map[]), a, b, order)
  {
    var w := Table(s, map[]);
    var a1 := TableStep(w, a, 0).1;
    var a2 := TableStep(w, a1, 0).1;
    DeleteBetween(s, a.p, a2, b.user);
    var rest :| Harms(w, a2, b, rest);
    RaceStep(w, a1, b, 0, rest);
    RaceStep(w, a, b, 0, First(0, rest));
    hide Race;
    assert Harms(w, a, b, First(0, First(0, rest)));
  }

  lemma HarmLater(w: Table, a: Task, b: Task, order: Order)
    requires Harms(TableStep(w, a, 0).0, TableStep(w, a, 0).1, b, order)
    ensures Harms(w, a, b, First(0, order))
  {
    RaceStep(w, a, b, 0, order);
    hide Race, TableStep, Sound;
  }

  lemma NumberedMeetsDelete(s: Store, a: Task, b: Task) returns (order: Order)
    requires a.CommentNumber? && b.DeleteStart? && a.p == b.p && Succeeds(s, b)
    ensures Harms(Table(s, map[]), a, b, order)
  {
    var (w, a') := TableStep(Table(s, map[]), a, 0);
    DeleteBetween(w.store, a.p, a', b.user);
    var rest :| Harms(w, a', b, rest);
    HarmLater(Table(s, map[]), a, b, rest);
    return First(0, rest);
  }

  lemma CommentMeetsDelete(s: Store, a: Task, b: Task)
    requires a.CommentStart? && b.DeleteStart? && a.p == b.p && Succeeds(s, a) && Succeeds(s, b)
    ensures exists order :: Harms(Table(s, map[]), a, b, order)
  {
    var w := Table(s, map[]);
    var order := NumberedMeetsDelete(s, CommentNumber(a.p, a.author, a.body, a.parent), b);
    hide Harms;
    if a.parent.Some? {
      HarmLater(w, CommentParent(a.p, a.author, a.body, a.parent), b, order);
      order := First(0, order);
    }
    HarmLater(w, a, b, order);
    assert Harms(w, a, b, First(0, order));
  }

  /** Two steps of the first task of a duel. */
  lemma TwoDuelSteps(s: Store, w: Table, a: Task, b: Task, p: int, voter: string, rest: Order)
    returns (w': Table, a': Task)
    requires Duel(s, w, a, b, p, voter)
    ensures Duel(s, w', a', b, p, voter) && Phase(a') == Later(Later(Phase(a)))
    ensures Race(w, a, b, First(0, First(0, rest))) == Race(w', a', b, rest)
    ensures Race(w, b, a, Second(0, Second(0, rest))) == Race(w', b, a', rest)
  {
    var w1, a1 := TableStep(w, a, 0).0, TableStep(w, a, 0).1;
    DuelStep(s, w, a, b, p, voter, 0);
    DuelStep(s, w1, a1, b, p, voter, 0);
    RaceStep(w, a, b, 0, First(0, rest));
    RaceStep(w1, a1, b, 0, rest);
    RaceStep(w, b, a, 0, Second(0, rest));
    RaceStep(w1, b, a1, 0, rest);
    hide Race;
    w', a' := TableStep(w1, a1, 0).0, TableStep(w1, a1, 0).1;
  }

  /** Both tasks read, then both write and count. */
  function Crossed(): Order {
    First(0, First(0, Second(0, Second(0, First(0, First(0, Second(0, Second(0, Stop))))))))
  }

  lemma CrossedEnds(s: Store, w: Table, a: Task, b: Task, p: int, voter: string)
    requires Duel(s, w, a, b, p, voter) && Phase(a) == 0 && Phase(b) == 0
    ensures Race(w, a, b, Crossed()).1.Finished? && Race(w, a, b, Crossed()).2.Finished?
  {
    var last := Second(0, Second(0, Stop));
    var counting := First(0, First(0, last));
    var reading := Second(0, Second(0, counting));
    assert Crossed() == First(0, First(0, reading));
    assert Later(Later(0)) == 2 && Later(Later(2)) == 4;
    hide TableStep, Race, Later, Crossed, SameElsewhere;
    var w1, a1 := TwoDuelSteps(s, w, a, b, p, voter, reading);
    var w2, b2 := TwoDuelSteps(s, w1, b, a1, p, voter, counting);
    var w3, a3 := TwoDuelSteps(s, w2, a1, b2, p, voter, last);
    var w4, b4 := TwoDuelSteps(s, w3, b2, a3, p, voter, Stop);
    RaceStep(w4, a3, b4, 0, Stop);
  }

  lemma CrossedOverlaps()
    ensures Overlapped(Crossed(), 0, 0)
  {
    var counting := First(0, First(0, Second(0, Second(0, Stop))));
    assert Overlapped(counting, 2, 2);
    assert Overlapped(Second(0, Second(0, counting)), 2, 0);
  }

  lemma TogglesMeet(s: Store, a: Task, b: Task)
    requires Valid(s) && a.ToggleStart? && b.ToggleStart? && (a.p, a.voter) == (b.p, b.voter) && Succeeds(s, a)
    ensures exists order :: Harms(Table(s, map[]), a, b, order)
  {
    var w := Table(s, map[]);
    SameVoterExactly(s, a.p, a.voter, a.d, b.d, Crossed());
    CrossedOverlaps();
    CrossedEnds(s, w, a, b, a.p, a.voter);
    hide Overlapped, Valid, TableStep, Race, Crossed;
    assert Harms(w, a, b, Crossed());
  }

  lemma ConflictHarms(s: Store, a: Task, b: Task)
    requires Valid(s) && IsStart(a) && IsStart(b)
    requires Conflict(ClaimOf(a), ClaimOf(b)) && Succeeds(s, a) && Succeeds(s, b)
    ensures exists order :: Harms(Table(s, map[]), a, b, order)
  {
    var w := Table(s, map[]);
    if a.DeleteStart? {
      if b.ToggleStart? {
        ToggleMeetsDelete(s, b, a);
      } else {
        CommentMeetsDelete(s, b, a);
      }
      var order :| Harms(w, b, a, order);
      HarmSwaps(w, b, a, order);
      assert Harms(w, a, b, Swap(order));
    } else if b.DeleteStart? {
      if a.ToggleStart? {
        ToggleMeetsDelete(s, a, b);
      } else {
        CommentMeetsDelete(s, a, b);
      }
    } else {
      TogglesMeet(s, a, b);
    }
  }

  /** From any valid store, two operations have a harmful order exactly when the rules of admission keep them
      apart and each would succeed alone. */
  lemma HarmExactly(s: Store, a: Task, b: Task)
    requires Valid(s) && IsStart(a) && IsStart(b)
    ensures (exists order :: Harms(Table(s, map[]), a, b, order))
      <==> Conflict(ClaimOf(a), ClaimOf(b)) && Succeeds(s, a) && Succeeds(s, b)
  {
    var w := Table(s, map[]);
    if Conflict(ClaimOf(a), ClaimOf(b)) && Succeeds(s, a) && Succeeds(s, b) {
      ConflictHarms(s, a, b);
    } else {
      forall order ensures !Harms(w, a, b, order) {
        if !Conflict(ClaimOf(a), ClaimOf(b)) {
          AdmittedHarmless(s, a, b, order);
        } else if !Succeeds(s, a) {
          DoomedHarmless(s, a, b, order);
        } else {
          DoomedHarmless(s, b, a, Swap(order));
          HarmSwaps(w, a, b, order);
        }
      }
    }
  }
}
