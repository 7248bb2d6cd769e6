/** The shared RPCN client: threads that connect, use, drop and close it one at a time under a lock.
    Times are seconds on a monotonic clock. */
module Lifecycle {
  import opened Options

  const COOLDOWN := 5.0

  /** How an action on the client ends: well, with RpcnError or OSError, or with any other exception. */
  datatype Ending = Fine | Failure | Other

  /** The shared client: whether it holds a connection, has logged in, has let an RpcnError or OSError escape,
      and whether another exception ended its connect or login. */
  datatype Conn = Conn(open: bool, loggedIn: bool, broken: bool, aborted: bool)

  const FRESH := Conn(false, false, false, false)

  function Connected(c: Conn, ending: Ending, dialled: bool): Conn {
    c.(open := ending == Fine || dialled, broken := ending == Failure, aborted := ending == Other)
  }

  function LoggedIn(c: Conn, ending: Ending): Conn {
    c.(loggedIn := ending == Fine, broken := ending == Failure, aborted := ending == Other)
  }

  /** What the server sends: the answer to a request, or a packet that is no reply and no notification. */
  datatype Packet = Answer(request: nat) | Unexpected

  /** The current connection: what has arrived and is not read, and whether nothing more will come. */
  datatype Link = Link(queue: seq<Packet>, hungUp: bool)

  const NO_LINK := Link([], false)

  /** Where a thread that holds the lock stands; `Erring` is inside a body that an RpcnError has reached. */
  datatype Pc =
    | Checking
    | Creating
    | Connecting
    | LoggingIn
    | Using(pending: Option<nat>)
    | Erring
    | Dropping
    | Recording
    | Closing

  datatype Event =
    | ConnectStarted(time: real)
    | FailureRecorded(time: real)
    | Answered(thread: nat, asked: nat, got: nat)
    | Skipped(thread: nat)

  /** `sent` counts the requests of all connections; the server answers those of one connection in order. */
  datatype State = State(
    now: real,
    lock: Option<nat>,
    pcs: map<nat, Pc>,
    shared: Option<Conn>,
    lastFailure: real,
    sessions: int,
    link: Link,
    sent: nat,
    log: seq<Event>)

  datatype Action =
    | Tick(span: real)
    | Push
    | HangUp(kept: nat)
    | Enter(thread: nat)
    | EnterToClose(thread: nat)
    | Check(thread: nat)
    | Create(thread: nat)
    | Connect(thread: nat, ending: Ending, dialled: bool)
    | Login(thread: nat, ending: Ending)
    | Send(thread: nat)
    | Read(thread: nat)
    | Swallow(thread: nat)
    | Leave(thread: nat, ending: Ending)
    | Drop(thread: nat)
    | Record(thread: nat)
    | Close(thread: nat)

  predicate At(s: State, t: nat, pc: Pc) {
    t in s.pcs && s.pcs[t] == pc
  }

  predicate InUse(s: State, t: nat) {
    t in s.pcs && s.pcs[t].Using?
  }

  predicate CoolingDown(lastFailure: real, now: real) {
    lastFailure != 0.0 && now - lastFailure < COOLDOWN
  }

  predicate Enabled(s: State, a: Action) {
    match a
    case Tick(span) => span >= 0.0
    case Push => s.shared.Some? && s.shared.value.open && !s.link.hungUp
    case HangUp(kept) => s.shared.Some? && s.shared.value.open && kept <= |s.link.queue|
    case Enter(t) => s.lock == None && t !in s.pcs
    case EnterToClose(t) => s.lock == None && t !in s.pcs
    case Check(t) => At(s, t, Checking)
    case Create(t) => At(s, t, Creating)
    case Connect(t, _, _) => At(s, t, Connecting) && s.shared.Some?
    case Login(t, _) => At(s, t, LoggingIn) && s.shared.Some?
    case Send(t) => At(s, t, Using(None)) && s.shared.Some? && s.shared.value.open
    case Read(t) => InUse(s, t) && s.pcs[t].pending.Some? && (s.link.queue != [] || s.link.hungUp)
    case Swallow(t) => At(s, t, Erring)
    // Only a failure can come between a request and its reply.
    case Leave(t, ending) =>
      && t in s.pcs && s.shared.Some?
      && ((s.pcs[t].Using? && (s.pcs[t].pending.Some? ==> ending == Failure))
          || (s.pcs[t].Erring? && ending == Failure))
    case Drop(t) => At(s, t, Dropping)
    case Record(t) => At(s, t, Recording)
    case Close(t) => At(s, t, Closing)
  }

  function Goto(s: State, t: nat, pc: Pc): State {
    s.(pcs := s.pcs[t := pc])
  }

  function Release(s: State, t: nat): State {
    s.(lock := None, pcs := s.pcs - {t})
  }

  /** The client is disconnected and forgotten. */
  function Forget(s: State): State {
    s.(shared := None, sessions := s.sessions - (if s.shared.Some? && s.shared.value.open then 1 else 0),
        link := NO_LINK)
  }

  function AfterSetUp(s: State, t: nat, ending: Ending, next: Pc): State {
    match ending
    case Fine => Goto(s, t, next)
    case Failure => Goto(s, t, Dropping)
    case Other => Release(s, t)
  }

  function Next(s: State, a: Action): State
    requires Enabled(s, a)
  {
    match a
    case Tick(span) => s.(now := s.now + span)
    case Push => s.(link := s.link.(queue := s.link.queue + [Unexpected]))
    case HangUp(kept) => s.(link := Link(s.link.queue[..kept], true))
    case Enter(t) => Goto(s.(lock := Some(t)), t, Checking)
    case EnterToClose(t) => Goto(s.(lock := Some(t)), t, Closing)
    case Check(t) =>
      if s.shared.Some? then Goto(s, t, Using(None))
      else if CoolingDown(s.lastFailure, s.now) then Release(s, t)
      else Goto(s, t, Creating)
    case Create(t) => Goto(s.(shared := Some(FRESH)), t, Connecting)
    case Connect(t, ending, dialled) =>
      var c := Connected(s.shared.value, ending, dialled);
      var started := s.(
        shared := Some(c), sessions := s.sessions + (if c.open then 1 else 0), log := s.log + [ConnectStarted(s.now)]);
      AfterSetUp(started, t, ending, LoggingIn)
    case Login(t, ending) => AfterSetUp(s.(shared := Some(LoggedIn(s.shared.value, ending))), t, ending, Using(None))
    case Send(t) =>
      var answered := if s.link.hungUp then s.link.queue else s.link.queue + [Answer(s.sent)];
      Goto(s.(link := s.link.(queue := answered), sent := s.sent + 1), t, Using(Some(s.sent)))
    case Read(t) =>
      if s.link.queue == [] then Goto(s, t, Erring)
      else
        var later := s.(link := s.link.(queue := s.link.queue[1..]));
        (match s.link.queue[0]
         case Answer(n) =>
           Goto(later.(log := s.log + [Answered(t, s.pcs[t].pending.value, n)]), t, Using(None))
         case Unexpected => Goto(later.(log := s.log + [Skipped(t)]), t, Erring))
    case Swallow(t) => Goto(s, t, Using(None))
    case Leave(t, ending) =>
      if ending == Failure then Goto(s.(shared := Some(s.shared.value.(broken := true))), t, Dropping)
      else Release(s, t)
    case Drop(t) => Goto(Forget(s), t, Recording)
    case Record(t) => Release(s.(lastFailure := s.now, log := s.log + [FailureRecorded(s.now)]), t)
    case Close(t) => Release(Forget(s), t)
  }

  /** Any list of actions is a run: one that is not enabled does nothing. */
  function Step(s: State, a: Action): State {
    if Enabled(s, a) then Next(s, a) else s
  }

  function Run(s: State, actions: seq<Action>): State
    decreases |actions|
  {
    if actions == [] then s else Run(Step(s, actions[0]), actions[1..])
  }

  function Start(now: real): State {
    State(now, None, map[], None, 0.0, 0, NO_LINK, 0, [])
  }

  // ---- What every step keeps ----

  /** Only the thread that holds the lock is inside. */
  ghost predicate LockHeld(s: State) {
    forall t :: t in s.pcs <==> s.lock == Some(t)
  }

  /** A client at rest: set up completely unless another exception cut its set-up short. */
  predicate Rested(s: State) {
    match s.shared
    case None => true
    case Some(c) => !c.broken && (c.open && c.loggedIn <==> !c.aborted)
  }

  /** The one connection there may be is the shared client's. */
  predicate OneSession(s: State) {
    s.sessions == if s.shared.Some? && s.shared.value.open then 1 else 0
  }

  /** The unexpected packets read since the latest connect. */
  function Skips(log: seq<Event>): nat {
    if log == [] then 0
    else
      var last := |log| - 1;
      if log[last].ConnectStarted? then 0
      else Skips(log[..last]) + if log[last].Skipped? then 1 else 0
  }

  function Replies(queue: seq<Packet>): seq<nat> {
    if queue == [] then []
    else (if queue[0].Answer? then [queue[0].request] else []) + Replies(queue[1..])
  }

  /** The replies to come are to the oldest requests of this connection that have none: as many as packets were
      skipped, and one more while a request is pending. Fewer come when the server has hung up. */
  predicate InOrder(link: Link, sent: nat, pending: nat, skips: nat) {
    var replies := Replies(link.queue);
    && (forall i :: 0 <= i < |replies| ==> replies[i] == sent - pending - skips + i)
    && |replies| <= skips + pending
    && (!link.hungUp ==> |replies| == skips + pending)
  }

  function PendingCount(s: State): nat {
    if s.lock.Some? && InUse(s, s.lock.value) && s.pcs[s.lock.value].pending.Some? then 1 else 0
  }

  predicate LinkOk(s: State) {
    if s.shared == None || !s.shared.value.open then s.link == NO_LINK
    else !s.shared.value.broken ==> InOrder(s.link, s.sent, PendingCount(s), Skips(s.log))
  }

  /** What holds of the client while the lock holder is at `pc`. */
  predicate Inside(s: State, pc: Pc) {
    match pc
    case Checking => Rested(s)
    case Closing => Rested(s)
    case Creating => s.shared == None && !CoolingDown(s.lastFailure, s.now)
    case Connecting => s.shared == Some(FRESH) && !CoolingDown(s.lastFailure, s.now)
    case LoggingIn => s.shared == Some(FRESH.(open := true))
    case Using(pending) =>
      && s.shared.Some? && Rested(s)
      && (pending.Some? ==> pending.value == s.sent - 1 && s.shared.value.open)
    case Erring => s.shared.Some? && Rested(s)
    case Dropping => s.shared.Some? && s.shared.value.broken
    case Recording => s.shared == None
  }

  predicate Held(s: State) {
    match s.lock
    case None => Rested(s)
    case Some(t) => t in s.pcs && Inside(s, s.pcs[t])
  }

  function LatestFailure(log: seq<Event>): Option<real> {
    if log == [] then None
    else
      var last := |log| - 1;
      if log[last].FailureRecorded? then Some(log[last].time) else LatestFailure(log[..last])
  }

  /** `lastFailure` is the time of the latest recorded failure, or zero. */
  predicate FailuresKnown(s: State) {
    && 0.0 < s.now
    && 0.0 <= s.lastFailure <= s.now
    && (match LatestFailure(s.log)
        case None => s.lastFailure == 0.0
        case Some(time) => 0.0 < time == s.lastFailure)
    && forall i :: 0 <= i < |s.log| && s.log[i].FailureRecorded? ==> 0.0 < s.log[i].time <= s.lastFailure
  }

  /** No connect starts within the cooldown of a failure recorded before it. */
  predicate Spaced(log: seq<Event>) {
    forall i, j :: 0 <= i < j < |log| && log[i].FailureRecorded? && log[j].ConnectStarted? ==>
      log[j].time - log[i].time >= COOLDOWN
  }

  /** Every answer read is late by as many requests as unexpected packets were read before it on its connection. */
  predicate Matched(log: seq<Event>) {
    forall i :: 0 <= i < |log| && log[i].Answered? ==> log[i].got == log[i].asked - Skips(log[..i])
  }

  ghost predicate Safe(s: State) {
    LockHeld(s) && Held(s) && LinkOk(s) && OneSession(s) && FailuresKnown(s) && Spaced(s.log) && Matched(s.log)
  }

  lemma HeldKept(s: State, a: Action)
    requires LockHeld(s) && Held(s) && Enabled(s, a)
    ensures LockHeld(Next(s, a)) && Held(Next(s, a))
  {
    hide OneSession;
  }

  lemma SessionKept(s: State, a: Action)
    requires LockHeld(s) && Held(s) && OneSession(s) && Enabled(s, a)
    ensures OneSession(Next(s, a))
  {
    hide CoolingDown;
  }

  lemma {:induction false} RepliesJoin(a: seq<Packet>, b: seq<Packet>)
    ensures Replies(a + b) == Replies(a) + Replies(b)
  {
    if a == [] {
      assert a + b == b;
    } else {
      RepliesJoin(a[1..], b);
      assert (a + b)[0] == a[0] && (a + b)[1..] == a[1..] + b;
    }
  }

  lemma SkipsAfter(log: seq<Event>, e: Event)
    ensures Skips(log + [e]) == if e.ConnectStarted? then 0 else Skips(log) + if e.Skipped? then 1 else 0
  {
    assert (log + [e])[..|log|] == log;
  }

  lemma HangUpInOrder(link: Link, kept: nat, sent: nat, pending: nat, skips: nat)
    requires InOrder(link, sent, pending, skips) && kept <= |link.queue|
    ensures InOrder(Link(link.queue[..kept], true), sent, pending, skips)
  {
    RepliesJoin(link.queue[..kept], link.queue[kept..]);
    assert link.queue[..kept] + link.queue[kept..] == link.queue;
    var replies, kept' := Replies(link.queue), Replies(link.queue[..kept]);
    assert forall i :: 0 <= i < |kept'| ==> kept'[i] == replies[i];
  }

  lemma PushInOrder(link: Link, sent: nat, pending: nat, skips: nat)
    requires InOrder(link, sent, pending, skips)
    ensures InOrder(link.(queue := link.queue + [Unexpected]), sent, pending, skips)
  {
    RepliesJoin(link.queue, [Unexpected]);
    assert Replies([Unexpected]) == [];
  }

  lemma SendInOrder(link: Link, sent: nat, skips: nat)
    requires InOrder(link, sent, 0, skips)
    ensures InOrder(link.(queue := if link.hungUp then link.queue else link.queue + [Answer(sent)]), sent + 1, 1, skips)
  {
    RepliesJoin(link.queue, [Answer(sent)]);
    assert Replies([Answer(sent)]) == [sent] + Replies([]);
  }

  lemma ReadInOrder(link: Link, sent: nat, skips: nat)
    requires InOrder(link, sent, 1, skips) && link.queue != []
    ensures var later := link.(queue := link.queue[1..]);
      match link.queue[0]
      case Answer(n) => n == sent - 1 - skips && InOrder(later, sent, 0, skips)
      case Unexpected => InOrder(later, sent, 0, skips + 1)
  {
    var replies, rest := Replies(link.queue), Replies(link.queue[1..]);
    if link.queue[0].Answer? {
      assert replies == [link.queue[0].request] + rest;
      assert replies[0] == link.queue[0].request;
      assert forall i :: 0 <= i < |rest| ==> rest[i] == replies[i + 1];
    } else {
      assert replies == rest;
    }
  }

  lemma NothingInOrder(sent: nat)
    ensures InOrder(NO_LINK, sent, 0, 0)
    ensures forall pending, skips :: InOrder(Link([], true), sent, pending, skips)
  {
  }

  lemma LinkKept(s: State, a: Action)
    requires LockHeld(s) && Held(s) && LinkOk(s) && Enabled(s, a)
    ensures LinkOk(Next(s, a))
  {
    hide InOrder, Skips;
    match a
    case Push =>
      if !s.shared.value.broken {
        PushInOrder(s.link, s.sent, PendingCount(s), Skips(s.log));
      }
    case HangUp(kept) =>
      if !s.shared.value.broken {
        HangUpInOrder(s.link, kept, s.sent, PendingCount(s), Skips(s.log));
      }
    case Send(t) => SendInOrder(s.link, s.sent, Skips(s.log));
    case Read(t) =>
      if s.link.queue != [] {
        ReadInOrder(s.link, s.sent, Skips(s.log));
        SkipsAfter(s.log, if s.link.queue[0].Answer?
          then Answered(t, s.pcs[t].pending.value, s.link.queue[0].request) else Skipped(t));
      } else {
        NothingInOrder(s.sent);
        assert s.link == Link([], true);
      }
    case Connect(_, _, _) =>
      SkipsAfter(s.log, ConnectStarted(s.now));
      NothingInOrder(s.sent);
    case _ =>
  }

  lemma MatchedAfter(log: seq<Event>, e: Event)
    requires Matched(log) && (e.Answered? ==> e.got == e.asked - Skips(log))
    ensures Matched(log + [e])
  {
    var log' := log + [e];
    forall i | 0 <= i < |log'| && log'[i].Answered? ensures log'[i].got == log'[i].asked - Skips(log'[..i]) {
      assert log'[..i] == log[..i];
      assert log[..|log|] == log;
    }
  }

  lemma LogMatched(s: State, a: Action)
    requires Safe(s) && Enabled(s, a)
    ensures Matched(Next(s, a).log)
  {
    hide Matched, Skips;
    if a.Read? && s.link.queue != [] && s.link.queue[0].Answer? {
      ReadInOrder(s.link, s.sent, Skips(s.log));
      MatchedAfter(s.log, Answered(a.thread, s.pcs[a.thread].pending.value, s.link.queue[0].request));
    } else {
      MatchedAfter(s.log, ConnectStarted(s.now));
      MatchedAfter(s.log, FailureRecorded(s.now));
      if a.Read? {
        MatchedAfter(s.log, Skipped(a.thread));
      }
    }
  }

  lemma LatestAfter(log: seq<Event>, e: Event)
    ensures LatestFailure(log + [e]) == if e.FailureRecorded? then Some(e.time) else LatestFailure(log)
  {
    assert (log + [e])[..|log|] == log;
  }

  lemma LatestKept(s: State, a: Action)
    requires Enabled(s, a)
    ensures LatestFailure(Next(s, a).log) == if a.Record? then Some(s.now) else LatestFailure(s.log)
  {
    hide LatestFailure;
    match a
    case Connect(_, _, _) => LatestAfter(s.log, ConnectStarted(s.now));
    case Record(_) => LatestAfter(s.log, FailureRecorded(s.now));
    case Read(t) =>
      if s.link.queue != [] {
        LatestAfter(s.log, if s.link.queue[0].Answer?
          then Answered(t, s.pcs[t].pending.value, s.link.queue[0].request) else Skipped(t));
      }
    case _ =>
  }

  lemma LogKept(s: State, a: Action)
    requires Safe(s) && Enabled(s, a)
    ensures var n := Next(s, a); FailuresKnown(n) && Spaced(n.log) && Matched(n.log)
  {
    LogMatched(s, a);
    FailuresKept(s, a);
    LogSpaced(s, a);
    hide *;
  }

  lemma FailuresKept(s: State, a: Action)
    requires FailuresKnown(s) && Enabled(s, a)
    ensures FailuresKnown(Next(s, a))
  {
    LatestKept(s, a);
    hide LatestFailure;
  }

  lemma LogSpaced(s: State, a: Action)
    requires Safe(s) && Enabled(s, a)
    ensures Spaced(Next(s, a).log)
  {
    hide OneSession, Rested, LinkOk, Matched, LatestFailure;
  }

  lemma StepSafe(s: State, a: Action)
    requires Safe(s)
    ensures Safe(Step(s, a))
  {
    if Enabled(s, a) {
      hide LinkOk, Next, Spaced, Matched, FailuresKnown, Held, Enabled, OneSession;
      HeldKept(s, a);
      LinkKept(s, a);
      SessionKept(s, a);
      LogKept(s, a);
    }
  }

  /** Every run, however its threads interleave, stays safe. */
  lemma {:induction false} EveryRunSafe(now: real, actions: seq<Action>)
    requires now > 0.0
    ensures Safe(Run(Start(now), actions))
  {
    RunSafe(Start(now), actions);
  }

  lemma {:induction false} RunSafe(s: State, actions: seq<Action>)
    requires Safe(s)
    ensures Safe(Run(s, actions))
    decreases |actions|
  {
    if actions != [] {
      StepSafe(s, actions[0]);
      RunSafe(Step(s, actions[0]), actions[1..]);
    }
  }

  lemma ClosingForgets(s: State, t: nat)
    requires Safe(s) && s.lock == None
    ensures var n := Step(Step(s, EnterToClose(t)), Close(t));
      n == Forget(s).(pcs := map[]) && Safe(n) && n.sessions == 0
  {
    StepSafe(s, EnterToClose(t));
    var closing := Step(s, EnterToClose(t));
    StepSafe(closing, Close(t));
    assert forall u :: u !in s.pcs;
    assert closing.pcs == map[t := Closing];
    assert map[t := Closing] - {t} == map[];
    hide Safe, Held, LinkOk, FailuresKnown, Spaced, Matched;
  }

  // ---- What a free lock promises ----

  predicate Usable(c: Conn) {
    c.open && c.loggedIn && !c.broken
  }

  /** Whenever the lock is free, the shared client is usable unless an exception that is neither RpcnError nor
      OSError ended its set-up, and exactly then it is not. */
  lemma FreeLockMeansUsable(now: real, actions: seq<Action>)
    requires now > 0.0
    ensures var s := Run(Start(now), actions);
      s.lock == None && s.shared.Some? ==> (Usable(s.shared.value) <==> !s.shared.value.aborted)
  {
    EveryRunSafe(now, actions);
  }

  predicate CutsSetUp(a: Action) {
    (a.Connect? || a.Login?) && a.ending == Other
  }

  predicate Whole(s: State) {
    s.shared.Some? ==> !s.shared.value.aborted
  }

  lemma {:induction false} NeverCut(s: State, actions: seq<Action>)
    requires Whole(s) && forall i :: 0 <= i < |actions| ==> !CutsSetUp(actions[i])
    ensures Whole(Run(s, actions))
    decreases |actions|
  {
    if actions != [] {
      NeverCut(Step(s, actions[0]), actions[1..]);
    }
  }

  /** When only RpcnError and OSError end a connect or a login, a free lock means no client or a usable one. */
  lemma KnownFailuresOnly(now: real, actions: seq<Action>)
    requires now > 0.0 && forall i :: 0 <= i < |actions| ==> !CutsSetUp(actions[i])
    ensures var s := Run(Start(now), actions);
      s.lock == None ==> s.shared == None || Usable(s.shared.value)
  {
    FreeLockMeansUsable(now, actions);
    NeverCut(Start(now), actions);
  }

  /** Any other exception from connect or login frees the lock and leaves an unusable client behind. */
  lemma CutSetUpStays(s: State, a: Action)
    requires Safe(s) && Enabled(s, a) && CutsSetUp(a)
    ensures var n := Next(s, a);
      n.lock == None && n.shared.Some? && !Usable(n.shared.value) && n.lastFailure == s.lastFailure
  {
    assert Inside(s, s.pcs[a.thread]);
  }

  // ---- Whose answer a thread reads ----

  /** In every run a reader gets the answer to its own request exactly when no unexpected packet has been read on
      the connection before. A swallowed error of any other kind, a closed connection included, does no harm. */
  lemma OwnAnswerExactly(now: real, actions: seq<Action>, i: nat)
    requires now > 0.0
    ensures var log := Run(Start(now), actions).log;
      i < |log| && log[i].Answered? ==> (log[i].got == log[i].asked <==> Skips(log[..i]) == 0)
  {
    EveryRunSafe(now, actions);
  }

  /** No unexpected packet has been sent. */
  predicate Clean(s: State) {
    && (forall i :: 0 <= i < |s.link.queue| ==> s.link.queue[i].Answer?)
    && (forall i :: 0 <= i < |s.log| ==> !s.log[i].Skipped?)
  }

  lemma {:induction false} RunClean(s: State, actions: seq<Action>)
    requires Clean(s) && forall i :: 0 <= i < |actions| ==> !actions[i].Push?
    ensures Clean(Run(s, actions))
    decreases |actions|
  {
    if actions != [] {
      StepClean(s, actions[0]);
      RunClean(Step(s, actions[0]), actions[1..]);
    }
  }

  lemma StepClean(s: State, a: Action)
    requires Clean(s) && !a.Push?
    ensures Clean(Step(s, a))
  {
  }

  lemma {:induction false} NoSkips(log: seq<Event>)
    requires forall i :: 0 <= i < |log| ==> !log[i].Skipped?
    ensures Skips(log) == 0
  {
    if log != [] {
      NoSkips(log[..|log| - 1]);
    }
  }

  /** While the server sends nothing but answers and notifications, every reader gets its own answer, however many
      closed connections, failures and error replies the bodies swallow. */
  lemma OnlyAnswersSent(now: real, actions: seq<Action>)
    requires now > 0.0 && forall i :: 0 <= i < |actions| ==> !actions[i].Push?
    ensures var log := Run(Start(now), actions).log;
      forall i :: 0 <= i < |log| && log[i].Answered? ==> log[i].got == log[i].asked
  {
    RunClean(Start(now), actions);
    var log := Run(Start(now), actions).log;
    forall i | 0 <= i < |log| && log[i].Answered? ensures log[i].got == log[i].asked {
      OwnAnswerExactly(now, actions, i);
      NoSkips(log[..i]);
    }
  }

  /** A thread finds a client, sends one request and reads once. */
  function Asked(s: State, t: nat): State {
    Step(Step(Step(Step(s, Enter(t)), Check(t)), Send(t)), Read(t))
  }

  ghost predicate Resting(s: State) {
    Safe(s) && s.lock == None && s.shared.Some? && Usable(s.shared.value)
  }

  lemma RestingFree(s: State)
    requires Resting(s)
    ensures Free(s) && InOrder(s.link, s.sent, 0, Skips(s.log))
  {
    assert forall t :: t !in s.pcs;
  }

  /** What the first request of a visit finds in front of its answer. */
  lemma AskedFinds(s: State, t: nat)
    requires Free(s) && s.shared.Some? && s.shared.value.open
    ensures var queue := if s.link.hungUp then s.link.queue else s.link.queue + [Answer(s.sent)];
      var n := Asked(s, t);
      && (queue == [] ==> n.log == s.log)
      && (queue != [] && queue[0].Unexpected? ==> n.log == s.log + [Skipped(t)])
      && (queue != [] && queue[0].Answer? ==> n.log == s.log + [Answered(t, s.sent, queue[0].request)])
  {
    Entered(s, t);
    Moved(s, t, Checking, Using(None));
    var queue := if s.link.hungUp then s.link.queue else s.link.queue + [Answer(s.sent)];
    var sending := s.(link := s.link.(queue := queue), sent := s.sent + 1);
    Moved(sending, t, Using(None), Using(Some(s.sent)));
    assert Step(Step(Step(s, Enter(t)), Check(t)), Send(t)) == Alone(sending, t, Using(Some(s.sent)));
  }

  /** With the lock free, the next caller's first request is answered by its own answer exactly when the server has
      not hung up and nothing is left to read. */
  lemma NextAnswerExactly(s: State, t: nat)
    requires Resting(s)
    ensures Asked(s, t).log == s.log + [Answered(t, s.sent, s.sent)] <==> s.link == NO_LINK
  {
    RestingFree(s);
    AskedFinds(s, t);
    if s.link.queue != [] && s.link.queue[0].Answer? {
      var replies := Replies(s.link.queue);
      assert replies[0] == s.link.queue[0].request == s.sent - Skips(s.log);
    }
    hide Asked, Safe;
    var log := Asked(s, t).log;
    if log == s.log + [Answered(t, s.sent, s.sent)] {
      assert log[|s.log|] == Answered(t, s.sent, s.sent);
    }
  }

  /** An unexpected packet meets a request whose caller swallows the error and leaves well. */
  function SkippingVisit(s: State, t: nat): State {
    var asking := Step(Step(Step(s, Enter(t)), Check(t)), Push);
    Step(Step(Step(Step(asking, Send(t)), Read(t)), Swallow(t)), Leave(t, Fine))
  }

  lemma SkippingVisitLeaves(s: State, t: nat)
    requires Free(s) && s.shared.Some? && s.shared.value.open && s.link == NO_LINK
    ensures SkippingVisit(s, t)
         == s.(link := Link([Answer(s.sent)], false), sent := s.sent + 1, log := s.log + [Skipped(t)])
  {
    Entered(s, t);
    Moved(s, t, Checking, Using(None));
    var pushed := s.(link := Link([Unexpected], false));
    assert Step(Step(Step(s, Enter(t)), Check(t)), Push) == Alone(pushed, t, Using(None));
    var sending := s.(link := Link([Unexpected, Answer(s.sent)], false), sent := s.sent + 1);
    Moved(sending, t, Using(None), Using(Some(s.sent)));
    assert Step(Alone(pushed, t, Using(None)), Send(t)) == Alone(sending, t, Using(Some(s.sent)));
    var skipped := sending.(link := Link([Answer(s.sent)], false), log := s.log + [Skipped(t)]);
    Moved(skipped, t, Using(Some(s.sent)), Erring);
    assert [Unexpected, Answer(s.sent)][1..] == [Answer(s.sent)];
    assert Step(Alone(sending, t, Using(Some(s.sent))), Read(t)) == Alone(skipped, t, Erring);
    Moved(skipped, t, Erring, Using(None));
    Freed(skipped, t, Using(None));
    hide Goto, Release;
  }

  /** From then on the shared client is out of step: the next caller, another thread, reads the answer to the request
      of the one before. */
  lemma SkippedAnswerGoesToNextThread(s: State, t: nat, u: nat)
    requires Resting(s) && s.link == NO_LINK
    ensures var n := Asked(SkippingVisit(s, t), u);
      n.log == s.log + [Skipped(t), Answered(u, s.sent + 1, s.sent)]
  {
    RestingFree(s);
    SkippingVisitLeaves(s, t);
    var left := SkippingVisit(s, t);
    hide SkippingVisit, Resting, Safe;
    AskedFinds(left, u);
    assert s.log + [Skipped(t)] + [Answered(u, s.sent + 1, s.sent)]
      == s.log + [Skipped(t), Answered(u, s.sent + 1, s.sent)];
  }

  // ---- The two locked sections ----

  datatype Ended = Done | Unavailable | Raised

  /** What the environment decides during one visit to `api_client`. */
  datatype Visit = Visit(connect: Ending, dialled: bool, login: Ending, body: Ending, wait: real)

  function FromDrop(s: State, t: nat, v: Visit): State {
    var later := if At(s, t, Dropping) then Step(s, Tick(v.wait)) else s;
    Step(Step(later, Drop(t)), Record(t))
  }

  function FromBody(s: State, t: nat, v: Visit): State {
    FromDrop(Step(s, Leave(t, v.body)), t, v)
  }

  function FromLogin(s: State, t: nat, v: Visit): State {
    FromBody(Step(s, Login(t, v.login)), t, v)
  }

  function FromConnect(s: State, t: nat, v: Visit): State {
    FromLogin(Step(s, Connect(t, v.connect, v.dialled)), t, v)
  }

  /** One visit, from taking the lock to freeing it; a step that is not enabled is passed over. */
  function Visited(s: State, t: nat, v: Visit): State {
    FromConnect(Step(Step(Step(s, Enter(t)), Check(t)), Create(t)), t, v)
  }

  lemma VisitedSafe(s: State, t: nat, v: Visit)
    requires Safe(s)
    ensures Safe(Visited(s, t, v))
  {
    hide Safe, Step;
    var entered := Step(s, Enter(t));
    var checked := Step(entered, Check(t));
    var created := Step(checked, Create(t));
    var connected := Step(created, Connect(t, v.connect, v.dialled));
    var loggedIn := Step(connected, Login(t, v.login));
    var left := Step(loggedIn, Leave(t, v.body));
    StepSafe(s, Enter(t));
    StepSafe(entered, Check(t));
    StepSafe(checked, Create(t));
    StepSafe(created, Connect(t, v.connect, v.dialled));
    StepSafe(connected, Login(t, v.login));
    StepSafe(loggedIn, Leave(t, v.body));
    StepSafe(left, Tick(v.wait));
    var later := if At(left, t, Dropping) then Step(left, Tick(v.wait)) else left;
    StepSafe(later, Drop(t));
    StepSafe(Step(later, Drop(t)), Record(t));
  }

  function SetUp(v: Visit): Conn {
    var c := Connected(FRESH, v.connect, v.dialled);
    if v.connect == Fine then LoggedIn(c, v.login) else c
  }

  function Equipped(s: State, v: Visit): State {
    var c := SetUp(v);
    s.(shared := Some(c), sessions := s.sessions + (if c.open then 1 else 0), log := s.log + [ConnectStarted(s.now)])
  }

  /** How a visit's guarded part ends: the first of connect, login and body that does not end well decides. */
  function EndingOf(v: Visit): Ending {
    if v.connect != Fine then v.connect else if v.login != Fine then v.login else v.body
  }

  function Settled(s: State, wait: real, ending: Ending): State {
    if ending != Failure then s
    else Forget(s).(now := s.now + wait, lastFailure := s.now + wait, log := s.log + [FailureRecorded(s.now + wait)])
  }

  /** A visit's whole effect at once. */
  function Effect(s: State, v: Visit): State {
    if s.shared.Some? then Settled(s, v.wait, v.body)
    else if CoolingDown(s.lastFailure, s.now) then s
    else Settled(Equipped(s, v), v.wait, EndingOf(v))
  }

  ghost predicate Free(s: State) {
    s.lock == None && s.pcs == map[]
  }

  /** `s` with thread `t` alone inside at `pc`. */
  function Alone(s: State, t: nat, pc: Pc): State {
    s.(lock := Some(t), pcs := map[t := pc])
  }

  lemma Freed(s: State, t: nat, pc: Pc)
    requires Free(s)
    ensures Release(Alone(s, t, pc), t) == s
  {
    assert map[t := pc] - {t} == map[];
  }

  lemma Moved(s: State, t: nat, pc: Pc, next: Pc)
    ensures Goto(Alone(s, t, pc), t, next) == Alone(s, t, next)
  {
    assert map[t := pc][t := next] == map[t := next];
  }

  lemma SettledUnlessFailure(s: State, t: nat, v: Visit, ending: Ending)
    requires ending != Failure && s.pcs == map[]
    ensures Settled(s, v.wait, ending) == s
    ensures FromConnect(Step(s, Create(t)), t, v) == FromLogin(s, t, v) == FromBody(s, t, v) == FromDrop(s, t, v) == s
  {
  }

  lemma DropLeft(s: State, t: nat, v: Visit)
    requires Free(s) && v.wait >= 0.0
    ensures FromDrop(Alone(s, t, Dropping), t, v) == Settled(s, v.wait, Failure)
    ensures FromBody(Alone(s, t, Dropping), t, v) == Settled(s, v.wait, Failure)
    ensures FromLogin(Alone(s, t, Dropping), t, v) == Settled(s, v.wait, Failure)
  {
    var dropping := Alone(s, t, Dropping);
    assert Step(dropping, Login(t, v.login)) == dropping && Step(dropping, Leave(t, v.body)) == dropping;
    DropSettles(s, t, v);
    hide Step, Settled;
  }

  lemma DropSettles(s: State, t: nat, v: Visit)
    requires Free(s) && v.wait >= 0.0
    ensures FromDrop(Alone(s, t, Dropping), t, v) == Settled(s, v.wait, Failure)
  {
    var later := s.(now := s.now + v.wait);
    assert Step(Alone(s, t, Dropping), Tick(v.wait)) == Alone(later, t, Dropping);
    Moved(Forget(later), t, Dropping, Recording);
    assert Step(Alone(later, t, Dropping), Drop(t)) == Alone(Forget(later), t, Recording);
    var recorded := Forget(later).(lastFailure := later.now, log := later.log + [FailureRecorded(later.now)]);
    Freed(recorded, t, Recording);
  }

  lemma BodyLeft(s: State, t: nat, v: Visit)
    requires Free(s) && s.shared.Some? && v.wait >= 0.0
    ensures FromBody(Alone(s, t, Using(None)), t, v) == Settled(s, v.wait, v.body)
    ensures FromConnect(Step(Alone(s, t, Using(None)), Create(t)), t, v) == Settled(s, v.wait, v.body)
  {
    BodySettles(s, t, v);
    var using := Alone(s, t, Using(None));
    assert Step(using, Create(t)) == using && Step(using, Connect(t, v.connect, v.dialled)) == using;
    assert Step(using, Login(t, v.login)) == using;
    hide Step, FromBody, Settled;
  }

  lemma BodySettles(s: State, t: nat, v: Visit)
    requires Free(s) && s.shared.Some? && v.wait >= 0.0
    ensures FromBody(Alone(s, t, Using(None)), t, v) == Settled(s, v.wait, v.body)
  {
    if v.body == Failure {
      var broken := s.(shared := Some(s.shared.value.(broken := true)));
      Moved(broken, t, Using(None), Dropping);
      assert Step(Alone(s, t, Using(None)), Leave(t, v.body)) == Alone(broken, t, Dropping);
      assert Settled(broken, v.wait, Failure) == Settled(s, v.wait, Failure);
      hide Step, Settled, FromDrop;
      DropSettles(broken, t, v);
    } else {
      Freed(s, t, Using(None));
      assert Step(Alone(s, t, Using(None)), Leave(t, v.body)) == s;
      hide Step, Settled, FromDrop;
      SettledUnlessFailure(s, t, v, v.body);
    }
  }

  lemma LoginLeft(s: State, t: nat, v: Visit)
    requires Free(s) && s.shared.Some? && v.wait >= 0.0
    ensures var used := s.(shared := Some(LoggedIn(s.shared.value, v.login)));
      FromLogin(Alone(s, t, LoggingIn), t, v)
      == Settled(used, v.wait, if v.login == Fine then v.body else v.login)
  {
    hide Settled, Goto, Release, FromDrop;
    var used := s.(shared := Some(LoggedIn(s.shared.value, v.login)));
    match v.login {
      case Fine =>
        Moved(used, t, LoggingIn, Using(None));
        BodyLeft(used, t, v);
      case Failure =>
        Moved(used, t, LoggingIn, Dropping);
        DropLeft(used, t, v);
      case Other =>
        Freed(used, t, LoggingIn);
        SettledUnlessFailure(used, t, v, Other);
    }
  }

  lemma ConnectLeft(s: State, t: nat, v: Visit)
    requires Free(s) && v.wait >= 0.0 && s.shared == Some(FRESH)
    ensures FromConnect(Alone(s, t, Connecting), t, v) == Settled(Equipped(s, v), v.wait, EndingOf(v))
  {
    hide Settled, Goto, Release, FromDrop, FromBody, FromLogin;
    var c := Connected(FRESH, v.connect, v.dialled);
    var dialled := s.(
      shared := Some(c), sessions := s.sessions + (if c.open then 1 else 0), log := s.log + [ConnectStarted(s.now)]);
    match v.connect {
      case Fine =>
        Moved(dialled, t, Connecting, LoggingIn);
        LoginLeft(dialled, t, v);
      case Failure =>
        Moved(dialled, t, Connecting, Dropping);
        DropLeft(dialled, t, v);
      case Other =>
        Freed(dialled, t, Connecting);
        SettledUnlessFailure(dialled, t, v, Other);
    }
  }

  /** The steps of a visit add up to its effect. */
  lemma VisitEffect(s: State, t: nat, v: Visit)
    requires Free(s) && v.wait >= 0.0
    ensures Visited(s, t, v) == Effect(s, v)
  {
    hide Settled, Goto, Release, FromConnect;
    Entered(s, t);
    if s.shared.Some? {
      Moved(s, t, Checking, Using(None));
      BodyLeft(s, t, v);
    } else if CoolingDown(s.lastFailure, s.now) {
      Freed(s, t, Checking);
      SettledUnlessFailure(s, t, v, Fine);
    } else {
      Moved(s, t, Checking, Creating);
      var created := s.(shared := Some(FRESH));
      Moved(created, t, Creating, Connecting);
      ConnectLeft(created, t, v);
    }
  }

  /** A failure was recorded less than five seconds ago. */
  predicate FailedLately(log: seq<Event>, now: real) {
    LatestFailure(log).Some? && now - LatestFailure(log).value < 5.0
  }

  /** The first part of a visit that does not end well ends with `how`; only a visit without a client sets one up. */
  predicate Stopped(absent: bool, v: Visit, how: Ending) {
    || (absent && v.connect == how)
    || (absent && v.connect == Fine && v.login == how)
    || ((absent ==> v.connect == Fine && v.login == Fine) && v.body == how)
  }

  /** What a visit adds to the log, and which failure is then the latest. */
  predicate VisitLogs(s: State, n: State, v: Visit) {
    var absent := s.shared == None;
    var started := if absent then [ConnectStarted(s.now)] else [];
    if absent && FailedLately(s.log, s.now) then n == s
    else if Stopped(absent, v, Failure) then
      && n.log == s.log + started + [FailureRecorded(n.now)]
      && n.shared == None && n.lastFailure == n.now == s.now + v.wait
    else
      && n.log == s.log + started
      && n.shared.Some? && n.lastFailure == s.lastFailure && n.now == s.now
  }

  lemma CoolingExactly(s: State)
    requires FailuresKnown(s)
    ensures CoolingDown(s.lastFailure, s.now) <==> FailedLately(s.log, s.now)
  {
  }

  lemma VisitLogged(s: State, t: nat, v: Visit)
    requires Free(s) && FailuresKnown(s) && v.wait >= 0.0
    ensures VisitLogs(s, Visited(s, t, v), v)
  {
    VisitEffect(s, t, v);
    hide Visited;
    EffectLogged(s, v);
    hide *;
  }

  lemma EffectLogged(s: State, v: Visit)
    requires FailuresKnown(s)
    ensures VisitLogs(s, Effect(s, v), v)
  {
    CoolingExactly(s);
    hide CoolingDown, FailedLately, FailuresKnown;
    assert s.log + [] == s.log;
  }

  /** Whatever has happened before, a visit that finds no client starts a connect at once when no failure was
      recorded or the latest is five seconds old, and otherwise changes nothing; a visit that finds one starts
      none. A visit stopped by an RpcnError or OSError records the failure and leaves no client. */
  lemma VisitReconnects(now: real, actions: seq<Action>, t: nat, v: Visit)
    requires now > 0.0 && v.wait >= 0.0
    ensures var s := Run(Start(now), actions);
      s.lock == None ==> VisitLogs(s, Visited(s, t, v), v)
  {
    EveryRunSafe(now, actions);
    var s := Run(Start(now), actions);
    hide Run, Visited, Start;
    if s.lock == None {
      assert forall u :: u !in s.pcs;
      VisitLogged(s, t, v);
    }
  }

  lemma Entered(s: State, t: nat)
    requires Free(s)
    ensures Step(s, Enter(t)) == Alone(s, t, Checking)
  {
    assert s.pcs[t := Checking] == map[t := Checking];
  }

  /** Login reads a malformed reply and raises ValueError; the next caller is handed a client that never logged in. */
  lemma HalfOpenClientHandedOut(now: real, t: nat, u: nat)
    requires now > 0.0
    ensures var cut := Visited(Start(now), t, Visit(Fine, true, Other, Fine, 0.0));
      var found := Step(Step(cut, Enter(u)), Check(u));
      && cut.lock == None
      && At(found, u, Using(None)) && found.shared.Some? && found.shared.value.open && !found.shared.value.loggedIn
  {
    CutVisit(now, t);
    hide Visited;
    var cut := Visited(Start(now), t, Visit(Fine, true, Other, Fine, 0.0));
    Entered(cut, u);
    Moved(cut, u, Checking, Using(None));
    hide Goto;
  }

  lemma CutVisit(now: real, t: nat)
    ensures var cut := Visited(Start(now), t, Visit(Fine, true, Other, Fine, 0.0));
      Free(cut) && cut.shared == Some(Conn(true, false, false, true))
  {
    VisitEffect(Start(now), t, Visit(Fine, true, Other, Fine, 0.0));
    hide Visited;
  }

  /** The globals of the lifecycle, seen with the lock free; the ghost fields record the clock and the connections. */
  class Globals {
    var shared: Option<Conn>
    var lastFailure: real
    ghost var now: real
    ghost var sessions: int
    ghost var link: Link
    ghost var sent: nat
    ghost var log: seq<Event>

    ghost function Now(): State
      reads this
    {
      State(now, None, map[], shared, lastFailure, sessions, link, sent, log)
    }

    constructor (now: real)
      requires now > 0.0
      ensures Now() == Start(now) && Safe(Now())
    {
      shared, lastFailure := None, 0.0;
      this.now, sessions, link, sent, log := now, 0, NO_LINK, 0, [];
    }

    method Disconnect()
      requires shared.Some?
      modifies this
      ensures Now() == Forget(old(Now()))
    {
      sessions := sessions - (if shared.value.open then 1 else 0);
      shared, link := None, NO_LINK;
    }

    /** The handler of RpcnError and OSError; `clock` is the time when it ends. */
    method Fail(wait: real, clock: real)
      requires shared.Some? && clock == now + wait
      modifies this
      ensures Now() == Settled(old(Now()), wait, Failure)
    {
      Disconnect();
      now := now + wait;
      lastFailure := clock;
      log := log + [FailureRecorded(now)];
    }

    /** Creates, connects and logs in a client, up to the first of these that does not end well. */
    method SetUpClient(v: Visit) returns (ending: Ending)
      requires shared == None
      modifies this
      ensures Now() == Equipped(old(Now()), v)
      ensures ending == if v.connect == Fine then v.login else v.connect
    {
      shared := Some(FRESH);
      shared := Some(Connected(shared.value, v.connect, v.dialled));
      sessions := sessions + if shared.value.open then 1 else 0;
      log := log + [ConnectStarted(now)];
      ending := v.connect;
      if ending == Fine {
        shared := Some(LoggedIn(shared.value, v.login));
        ending := v.login;
      }
    }

    /** `clock` is the time at the cooldown test. */
    method ApiClient(t: nat, clock: real, v: Visit) returns (ended: Ended)
      requires Safe(Now()) && clock == now && v.wait >= 0.0
      modifies this
      ensures Now() == Visited(old(Now()), t, v) && Safe(Now()) && VisitLogs(old(Now()), Now(), v)
      ensures var absent := old(shared) == None;
        var cooling := absent && FailedLately(old(log), clock);
        && (ended == Unavailable <==> cooling || Stopped(absent, v, Failure))
        && (ended == Raised <==> !cooling && Stopped(absent, v, Other))
        && (ended == Done <==> !cooling && v.body == Fine && (absent ==> v.connect == Fine && v.login == Fine))
    {
      ghost var before := Now();
      VisitedSafe(before, t, v);
      VisitEffect(before, t, v);
      VisitLogged(before, t, v);
      CoolingExactly(before);
      assert now > 0.0;
      hide Visited, Safe, VisitLogs, FailedLately, FailuresKnown;
      if shared == None && CoolingDown(lastFailure, clock) {
        return Unavailable;
      }
      var ending := Fine;
      if shared == None {
        ending := SetUpClient(v);
      }
      if ending == Fine {
        ending := v.body;
      }
      match ending {
        case Fine =>
          return Done;
        case Other =>
          return Raised;
        case Failure =>
          Fail(v.wait, clock + v.wait);
          return Unavailable;
      }
    }

    method ShutdownClient(t: nat)
      requires Safe(Now())
      modifies this
      ensures Now() == Step(Step(old(Now()), EnterToClose(t)), Close(t))
      ensures Safe(Now()) && shared == None && sessions == 0
    {
      ClosingForgets(Now(), t);
      hide Safe, Step;
      if shared != None {
        Disconnect();
      }
    }
  }
}
