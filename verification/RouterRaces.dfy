/**
 Reads at the router that overlap with writes and with each other. The store passes through
 any series of moments; a read looks in the cache, asks the store, for a detail in two
 separate reads, and then fills the cache; any keys may be cleared at any time.
 */
module RouterRaces {
  import opened Options
  import opened Community
  import opened Cache
  import opened Nesting
  import opened RouterSpec
  import Dy = DynamoStore

  datatype Moment = Moment(time: int, store: Dy.Store)

  /** Content and where it came from: the moments of the cache miss, of the two store reads and of the cache write. */
  datatype Made = Made(req: Request, content: Content, since: nat, first: nat, second: nat, written: nat)

  /** A served job looked, or filled the cache, at one moment, when so many deletes had been done. */
  datatype Job =
    | Looking(req: Request)
    | Fetching(req: Request, since: nat, first: Option<nat>, second: Option<nat>)
    | Served(req: Request, at: nat, seen: nat, made: Made)
    | Refused(error: Error)

  /** A delete that has cleared every key its pattern matches. */
  datatype Cleared = Cleared(at: nat, pattern: string)

  datatype Traffic = Traffic(
    past: seq<Moment>, cache: map<string, Entry<Made>>, jobs: seq<Job>, cleared: seq<Cleared>)

  datatype Action =
    | Pass(moment: Moment)
    | Clear(pattern: string, kept: set<string>)
    | Begin(req: Request)
    | Look(i: nat, fails: bool)
    | ReadFirst(i: nat)
    | ReadSecond(i: nat)
    | Fill(i: nat, fails: bool, direct: Result<Content>)

  /** A list is one read; a detail takes the post from one moment and its comments from another. */
  ghost predicate Combined(past: seq<Moment>, req: Request, first: nat, second: nat, r: Result<Content>)
    requires req.Proper() && req.IsRead() && first < |past| && second < |past|
  {
    match req
    case ListPosts(_, _, _) => MayAnswer(past[first].store, req, r)
    case GetPost(p) => MayJoin(past[first].store, past[second].store, p, r)
  }

  ghost predicate Enabled(b: Traffic, a: Action) {
    match a
    case Pass(m) => b.past == [] || b.past[|b.past| - 1].time <= m.time
    case Clear(_, _) => true
    case Begin(req) => Askable(req)
    case Look(i, _) => i < |b.jobs| && b.jobs[i].Looking? && Askable(b.jobs[i].req) && b.past != []
    case ReadFirst(i) => i < |b.jobs| && b.jobs[i].Fetching? && b.jobs[i].first == None && b.past != []
    case ReadSecond(i) => i < |b.jobs| && b.jobs[i].Fetching? && b.jobs[i].second == None && b.past != []
    case Fill(i, _, direct) =>
      && i < |b.jobs| && b.jobs[i].Fetching? && Askable(b.jobs[i].req) && b.past != []
      && b.jobs[i].first.Some? && b.jobs[i].first.value < |b.past|
      && b.jobs[i].second.Some? && b.jobs[i].second.value < |b.past|
      && Combined(b.past, b.jobs[i].req, b.jobs[i].first.value, b.jobs[i].second.value, direct)
  }

  predicate Askable(req: Request) {
    req.Proper() && req.IsRead() && !req.AsksForAll()
  }

  ghost predicate JobReady(b: Traffic, j: Job) {
    match j
    case Looking(req) => Askable(req)
    case Fetching(req, since, first, second) =>
      && Askable(req) && since < |b.past|
      && (first.Some? ==> since <= first.value < |b.past|)
      && (second.Some? ==> since <= second.value < |b.past|)
    case Served(req, at, _, made) =>
      && Askable(req) && MadeOk(b.past, made) && made.written <= at < |b.past|
      && KeyOf(made.req) == KeyOf(req)
    case Refused(_) => true
  }

  ghost predicate MadeOk(past: seq<Moment>, made: Made) {
    && Askable(made.req)
    && made.since <= made.first <= made.written < |past| && made.since <= made.second <= made.written
    && Combined(past, made.req, made.first, made.second, Ok(made.content))
  }

  /** What a served job shows was written less than one time to live before, or just now by itself. */
  ghost predicate Fresh(b: Traffic, ttl: int, j: Job) {
    j.Served? && j.made.written < |b.past| && j.at < |b.past| ==>
      j.made.written == j.at || b.past[j.at].time < b.past[j.made.written].time + ttl
  }

  ghost predicate Sourced(b: Traffic, ttl: int) {
    && (forall i, j :: 0 <= i <= j < |b.past| ==> b.past[i].time <= b.past[j].time)
    && (forall i :: 0 <= i < |b.jobs| ==> JobReady(b, b.jobs[i]) && Fresh(b, ttl, b.jobs[i]))
    && (forall key :: key in b.cache ==> EntryOk(b.past, ttl, key, b.cache[key]))
  }

  ghost predicate EntryOk(past: seq<Moment>, ttl: int, key: string, e: Entry<Made>) {
    MadeOk(past, e.value) && KeyOf(e.value.req) == key && e.expires == past[e.value.written].time + ttl
  }

  /** The moment's index at which something happens now. */
  function Latest(b: Traffic): nat
    requires b.past != []
  {
    |b.past| - 1
  }

  /** Any list of actions is a run: one that is not enabled does nothing. */
  ghost function Step(b: Traffic, ttl: int, a: Action): Traffic {
    if !Enabled(b, a) then b
    else
      match a
      case Pass(m) => b.(past := b.past + [m])
      case Clear(pattern, kept) =>
        var done := if kept == {} && b.past != [] then [Cleared(Latest(b), pattern)] else [];
        b.(cache := Delete(b.cache, pattern, kept), cleared := b.cleared + done)
      case Begin(req) => b.(jobs := b.jobs + [Looking(req)])
      case Look(i, fails) =>
        var req, now := b.jobs[i].req, Latest(b);
        var cached := Read(b.cache, KeyOf(req), b.past[now].time, fails);
        var next :=
          if cached.Some? then Served(req, now, |b.cleared|, cached.value) else Fetching(req, now, None, None);
        b.(jobs := b.jobs[i := next])
      case ReadFirst(i) => b.(jobs := b.jobs[i := b.jobs[i].(first := Some(Latest(b)))])
      case ReadSecond(i) => b.(jobs := b.jobs[i := b.jobs[i].(second := Some(Latest(b)))])
      case Fill(i, fails, direct) =>
        var j, now := b.jobs[i], Latest(b);
        match direct
        case Err(e) => b.(jobs := b.jobs[i := Refused(e)])
        case Ok(content) =>
          var made := Made(j.req, content, j.since, j.first.value, j.second.value, now);
          b.(cache := Write(b.cache, KeyOf(j.req), made, b.past[now].time, ttl, fails),
             jobs := b.jobs[i := Served(j.req, now, |b.cleared|, made)])
  }

  // ---- What every step keeps ----

  /** Nothing already written down changes when a moment passes. */
  lemma MomentPasses(past: seq<Moment>, m: Moment, made: Made)
    requires MadeOk(past, made)
    ensures MadeOk(past + [m], made)
  {
    hide MayAnswer, MayJoin;
  }

  lemma PassSourced(b: Traffic, ttl: int, m: Moment)
    requires Sourced(b, ttl) && Enabled(b, Pass(m))
    ensures Sourced(Step(b, ttl, Pass(m)), ttl)
  {
    var b' := Step(b, ttl, Pass(m));
    hide MadeOk, Combined;
    forall i | 0 <= i < |b'.jobs| ensures JobReady(b', b'.jobs[i]) && Fresh(b', ttl, b'.jobs[i]) {
      assert JobReady(b, b.jobs[i]) && Fresh(b, ttl, b.jobs[i]);
      if b.jobs[i].Served? {
        MomentPasses(b.past, m, b.jobs[i].made);
        MadeWithin(b.past, b.jobs[i].made);
      }
    }
    forall key | key in b'.cache ensures EntryOk(b'.past, ttl, key, b'.cache[key]) {
      MadeWithin(b.past, b.cache[key].value);
      MomentPasses(b.past, m, b.cache[key].value);
    }
  }

  lemma MadeWithin(past: seq<Moment>, made: Made)
    requires MadeOk(past, made)
    ensures made.written < |past| && Askable(made.req)
  {
  }

  lemma JobStays(b: Traffic, b': Traffic, ttl: int, i: nat)
    requires Sourced(b, ttl) && i < |b.jobs| && b'.past == b.past
    ensures JobReady(b', b.jobs[i]) && Fresh(b', ttl, b.jobs[i])
  {
    assert JobReady(b, b.jobs[i]) && Fresh(b, ttl, b.jobs[i]);
    hide MadeOk, KeyOf;
  }

  lemma ClearSourced(b: Traffic, ttl: int, pattern: string, kept: set<string>)
    requires Sourced(b, ttl)
    ensures Sourced(Step(b, ttl, Clear(pattern, kept)), ttl)
  {
    hide MadeOk, Combined, Matches, KeyOf;
    var b' := Step(b, ttl, Clear(pattern, kept));
    forall i | 0 <= i < |b'.jobs| ensures JobReady(b', b'.jobs[i]) && Fresh(b', ttl, b'.jobs[i]) {
      JobStays(b, b', ttl, i);
    }
    hide JobReady, Fresh, EntryOk;
    forall key | key in b'.cache ensures EntryOk(b'.past, ttl, key, b'.cache[key]) {
      assert b'.cache[key] == b.cache[key];
    }
  }

  /** One job moves on and the cache may gain its entry. */
  lemma JobSourced(b: Traffic, ttl: int, a: Action, i: nat)
    requires Sourced(b, ttl) && Enabled(b, a) && (a.Look? || a.ReadFirst? || a.ReadSecond? || a.Fill?) && a.i == i
    ensures Sourced(Step(b, ttl, a), ttl)
  {
    var b' := Step(b, ttl, a);
    assert JobReady(b, b.jobs[i]);
    assert b'.past == b.past && |b'.jobs| == |b.jobs|;
    match a {
      case Look(_, fails) => LookMoves(b, ttl, i, fails);
      case Fill(_, fails, direct) => FillMoves(b, ttl, i, fails, direct);
      case _ => ReadMoves(b, ttl, i);
    }
    hide MadeOk, Combined, Step, EntryOk;
    forall j | 0 <= j < |b'.jobs| ensures JobReady(b', b'.jobs[j]) && Fresh(b', ttl, b'.jobs[j]) {
      if j != i {
        assert JobReady(b, b.jobs[j]) && Fresh(b, ttl, b.jobs[j]);
      }
    }
  }

  /** One job has moved on to a state that is ready, and every cache entry is still sourced. */
  ghost predicate Moved(b: Traffic, b': Traffic, ttl: int, i: nat) {
    && i < |b.jobs| == |b'.jobs| && b'.past == b.past
    && (forall j :: 0 <= j < |b.jobs| && j != i ==> b'.jobs[j] == b.jobs[j])
    && JobReady(b', b'.jobs[i]) && Fresh(b', ttl, b'.jobs[i])
    && (forall key :: key in b'.cache ==> EntryOk(b'.past, ttl, key, b'.cache[key]))
  }

  lemma LookMoves(b: Traffic, ttl: int, i: nat, fails: bool)
    requires Sourced(b, ttl) && Enabled(b, Look(i, fails))
    ensures Moved(b, Step(b, ttl, Look(i, fails)), ttl, i)
  {
    hide Combined, KeyOf;
    var now := Latest(b);
    var cached := Read(b.cache, KeyOf(b.jobs[i].req), b.past[now].time, fails);
    if cached.Some? {
      assert EntryOk(b.past, ttl, KeyOf(b.jobs[i].req), b.cache[KeyOf(b.jobs[i].req)]);
    }
  }

  lemma ReadMoves(b: Traffic, ttl: int, i: nat)
    requires Sourced(b, ttl)
    ensures Enabled(b, ReadFirst(i)) ==> Moved(b, Step(b, ttl, ReadFirst(i)), ttl, i)
    ensures Enabled(b, ReadSecond(i)) ==> Moved(b, Step(b, ttl, ReadSecond(i)), ttl, i)
  {
    hide MadeOk, EntryOk, KeyOf;
    assert i < |b.jobs| ==> JobReady(b, b.jobs[i]);
  }

  lemma FillMoves(b: Traffic, ttl: int, i: nat, fails: bool, direct: Result<Content>)
    requires Sourced(b, ttl) && Enabled(b, Fill(i, fails, direct))
    ensures Moved(b, Step(b, ttl, Fill(i, fails, direct)), ttl, i)
  {
    hide Combined, KeyOf;
    assert JobReady(b, b.jobs[i]);
  }

  lemma StepSourced(b: Traffic, ttl: int, a: Action)
    requires Sourced(b, ttl)
    ensures Sourced(Step(b, ttl, a), ttl)
  {
    if Enabled(b, a) {
      match a
      case Pass(m) => PassSourced(b, ttl, m);
      case Clear(pattern, kept) => ClearSourced(b, ttl, pattern, kept);
      case Begin(req) =>
        hide MadeOk;
        var b' := Step(b, ttl, a);
        forall i | 0 <= i < |b'.jobs| ensures JobReady(b', b'.jobs[i]) && Fresh(b', ttl, b'.jobs[i]) {
          assert i < |b.jobs| ==> JobReady(b, b.jobs[i]) && Fresh(b, ttl, b.jobs[i]);
        }
      case Look(i, _) => JobSourced(b, ttl, a, i);
      case ReadFirst(i) => JobSourced(b, ttl, a, i);
      case ReadSecond(i) => JobSourced(b, ttl, a, i);
      case Fill(i, _, _) => JobSourced(b, ttl, a, i);
    }
  }

  const START := Traffic([], map[], [], [])

  ghost function Run(b: Traffic, ttl: int, actions: seq<Action>): Traffic
    decreases |actions|
  {
    if actions == [] then b else Run(Step(b, ttl, actions[0]), ttl, actions[1..])
  }

  lemma {:induction false} RunSourced(b: Traffic, ttl: int, actions: seq<Action>)
    requires Sourced(b, ttl)
    ensures Sourced(Run(b, ttl, actions), ttl)
    decreases |actions|
  {
    if actions != [] {
      StepSourced(b, ttl, actions[0]);
      hide Step, Sourced;
      RunSourced(Step(b, ttl, actions[0]), ttl, actions[1..]);
    }
  }

  /** Reads with one key put the same content together. */
  lemma SameKeyCombined(
    past: seq<Moment>, a: Request, b: Request, first: nat, second: nat, r: Result<Content>)
    requires Askable(a) && Askable(b) && KeyOf(a) == KeyOf(b) && first < |past| && second < |past|
    ensures Combined(past, a, first, second, r) <==> Combined(past, b, first, second, r)
  {
    SameKeySameAnswer(past[first].store, a, b, r);
    if a.GetPost? && b.GetPost? {
      DetailKeyInjective(a.p, b.p);
    } else if a.ListPosts? && b.GetPost? {
      KeysDisjoint(a.page, a.size, a.filter, b.p);
    } else if b.ListPosts? && a.GetPost? {
      KeysDisjoint(b.page, b.size, b.filter, a.p);
    }
    hide MayAnswer, MayJoin, KeyOf;
  }

  /** However reads overlap with writes and with each other, and whatever cache calls fail, an answer is put together
      from the store as it was at two moments since some read began that filled the cache less than one time to live
      ago, or that is this read itself. It is at most as old as the time to live and the duration of that read. */
  lemma EveryAnswerRecent(ttl: int, actions: seq<Action>, i: nat)
    requires ttl > 0
    ensures var b := Run(START, ttl, actions);
      i < |b.jobs| && b.jobs[i].Served? ==>
        var (req, at, made) := (b.jobs[i].req, b.jobs[i].at, b.jobs[i].made);
        && req.Proper() && req.IsRead()
        && made.since <= made.first <= made.written <= at < |b.past| && made.since <= made.second <= made.written
        && Combined(b.past, req, made.first, made.second, Ok(made.content))
        && b.past[at].time < b.past[made.written].time + ttl
        && b.past[at].time - b.past[made.first].time < ttl + b.past[made.written].time - b.past[made.since].time
        && b.past[at].time - b.past[made.second].time < ttl + b.past[made.written].time - b.past[made.since].time
  {
    RunSourced(START, ttl, actions);
    var b := Run(START, ttl, actions);
    hide Run, Combined;
    if i < |b.jobs| && b.jobs[i].Served? {
      var (req, made) := (b.jobs[i].req, b.jobs[i].made);
      assert JobReady(b, b.jobs[i]) && Fresh(b, ttl, b.jobs[i]);
      SameKeyCombined(b.past, made.req, req, made.first, made.second, Ok(made.content));
    }
  }

  // ---- What a successful delete has cleared ----

  /** Nothing made before a delete is left under a key that it matches, or is shown after it. */
  ghost predicate ClearsKept(b: Traffic) {
    && (forall c :: 0 <= c < |b.cleared| ==> b.cleared[c].at < |b.past|)
    && (forall c, key :: 0 <= c < |b.cleared| && key in b.cache ==> EntryAfter(b.cleared[c], key, b.cache[key]))
    && (forall i :: 0 <= i < |b.jobs| && b.jobs[i].Served? ==> b.jobs[i].seen <= |b.cleared|)
    && (forall c, i :: 0 <= c < |b.cleared| && 0 <= i < |b.jobs| ==> JobAfter(b.cleared[c], c, b.jobs[i]))
  }

  predicate EntryAfter(c: Cleared, key: string, e: Entry<Made>) {
    Matches(c.pattern, key) ==> c.at <= e.value.written
  }

  predicate JobAfter(c: Cleared, n: nat, j: Job) {
    j.Served? && j.req.IsRead() && Matches(c.pattern, KeyOf(j.req)) && n < j.seen ==> c.at <= j.made.written
  }

  lemma ClearsStep(b: Traffic, ttl: int, a: Action)
    requires Sourced(b, ttl) && ClearsKept(b)
    ensures ClearsKept(Step(b, ttl, a))
  {
    if Enabled(b, a) {
      match a
      case Clear(pattern, kept) => ClearKeeps(b, ttl, pattern, kept);
      case Look(i, fails) => LookKeeps(b, ttl, i, fails);
      case Fill(i, fails, direct) => FillKeeps(b, ttl, i, fails, direct);
      case _ =>
        hide Matches, KeyOf, EntryAfter, Sourced;
        assert Step(b, ttl, a).cleared == b.cleared && Step(b, ttl, a).cache == b.cache;
    }
  }

  lemma ClearKeeps(b: Traffic, ttl: int, pattern: string, kept: set<string>)
    requires Sourced(b, ttl) && ClearsKept(b)
    ensures ClearsKept(Step(b, ttl, Clear(pattern, kept)))
  {
    var b' := Step(b, ttl, Clear(pattern, kept));
    hide KeyOf;
    forall c, key | 0 <= c < |b'.cleared| && key in b'.cache ensures EntryAfter(b'.cleared[c], key, b'.cache[key]) {
      assert b'.cache[key] == b.cache[key] && EntryOk(b.past, ttl, key, b.cache[key]);
      if c < |b.cleared| {
        assert EntryAfter(b.cleared[c], key, b.cache[key]);
      }
    }
    forall c, i | 0 <= c < |b'.cleared| && 0 <= i < |b'.jobs| ensures JobAfter(b'.cleared[c], c, b'.jobs[i]) {
      assert JobReady(b, b.jobs[i]);
      if c < |b.cleared| {
        assert JobAfter(b.cleared[c], c, b.jobs[i]);
      }
    }
  }

  lemma LookKeeps(b: Traffic, ttl: int, i: nat, fails: bool)
    requires Sourced(b, ttl) && ClearsKept(b) && Enabled(b, Look(i, fails))
    ensures ClearsKept(Step(b, ttl, Look(i, fails)))
  {
    var b' := Step(b, ttl, Look(i, fails));
    var key := KeyOf(b.jobs[i].req);
    forall c, j | 0 <= c < |b'.cleared| && 0 <= j < |b'.jobs| ensures JobAfter(b'.cleared[c], c, b'.jobs[j]) {
      assert JobAfter(b.cleared[c], c, b.jobs[j]);
      if j == i && key in b.cache {
        assert EntryAfter(b.cleared[c], key, b.cache[key]);
      }
    }
    hide Matches, KeyOf, EntryAfter, JobAfter, Sourced;
  }

  lemma FillKeeps(b: Traffic, ttl: int, i: nat, fails: bool, direct: Result<Content>)
    requires Sourced(b, ttl) && ClearsKept(b) && Enabled(b, Fill(i, fails, direct))
    ensures ClearsKept(Step(b, ttl, Fill(i, fails, direct)))
  {
    var b' := Step(b, ttl, Fill(i, fails, direct));
    hide Matches, KeyOf, Sourced, Combined;
    forall c, key | 0 <= c < |b'.cleared| && key in b'.cache ensures EntryAfter(b'.cleared[c], key, b'.cache[key]) {
      if key in b.cache && b'.cache[key] == b.cache[key] {
        assert EntryAfter(b.cleared[c], key, b.cache[key]);
      }
    }
    forall c, j | 0 <= c < |b'.cleared| && 0 <= j < |b'.jobs| ensures JobAfter(b'.cleared[c], c, b'.jobs[j]) {
      assert JobAfter(b.cleared[c], c, b.jobs[j]);
    }
  }

  lemma {:induction false} RunClears(b: Traffic, ttl: int, actions: seq<Action>)
    requires Sourced(b, ttl) && ClearsKept(b)
    ensures ClearsKept(Run(b, ttl, actions))
    decreases |actions|
  {
    if actions != [] {
      StepSourced(b, ttl, actions[0]);
      ClearsStep(b, ttl, actions[0]);
      hide Step, Sourced, ClearsKept;
      RunClears(Step(b, ttl, actions[0]), ttl, actions[1..]);
    }
  }
}
