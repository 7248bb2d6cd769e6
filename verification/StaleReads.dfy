/**
 When a detail is out of date. A read that overlaps with writes may combine a post and
 comments of different moments, and the cache may serve it later; whether what it shows is
 still what the store may answer depends on the writes in between and on nothing else.
 */
module StaleReads {
  import opened Options
  import opened Community
  import opened Arrangements
  import opened Cache
  import opened Nesting
  import opened RouterSpec
  import opened RouterRaces
  import opened Coherence
  import Dy = DynamoStore
  import Interleaving
  import SoloRuns

  // ---- One write ----

  /** The store after a write request. */
  function Written(s: Dy.Store, w: Request, now: int): Dy.Store {
    match w
    case CreatePost(author, title, body, postType) => Dy.CreatePost(s, author, title, body, postType, now).0
    case DeletePost(p, user) => Dy.DeletePost(s, p, user).0
    case CreateComment(p, author, body, parent) => Dy.CreateComment(s, p, author, body, parent, now).0
    case ThumbPost(p, voter, d) => Dy.Toggle(s, p, voter, d).0
    case _ => s
  }

  /** The write names the post and will succeed, or is the one that creates it. */
  predicate Touches(s: Dy.Store, w: Request, p: int) {
    match w
    case CreatePost(_, _, _, _) => p == s.lastId + 1
    case DeletePost(q, user) => q == p && p in s.posts && s.posts[p].author == user
    case CreateComment(q, _, _, parent) => q == p && p in s.posts && Dy.ParentError(s, p, parent) == None
    case ThumbPost(q, _, _) => q == p && p in s.posts
    case _ => false
  }

  lemma WriteKeepsValid(s: Dy.Store, w: Request, now: int)
    requires Interleaving.Valid(s)
    ensures Interleaving.Valid(Written(s, w, now))
  {
    hide Interleaving.Valid;
    match w
    case CreatePost(author, title, body, postType) => SoloRuns.PostKeepsValid(s, author, title, body, postType, now);
    case DeletePost(p, user) => SoloRuns.DeleteKeepsValid(s, p, user);
    case CreateComment(p, author, body, parent) => SoloRuns.CommentKeepsValid(s, p, author, body, parent, now);
    case ThumbPost(p, voter, d) => SoloRuns.ToggleKeepsValid(s, p, voter, d);
    case _ =>
  }

  lemma UntouchedSame(s: Dy.Store, w: Request, now: int, p: int)
    requires !Touches(s, w, p)
    ensures SameDetail(s, Written(s, w, now), p)
  {
  }

  /** A write that touches a post always changes its row. */
  lemma TouchedPost(s: Dy.Store, w: Request, now: int, p: int)
    requires Interleaving.Valid(s) && Touches(s, w, p)
    ensures Lookup(Written(s, w, now).posts, p) != Lookup(s.posts, p)
    ensures !w.CreateComment? ==> p !in Written(s, w, now).posts || SameComments(s, Written(s, w, now), p)
  {
    assert Interleaving.RecordsOk(s);
    hide Interleaving.Valid;
  }

  lemma CommentCount(s: Dy.Store, p: int, comments: seq<Dy.CommentView>)
    requires Dy.ListsComments(s, p, comments) && Dy.OldestFirst(comments)
    ensures |comments| == |Dy.CommentIds(s, p)|
  {
    var ids := seq(|comments|, i requires 0 <= i < |comments| => comments[i].id);
    Dy.ListedIds(s, p, comments, ids);
    hide *;
    ArrangesMembers(ids, Dy.CommentIds(s, p), Dy.CommentTimes(s, p));
  }

  lemma SameLength<T>(x: seq<T>, y: seq<T>)
    requires multiset(x) == multiset(y)
    ensures |x| == |y|
  {
    assert |multiset(x)| == |x| && |multiset(y)| == |y|;
  }

  lemma ThreadsSize(s: Dy.Store, p: int, comments: seq<Dy.CommentView>)
    requires Interleaving.Valid(s) && Dy.ListsComments(s, p, comments) && Dy.OldestFirst(comments)
    ensures |Flatten(Threads(comments))| == |Dy.CommentIds(s, p)|
  {
    hide *;
    StoredCommentsNest(s, p, comments);
    NestingPermutes(comments);
    SameLength(Flatten(Threads(comments)), comments);
    CommentCount(s, p, comments);
  }

  /** A comment more makes different threads. */
  lemma CommentChangesThreads(
    s: Dy.Store, w: Request, now: int, p: int, x: seq<Dy.CommentView>, y: seq<Dy.CommentView>)
    requires Interleaving.Valid(s) && Touches(s, w, p) && w.CreateComment?
    requires Dy.ListsComments(s, p, x) && Dy.OldestFirst(x)
    requires Dy.ListsComments(Written(s, w, now), p, y) && Dy.OldestFirst(y)
    ensures Threads(x) != Threads(y)
  {
    var s' := Written(s, w, now);
    WriteKeepsValid(s, w, now);
    ThreadsSize(s, p, x);
    ThreadsSize(s', p, y);
    Interleaving.ValidMeans(s);
    Interleaving.ValidMeans(s');
    assert s'.posts[p].comments == s.posts[p].comments + 1;
    hide Interleaving.Valid, Threads, Dy.ListsComments;
  }

  /** A detail is put together around one write, its post and its comments each read before or after. It is then one
      that the store may give exactly when the write does not touch the post, or the post was read after it and, if it
      is a comment, the comments too. */
  lemma AcrossWrite(s: Dy.Store, w: Request, now: int, p: int, first: bool, second: bool, r: Result<Content>)
    requires Interleaving.Valid(s) && !w.IsRead()
    requires var s' := Written(s, w, now); MayJoin(if first then s' else s, if second then s' else s, p, r)
    ensures MayAnswer(Written(s, w, now), GetPost(p), r)
      <==> !Touches(s, w, p) || (first && (second || !w.CreateComment?))
  {
    var s' := Written(s, w, now);
    if !Touches(s, w, p) {
      UntouchedSame(s, w, now, p);
      hide Touches, Written, Interleaving.Valid;
      JoinFrame(if first then s' else s, if second then s' else s, s', s', p, r);
    } else {
      TouchedPost(s, w, now, p);
      if first && !second {
        SplitAfter(s, w, now, p, r);
      }
      hide Touches, Written, Interleaving.Valid;
    }
  }

  /** The post is read after the write and the comments before. */
  lemma SplitAfter(s: Dy.Store, w: Request, now: int, p: int, r: Result<Content>)
    requires Interleaving.Valid(s) && !w.IsRead() && Touches(s, w, p) && MayJoin(Written(s, w, now), s, p, r)
    ensures MayAnswer(Written(s, w, now), GetPost(p), r) <==> !w.CreateComment?
  {
    var s' := Written(s, w, now);
    TouchedPost(s, w, now, p);
    if p in s'.posts {
      var x :| Dy.ListsComments(s, p, x) && Dy.OldestFirst(x)
        && r.value == PostDetail(Dy.PostView(p, s'.posts[p]), Threads(x));
      if w.CreateComment? {
        forall y | Dy.ListsComments(s', p, y) && Dy.OldestFirst(y) ensures Threads(y) != Threads(x) {
          CommentChangesThreads(s, w, now, p, x, y);
        }
      } else {
        CommentsFrame(s, s', p, x);
        assert Joins(s', s', p, r.value);
      }
    }
    hide Touches, Interleaving.Valid, Dy.ListsComments, Threads;
  }

  // ---- Series of writes ----

  /** Each moment's store is that of the moment before, or what one write leaves of it. */
  ghost predicate ByWrites(past: seq<Moment>, writes: seq<Option<Request>>) {
    && |past| == |writes| + 1
    && Interleaving.Valid(past[0].store)
    && forall i :: 0 <= i < |writes| ==>
      match writes[i]
      case None => past[i + 1].store == past[i].store
      case Some(w) => !w.IsRead() && past[i + 1].store == Written(past[i].store, w, past[i + 1].time)
  }

  predicate TouchedAt(past: seq<Moment>, writes: seq<Option<Request>>, k: nat, p: int)
    requires k < |writes| < |past|
  {
    writes[k].Some? && Touches(past[k].store, writes[k].value, p)
  }

  lemma {:induction false} AlwaysValid(past: seq<Moment>, writes: seq<Option<Request>>, i: nat)
    requires ByWrites(past, writes) && i < |past|
    ensures Interleaving.Valid(past[i].store)
  {
    hide Interleaving.Valid;
    if i > 0 {
      AlwaysValid(past, writes, i - 1);
      if writes[i - 1].Some? {
        WriteKeepsValid(past[i - 1].store, writes[i - 1].value, past[i].time);
      }
    }
  }

  /** No write in between touches the post. */
  ghost predicate Untouched(past: seq<Moment>, writes: seq<Option<Request>>, p: int, i: nat, j: nat)
    requires |writes| < |past|
  {
    forall k :: i <= k < j && k < |writes| ==> !TouchedAt(past, writes, k, p)
  }

  lemma {:induction false} StaysSame(past: seq<Moment>, writes: seq<Option<Request>>, p: int, i: nat, j: nat)
    requires ByWrites(past, writes) && i <= j < |past| && Untouched(past, writes, p, i, j)
    ensures SameDetail(past[i].store, past[j].store, p)
    decreases j
  {
    if i < j {
      StaysSame(past, writes, p, i, j - 1);
      assert !TouchedAt(past, writes, j - 1, p);
      if writes[j - 1].Some? {
        UntouchedSame(past[j - 1].store, writes[j - 1].value, past[j].time, p);
      }
      hide Written, Touches, Interleaving.Valid;
    }
  }

  lemma StaysPart(past: seq<Moment>, writes: seq<Option<Request>>, p: int, lo: nat, i: nat, j: nat)
    requires ByWrites(past, writes) && lo <= i <= j < |past| && Untouched(past, writes, p, lo, j)
    ensures SameDetail(past[i].store, past[j].store, p)
  {
    hide TouchedAt, Interleaving.Valid, Written;
    StaysSame(past, writes, p, i, j);
  }

  function Earlier(i: nat, j: nat): nat {
    if i <= j then i else j
  }

  /** A detail is still one that the store may give when no write since the earlier of its two reads touches it. */
  lemma CurrentUnlessTouched(
    past: seq<Moment>, writes: seq<Option<Request>>, p: int, first: nat, second: nat, at: nat, r: Result<Content>)
    requires ByWrites(past, writes) && first <= at < |past| && second <= at
    requires Untouched(past, writes, p, Earlier(first, second), at)
    requires Combined(past, GetPost(p), first, second, r)
    ensures MayAnswer(past[at].store, GetPost(p), r)
  {
    StaysPart(past, writes, p, Earlier(first, second), first, at);
    StaysPart(past, writes, p, Earlier(first, second), second, at);
    hide ByWrites, Untouched, SameDetail, MayJoin;
    var now := past[at].store;
    JoinFrame(past[first].store, past[second].store, now, now, p, r);
  }

  /** When exactly one of those writes touches the post, what is shown is still one of the store's answers precisely
      when the post was read after it and, if it is a comment, the comments too. */
  lemma OneTouchExactly(
    past: seq<Moment>, writes: seq<Option<Request>>, p: int, first: nat, second: nat, k: nat, at: nat,
    r: Result<Content>)
    requires ByWrites(past, writes) && first <= at < |past| && second <= at && Earlier(first, second) <= k < at
    requires Untouched(past, writes, p, Earlier(first, second), k) && TouchedAt(past, writes, k, p)
    requires Untouched(past, writes, p, k + 1, at)
    requires Combined(past, GetPost(p), first, second, r)
    ensures MayAnswer(past[at].store, GetPost(p), r)
      <==> first > k && (second > k || !writes[k].value.CreateComment?)
  {
    var lo := Earlier(first, second);
    var s, s', now := past[k].store, past[k + 1].store, past[at].store;
    AlwaysValid(past, writes, k);
    if first <= k { StaysPart(past, writes, p, lo, first, k); } else { StaysBack(past, writes, p, k, first, at); }
    if second <= k { StaysPart(past, writes, p, lo, second, k); } else { StaysBack(past, writes, p, k, second, at); }
    StaysSame(past, writes, p, k + 1, at);
    var w, time := writes[k].value, past[k + 1].time;
    assert s' == Written(s, w, time) && !w.IsRead() && Touches(s, w, p);
    hide ByWrites, Untouched, MayJoin, Touches, Written, Interleaving.Valid;
    JoinFrame(past[first].store, past[second].store, if first > k then s' else s, if second > k then s' else s, p, r);
    AcrossWrite(s, w, time, p, first > k, second > k, r);
    if MayAnswer(s', GetPost(p), r) {
      DetailFrame(s', now, p, r);
    }
    if MayAnswer(now, GetPost(p), r) {
      DetailFrame(now, s', p, r);
    }
  }

  lemma StaysBack(past: seq<Moment>, writes: seq<Option<Request>>, p: int, k: nat, i: nat, at: nat)
    requires ByWrites(past, writes) && k < i <= at < |past| && Untouched(past, writes, p, k + 1, at)
    ensures SameDetail(past[i].store, past[k + 1].store, p)
  {
    hide TouchedAt, Interleaving.Valid, Written;
    StaysSame(past, writes, p, k + 1, i);
  }

  // ---- Every run ----

  /** Among the first deletes one has cleared the detail's key after moment k. */
  ghost predicate ClearedSince(b: Traffic, p: int, k: nat, seen: nat) {
    exists c :: 0 <= c < seen && c < |b.cleared| && Matches(b.cleared[c].pattern, DetailKey(p)) && k < b.cleared[c].at
  }

  /** In every run, a detail that is shown though the store would no longer give it has its cause in a write that
      touches the post after the earlier of the two store reads. That write either overlapped with the read that
      filled the cache, or its key had not been cleared before this reader looked. */
  lemma StaleHasCause(ttl: int, actions: seq<Action>, writes: seq<Option<Request>>, i: nat, p: int) returns (k: nat)
    requires var b := RouterRaces.Run(RouterRaces.START, ttl, actions);
      && ByWrites(b.past, writes) && i < |b.jobs| && b.jobs[i].Served? && b.jobs[i].req == GetPost(p)
      && b.jobs[i].at < |b.past|
      && !MayAnswer(b.past[b.jobs[i].at].store, GetPost(p), Ok(b.jobs[i].made.content))
    ensures var b := RouterRaces.Run(RouterRaces.START, ttl, actions);
      var (at, made) := (b.jobs[i].at, b.jobs[i].made);
      && Earlier(made.first, made.second) <= k < at && k < |writes| && TouchedAt(b.past, writes, k, p)
      && (k < made.written || !ClearedSince(b, p, k, b.jobs[i].seen))
  {
    var b := RouterRaces.Run(RouterRaces.START, ttl, actions);
    RunSourced(RouterRaces.START, ttl, actions);
    RunClears(RouterRaces.START, ttl, actions);
    var (at, made) := (b.jobs[i].at, b.jobs[i].made);
    assert JobReady(b, b.jobs[i]);
    SameKeyCombined(b.past, made.req, GetPost(p), made.first, made.second, Ok(made.content));
    var lo := Earlier(made.first, made.second);
    hide RouterRaces.Run, ByWrites, TouchedAt, MayJoin, Matches;
    if Untouched(b.past, writes, p, lo, at) {
      CurrentUnlessTouched(b.past, writes, p, made.first, made.second, at, Ok(made.content));
      assert false;
    }
    k :| lo <= k < at && k < |writes| && TouchedAt(b.past, writes, k, p);
    if ClearedSince(b, p, k, b.jobs[i].seen) {
      var c :| 0 <= c < b.jobs[i].seen && c < |b.cleared| && Matches(b.cleared[c].pattern, DetailKey(p))
        && k < b.cleared[c].at;
      assert JobAfter(b.cleared[c], c, b.jobs[i]);
    }
  }

  // ---- One schedule ----

  /** A detail is looked up in vain and read from the store. */
  ghost function ReadBoth(b: Traffic, ttl: int, p: int): Traffic {
    var n := |b.jobs|;
    var missed := Step(Step(b, ttl, Begin(GetPost(p))), ttl, Look(n, false));
    Step(Step(missed, ttl, ReadFirst(n)), ttl, ReadSecond(n))
  }

  /** Then a write changes the store and clears the detail's key, and then the detail read before is cached. */
  ghost function Overtaken(b: Traffic, ttl: int, p: int, direct: Result<Content>, m: Moment): Traffic {
    var written := Step(Step(ReadBoth(b, ttl, p), ttl, Pass(m)), ttl, Clear(DetailKey(p), {}));
    Step(written, ttl, Fill(|b.jobs|, false, direct))
  }

  function WithJob(b: Traffic, j: Job): Traffic {
    b.(jobs := b.jobs + [j])
  }

  lemma LastJobMoves(b: Traffic, j: Job, k: Job)
    ensures WithJob(b, j).(jobs := WithJob(b, j).jobs[|b.jobs| := k]) == WithJob(b, k)
  {
    assert (b.jobs + [j])[|b.jobs| := k] == b.jobs + [k];
  }

  lemma MissedBefore(b: Traffic, ttl: int, p: int)
    requires b.past != [] && Read(b.cache, DetailKey(p), b.past[Latest(b)].time, false) == None
    ensures Step(Step(b, ttl, Begin(GetPost(p))), ttl, Look(|b.jobs|, false))
         == WithJob(b, Fetching(GetPost(p), Latest(b), None, None))
  {
    hide DetailKey;
    assert Step(b, ttl, Begin(GetPost(p))) == WithJob(b, Looking(GetPost(p)));
    LastJobMoves(b, Looking(GetPost(p)), Fetching(GetPost(p), Latest(b), None, None));
  }

  lemma FirstRead(b: Traffic, ttl: int, req: Request)
    requires b.past != []
    ensures Step(WithJob(b, Fetching(req, Latest(b), None, None)), ttl, ReadFirst(|b.jobs|))
         == WithJob(b, Fetching(req, Latest(b), Some(Latest(b)), None))
  {
    LastJobMoves(b, Fetching(req, Latest(b), None, None), Fetching(req, Latest(b), Some(Latest(b)), None));
  }

  lemma SecondRead(b: Traffic, ttl: int, req: Request)
    requires b.past != []
    ensures Step(WithJob(b, Fetching(req, Latest(b), Some(Latest(b)), None)), ttl, ReadSecond(|b.jobs|))
         == WithJob(b, Fetching(req, Latest(b), Some(Latest(b)), Some(Latest(b))))
  {
    var now := Latest(b);
    LastJobMoves(b, Fetching(req, now, Some(now), None), Fetching(req, now, Some(now), Some(now)));
  }

  lemma ReadBefore(b: Traffic, ttl: int, p: int)
    requires b.past != [] && Read(b.cache, DetailKey(p), b.past[Latest(b)].time, false) == None
    ensures var now := Latest(b);
      ReadBoth(b, ttl, p) == WithJob(b, Fetching(GetPost(p), now, Some(now), Some(now)))
  {
    hide Step, DetailKey;
    MissedBefore(b, ttl, p);
    FirstRead(b, ttl, GetPost(p));
    SecondRead(b, ttl, GetPost(p));
  }

  /** The detail as it was before the write is then in the cache, whatever the write changed. */
  lemma OvertakenCached(b: Traffic, ttl: int, p: int, direct: Result<Content>, m: Moment)
    requires b.past != [] && b.past[Latest(b)].time <= m.time
    requires Read(b.cache, DetailKey(p), b.past[Latest(b)].time, false) == None
    requires direct.Ok? && MayAnswer(b.past[Latest(b)].store, GetPost(p), direct)
    ensures var n := Overtaken(b, ttl, p, direct, m);
      && n.past == b.past + [m] && |n.jobs| == |b.jobs| + 1
      && DetailKey(p) in n.cache
      && n.cache[DetailKey(p)].value.content == direct.value
      && n.cache[DetailKey(p)].expires == m.time + ttl
  {
    var n, now, req := |b.jobs|, Latest(b), GetPost(p);
    ReadBefore(b, ttl, p);
    var read := ReadBoth(b, ttl, p);
    var passed := Step(read, ttl, Pass(m));
    var cleared := Step(passed, ttl, Clear(DetailKey(p), {}));
    hide ReadBoth, Matches, DetailKey;
    assert cleared.past == b.past + [m] && cleared.jobs == read.jobs;
    assert cleared.jobs[n] == Fetching(req, now, Some(now), Some(now)) && cleared.past[now] == b.past[now];
    assert Combined(cleared.past, req, now, now, direct);
    hide MayJoin, Combined, Step;
    FillCaches(cleared, ttl, n, req, now, direct);
  }

  lemma FillCaches(b: Traffic, ttl: int, n: nat, req: Request, i: nat, direct: Result<Content>)
    requires n < |b.jobs| && Askable(req) && i < |b.past| && b.jobs[n] == Fetching(req, i, Some(i), Some(i))
    requires direct.Ok? && Combined(b.past, req, i, i, direct)
    ensures var after := Step(b, ttl, Fill(n, false, direct));
      && after.past == b.past && |after.jobs| == |b.jobs| && KeyOf(req) in after.cache
      && after.cache[KeyOf(req)].value.content == direct.value
      && after.cache[KeyOf(req)].expires == b.past[Latest(b)].time + ttl
  {
    hide Combined, KeyOf;
  }

  /** After it a new reader is shown the detail of before the write, although the write has cleared its key: one that
      the store may give exactly when the write does not touch the post. */
  lemma OvertakenReadIsStale(b: Traffic, ttl: int, p: int, direct: Result<Content>, w: Request, m: Moment)
    requires ttl > 0 && b.past != [] && b.past[Latest(b)].time <= m.time
    requires Read(b.cache, DetailKey(p), b.past[Latest(b)].time, false) == None
    requires Interleaving.Valid(b.past[Latest(b)].store)
    requires !w.IsRead() && m.store == Written(b.past[Latest(b)].store, w, m.time)
    requires direct.Ok? && MayAnswer(b.past[Latest(b)].store, GetPost(p), direct)
    ensures var n := |b.jobs| + 1;
      var after := Step(Step(Overtaken(b, ttl, p, direct, m), ttl, Begin(GetPost(p))), ttl, Look(n, false));
      && |after.jobs| == n + 1 && after.jobs[n].Served? && after.jobs[n].at == |b.past| && after.past == b.past + [m]
      && after.jobs[n].made.content == direct.value
      && (MayAnswer(m.store, GetPost(p), direct) <==> !Touches(b.past[Latest(b)].store, w, p))
  {
    OvertakenCached(b, ttl, p, direct, m);
    AcrossWrite(b.past[Latest(b)].store, w, m.time, p, false, false, direct);
    hide Overtaken, MayJoin, DetailKey, Touches, Interleaving.Valid, Written;
    var c, n := Overtaken(b, ttl, p, direct, m), |b.jobs| + 1;
    assert c.past[|b.past|] == m;
    var c1 := Step(c, ttl, Begin(GetPost(p)));
    assert c1.jobs == c.jobs + [Looking(GetPost(p))];
  }
}
