/**
 What the router answers: reads go through the cache, writes go to the store and then
 delete the keys they may have made stale.
 */
module RouterSpec {
  import opened Options
  import opened Community
  import opened Arrangements
  import opened Cache
  import opened Nesting
  import Dy = DynamoStore

  datatype Content =
    | PostPage(posts: seq<Dy.PostView>, total: nat, page: nat, size: nat)
    | PostDetail(post: Dy.PostView, comments: seq<Thread>)

  datatype Request =
    | ListPosts(page: nat, size: nat, filter: Option<string>)
    | GetPost(p: int)
    | CreatePost(author: string, title: string, body: string, postType: string)
    | DeletePost(p: int, user: string)
    | CreateComment(p: int, author: string, body: string, parent: Option<int>)
    | ThumbPost(p: int, voter: string, d: Direction)
  {
    predicate Proper() {
      ListPosts? ==> page >= 1 && size >= 1
    }

    predicate IsRead() {
      ListPosts? || GetPost?
    }

    /** A type filter spelled `all` shares its key with no filter at all. */
    predicate AsksForAll() {
      ListPosts? && filter == Some("all")
    }
  }

  datatype Response =
    | Shown(content: Content)
    | Created(post: Dy.PostView)
    | Commented(comment: Dy.CommentView)
    | Voted(counts: Counts)
    | Gone
    | Failed(error: Error)

  /** Which cache calls of one request fail, and what failing deletes leave behind. */
  datatype Faults = Faults(read: bool, write: bool, kept: set<string>)

  const NO_FAULTS := Faults(false, false, {})

  type Entries = map<string, Entry<Content>>

  datatype State = State(store: Dy.Store, cache: Entries)

  function KeyOf(req: Request): string
    requires req.IsRead()
  {
    if req.ListPosts? then ListKey(req.page, req.size, req.filter) else DetailKey(req.p)
  }

  /** A page of the selected posts, newest first, in whatever order equal times come. */
  ghost predicate ShowsPage(s: Dy.Store, page: nat, size: nat, filter: Option<string>, c: Content)
    requires page >= 1
  {
    c.PostPage? && (c.page, c.size) == (page, size) && Dy.PageOf(s, page, size, filter, c.posts, c.total)
  }

  /** The post of one store with the threads of its comments in another, oldest first, in whatever order equal times
      come. */
  ghost predicate Joins(s: Dy.Store, t: Dy.Store, p: int, c: Content) {
    exists comments :: (Dy.ListsComments(t, p, comments) && Dy.OldestFirst(comments) && p in s.posts
      && c == PostDetail(Dy.PostView(p, s.posts[p]), Threads(comments)))
  }

  /** What a detail read answers that takes the post from one store and the comments from another. */
  ghost predicate MayJoin(s: Dy.Store, t: Dy.Store, p: int, r: Result<Content>) {
    if p in s.posts then r.Ok? && Joins(s, t, p, r.value) else r == Err(PostNotFound)
  }

  /** What the store itself may answer to a read. */
  ghost predicate MayAnswer(s: Dy.Store, req: Request, r: Result<Content>)
    requires req.Proper() && req.IsRead()
  {
    match req
    case ListPosts(page, size, filter) => r.Ok? && ShowsPage(s, page, size, filter, r.value)
    case GetPost(p) => MayJoin(s, s, p, r)
  }

  /** The store always has an answer. */
  lemma AnswerExists(s: Dy.Store, req: Request) returns (r: Result<Content>)
    requires req.Proper() && req.IsRead()
    ensures MayAnswer(s, req, r)
  {
    match req
    case ListPosts(page, size, filter) =>
      var ids := ByTime(Dy.SelectedIds(s.posts, filter), Dy.Times(s.posts));
      CreationOrderArranges(Dy.SelectedIds(s.posts, filter), Dy.Times(s.posts));
      hide ByTime;
      var all := SomeViews(s, filter, ids);
      var posts := Slice(all, Offset(page, size), size);
      assert Dy.PageOf(s, page, size, filter, posts, |all|);
      return Ok(PostPage(posts, |all|, page, size));
    case GetPost(p) =>
      if p !in s.posts {
        return Err(PostNotFound);
      }
      var comments := SomeComments(s, p);
      return Ok(PostDetail(Dy.PostView(p, s.posts[p]), Threads(comments)));
  }

  lemma SomeViews(s: Dy.Store, filter: Option<string>, ids: seq<int>) returns (all: seq<Dy.PostView>)
    requires Arranges(ids, Dy.SelectedIds(s.posts, filter), Dy.Times(s.posts))
    ensures Dy.ListsPosts(s, filter, ids, all)
  {
    ArrangesMembers(ids, Dy.SelectedIds(s.posts, filter), Dy.Times(s.posts));
    var newest := Reverse(ids);
    forall i | 0 <= i < |newest| ensures newest[i] in s.posts {
      assert ids[|ids| - 1 - i] in ids;
    }
    all := seq(|newest|, i requires 0 <= i < |newest| => Dy.PostView(newest[i], s.posts[newest[i]]));
  }

  lemma SomeComments(s: Dy.Store, p: int) returns (comments: seq<Dy.CommentView>)
    ensures Dy.ListsComments(s, p, comments) && Dy.OldestFirst(comments)
  {
    var b, bt := Dy.CommentIds(s, p), Dy.CommentTimes(s, p);
    var ids := ByTime(b, bt);
    CreationOrderArranges(b, bt);
    hide ByTime;
    forall i | 0 <= i < |ids| ensures (p, ids[i]) in s.comments {
      assert ids[i] in ids;
    }
    comments := seq(|ids|, i requires 0 <= i < |ids| => Dy.CommentView(ids[i], p, s.comments[(p, ids[i])]));
    Dy.ArrangedComments(s, p, ids, comments);
  }

  /** No two posts, and no two comments of a post, were created at the same instant. */
  ghost predicate DistinctInstants(s: Dy.Store) {
    && DistinctTimes(Dy.Times(s.posts))
    && forall p :: DistinctTimes(Dy.CommentTimes(s, p))
  }

  /** With distinct instants there is one answer only. */
  lemma OneAnswer(s: Dy.Store, req: Request, q: Result<Content>, r: Result<Content>)
    requires req.Proper() && req.IsRead() && DistinctInstants(s)
    requires MayAnswer(s, req, q) && MayAnswer(s, req, r)
    ensures q == r
  {
    match req
    case ListPosts(page, size, filter) =>
      var b, bt := Dy.SelectedIds(s.posts, filter), Dy.Times(s.posts);
      var x, xs :| Dy.ListsPosts(s, filter, x, xs) && q.value.posts == Slice(xs, Offset(page, size), size)
        && q.value.total == |xs|;
      var y, ys :| Dy.ListsPosts(s, filter, y, ys) && r.value.posts == Slice(ys, Offset(page, size), size)
        && r.value.total == |ys|;
      OneArrangement(x, y, b, bt);
      hide Slice, Offset, Reverse;
      assert xs == ys;
    case GetPost(p) =>
      if p in s.posts {
        var x :| Dy.ListsComments(s, p, x) && Dy.OldestFirst(x)
          && q.value == PostDetail(Dy.PostView(p, s.posts[p]), Threads(x));
        var y :| Dy.ListsComments(s, p, y) && Dy.OldestFirst(y)
          && r.value == PostDetail(Dy.PostView(p, s.posts[p]), Threads(y));
        OneCommentList(s, p, x, y);
      }
  }

  lemma OneCommentList(s: Dy.Store, p: int, x: seq<Dy.CommentView>, y: seq<Dy.CommentView>)
    requires Dy.ListsComments(s, p, x) && Dy.OldestFirst(x) && Dy.ListsComments(s, p, y) && Dy.OldestFirst(y)
    requires DistinctTimes(Dy.CommentTimes(s, p))
    ensures x == y
  {
    var xs := seq(|x|, i requires 0 <= i < |x| => x[i].id);
    var ys := seq(|y|, i requires 0 <= i < |y| => y[i].id);
    Dy.ListedIds(s, p, x, xs);
    Dy.ListedIds(s, p, y, ys);
    OneArrangement(xs, ys, Dy.CommentIds(s, p), Dy.CommentTimes(s, p));
    hide Dy.ListsComments, Dy.OldestFirst, Arranges;
    forall i | 0 <= i < |x| ensures x[i] == y[i] {
      assert xs[i] == ys[i];
    }
  }

  function AsResponse(r: Result<Content>): Response {
    match r case Ok(c) => Shown(c) case Err(e) => Failed(e)
  }

  function InvalidatePosts(cache: Entries, f: Faults): Entries {
    Delete(cache, LIST_PREFIX + "*", f.kept)
  }

  function InvalidatePost(cache: Entries, p: int, f: Faults): Entries {
    Delete(cache, DetailKey(p), f.kept)
  }

  /** `direct` is what the store answers if it is asked. */
  function Handle(st: State, req: Request, now: int, ttl: int, f: Faults, direct: Result<Content>): (State, Response) {
    match req
    case CreatePost(author, title, body, postType) =>
      var (s', post) := Dy.CreatePost(st.store, author, title, body, postType, now);
      (State(s', InvalidatePosts(st.cache, f)), Created(post))
    case DeletePost(p, user) =>
      var (s', r) := Dy.DeletePost(st.store, p, user);
      if r.Ok? then (State(s', InvalidatePost(InvalidatePosts(st.cache, f), p, f)), Gone) else (st, Failed(r.error))
    case CreateComment(p, author, body, parent) =>
      var (s', r) := Dy.CreateComment(st.store, p, author, body, parent, now);
      if r.Ok? then (State(s', InvalidatePost(st.cache, p, f)), Commented(r.value)) else (st, Failed(r.error))
    case ThumbPost(p, voter, d) =>
      var (s', r) := Dy.Toggle(st.store, p, voter, d);
      if r.Ok? then (State(s', InvalidatePost(st.cache, p, f)), Voted(r.value)) else (st, Failed(r.error))
    case _ =>
      var cached := Read(st.cache, KeyOf(req), now, f.read);
      if cached.Some? then (st, Shown(cached.value))
      else if direct.Err? then (st, Failed(direct.error))
      else (st.(cache := Write(st.cache, KeyOf(req), direct.value, now, ttl, f.write)), Shown(direct.value))
  }

  /** Reads with one key have the same answers, unless one of them asks for the type `all`. */
  lemma SameKeySameAnswer(s: Dy.Store, a: Request, b: Request, r: Result<Content>)
    requires a.Proper() && b.Proper() && a.IsRead() && b.IsRead()
    requires KeyOf(a) == KeyOf(b) && !a.AsksForAll() && !b.AsksForAll()
    ensures MayAnswer(s, a, r) <==> MayAnswer(s, b, r)
  {
    if a.ListPosts? && b.ListPosts? {
      ListKeyInjective(a.page, a.size, a.filter, b.page, b.size, b.filter);
      if a.filter != b.filter {
        assert a.filter in {None, Some("")} && b.filter in {None, Some("")};
        SameSelection(s, a.filter, b.filter, a.page, a.size, r);
      }
    } else if a.GetPost? && b.GetPost? {
      DetailKeyInjective(a.p, b.p);
    } else if a.ListPosts? {
      KeysDisjoint(a.page, a.size, a.filter, b.p);
    } else {
      KeysDisjoint(b.page, b.size, b.filter, a.p);
    }
  }

  lemma SameSelection(s: Dy.Store, f: Option<string>, g: Option<string>, page: nat, size: nat, r: Result<Content>)
    requires f in {None, Some("")} && g in {None, Some("")} && page >= 1 && size >= 1
    ensures MayAnswer(s, ListPosts(page, size, f), r) <==> MayAnswer(s, ListPosts(page, size, g), r)
  {
    forall p ensures p in Dy.SelectedIds(s.posts, f) <==> p in Dy.SelectedIds(s.posts, g) {
      if p in s.posts {
        assert Dy.Selects(f, s.posts[p].postType) && Dy.Selects(g, s.posts[p].postType);
      }
    }
    SameSet(Dy.SelectedIds(s.posts, f), Dy.SelectedIds(s.posts, g));
    SelectedAlike(s, f, g, page, size, r);
  }

  /** Filters that select the same posts have the same pages. */
  lemma SelectedAlike(s: Dy.Store, f: Option<string>, g: Option<string>, page: nat, size: nat, r: Result<Content>)
    requires page >= 1 && size >= 1 && Dy.SelectedIds(s.posts, f) == Dy.SelectedIds(s.posts, g)
    ensures MayAnswer(s, ListPosts(page, size, f), r) <==> MayAnswer(s, ListPosts(page, size, g), r)
  {
    hide Dy.SelectedIds, Slice, Offset;
    forall ids, all ensures Dy.ListsPosts(s, f, ids, all) <==> Dy.ListsPosts(s, g, ids, all) {}
  }

  // ---- Staleness is bounded by the time to live, whatever fails ----

  datatype Event = Event(req: Request, now: int, faults: Faults, direct: Result<Content>)

  predicate ProperEvents(events: seq<Event>) {
    forall i :: 0 <= i < |events| ==> events[i].req.Proper() && !events[i].req.AsksForAll()
  }

  const START := State(Dy.EMPTY, map[])

  /** The state in which request k is handled. */
  function StateAt(events: seq<Event>, ttl: int, k: nat): State
    requires k <= |events|
  {
    if k == 0 then START
    else
      var e := events[k - 1];
      Handle(StateAt(events, ttl, k - 1), e.req, e.now, ttl, e.faults, e.direct).0
  }

  function ResponseAt(events: seq<Event>, ttl: int, k: nat): Response
    requires k < |events|
  {
    Handle(StateAt(events, ttl, k), events[k].req, events[k].now, ttl, events[k].faults, events[k].direct).1
  }

  /** Whenever the store is asked it answers as it may. */
  ghost predicate Told(events: seq<Event>, ttl: int)
    requires ProperEvents(events)
  {
    forall k :: 0 <= k < |events| ==> ToldAt(events, ttl, k)
  }

  ghost predicate ToldAt(events: seq<Event>, ttl: int, k: nat)
    requires ProperEvents(events) && k < |events|
  {
    events[k].req.IsRead() ==> MayAnswer(StateAt(events, ttl, k).store, events[k].req, events[k].direct)
  }

  /** An entry was written by read m, from the store as it was then. */
  ghost predicate WrittenBy(events: seq<Event>, ttl: int, m: nat, key: string, e: Entry<Content>)
    requires m < |events| && ProperEvents(events)
  {
    && events[m].req.IsRead() && KeyOf(events[m].req) == key
    && MayAnswer(StateAt(events, ttl, m).store, events[m].req, Ok(e.value))
    && e.expires == events[m].now + ttl
  }

  /** A request keeps entries or writes the entry of its own read. */
  lemma HandleWrites(st: State, req: Request, now: int, ttl: int, f: Faults, direct: Result<Content>, key: string)
    requires key in Handle(st, req, now, ttl, f, direct).0.cache
    ensures var e := Handle(st, req, now, ttl, f, direct).0.cache[key];
      || (key in st.cache && e == st.cache[key])
      || (req.IsRead() && KeyOf(req) == key && direct == Ok(e.value) && e.expires == now + ttl)
  {
    hide Matches, KeyOf;
  }

  /** Request k keeps an entry or writes it itself. */
  lemma EntryKeptOrWritten(events: seq<Event>, ttl: int, k: nat, key: string)
    requires k < |events| && ProperEvents(events) && Told(events, ttl) && key in StateAt(events, ttl, k + 1).cache
    ensures var before, after := StateAt(events, ttl, k).cache, StateAt(events, ttl, k + 1).cache;
      (key in before && after[key] == before[key]) || WrittenBy(events, ttl, k, key, after[key])
  {
    var ev := events[k];
    assert ToldAt(events, ttl, k);
    HandleWrites(StateAt(events, ttl, k), ev.req, ev.now, ttl, ev.faults, ev.direct, key);
    hide Handle, MayAnswer, KeyOf;
  }

  lemma NothingAtStart(events: seq<Event>, ttl: int)
    ensures StateAt(events, ttl, 0).cache == map[]
  {
  }

  lemma {:induction false} EntryHasWriter(events: seq<Event>, ttl: int, k: nat, key: string) returns (m: nat)
    requires k <= |events| && ProperEvents(events) && Told(events, ttl) && key in StateAt(events, ttl, k).cache
    ensures m < k && WrittenBy(events, ttl, m, key, StateAt(events, ttl, k).cache[key])
    decreases k
  {
    hide StateAt, Told, WrittenBy;
    NothingAtStart(events, ttl);
    m := k - 1;
    EntryKeptOrWritten(events, ttl, m, key);
    if !WrittenBy(events, ttl, m, key, StateAt(events, ttl, k).cache[key]) {
      m := EntryHasWriter(events, ttl, m, key);
    }
  }

  lemma EntriesHaveWriters(events: seq<Event>, ttl: int, k: nat)
    requires k <= |events| && ProperEvents(events) && Told(events, ttl)
    ensures forall key :: key in StateAt(events, ttl, k).cache ==>
      exists m: nat :: m < k && WrittenBy(events, ttl, m, key, StateAt(events, ttl, k).cache[key])
  {
    hide StateAt, WrittenBy, Told;
    forall key | key in StateAt(events, ttl, k).cache
      ensures exists m: nat :: m < k && WrittenBy(events, ttl, m, key, StateAt(events, ttl, k).cache[key])
    {
      var m := EntryHasWriter(events, ttl, k, key);
    }
  }

  /** The response is one the store may give to a read. */
  ghost predicate MayRespond(s: Dy.Store, req: Request, r: Response)
    requires req.Proper() && req.IsRead()
  {
    match r
    case Shown(c) => MayAnswer(s, req, Ok(c))
    case Failed(e) => MayAnswer(s, req, Err(e))
    case _ => false
  }

  /**
   Whatever cache calls fail, a read at time t is answered as the store might have
   answered it at some request made after t - ttl.
   */
  lemma StaleAtMostTtl(events: seq<Event>, ttl: int, k: nat)
    requires k < |events| && ProperEvents(events) && Told(events, ttl) && events[k].req.IsRead() && ttl > 0
    ensures exists m: nat :: (m <= k && events[m].now > events[k].now - ttl
      && MayRespond(StateAt(events, ttl, m).store, events[k].req, ResponseAt(events, ttl, k)))
  {
    var st, ev := StateAt(events, ttl, k), events[k];
    assert ToldAt(events, ttl, k);
    var cached := Read(st.cache, KeyOf(ev.req), ev.now, ev.faults.read);
    var m: nat := k;
    if cached.Some? {
      m := EntryHasWriter(events, ttl, k, KeyOf(ev.req));
      SameKeySameAnswer(StateAt(events, ttl, m).store, events[m].req, ev.req, Ok(cached.value));
    }
    hide MayAnswer;
    assert m <= k && events[m].now > ev.now - ttl
      && MayRespond(StateAt(events, ttl, m).store, ev.req, ResponseAt(events, ttl, k));
  }
}
