/**
 With a cache that never fails, a cached detail is always one the store itself may give,
 and a cached page differs from such a page at most in vote and comment counters.
 */
module Coherence {
  import opened Options
  import opened Community
  import opened Arrangements
  import opened Cache
  import opened Nesting
  import opened RouterSpec
  import Dy = DynamoStore
  import Interleaving
  import SoloRuns

  predicate SamePostButCounters(a: Dy.PostView, b: Dy.PostView) {
    a.id == b.id && Dy.Bare(a.row) == Dy.Bare(b.row)
  }

  /** Same page, same posts in the same order, same total; only counters may lag. */
  ghost predicate SameButCounters(a: Content, b: Content) {
    && a.PostPage? && b.PostPage?
    && (a.total, a.page, a.size) == (b.total, b.page, b.size)
    && |a.posts| == |b.posts|
    && forall i :: 0 <= i < |a.posts| ==> SamePostButCounters(a.posts[i], b.posts[i])
  }

  ghost predicate PageOk(s: Dy.Store, c: Content, page: nat, size: nat, filter: Option<string>)
    requires page >= 1 && size >= 1
  {
    exists now :: ShowsPage(s, page, size, filter, now) && SameButCounters(c, now)
  }

  ghost predicate Coherent(st: State) {
    && (forall page, size, filter ::
          page >= 1 && size >= 1 && filter != Some("all") && ListKey(page, size, filter) in st.cache ==>
          PageOk(st.store, st.cache[ListKey(page, size, filter)].value, page, size, filter))
    && (forall p :: DetailKey(p) in st.cache ==>
          MayAnswer(st.store, GetPost(p), Ok(st.cache[DetailKey(p)].value)))
  }

  // ---- What an operation cannot change in an answer ----

  /** The two stores list the same posts, up to counters. */
  predicate SamePosts(s: Dy.Store, s': Dy.Store) {
    && s.posts.Keys == s'.posts.Keys
    && forall p :: p in s.posts ==> Dy.Bare(s.posts[p]) == Dy.Bare(s'.posts[p])
  }

  /** A list of the posts of one store, with the rows of the other. */
  lemma ListFrame(
    s: Dy.Store, s': Dy.Store, filter: Option<string>, ids: seq<int>, x: seq<Dy.PostView>)
    returns (y: seq<Dy.PostView>)
    requires SamePosts(s, s') && Dy.ListsPosts(s, filter, ids, x)
    ensures Dy.ListsPosts(s', filter, ids, y) && |y| == |x|
    ensures forall i :: 0 <= i < |x| ==> SamePostButCounters(x[i], y[i])
  {
    forall p | p in s.posts ensures Dy.Bare(s.posts[p]) == Dy.Bare(s'.posts[p]) {}
    SameMap(Dy.Times(s.posts), Dy.Times(s'.posts));
    SameSet(Dy.SelectedIds(s.posts, filter), Dy.SelectedIds(s'.posts, filter));
    y := seq(|x|, i requires 0 <= i < |x| =>
      var p := x[i].id; Dy.PostView(p, if p in s'.posts then s'.posts[p] else x[i].row));
  }

  lemma PageFrame(s: Dy.Store, s': Dy.Store, c: Content, page: nat, size: nat, filter: Option<string>)
    requires page >= 1 && size >= 1 && SamePosts(s, s') && PageOk(s, c, page, size, filter)
    ensures PageOk(s', c, page, size, filter)
  {
    var now :| ShowsPage(s, page, size, filter, now) && SameButCounters(c, now);
    var ids, x :| Dy.ListsPosts(s, filter, ids, x)
      && now.posts == Slice(x, Offset(page, size), size) && now.total == |x|;
    var y := ListFrame(s, s', filter, ids, x);
    SliceAt(x, Offset(page, size), size);
    SliceAt(y, Offset(page, size), size);
    hide Dy.ListsPosts, Slice, Offset, SamePosts;
    var now' := PostPage(Slice(y, Offset(page, size), size), |y|, page, size);
    assert Dy.PageOf(s', page, size, filter, now'.posts, |y|);
    assert ShowsPage(s', page, size, filter, now') && SameButCounters(c, now');
  }

  /** The two stores hold the same post and the same comments on it. */
  ghost predicate SameDetail(s: Dy.Store, s': Dy.Store, p: int) {
    Lookup(s.posts, p) == Lookup(s'.posts, p) && SameComments(s, s', p)
  }

  ghost predicate SameComments(s: Dy.Store, s': Dy.Store, p: int) {
    forall k: (int, int) :: k.0 == p ==> Lookup(s'.comments, k) == Lookup(s.comments, k)
  }

  lemma CommentsFrame(s: Dy.Store, s': Dy.Store, p: int, comments: seq<Dy.CommentView>)
    requires SameComments(s, s', p) && Dy.ListsComments(s, p, comments)
    ensures Dy.ListsComments(s', p, comments)
  {
    forall v: Dy.CommentView | v.postId == p
      ensures (p, v.id) in s.comments && v.row == s.comments[(p, v.id)]
        <==> (p, v.id) in s'.comments && v.row == s'.comments[(p, v.id)]
    {
      assert Lookup(s'.comments, (p, v.id)) == Lookup(s.comments, (p, v.id));
    }
  }

  lemma JoinFrame(s: Dy.Store, t: Dy.Store, s': Dy.Store, t': Dy.Store, p: int, r: Result<Content>)
    requires SameDetail(s, s', p) && SameDetail(t, t', p) && MayJoin(s, t, p, r)
    ensures MayJoin(s', t', p, r)
  {
    assert p in s.posts <==> p in s'.posts by { assert Lookup(s.posts, p) == Lookup(s'.posts, p); }
    if p in s.posts {
      assert s.posts[p] == s'.posts[p] by { assert Lookup(s.posts, p) == Lookup(s'.posts, p); }
      var comments :| Dy.ListsComments(t, p, comments) && Dy.OldestFirst(comments)
        && r.value == PostDetail(Dy.PostView(p, s.posts[p]), Threads(comments));
      CommentsFrame(t, t', p, comments);
      hide Dy.ListsComments, Dy.OldestFirst;
      assert Joins(s', t', p, r.value);
    }
  }

  lemma DetailFrame(s: Dy.Store, s': Dy.Store, p: int, r: Result<Content>)
    requires SameDetail(s, s', p) && MayAnswer(s, GetPost(p), r)
    ensures MayAnswer(s', GetPost(p), r)
  {
    JoinFrame(s, s, s', s', p, r);
  }

  // ---- Each request ----

  lemma ListEntriesGone(cache: Entries, page: nat, size: nat, filter: Option<string>)
    ensures ListKey(page, size, filter) !in InvalidatePosts(cache, NO_FAULTS)
  {
    PatternsSelect(page, size, filter, 0, 0);
  }

  lemma DetailEntryKept(cache: Entries, q: int)
    ensures Lookup(InvalidatePosts(cache, NO_FAULTS), DetailKey(q)) == Lookup(cache, DetailKey(q))
  {
    PatternsSelect(1, 1, None, q, q);
  }

  lemma OnlyOwnDetailGone(cache: Entries, p: int, q: int)
    ensures Lookup(InvalidatePost(cache, p, NO_FAULTS), DetailKey(q))
         == if p == q then None else Lookup(cache, DetailKey(q))
  {
    PatternsSelect(1, 1, None, p, q);
  }

  lemma ListEntryKept(cache: Entries, p: int, page: nat, size: nat, filter: Option<string>)
    ensures Lookup(InvalidatePost(cache, p, NO_FAULTS), ListKey(page, size, filter))
        == Lookup(cache, ListKey(page, size, filter))
  {
    PatternsSelect(page, size, filter, p, p);
  }

  /** A write that touches one existing post and clears its detail key keeps the cache coherent. */
  lemma OnePostWriteCoherent(st: State, s': Dy.Store, p: int)
    requires Coherent(st) && SamePosts(st.store, s') && forall q :: q != p ==> SameDetail(st.store, s', q)
    ensures Coherent(State(s', InvalidatePost(st.cache, p, NO_FAULTS)))
  {
    hide ListKey, DetailKey, InvalidatePost, PageOk, MayAnswer, SamePosts, SameDetail;
    var cache' := InvalidatePost(st.cache, p, NO_FAULTS);
    forall page: nat, size: nat, filter: Option<string> |
      page >= 1 && size >= 1 && filter != Some("all") && ListKey(page, size, filter) in cache'
      ensures PageOk(s', cache'[ListKey(page, size, filter)].value, page, size, filter)
    {
      ListEntryKept(st.cache, p, page, size, filter);
      PageFrame(st.store, s', st.cache[ListKey(page, size, filter)].value, page, size, filter);
    }
    forall q | DetailKey(q) in cache' ensures MayAnswer(s', GetPost(q), Ok(cache'[DetailKey(q)].value)) {
      OnlyOwnDetailGone(st.cache, p, q);
      DetailFrame(st.store, s', q, Ok(cache'[DetailKey(q)].value));
    }
  }

  /** A write that clears every list key keeps the cache coherent if it leaves every cached detail alone. */
  lemma ListClearedCoherent(st: State, s': Dy.Store, cache': Entries)
    requires Coherent(st)
    requires forall page: nat, size: nat, filter: Option<string> :: ListKey(page, size, filter) !in cache'
    requires forall q :: DetailKey(q) in cache' ==>
      Lookup(cache', DetailKey(q)) == Lookup(st.cache, DetailKey(q)) && SameDetail(st.store, s', q)
    ensures Coherent(State(s', cache'))
  {
    hide ListKey, DetailKey, MayAnswer, SameDetail;
    forall q | DetailKey(q) in cache' ensures MayAnswer(s', GetPost(q), Ok(cache'[DetailKey(q)].value)) {
      assert Lookup(cache', DetailKey(q)) == Lookup(st.cache, DetailKey(q));
      DetailFrame(st.store, s', q, Ok(cache'[DetailKey(q)].value));
    }
  }

  lemma CreatePostCoherent(st: State, author: string, title: string, body: string, postType: string, now: int)
    requires Coherent(st) && Interleaving.Valid(st.store)
    ensures Coherent(State(Dy.CreatePost(st.store, author, title, body, postType, now).0,
        InvalidatePosts(st.cache, NO_FAULTS)))
  {
    var s' := Dy.CreatePost(st.store, author, title, body, postType, now).0;
    var cache' := InvalidatePosts(st.cache, NO_FAULTS);
    assert Interleaving.RecordsOk(st.store);
    hide ListKey, DetailKey, InvalidatePosts, Interleaving.Valid;
    forall page: nat, size: nat, filter: Option<string> ensures ListKey(page, size, filter) !in cache' {
      ListEntriesGone(st.cache, page, size, filter);
    }
    forall q | DetailKey(q) in cache'
      ensures Lookup(cache', DetailKey(q)) == Lookup(st.cache, DetailKey(q)) && SameDetail(st.store, s', q)
    {
      DetailEntryKept(st.cache, q);
      assert q in st.store.posts;
    }
    ListClearedCoherent(st, s', cache');
  }

  lemma DeletePostCoherent(st: State, p: int)
    requires Coherent(st)
    ensures Coherent(State(Dy.WithoutPost(st.store, p),
        InvalidatePost(InvalidatePosts(st.cache, NO_FAULTS), p, NO_FAULTS)))
  {
    var s' := Dy.WithoutPost(st.store, p);
    var cleared := InvalidatePosts(st.cache, NO_FAULTS);
    var cache' := InvalidatePost(cleared, p, NO_FAULTS);
    hide ListKey, DetailKey, InvalidatePosts, InvalidatePost, MayAnswer;
    forall page: nat, size: nat, filter: Option<string> ensures ListKey(page, size, filter) !in cache' {
      ListEntriesGone(st.cache, page, size, filter);
      ListEntryKept(cleared, p, page, size, filter);
    }
    forall q | DetailKey(q) in cache'
      ensures Lookup(cache', DetailKey(q)) == Lookup(st.cache, DetailKey(q)) && SameDetail(st.store, s', q)
    {
      DetailEntryKept(st.cache, q);
      OnlyOwnDetailGone(cleared, p, q);
    }
    ListClearedCoherent(st, s', cache');
  }

  lemma ReadCoherent(st: State, req: Request, now: int, ttl: int, content: Content)
    requires Coherent(st) && req.Proper() && req.IsRead() && !req.AsksForAll() && MayAnswer(st.store, req, Ok(content))
    ensures Coherent(st.(cache := Write(st.cache, KeyOf(req), content, now, ttl, false)))
  {
    var cache' := Write(st.cache, KeyOf(req), content, now, ttl, false);
    hide ListKey, DetailKey, PageOk, MayAnswer;
    forall page: nat, size: nat, filter: Option<string> |
      page >= 1 && size >= 1 && filter != Some("all") && ListKey(page, size, filter) in cache'
      ensures PageOk(st.store, cache'[ListKey(page, size, filter)].value, page, size, filter)
    {
      if ListKey(page, size, filter) == KeyOf(req) {
        SameKeySameAnswer(st.store, ListPosts(page, size, filter), req, Ok(content));
        PageIsOk(st.store, page, size, filter, content);
      }
    }
    forall q | DetailKey(q) in cache' ensures MayAnswer(st.store, GetPost(q), Ok(cache'[DetailKey(q)].value)) {
      if DetailKey(q) == KeyOf(req) {
        SameKeySameAnswer(st.store, GetPost(q), req, Ok(content));
      }
    }
  }

  lemma PageIsOk(s: Dy.Store, page: nat, size: nat, filter: Option<string>, c: Content)
    requires page >= 1 && size >= 1 && MayAnswer(s, ListPosts(page, size, filter), Ok(c))
    ensures PageOk(s, c, page, size, filter)
  {
    assert ShowsPage(s, page, size, filter, c) && SameButCounters(c, c);
  }

  /** A response that the cache may serve in place of the store's own. */
  ghost predicate Acceptable(s: Dy.Store, req: Request, r: Response)
    requires req.Proper()
  {
    match req
    case ListPosts(page, size, filter) => r.Shown? && PageOk(s, r.content, page, size, filter)
    case GetPost(p) => MayRespond(s, req, r)
    case _ => true
  }

  lemma ReadAcceptable(st: State, req: Request, now: int, ttl: int, direct: Result<Content>)
    requires Coherent(st) && req.Proper() && req.IsRead() && !req.AsksForAll() && MayAnswer(st.store, req, direct)
    ensures Acceptable(st.store, req, Handle(st, req, now, ttl, NO_FAULTS, direct).1)
    ensures Coherent(Handle(st, req, now, ttl, NO_FAULTS, direct).0)
  {
    if req.ListPosts? {
      PageIsOk(st.store, req.page, req.size, req.filter, direct.value);
    }
    if Read(st.cache, KeyOf(req), now, false).None? && direct.Ok? {
      ReadCoherent(st, req, now, ttl, direct.value);
    }
    hide ListKey, DetailKey, MayAnswer, PageOk;
  }

  lemma HandleCoherent(st: State, req: Request, now: int, ttl: int, direct: Result<Content>)
    requires Coherent(st) && Interleaving.Valid(st.store) && req.Proper() && !req.AsksForAll()
    requires req.IsRead() ==> MayAnswer(st.store, req, direct)
    ensures var (st', r) := Handle(st, req, now, ttl, NO_FAULTS, direct);
      Coherent(st') && Interleaving.Valid(st'.store) && Acceptable(st.store, req, r)
  {
    hide Coherent, Interleaving.Valid, MayAnswer;
    var s := st.store;
    match req
    case CreatePost(author, title, body, postType) =>
      CreatePostCoherent(st, author, title, body, postType, now);
      SoloRuns.PostKeepsValid(s, author, title, body, postType, now);
    case DeletePost(p, user) =>
      SoloRuns.DeleteKeepsValid(s, p, user);
      DeletePostCoherent(st, p);
    case CreateComment(p, author, body, parent) =>
      SoloRuns.CommentKeepsValid(s, p, author, body, parent, now);
      if Dy.CreateComment(s, p, author, body, parent, now).1.Ok? {
        OnePostWriteCoherent(st, Dy.CreateComment(s, p, author, body, parent, now).0, p);
      }
    case ThumbPost(p, voter, d) =>
      SoloRuns.ToggleKeepsValid(s, p, voter, d);
      if p in s.posts {
        OnePostWriteCoherent(st, Dy.Toggle(s, p, voter, d).0, p);
      }
    case _ =>
      ReadAcceptable(st, req, now, ttl, direct);
  }

  /** In every run without cache failures, every read is answered acceptably. */
  lemma {:induction false} EveryRunCoherent(events: seq<Event>, ttl: int, k: nat)
    requires k <= |events| && ProperEvents(events) && Told(events, ttl)
    requires forall i :: 0 <= i < |events| ==> events[i].faults == NO_FAULTS
    ensures Coherent(StateAt(events, ttl, k)) && Interleaving.Valid(StateAt(events, ttl, k).store)
    ensures k < |events| ==> Acceptable(StateAt(events, ttl, k).store, events[k].req, ResponseAt(events, ttl, k))
  {
    if k > 0 {
      hide Coherent, Interleaving.Valid, Acceptable, Handle, MayAnswer;
      EveryRunCoherent(events, ttl, k - 1);
      var e := events[k - 1];
      assert ToldAt(events, ttl, k - 1);
      HandleCoherent(StateAt(events, ttl, k - 1), e.req, e.now, ttl, e.direct);
    } else {
      StartCoherent();
    }
    hide Coherent, Interleaving.Valid, Acceptable, Handle, MayAnswer;
    if k < |events| {
      var e := events[k];
      assert ToldAt(events, ttl, k);
      HandleCoherent(StateAt(events, ttl, k), e.req, e.now, ttl, e.direct);
    }
  }

  lemma StartCoherent()
    ensures Coherent(START) && Interleaving.Valid(START.store)
  {
    Interleaving.EmptyIsValid();
  }

  // ---- The type `all` ----

  lemma PageTotal(s: Dy.Store, page: nat, size: nat, filter: Option<string>, c: Content)
    requires page >= 1 && ShowsPage(s, page, size, filter, c)
    ensures c.total == |Dy.SelectedIds(s.posts, filter)|
  {
    var ids, all :| Dy.ListsPosts(s, filter, ids, all) && c.total == |all|;
    ArrangesMembers(ids, Dy.SelectedIds(s.posts, filter), Dy.Times(s.posts));
  }

  /** A store with one post alone. */
  function OnePost(postType: string): Dy.Store {
    Dy.EMPTY.(posts := map[1 := Dy.PostRow("author", "title", "body", postType, 0, 0, 0, 0)], lastId := 1)
  }

  lemma OnePostTotals(postType: string, filter: Option<string>)
    ensures |Dy.SelectedIds(OnePost(postType).posts, filter)| == if Dy.Selects(filter, postType) then 1 else 0
  {
    assert Dy.SelectedIds(OnePost(postType).posts, filter) == if Dy.Selects(filter, postType) then {1} else {};
  }

  /** The two filters have the same pages in every store. */
  ghost predicate SamePages(f: Option<string>, g: Option<string>) {
    forall s, page, size, r :: page >= 1 && size >= 1 ==>
      (MayAnswer(s, ListPosts(page, size, f), r) <==> MayAnswer(s, ListPosts(page, size, g), r))
  }

  /**
   Filters that share a list key have the same answers in every store exactly when both or
   neither are the type `all`.
   */
  lemma SharedKeyExactly(f: Option<string>, g: Option<string>)
    requires ListKey(1, 1, f) == ListKey(1, 1, g)
    ensures SamePages(f, g) <==> (f == Some("all") <==> g == Some("all"))
  {
    ListKeyInjective(1, 1, f, 1, 1, g);
    if f == Some("all") <==> g == Some("all") {
      forall s, page, size, r | page >= 1 && size >= 1
        ensures MayAnswer(s, ListPosts(page, size, f), r) <==> MayAnswer(s, ListPosts(page, size, g), r)
      {
        if f != g {
          SameSelection(s, f, g, page, size, r);
        }
      }
    } else {
      DifferentTotals(f, g, "자유");
    }
  }

  lemma DifferentTotals(f: Option<string>, g: Option<string>, postType: string)
    requires Dy.Selects(f, postType) != Dy.Selects(g, postType)
    ensures !SamePages(f, g)
  {
    var s := OnePost(postType);
    OnePostTotals(postType, f);
    OnePostTotals(postType, g);
    var r := AnswerExists(s, ListPosts(1, 1, f));
    PageTotal(s, 1, 1, f, r.value);
    if MayAnswer(s, ListPosts(1, 1, g), r) {
      PageTotal(s, 1, 1, g, r.value);
    }
    hide MayAnswer;
    assert MayAnswer(s, ListPosts(1, 1, f), r) && !MayAnswer(s, ListPosts(1, 1, g), r);
  }

  /** A list of the type `all` takes the place of the unfiltered list until it expires. That is acceptable exactly
      when every post has that type. */
  lemma AskingForAllHidesPosts(
    st: State, page: nat, size: nat, now: int, later: int, ttl: int, c: Content, direct: Result<Content>)
    requires page >= 1 && size >= 1 && now <= later < now + ttl
    requires Read(st.cache, ListKey(page, size, None), now, false) == None
    requires ShowsPage(st.store, page, size, Some("all"), c)
    ensures var st' := Handle(st, ListPosts(page, size, Some("all")), now, ttl, NO_FAULTS, Ok(c)).0;
      var r := Handle(st', ListPosts(page, size, None), later, ttl, NO_FAULTS, direct).1;
      && r == Shown(c)
      && (Acceptable(st.store, ListPosts(page, size, None), r) <==>
          forall p :: p in st.store.posts ==> st.store.posts[p].postType == "all")
  {
    ListKeyInjective(page, size, Some("all"), page, size, None);
    PageTotal(st.store, page, size, Some("all"), c);
    AllTypedExactly(st.store);
    hide ListKey;
    if PageOk(st.store, c, page, size, None) {
      var shown :| ShowsPage(st.store, page, size, None, shown) && SameButCounters(c, shown);
      PageTotal(st.store, page, size, None, shown);
    }
    if Dy.SelectedIds(st.store.posts, Some("all")) == Dy.SelectedIds(st.store.posts, None) {
      SelectedAlike(st.store, Some("all"), None, page, size, Ok(c));
      PageIsOk(st.store, page, size, None, c);
    }
    hide ShowsPage, PageOk;
  }

  /** Everything is of the type `all` exactly when its selection is no smaller than the whole. */
  lemma AllTypedExactly(s: Dy.Store)
    ensures var typed, whole := Dy.SelectedIds(s.posts, Some("all")), Dy.SelectedIds(s.posts, None);
      && (typed == whole <==> |typed| == |whole|)
      && (typed == whole <==> forall p :: p in s.posts ==> s.posts[p].postType == "all")
  {
    var typed, whole := Dy.SelectedIds(s.posts, Some("all")), Dy.SelectedIds(s.posts, None);
    forall p ensures p in whole <==> p in s.posts {
      assert p in s.posts ==> Dy.Selects(None, s.posts[p].postType);
    }
    if |typed| == |whole| {
      SameSize(typed, whole);
    }
    if forall p :: p in s.posts ==> s.posts[p].postType == "all" {
      forall p ensures p in typed <==> p in s.posts {
        assert p in s.posts ==> Dy.Selects(Some("all"), s.posts[p].postType);
      }
      SameSet(typed, whole);
    }
    if typed == whole {
      forall p | p in s.posts ensures s.posts[p].postType == "all" {
        assert p in whole;
      }
    }
  }
}
