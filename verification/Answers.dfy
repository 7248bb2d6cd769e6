/** What every write answers and leaves in the store, told from the records alone. */
module Answers {
  import opened Options
  import opened Community
  import opened Arrangements
  import opened Nesting
  import opened RouterSpec
  import Dy = DynamoStore
  import Interleaving
  import SoloRuns

  /** Every record of another post is as it was. */
  ghost predicate OthersKept(s: Dy.Store, s': Dy.Store, p: int) {
    && (forall q :: q != p ==> Lookup(s'.posts, q) == Lookup(s.posts, q))
    && (forall k: (int, int) :: k.0 != p ==> Lookup(s'.comments, k) == Lookup(s.comments, k))
    && (forall k: VoteKey :: k.0 != p ==> Lookup(s'.thumbs, k) == Lookup(s.thumbs, k))
  }

  /** The post has the author, texts, type and time it had. */
  predicate SameTexts(a: Dy.PostRow, b: Dy.PostRow) {
    (a.author, a.title, a.body, a.postType, a.created) == (b.author, b.title, b.body, b.postType, b.created)
  }

  /** The counts answered are the stored ones and those of the vote records. The voter's vote is the one sent, or
      withdrawn when it was that already. */
  ghost predicate VoteAnswered(s: Dy.Store, s': Dy.Store, p: int, voter: string, d: Direction, r: Response) {
    if p !in s.posts then r == Failed(PostNotFound) && s' == s
    else
      && r.Voted? && p in s'.posts && OthersKept(s, s', p)
      && r.counts.up == s'.posts[p].up == Tally(s'.thumbs, p, 1)
      && r.counts.down == s'.posts[p].down == Tally(s'.thumbs, p, -1)
      && SameTexts(s'.posts[p], s.posts[p]) && s'.posts[p].comments == s.posts[p].comments
      && s'.comments == s.comments
      && ((p, voter) in s'.thumbs <==> !((p, voter) in s.thumbs && s.thumbs[(p, voter)] == d))
      && ((p, voter) in s'.thumbs ==> s'.thumbs[(p, voter)] == d)
      && forall k: VoteKey :: k != (p, voter) ==> Lookup(s'.thumbs, k) == Lookup(s.thumbs, k)
  }

  /** The post answered is the row stored under a new id, with what was sent and nothing counted. */
  ghost predicate PostAnswered(
    s: Dy.Store, s': Dy.Store, author: string, title: string, body: string, postType: string, now: int, r: Response)
  {
    && r.Created?
    && var (p, row) := (r.post.id, r.post.row);
    && p !in s.posts && p >= 1 && p in s'.posts && s'.posts[p] == row && OthersKept(s, s', p)
    && row.author == author && row.title == title && row.body == body && row.postType == postType
    && row.created == now && row.up == 0 && row.down == 0 && row.comments == 0
    && s'.comments == s.comments && s'.thumbs == s.thumbs
  }

  /** The comment answered is the record stored under a new id of the post, with what was sent, and is counted. */
  ghost predicate CommentAdded(
    s: Dy.Store, s': Dy.Store, p: int, author: string, body: string, parent: Option<int>, now: int, r: Response)
    requires p in s.posts
  {
    && r.Commented?
    && var (c, row) := (r.comment.id, r.comment.row);
    && r.comment.postId == p && c >= 1 && c !in s.posts && (forall k :: k in s.comments ==> k.1 != c)
    && s'.comments == s.comments[(p, c) := row] && s'.thumbs == s.thumbs && OthersKept(s, s', p)
    && row.author == author && row.body == body && row.parent == parent && row.created == now
    && p in s'.posts && SameTexts(s'.posts[p], s.posts[p])
    && s'.posts[p].comments == s.posts[p].comments + 1 == |Dy.CommentIds(s', p)|
    && (s'.posts[p].up, s'.posts[p].down) == (s.posts[p].up, s.posts[p].down)
  }

  /** A comment is added, or refused with the error of the check that failed first. */
  ghost predicate CommentAnswered(
    s: Dy.Store, s': Dy.Store, p: int, author: string, body: string, parent: Option<int>, now: int, r: Response)
  {
    if p !in s.posts then r == Failed(PostNotFound) && s' == s
    else if parent.Some? && (p, parent.value) !in s.comments then r == Failed(CommentNotFound) && s' == s
    else if parent.Some? && s.comments[(p, parent.value)].parent.Some? then r == Failed(NestingTooDeep) && s' == s
    else CommentAdded(s, s', p, author, body, parent, now, r)
  }

  /** Only the author removes a post, and then with everything on it. */
  ghost predicate DeleteAnswered(s: Dy.Store, s': Dy.Store, p: int, user: string, r: Response) {
    if p !in s.posts then r == Failed(PostNotFound) && s' == s
    else if s.posts[p].author != user then r == Failed(NotOwner) && s' == s
    else
      && r == Gone && p !in s'.posts && OthersKept(s, s', p)
      && (forall k :: k in s'.comments ==> k.0 != p)
      && (forall k :: k in s'.thumbs ==> k.0 != p)
  }

  ghost predicate WriteAnswered(s: Dy.Store, s': Dy.Store, req: Request, now: int, r: Response) {
    match req
    case CreatePost(author, title, body, postType) => PostAnswered(s, s', author, title, body, postType, now, r)
    case DeletePost(p, user) => DeleteAnswered(s, s', p, user, r)
    case CreateComment(p, author, body, parent) => CommentAnswered(s, s', p, author, body, parent, now, r)
    case ThumbPost(p, voter, d) => VoteAnswered(s, s', p, voter, d, r)
    case _ => s' == s
  }

  lemma VoteMeans(s: Dy.Store, p: int, voter: string, d: Direction)
    requires Interleaving.Valid(s)
    ensures var (s', r) := Dy.Toggle(s, p, voter, d);
      VoteAnswered(s, s', p, voter, d, if r.Ok? then Voted(r.value) else Failed(r.error))
  {
    if p in s.posts {
      VoteCounted(s, p, voter, d);
    }
    hide Interleaving.Valid, Tally;
  }

  lemma VoteCounted(s: Dy.Store, p: int, voter: string, d: Direction)
    requires Interleaving.Valid(s) && p in s.posts
    ensures var s' := Dy.Toggle(s, p, voter, d).0;
      p in s'.posts && s'.posts[p].up == Tally(s'.thumbs, p, 1) && s'.posts[p].down == Tally(s'.thumbs, p, -1)
  {
    SoloRuns.ToggleKeepsValid(s, p, voter, d);
    Interleaving.ValidMeans(Dy.Toggle(s, p, voter, d).0);
    hide Interleaving.Valid, Tally, Dy.CommentIds;
  }

  lemma PostMeans(s: Dy.Store, author: string, title: string, body: string, postType: string, now: int)
    requires Interleaving.Valid(s)
    ensures var (s', post) := Dy.CreatePost(s, author, title, body, postType, now);
      PostAnswered(s, s', author, title, body, postType, now, Created(post))
  {
    assert Interleaving.RecordsOk(s);
    hide Interleaving.Valid;
  }

  lemma CommentMeans(s: Dy.Store, p: int, author: string, body: string, parent: Option<int>, now: int)
    requires Interleaving.Valid(s)
    ensures var (s', r) := Dy.CreateComment(s, p, author, body, parent, now);
      CommentAnswered(s, s', p, author, body, parent, now, if r.Ok? then Commented(r.value) else Failed(r.error))
  {
    DepthTest(s, p, parent);
    if p in s.posts && Dy.ParentError(s, p, parent) == None {
      AcceptedComment(s, p, author, body, parent, now);
      hide CommentAdded;
    }
    hide Interleaving.Valid, Dy.ParentError;
  }

  lemma AcceptedComment(s: Dy.Store, p: int, author: string, body: string, parent: Option<int>, now: int)
    requires Interleaving.Valid(s) && p in s.posts && Dy.ParentError(s, p, parent) == None
    ensures var (s', r) := Dy.CreateComment(s, p, author, body, parent, now);
      r.Ok? && CommentAdded(s, s', p, author, body, parent, now, Commented(r.value))
  {
    NewComment(s, p, author, body, parent, now);
    hide Interleaving.Valid, Dy.CommentIds, Dy.ParentError;
  }

  lemma NewComment(s: Dy.Store, p: int, author: string, body: string, parent: Option<int>, now: int)
    requires Interleaving.Valid(s) && p in s.posts && Dy.ParentError(s, p, parent) == None
    ensures var (s', r) := Dy.CreateComment(s, p, author, body, parent, now);
      && r.Ok? && r.value.postId == p && r.value.id >= 1 && r.value.id !in s.posts
      && (forall k :: k in s.comments ==> k.1 != r.value.id)
      && s'.posts[p].comments == |Dy.CommentIds(s', p)|
  {
    SoloRuns.CommentKeepsValid(s, p, author, body, parent, now);
    Interleaving.ValidMeans(Dy.CreateComment(s, p, author, body, parent, now).0);
    assert Interleaving.RecordsOk(s);
    hide Interleaving.Valid, Dy.CommentIds, Dy.ParentError, Tally;
  }

  /** The parent test refuses exactly a missing comment and one with a parent of its own. */
  lemma DepthTest(s: Dy.Store, p: int, parent: Option<int>)
    requires Interleaving.Valid(s)
    ensures Dy.ParentError(s, p, parent)
         == if parent == None then None
            else if (p, parent.value) !in s.comments then Some(CommentNotFound)
            else if s.comments[(p, parent.value)].parent.Some? then Some(NestingTooDeep)
            else None
  {
    if parent.Some? && (p, parent.value) in s.comments {
      assert Interleaving.ParentOk(s, [], (p, parent.value));
    }
  }

  lemma DeleteMeans(s: Dy.Store, p: int, user: string)
    ensures var (s', r) := Dy.DeletePost(s, p, user);
      DeleteAnswered(s, s', p, user, if r.Ok? then Gone else Failed(r.error))
  {
  }

  /** In every run, whatever cache calls fail, every write is answered so. */
  lemma {:induction false} EveryWriteAnswered(events: seq<Event>, ttl: int, k: nat)
    requires k < |events|
    ensures Interleaving.Valid(StateAt(events, ttl, k).store)
    ensures var before, after := StateAt(events, ttl, k).store, StateAt(events, ttl, k + 1).store;
      WriteAnswered(before, after, events[k].req, events[k].now, ResponseAt(events, ttl, k))
  {
    hide WriteAnswered, Interleaving.Valid;
    StoreValid(events, ttl, k);
    HandleMeans(StateAt(events, ttl, k), events[k].req, events[k].now, ttl, events[k].faults, events[k].direct);
    hide Handle;
  }

  lemma HandleMeans(st: State, req: Request, now: int, ttl: int, f: Faults, direct: Result<Content>)
    requires Interleaving.Valid(st.store)
    ensures var (st', r) := Handle(st, req, now, ttl, f, direct);
      Interleaving.Valid(st'.store) && WriteAnswered(st.store, st'.store, req, now, r)
  {
    hide Interleaving.Valid, VoteAnswered, PostAnswered, CommentAnswered, DeleteAnswered;
    match req
    case CreatePost(author, title, body, postType) =>
      PostMeans(st.store, author, title, body, postType, now);
      SoloRuns.PostKeepsValid(st.store, author, title, body, postType, now);
    case DeletePost(p, user) =>
      DeleteMeans(st.store, p, user);
      RefusedDelete(st.store, p, user);
      SoloRuns.DeleteKeepsValid(st.store, p, user);
    case CreateComment(p, author, body, parent) =>
      CommentMeans(st.store, p, author, body, parent, now);
      RefusedComment(st.store, p, author, body, parent, now);
      SoloRuns.CommentKeepsValid(st.store, p, author, body, parent, now);
    case ThumbPost(p, voter, d) =>
      VoteMeans(st.store, p, voter, d);
      SoloRuns.ToggleKeepsValid(st.store, p, voter, d);
    case _ =>
  }

  lemma RefusedDelete(s: Dy.Store, p: int, user: string)
    ensures Dy.DeletePost(s, p, user).1.Err? ==> Dy.DeletePost(s, p, user).0 == s
  {
  }

  lemma RefusedComment(s: Dy.Store, p: int, author: string, body: string, parent: Option<int>, now: int)
    ensures var (s', r) := Dy.CreateComment(s, p, author, body, parent, now); r.Err? ==> s' == s
  {
  }

  lemma {:induction false} StoreValid(events: seq<Event>, ttl: int, k: nat)
    requires k <= |events|
    ensures Interleaving.Valid(StateAt(events, ttl, k).store)
  {
    if k == 0 {
      Interleaving.EmptyIsValid();
    } else {
      var e := events[k - 1];
      StoreValid(events, ttl, k - 1);
      hide Interleaving.Valid;
      HandleMeans(StateAt(events, ttl, k - 1), e.req, e.now, ttl, e.faults, e.direct);
      hide Handle, WriteAnswered;
    }
  }

  // ---- Voting twice ----

  /** A second vote the same way takes back the first: a vote of that direction is there again, and no vote is none
      again; a vote the other way has been replaced and is then gone. */
  lemma VoteTwice(s: Dy.Store, p: int, voter: string, d: Direction)
    requires p in s.posts
    ensures var once := Dy.Toggle(s, p, voter, d).0;
      var twice := Dy.Toggle(once, p, voter, d).0;
      var (before, after) := (Lookup(s.thumbs, (p, voter)), Lookup(twice.thumbs, (p, voter)));
      && (before == Some(d) ==> Lookup(once.thumbs, (p, voter)) == None)
      && (before != Some(d) ==> Lookup(once.thumbs, (p, voter)) == Some(d) && after == None)
      && (before == None || before == Some(d) ==>
          twice.thumbs == s.thumbs && (twice.posts[p].up, twice.posts[p].down) == (s.posts[p].up, s.posts[p].down))
  {
    var twice := Dy.Toggle(Dy.Toggle(s, p, voter, d).0, p, voter, d).0;
    if Lookup(s.thumbs, (p, voter)) == None || Lookup(s.thumbs, (p, voter)) == Some(d) {
      SameMap(twice.thumbs, s.thumbs);
    }
  }

  // ---- What a detail shows ----

  /** The comment is shown as it is stored. */
  predicate Stored(s: Dy.Store, p: int, v: Dy.CommentView) {
    v.postId == p && (p, v.id) in s.comments && v.row == s.comments[(p, v.id)]
  }

  /** The replies of a thread are all stored replies to its comment, each once, oldest first. */
  ghost predicate RepliesMean(s: Dy.Store, p: int, t: Thread) {
    && DistinctIds(t.replies) && Dy.OldestFirst(t.replies)
    && forall v :: v in t.replies <==> Stored(s, p, v) && v.row.parent == Some(t.comment.id)
  }

  /** A detail is the stored post with a thread for each of its comments that is no reply, each once, oldest first. */
  ghost predicate DetailMeans(s: Dy.Store, p: int, c: Content) {
    && c.PostDetail? && p in s.posts && c.post == Dy.PostView(p, s.posts[p])
    && DistinctIds(Heads(c.comments)) && Dy.OldestFirst(Heads(c.comments))
    && (forall v :: v in Heads(c.comments) <==> Stored(s, p, v) && v.row.parent == None)
    && forall i :: 0 <= i < |c.comments| ==> RepliesMean(s, p, c.comments[i])
  }

  /** A part that keeps the order of a list, oldest first and each comment once, is such a list itself. */
  lemma PartInOrder(part: seq<Dy.CommentView>, all: seq<Dy.CommentView>)
    requires DistinctIds(all) && Dy.OldestFirst(all) && KeepsOrder(part, all) && forall v :: v in part ==> v in all
    ensures DistinctIds(part) && Dy.OldestFirst(part)
  {
    forall i, j | 0 <= i < j < |part|
      ensures part[i].id != part[j].id && part[i].row.created <= part[j].row.created
    {
      assert part[i] in part && part[j] in part;
      var a :| 0 <= a < |all| && all[a] == part[i];
      var b :| 0 <= b < |all| && all[b] == part[j];
    }
  }

  lemma HeadsMean(s: Dy.Store, p: int, all: seq<Dy.CommentView>)
    requires Interleaving.Valid(s) && Dy.ListsComments(s, p, all) && Dy.OldestFirst(all)
    ensures var heads := Heads(Threads(all));
      && DistinctIds(heads) && Dy.OldestFirst(heads)
      && forall v :: v in heads <==> Stored(s, p, v) && v.row.parent == None
  {
    StoredCommentsNest(s, p, all);
    ThreadsInOrder(all);
    assert forall v :: v in all <==> Stored(s, p, v);
    hide Threads, Heads, KeepsOrder, Interleaving.Valid, DistinctIds, IsNested, Dy.OldestFirst, Dy.ListsComments;
    PartInOrder(Heads(Threads(all)), all);
  }

  lemma ThreadMeans(s: Dy.Store, p: int, all: seq<Dy.CommentView>, i: nat)
    requires Interleaving.Valid(s) && Dy.ListsComments(s, p, all) && Dy.OldestFirst(all) && i < |Threads(all)|
    ensures RepliesMean(s, p, Threads(all)[i])
  {
    StoredCommentsNest(s, p, all);
    ThreadsInOrder(all);
    HeadsMean(s, p, all);
    var t := Threads(all)[i];
    assert Heads(Threads(all))[i] in Heads(Threads(all));
    assert Stored(s, p, t.comment);
    IdsPositive(s);
    assert forall v :: v in all <==> Stored(s, p, v);
    hide Threads, Heads, KeepsOrder, Interleaving.Valid, DistinctIds, IsNested, Dy.OldestFirst, Dy.ListsComments;
    PartInOrder(t.replies, all);
  }

  /** Every detail that a valid store may answer shows this. */
  lemma AnswerMeans(s: Dy.Store, p: int, c: Content)
    requires Interleaving.Valid(s) && MayAnswer(s, GetPost(p), Ok(c))
    ensures DetailMeans(s, p, c)
  {
    var all :| Dy.ListsComments(s, p, all) && Dy.OldestFirst(all)
      && c == PostDetail(Dy.PostView(p, s.posts[p]), Threads(all));
    HeadsMean(s, p, all);
    hide Threads, Heads, Interleaving.Valid, RepliesMean, Stored, DistinctIds, Dy.OldestFirst, Dy.ListsComments;
    forall i | 0 <= i < |c.comments| ensures RepliesMean(s, p, c.comments[i]) {
      ThreadMeans(s, p, all, i);
    }
  }

  lemma IdsPositive(s: Dy.Store)
    requires Interleaving.Valid(s)
    ensures forall k :: k in s.comments ==> k.1 >= 1
  {
  }

  // ---- What a page shows ----

  predicate Matching(row: Dy.PostRow, filter: Option<string>) {
    filter.Some? && filter.value != "" ==> row.postType == filter.value
  }

  function Chosen(s: Dy.Store, filter: Option<string>): set<int> {
    set p | p in s.posts && Matching(s.posts[p], filter)
  }

  function Newer(s: Dy.Store, filter: Option<string>, time: int): set<int> {
    set p | p in Chosen(s, filter) && s.posts[p].created > time
  }

  function NotOlder(s: Dy.Store, filter: Option<string>, time: int): set<int> {
    set p | p in Chosen(s, filter) && s.posts[p].created >= time
  }

  /** A page shows stored posts of the type asked for, each once and newest first, at the places that the page number
      and size give among all of them, and how many there are in all. */
  ghost predicate PageMeans(s: Dy.Store, page: nat, size: nat, filter: Option<string>, c: Content)
    requires page >= 1
  {
    && c.PostPage? && c.page == page && c.size == size && c.total == |Chosen(s, filter)|
    && var first := (page - 1) * size;
    && (if first >= c.total then c.posts == []
        else |c.posts| == if c.total - first <= size then c.total - first else size)
    && (forall i, j :: 0 <= i < j < |c.posts| ==>
          c.posts[i].id != c.posts[j].id && c.posts[i].row.created >= c.posts[j].row.created)
    && forall i :: 0 <= i < |c.posts| ==> Placed(s, filter, c.posts[i], first + i)
  }

  /** The post is stored and chosen, and as many places precede its own as its time allows. */
  predicate Placed(s: Dy.Store, filter: Option<string>, v: Dy.PostView, place: int) {
    && v.id in Chosen(s, filter) && v.row == s.posts[v.id]
    && |Newer(s, filter, v.row.created)| <= place < |NotOlder(s, filter, v.row.created)|
  }

  lemma ChosenSelected(s: Dy.Store, filter: Option<string>)
    ensures Chosen(s, filter) == Dy.SelectedIds(s.posts, filter)
  {
    forall p ensures p in Chosen(s, filter) <==> p in Dy.SelectedIds(s.posts, filter) {
      assert p in s.posts ==> (Dy.Selects(filter, s.posts[p].postType) <==> Matching(s.posts[p], filter));
    }
    SameSet(Chosen(s, filter), Dy.SelectedIds(s.posts, filter));
  }

  lemma PlaceInList(s: Dy.Store, filter: Option<string>, ids: seq<int>, all: seq<Dy.PostView>, place: nat)
    requires Dy.ListsPosts(s, filter, ids, all) && place < |all|
    ensures Placed(s, filter, all[place], place)
  {
    ChosenSelected(s, filter);
    var b, bt := Dy.SelectedIds(s.posts, filter), Dy.Times(s.posts);
    var j, v := |ids| - 1 - place, all[place];
    ArrangesMembers(ids, b, bt);
    assert v.id == ids[j] && ids[j] in ids;
    var time := v.row.created;
    AtLeast(ids, b, bt, j);
    AtMost(ids, b, bt, j, time - 1);
    NewerCount(s, filter, time);
    hide Newer, NotOlder, UpTo, Arranges;
  }

  lemma NewerCount(s: Dy.Store, filter: Option<string>, time: int)
    ensures var b, bt := Dy.SelectedIds(s.posts, filter), Dy.Times(s.posts);
      && |Newer(s, filter, time)| == |b| - |UpTo(b, bt, time)|
      && |NotOlder(s, filter, time)| == |b| - |UpTo(b, bt, time - 1)|
  {
    ChosenSelected(s, filter);
    var b, bt := Dy.SelectedIds(s.posts, filter), Dy.Times(s.posts);
    assert Newer(s, filter, time) == b - UpTo(b, bt, time);
    assert NotOlder(s, filter, time) == b - UpTo(b, bt, time - 1);
    WithoutPart(b, UpTo(b, bt, time));
    WithoutPart(b, UpTo(b, bt, time - 1));
  }

  lemma WithoutPart<T>(whole: set<T>, part: set<T>)
    requires part <= whole
    ensures |whole - part| == |whole| - |part|
  {
    assert whole == (whole - part) + part;
  }

  /** Every page that the store may answer shows this. */
  lemma ListMeans(s: Dy.Store, page: nat, size: nat, filter: Option<string>, c: Content)
    requires page >= 1 && size >= 1 && MayAnswer(s, ListPosts(page, size, filter), Ok(c))
    ensures PageMeans(s, page, size, filter, c)
  {
    var ids, all :| Dy.ListsPosts(s, filter, ids, all)
      && c.posts == Slice(all, Offset(page, size), size) && c.total == |all|;
    ListWhole(s, filter, ids, all);
    ListInOrder(s, filter, ids, all);
    forall i | 0 <= i < |all| ensures Placed(s, filter, all[i], i) {
      PlaceInList(s, filter, ids, all, i);
    }
    hide Slice, Offset, Chosen, Dy.ListsPosts, Placed, PageMeans;
    PageOfList(s, page, size, filter, all, c);
  }

  lemma PageOfList(
    s: Dy.Store, page: nat, size: nat, filter: Option<string>, all: seq<Dy.PostView>, c: Content)
    requires page >= 1 && c.PostPage? && c.page == page && c.size == size
    requires c.posts == Slice(all, Offset(page, size), size) && c.total == |all| == |Chosen(s, filter)|
    requires forall i, j :: 0 <= i < j < |all| ==>
      all[i].id != all[j].id && all[i].row.created >= all[j].row.created
    requires forall i :: 0 <= i < |all| ==> Placed(s, filter, all[i], i)
    ensures PageMeans(s, page, size, filter, c)
  {
    SliceAt(all, Offset(page, size), size);
    assert Offset(page, size) == (page - 1) * size;
    hide Slice, Offset, Chosen, Placed;
  }

  lemma ListWhole(s: Dy.Store, filter: Option<string>, ids: seq<int>, all: seq<Dy.PostView>)
    requires Dy.ListsPosts(s, filter, ids, all)
    ensures |all| == |Chosen(s, filter)|
  {
    ChosenSelected(s, filter);
    ArrangesMembers(ids, Dy.SelectedIds(s.posts, filter), Dy.Times(s.posts));
    assert |all| == |ids|;
    hide *;
  }

  lemma ListInOrder(s: Dy.Store, filter: Option<string>, ids: seq<int>, all: seq<Dy.PostView>)
    requires Dy.ListsPosts(s, filter, ids, all)
    ensures forall i, j :: 0 <= i < j < |all| ==>
      all[i].id != all[j].id && all[i].row.created >= all[j].row.created
  {
    var b, bt := Dy.SelectedIds(s.posts, filter), Dy.Times(s.posts);
    NoRepeats(ids, b);
    forall i, j | 0 <= i < j < |all| ensures all[i].id != all[j].id && all[i].row.created >= all[j].row.created {
      var x, y := |ids| - 1 - i, |ids| - 1 - j;
      assert all[i].id == ids[x] && all[j].id == ids[y] && y < x;
      assert TimeOf(bt, ids[y]) <= TimeOf(bt, ids[x]);
    }
  }
}
