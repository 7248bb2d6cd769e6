/**
 The DynamoDB store of the board, one map per key family, and what each operation
 means when it runs alone. Posts carry vote and comment counters beside the records
 they count.
 */
module DynamoStore {
  import opened Options
  import opened Community
  import opened Arrangements

  datatype PostRow = PostRow(author: string, title: string, body: string, postType: string, created: int,
                             up: int, down: int, comments: int)

  datatype CommentRow = CommentRow(parent: Option<int>, author: string, body: string, created: int)

  datatype PostView = PostView(id: int, row: PostRow)

  datatype CommentView = CommentView(id: int, postId: int, row: CommentRow)

  /** `lastId` is the value of the counter item, 0 before its first use. */
  datatype Store = Store(posts: map<int, PostRow>, comments: map<(int, int), CommentRow>, thumbs: Votes, lastId: int)

  const EMPTY := Store(map[], map[], map[], 0)

  /** A parent id counts as present only when it is truthy. */
  predicate Truthy(parent: Option<int>) {
    parent.Some? && parent.value != 0
  }

  function CommentIds(s: Store, p: int): set<int> {
    set k | k in s.comments && k.0 == p :: k.1
  }

  function CommentTimes(s: Store, p: int): map<int, int> {
    map c | c in CommentIds(s, p) :: s.comments[(p, c)].created
  }

  /** Everything a post's row holds except its counters. */
  function Bare(row: PostRow): PostRow {
    row.(up := 0, down := 0, comments := 0)
  }

  // ---- Reads ----

  function GetPost(s: Store, p: int): Result<PostView> {
    if p in s.posts then Ok(PostView(p, s.posts[p])) else Err(PostNotFound)
  }

  /** The comments of a post, oldest first. */
  ghost function GetComments(s: Store, p: int): seq<CommentView> {
    var ids := ByTime(CommentIds(s, p), CommentTimes(s, p));
    seq(|ids|, i requires 0 <= i < |ids| => assert ids[i] in ids; CommentView(ids[i], p, s.comments[(p, ids[i])]))
  }

  /** A list of all comments of a post, each once, in any order. */
  ghost predicate ListsComments(s: Store, p: int, all: seq<CommentView>) {
    && (forall i, j :: 0 <= i < j < |all| ==> all[i].id != all[j].id)
    && (forall v :: v in all <==> v.postId == p && (p, v.id) in s.comments && v.row == s.comments[(p, v.id)])
  }

  /** A filter is applied only when it is truthy. */
  predicate Selects(filter: Option<string>, postType: string) {
    filter == None || filter == Some("") || filter == Some(postType)
  }

  function Times(posts: map<int, PostRow>): map<int, int> {
    map p | p in posts :: posts[p].created
  }

  function SelectedIds(posts: map<int, PostRow>, filter: Option<string>): set<int> {
    set p | p in posts && Selects(filter, posts[p].postType)
  }

  /** The selected posts, newest first. */
  ghost function Newest(s: Store, filter: Option<string>): seq<PostView> {
    var ids := Reverse(ByTime(SelectedIds(s.posts, filter), Times(s.posts)));
    seq(|ids|, i requires 0 <= i < |ids| =>
      assert ids[i] in ByTime(SelectedIds(s.posts, filter), Times(s.posts)); PostView(ids[i], s.posts[ids[i]]))
  }

  ghost function ListPosts(s: Store, page: nat, size: nat, filter: Option<string>): (seq<PostView>, nat)
    requires page >= 1 && size >= 1
  {
    var all := Newest(s, filter);
    (Slice(all, Offset(page, size), size), |all|)
  }

  ghost predicate PostsAt(s: Store, ids: seq<int>, all: seq<PostView>) {
    |all| == |ids| && forall i :: 0 <= i < |all| ==> ids[i] in s.posts && all[i] == PostView(ids[i], s.posts[ids[i]])
  }

  /** The posts a filter selects, newest first, where `ids` is any arrangement of them by time. */
  ghost predicate ListsPosts(s: Store, filter: Option<string>, ids: seq<int>, all: seq<PostView>) {
    && Arranges(ids, SelectedIds(s.posts, filter), Times(s.posts))
    && PostsAt(s, Reverse(ids), all)
  }

  /** A page and total that a sort by time alone may give. */
  ghost predicate PageOf(
    s: Store, page: nat, size: nat, filter: Option<string>, posts: seq<PostView>, total: nat)
    requires page >= 1
  {
    exists ids, all ::
      ListsPosts(s, filter, ids, all) && posts == Slice(all, Offset(page, size), size) && total == |all|
  }

  lemma ItemsNewest(s: Store, filter: Option<string>, ids: seq<int>, items: seq<PostView>)
    requires ListsPosts(s, filter, ids, items) && DistinctTimes(Times(s.posts))
    ensures items == Newest(s, filter)
  {
    SortIsByTime(ids, SelectedIds(s.posts, filter), Times(s.posts));
  }

  ghost predicate OldestFirst(comments: seq<CommentView>) {
    forall i, j :: 0 <= i < j < |comments| ==> comments[i].row.created <= comments[j].row.created
  }

  /** `ids` are the ids of the comments listed in `y`. */
  ghost predicate ShowsComments(s: Store, p: int, ids: seq<int>, y: seq<CommentView>) {
    |ids| == |y| && forall i :: 0 <= i < |y| ==>
      (p, ids[i]) in s.comments && y[i] == CommentView(ids[i], p, s.comments[(p, ids[i])])
  }

  /** A list of all comments, oldest first, arranges their ids by time. */
  lemma ListedIds(s: Store, p: int, y: seq<CommentView>, ids: seq<int>)
    requires ListsComments(s, p, y) && OldestFirst(y)
    requires |ids| == |y| && forall i :: 0 <= i < |y| ==> ids[i] == y[i].id
    ensures Arranges(ids, CommentIds(s, p), CommentTimes(s, p)) && ShowsComments(s, p, ids, y)
  {
    var b, bt := CommentIds(s, p), CommentTimes(s, p);
    forall i | 0 <= i < |y|
      ensures (p, ids[i]) in s.comments && y[i] == CommentView(ids[i], p, s.comments[(p, ids[i])])
      ensures ids[i] in b && TimeOf(bt, ids[i]) == y[i].row.created
    {
      assert y[i] in y && (p, ids[i]) in s.comments;
    }
    forall e | e in b ensures e in ids {
      var v := CommentView(e, p, s.comments[(p, e)]);
      assert v in y;
      var i :| 0 <= i < |y| && y[i] == v;
      assert ids[i] == e;
    }
    OneEach(ids, b);
  }

  /** Conversely an arrangement of the ids lists all comments, oldest first. */
  lemma ArrangedComments(s: Store, p: int, ids: seq<int>, y: seq<CommentView>)
    requires Arranges(ids, CommentIds(s, p), CommentTimes(s, p)) && ShowsComments(s, p, ids, y)
    ensures ListsComments(s, p, y) && OldestFirst(y)
  {
    ArrangesMembers(ids, CommentIds(s, p), CommentTimes(s, p));
    NoRepeats(ids, CommentIds(s, p));
    forall v: CommentView | v.postId == p && (p, v.id) in s.comments && v.row == s.comments[(p, v.id)]
      ensures v in y
    {
      assert v.id in CommentIds(s, p);
      var j :| 0 <= j < |ids| && ids[j] == v.id;
      assert y[j] == v;
    }
    forall i, j | 0 <= i < j < |y| ensures y[i].row.created <= y[j].row.created {
      assert ids[i] in ids && ids[j] in ids && TimeOf(CommentTimes(s, p), ids[i]) <= TimeOf(CommentTimes(s, p), ids[j]);
    }
  }

  // ---- Writes, each run alone ----

  function CreatePost(s: Store, author: string, title: string, body: string, postType: string, now: int)
    : (Store, PostView)
  {
    var id := s.lastId + 1;
    var row := PostRow(author, title, body, postType, now, 0, 0, 0);
    (s.(posts := s.posts[id := row], lastId := id), PostView(id, row))
  }

  /** Deleting a post takes its comments and its thumbs with it, and nothing else. */
  function WithoutPost(s: Store, p: int): Store {
    s.(posts := map q | q in s.posts && q != p :: s.posts[q],
       comments := map k | k in s.comments && k.0 != p :: s.comments[k],
       thumbs := map k | k in s.thumbs && k.0 != p :: s.thumbs[k])
  }

  function DeletePost(s: Store, p: int, user: string): (Store, Result<()>) {
    if p !in s.posts then (s, Err(PostNotFound))
    else if s.posts[p].author != user then (s, Err(NotOwner))
    else (WithoutPost(s, p), Ok(()))
  }

  function ParentError(s: Store, p: int, parent: Option<int>): Option<Error> {
    if parent == None then None
    else if (p, parent.value) !in s.comments then Some(CommentNotFound)
    else if Truthy(s.comments[(p, parent.value)].parent) then Some(NestingTooDeep)
    else None
  }

  function CreateComment(s: Store, p: int, author: string, body: string, parent: Option<int>, now: int)
    : (Store, Result<CommentView>)
  {
    if p !in s.posts then (s, Err(PostNotFound))
    else if ParentError(s, p, parent).Some? then (s, Err(ParentError(s, p, parent).value))
    else
      var id := s.lastId + 1;
      var row := CommentRow(parent, author, body, now);
      (s.(comments := s.comments[(p, id) := row],
          posts := s.posts[p := s.posts[p].(comments := s.posts[p].comments + 1)],
          lastId := id),
       Ok(CommentView(id, p, row)))
  }

  /** One vote changes and the post's counters move by that change. */
  function Toggle(s: Store, p: int, voter: string, d: Direction): (Store, Result<Counts>) {
    if p !in s.posts then (s, Err(PostNotFound))
    else
      var before := Lookup(s.thumbs, (p, voter));
      var after := Flip(before, d);
      var row := s.posts[p].(up := s.posts[p].up + Delta(before, after, 1),
        down := s.posts[p].down + Delta(before, after, -1));
      (s.(thumbs := SetVote(s.thumbs, (p, voter), after), posts := s.posts[p := row]), Ok(Counts(row.up, row.down)))
  }
}
