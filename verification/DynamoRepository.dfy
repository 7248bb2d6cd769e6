/** The DynamoDB adapter: each operation as the sequence of table calls it awaits. */
module DynamoRepository {
  import opened Options
  import opened Community
  import opened Arrangements
  import opened DynamoStore
  import opened DynamoLayout

  class Repository {
    var table: Table
    /** The records the table holds. */
    ghost var store: Store

    ghost predicate Valid()
      reads this
    {
      store.lastId >= 0 && Represents(table, store)
    }

    constructor ()
      ensures Valid() && store == EMPTY
    {
      table := map[];
      store := EMPTY;
    }

    /** Reads one item under its text key. */
    method GetItem(k: Key) returns (item: Option<Item>)
      requires Valid()
      ensures item == Find(store, k)
    {
      item := Lookup(table, KeyText(k));
    }

    method PutItem(k: Key, item: Item, ghost after: Store)
      requires Valid() && SameBut(store, after, k) && Find(after, k) == Some(item) && after.lastId >= 0
      modifies this
      ensures Valid() && store == after
    {
      PutRepresents(table, store, k, item, after);
      table := table[KeyText(k) := item];
      store := after;
    }

    method DeleteItem(k: Key, ghost after: Store)
      requires Valid() && SameBut(store, after, k) && Find(after, k) == None && after.lastId >= 0
      modifies this
      ensures Valid() && store == after
    {
      RemoveRepresents(table, store, k, after);
      table := table - {KeyText(k)};
      store := after;
    }

    /** Adds to a post's three counters in one atomic update. */
    method UpdateCounters(p: int, up: int, down: int, comments: int) returns (row: PostRow)
      requires Valid() && p in store.posts
      modifies this
      ensures Valid()
      ensures row == old(store.posts[p]).(up := old(store.posts[p].up) + up, down := old(store.posts[p].down) + down,
                                          comments := old(store.posts[p].comments) + comments)
      ensures store == old(store).(posts := old(store.posts)[p := row])
    {
      hide Represents;
      var item := GetItem(PostKey(p));
      row := item.value.post.row;
      row := row.(up := row.up + up, down := row.down + down, comments := row.comments + comments);
      PutItem(PostKey(p), PostItem(PostView(p, row)), store.(posts := store.posts[p := row]));
    }

    method NextId() returns (id: int)
      requires Valid()
      modifies this
      ensures Valid() && id == old(store).lastId + 1 && store == old(store).(lastId := id)
    {
      var item := GetItem(CounterKey);
      id := (if item.Some? then item.value.n else 0) + 1;
      PutItem(CounterKey, CounterItem(id), store.(lastId := id));
    }

    method GetPost(p: int) returns (r: Result<PostView>)
      requires Valid()
      ensures r == DynamoStore.GetPost(store, p)
    {
      var item := GetItem(PostKey(p));
      r := if item.None? then Err(PostNotFound) else Ok(item.value.post);
    }

    /** The ids of a post's comments, by query and sort. */
    method CommentIdsOldestFirst(p: int) returns (ids: seq<int>)
      requires Valid()
      ensures multiset(ids) == multiset(CommentIds(store, p)) && SortedByTime(ids, CommentTimes(store, p))
      ensures DistinctTimes(CommentTimes(store, p)) ==> ids == ByTime(CommentIds(store, p), CommentTimes(store, p))
    {
      hide Represents;
      CommentQueryItems(table, store, p);
      var found := set x | x in table && InCommentQuery(p, x) :: table[x].comment.id;
      var times := map c | c in found :: table[KeyText(CommentKey(p, c))].comment.row.created;
      assert times == CommentTimes(store, p);
      ids := Members(found);
      ids := SortByTime(ids, times);
      if DistinctTimes(times) {
        SortIsByTime(ids, found, times);
      }
    }

    /** The comments of a post ordered by time; in creation order when no two times are equal. */
    method GetPostComments(p: int) returns (comments: seq<CommentView>)
      requires Valid()
      ensures ListsComments(store, p, comments) && OldestFirst(comments)
      ensures DistinctTimes(CommentTimes(store, p)) ==> comments == GetComments(store, p)
    {
      hide Represents;
      var ids := CommentIdsOldestFirst(p);
      IdsStored(store, p, ids);
      comments := [];
      for i := 0 to |ids|
        invariant |comments| == i
        invariant forall j :: 0 <= j < i ==> comments[j] == CommentView(ids[j], p, store.comments[(p, ids[j])])
      {
        var item := GetItem(CommentKey(p, ids[i]));
        comments := comments + [item.value.comment];
      }
      ArrangedComments(store, p, ids, comments);
      ViewsListed(store, p, ids, comments);
    }

    method CreatePost(author: string, title: string, body: string, postType: string, now: int) returns (post: PostView)
      requires Valid()
      modifies this
      ensures Valid() && (store, post) == DynamoStore.CreatePost(old(store), author, title, body, postType, now)
    {
      var id := NextId();
      var row := PostRow(author, title, body, postType, now, 0, 0, 0);
      post := PostView(id, row);
      PutItem(PostKey(id), PostItem(post), store.(posts := store.posts[id := row]));
    }

    method CreateComment(p: int, author: string, body: string, parent: Option<int>, now: int)
      returns (r: Result<CommentView>)
      requires Valid()
      modifies this
      ensures Valid() && (store, r) == DynamoStore.CreateComment(old(store), p, author, body, parent, now)
    {
      hide Represents;
      var post := GetPost(p);
      if post.Err? {
        return Err(post.error);
      }
      if parent.Some? {
        var item := GetItem(CommentKey(p, parent.value));
        if item.None? {
          return Err(CommentNotFound);
        }
        if Truthy(item.value.comment.row.parent) {
          return Err(NestingTooDeep);
        }
      }
      var id := NextId();
      var row := CommentRow(parent, author, body, now);
      PutItem(CommentKey(p, id), CommentItem(CommentView(id, p, row)),
          store.(comments := store.comments[(p, id) := row]));
      var _ := UpdateCounters(p, 0, 0, 1);
      r := Ok(CommentView(id, p, row));
    }

    method ToggleThumb(p: int, voter: string, d: Direction) returns (r: Result<Counts>)
      requires Valid()
      modifies this
      ensures Valid() && (store, r) == Toggle(old(store), p, voter, d)
    {
      hide Represents;
      var post := GetItem(PostKey(p));
      if post.None? {
        return Err(PostNotFound);
      }
      var k := ThumbKey(p, voter);
      var existing := GetItem(k);
      var up, down;
      if existing.Some? && existing.value.d == d {
        DeleteItem(k, store.(thumbs := SetVote(store.thumbs, (p, voter), None)));
        up, down := if d == 1 then -1 else 0, if d == -1 then -1 else 0;
      } else if existing.Some? {
        PutItem(k, ThumbItem(voter, d), store.(thumbs := SetVote(store.thumbs, (p, voter), Some(d))));
        up, down := if d == 1 then 1 else -1, if d == -1 then 1 else -1;
      } else {
        PutItem(k, ThumbItem(voter, d), store.(thumbs := SetVote(store.thumbs, (p, voter), Some(d))));
        up, down := if d == 1 then 1 else 0, if d == -1 then 1 else 0;
      }
      var row := UpdateCounters(p, up, down, 0);
      r := Ok(Counts(row.up, row.down));
    }

    /** Deletes every thumb record of a post, one by one. */
    method DeleteThumbsFor(p: int)
      requires Valid()
      modifies this
      ensures Valid()
      ensures store == old(store).(thumbs := map k | k in old(store).thumbs && k.0 != p :: old(store).thumbs[k])
    {
      hide Represents;
      ThumbQueryItems(table, store, p);
      var voters := set x | x in table && InThumbQuery(p, x) :: table[x].voter;
      var todo := Members(voters);
      for i := 0 to |todo|
        invariant Valid()
        invariant store == old(store).(thumbs := store.thumbs)
        invariant store.thumbs == map k | k in old(store).thumbs && !(k.0 == p && k.1 in todo[..i]) ::
            old(store).thumbs[k]
      {
        DeleteItem(ThumbKey(p, todo[i]), store.(thumbs := store.thumbs - {(p, todo[i])}));
        assert todo[..i + 1] == todo[..i] + [todo[i]];
      }
      assert todo[..|todo|] == todo;
      forall k | k in old(store).thumbs && k.0 == p ensures k.1 in todo {
        assert k.1 in multiset(todo);
      }
    }

    /** Deletes the listed comments of a post, one by one. */
    method DeleteCommentsOf(p: int, comments: seq<int>)
      requires Valid() && multiset(comments) == multiset(CommentIds(store, p))
      modifies this
      ensures Valid()
      ensures store == old(store).(comments := map k | k in old(store).comments && k.0 != p :: old(store).comments[k])
    {
      hide Represents;
      for i := 0 to |comments|
        invariant Valid()
        invariant store == old(store).(comments := store.comments)
        invariant store.comments == map k | k in old(store).comments && !(k.0 == p && k.1 in comments[..i]) ::
            old(store).comments[k]
      {
        DeleteItem(CommentKey(p, comments[i]), store.(comments := store.comments - {(p, comments[i])}));
        assert comments[..i + 1] == comments[..i] + [comments[i]];
      }
      assert comments[..|comments|] == comments;
      forall k | k in old(store).comments && k.0 == p ensures k.1 in comments {
        assert k.1 in CommentIds(old(store), p);
        assert k.1 in multiset(comments);
      }
    }

    method DeletePost(p: int, user: string) returns (r: Result<()>)
      requires Valid()
      modifies this
      ensures Valid() && (store, r) == DynamoStore.DeletePost(old(store), p, user)
    {
      hide Represents;
      var post := GetPost(p);
      if post.Err? {
        return Err(post.error);
      }
      if post.value.row.author != user {
        return Err(NotOwner);
      }
      var comments := CommentIdsOldestFirst(p);
      DeleteCommentsOf(p, comments);
      DeleteThumbsFor(p);
      DeleteItem(PostKey(p), store.(posts := store.posts - {p}));
      assert store.posts == WithoutPost(old(store), p).posts;
      r := Ok(());
    }

    /** The index projects every post item with all its attributes. */
    method IndexEntries() returns (rows: map<int, PostRow>)
      requires Valid()
      ensures rows == store.posts
    {
      hide Represents;
      PostItems(table, store);
      var ids := set x | x in table && table[x].PostItem? :: table[x].post.id;
      rows := map p | p in ids :: table[KeyText(PostKey(p))].post.row;
    }

    /** The index query: the posts a filter selects, newest first. */
    method QueryIndex(filter: Option<string>) returns (ids: seq<int>, ghost oldest: seq<int>)
      requires Valid()
      ensures Arranges(oldest, SelectedIds(store.posts, filter), Times(store.posts)) && ids == Reverse(oldest)
      ensures multiset(ids) == multiset(SelectedIds(store.posts, filter))
    {
      hide Represents;
      var rows := IndexEntries();
      var found := Members(SelectedIds(rows, filter));
      var sorted := SortByTime(found, Times(rows));
      oldest := sorted;
      ReverseMembers(sorted);
      ids := Reverse(sorted);
    }

    /** The page is cut from the whole result, and the total is the length of the whole result. */
    method ListPosts(page: nat, size: nat, filter: Option<string>) returns (posts: seq<PostView>, total: nat)
      requires Valid() && page >= 1 && size >= 1
      ensures PageOf(store, page, size, filter, posts, total)
      ensures DistinctTimes(Times(store.posts)) ==> (posts, total) == DynamoStore.ListPosts(store, page, size, filter)
    {
      hide Represents, Slice, Offset, ByTime, Newest, Reverse;
      var ids, oldest := QueryIndex(filter);
      ArrangesMembers(oldest, SelectedIds(store.posts, filter), Times(store.posts));
      forall i | 0 <= i < |ids| ensures ids[i] in store.posts {
        assert oldest[|oldest| - 1 - i] in oldest;
      }
      var items := [];
      for i := 0 to |ids|
        invariant |items| == i
        invariant forall j :: 0 <= j < i ==> items[j] == PostView(ids[j], store.posts[ids[j]])
      {
        var item := GetItem(PostKey(ids[i]));
        items := items + [item.value.post];
      }
      assert ListsPosts(store, filter, oldest, items);
      if DistinctTimes(Times(store.posts)) {
        ItemsNewest(store, filter, oldest, items);
      }
      total := |items|;
      posts := Slice(items, Offset(page, size), size);
    }
  }

  lemma ViewsListed(s: Store, p: int, ids: seq<int>, views: seq<CommentView>)
    requires Arranges(ids, CommentIds(s, p), CommentTimes(s, p)) && ShowsComments(s, p, ids, views)
    ensures ids == ByTime(CommentIds(s, p), CommentTimes(s, p)) ==> views == GetComments(s, p)
  {
    hide ByTime;
  }

  lemma IdsStored(s: Store, p: int, ids: seq<int>)
    requires multiset(ids) == multiset(CommentIds(s, p))
    ensures forall i :: 0 <= i < |ids| ==> (p, ids[i]) in s.comments
  {
    forall i | 0 <= i < |ids| ensures (p, ids[i]) in s.comments {
      assert ids[i] in multiset(ids);
    }
  }

  /** What the comment query finds in a table that represents a store. */
  lemma CommentQueryItems(t: Table, s: Store, p: int)
    requires Represents(t, s)
    ensures forall x :: x in t && InCommentQuery(p, x) ==> t[x].CommentItem?
    ensures (set x | x in t && InCommentQuery(p, x) :: t[x].comment.id) == CommentIds(s, p)
    ensures forall c :: c in CommentIds(s, p) ==> var x := KeyText(CommentKey(p, c));
      x in t && InCommentQuery(p, x) && t[x] == CommentItem(CommentView(c, p, s.comments[(p, c)]))
  {
    forall x | x in t && InCommentQuery(p, x) ensures t[x].CommentItem? && t[x].comment.id in CommentIds(s, p) {
      var k :| KeyText(k) == x;
      QueriesSelect(k, p);
      assert Lookup(t, KeyText(k)) == Find(s, k);
    }
    forall c | c in CommentIds(s, p)
      ensures var x := KeyText(CommentKey(p, c));
        x in t && InCommentQuery(p, x) && t[x] == CommentItem(CommentView(c, p, s.comments[(p, c)]))
    {
      QueriesSelect(CommentKey(p, c), p);
      assert Lookup(t, KeyText(CommentKey(p, c))) == Find(s, CommentKey(p, c));
    }
    var found := set x | x in t && InCommentQuery(p, x) :: t[x].comment.id;
    forall c | c in CommentIds(s, p) ensures c in found {
      assert KeyText(CommentKey(p, c)) in t;
    }
  }

  lemma ThumbQueryItems(t: Table, s: Store, p: int)
    requires Represents(t, s)
    ensures forall x :: x in t && InThumbQuery(p, x) ==> t[x].ThumbItem?
    ensures var voters := set x | x in t && InThumbQuery(p, x) :: t[x].voter;
      forall v :: v in voters <==> (p, v) in s.thumbs
  {
    forall x | x in t && InThumbQuery(p, x) ensures t[x].ThumbItem? && (p, t[x].voter) in s.thumbs {
      var k :| KeyText(k) == x;
      QueriesSelect(k, p);
      assert Lookup(t, KeyText(k)) == Find(s, k);
    }
    forall v | (p, v) in s.thumbs ensures exists x :: x in t && InThumbQuery(p, x) && t[x].voter == v {
      QueriesSelect(ThumbKey(p, v), p);
      assert Lookup(t, KeyText(ThumbKey(p, v))) == Find(s, ThumbKey(p, v));
      var x := KeyText(ThumbKey(p, v));
      assert x in t && InThumbQuery(p, x) && t[x].voter == v;
    }
  }

  lemma PostItems(t: Table, s: Store)
    requires Represents(t, s)
    ensures (set x | x in t && t[x].PostItem? :: t[x].post.id) == s.posts.Keys
    ensures forall p :: p in s.posts ==>
        KeyText(PostKey(p)) in t && t[KeyText(PostKey(p))] == PostItem(PostView(p, s.posts[p]))
  {
    forall x | x in t && t[x].PostItem? ensures t[x].post.id in s.posts {
      var k :| KeyText(k) == x;
      assert Lookup(t, KeyText(k)) == Find(s, k);
    }
    forall p | p in s.posts
      ensures KeyText(PostKey(p)) in t && t[KeyText(PostKey(p))] == PostItem(PostView(p, s.posts[p]))
    {
      assert Lookup(t, KeyText(PostKey(p))) == Find(s, PostKey(p));
    }
    var found := set x | x in t && t[x].PostItem? :: t[x].post.id;
    forall p | p in s.posts ensures p in found {
      assert KeyText(PostKey(p)) in t;
    }
  }
}
