/** The reply tree of a post: replies are moved under their parents by two passes over a flat list. */
module Nesting {
  import opened Options
  import opened Community
  import opened DynamoStore
  import Interleaving

  /** A comment object whose reply list grows in place. */
  class Node {
    const comment: CommentView
    var replies: seq<Node>

    constructor (comment: CommentView)
      ensures this.comment == comment && replies == []
    {
      this.comment := comment;
      replies := [];
    }
  }

  datatype Thread = Thread(comment: CommentView, replies: seq<CommentView>)

  predicate IsReplyTo(c: CommentView, id: int) {
    Truthy(c.row.parent) && c.row.parent.value == id
  }

  /** The replies to a comment, in list order. */
  function RepliesTo(cs: seq<CommentView>, id: int): seq<CommentView> {
    if cs == [] then []
    else
      var last := cs[|cs| - 1];
      RepliesTo(cs[..|cs| - 1], id) + if IsReplyTo(last, id) then [last] else []
  }

  predicate Listed(cs: seq<CommentView>, id: int) {
    exists i :: 0 <= i < |cs| && cs[i].id == id
  }

  /** A comment is nested only under a parent in the same list. */
  predicate IsNested(c: CommentView, all: seq<CommentView>) {
    Truthy(c.row.parent) && Listed(all, c.row.parent.value)
  }

  function Tops(cs: seq<CommentView>, all: seq<CommentView>): seq<CommentView> {
    if cs == [] then []
    else
      var last := cs[|cs| - 1];
      Tops(cs[..|cs| - 1], all) + if IsNested(last, all) then [] else [last]
  }

  function Threads(all: seq<CommentView>): seq<Thread> {
    var tops := Tops(all, all);
    seq(|tops|, i requires 0 <= i < |tops| => Thread(tops[i], RepliesTo(all, tops[i].id)))
  }

  ghost predicate DistinctIds(cs: seq<CommentView>) {
    forall i, j :: 0 <= i < j < |cs| ==> cs[i].id != cs[j].id
  }

  /** No listed comment is a reply to a listed reply. */
  ghost predicate OneLevel(cs: seq<CommentView>) {
    forall i, j :: 0 <= i < |cs| && 0 <= j < |cs| && IsReplyTo(cs[i], cs[j].id) ==> !IsNested(cs[j], cs)
  }

  function CommentsOf(nodes: seq<Node>): seq<CommentView> {
    seq(|nodes|, i requires 0 <= i < |nodes| => nodes[i].comment)
  }

  ghost predicate Indexes(byId: map<int, Node>, objects: seq<Node>, cs: seq<CommentView>) {
    && |objects| == |cs|
    && (forall i :: 0 <= i < |cs| ==> objects[i].comment == cs[i])
    && (forall i, j :: 0 <= i < j < |cs| ==> objects[i] != objects[j])
    && (forall id :: id in byId <==> Listed(cs, id))
    && (forall i :: 0 <= i < |cs| ==> cs[i].id in byId && byId[cs[i].id] == objects[i])
  }

  /** The first loop: one node for each comment, found again by id. */
  method Index(comments: seq<CommentView>) returns (objects: seq<Node>, byId: map<int, Node>)
    requires DistinctIds(comments)
    ensures Indexes(byId, objects, comments) && fresh(objects)
    ensures forall n :: n in objects ==> n.replies == []
  {
    objects, byId := [], map[];
    for i := 0 to |comments|
      invariant Indexes(byId, objects, comments[..i]) && fresh(objects)
      invariant forall n :: n in objects ==> n.replies == []
    {
      var node := new Node(comments[i]);
      ListedExtends(comments, i);
      objects := objects + [node];
      byId := byId[comments[i].id := node];
    }
    assert comments[..|comments|] == comments;
  }

  /** Every node's replies are the replies among the first comments of the list. */
  ghost predicate Attached(objects: seq<Node>, first: seq<CommentView>)
    reads objects
  {
    forall n :: n in objects ==>
      CommentsOf(n.replies) == RepliesTo(first, n.comment.id) && forall r :: r in n.replies ==> r in objects
  }

  /** One turn of the second loop for a nested comment. */
  method Append(objects: seq<Node>, node: Node, parent: Node, ghost first: seq<CommentView>)
    requires node in objects && parent in objects && Attached(objects, first)
    requires IsReplyTo(node.comment, parent.comment.id)
    requires forall n :: n in objects && n != parent ==> n.comment.id != parent.comment.id
    modifies parent
    ensures Attached(objects, first + [node.comment])
  {
    assert (first + [node.comment])[..|first|] == first;
    parent.replies := parent.replies + [node];
  }

  lemma CountNodes(byId: map<int, Node>, objects: seq<Node>, cs: seq<CommentView>)
    requires Indexes(byId, objects, cs)
    ensures |objects| == |cs| && CommentsOf(objects) == cs
    ensures forall i :: 0 <= i < |cs| ==> objects[i].comment == cs[i] && objects[i] in objects
    ensures forall c: CommentView :: Truthy(c.row.parent) ==> (c.row.parent.value in byId <==> IsNested(c, cs))
  {
  }

  lemma FoundById(byId: map<int, Node>, objects: seq<Node>, cs: seq<CommentView>, id: int)
    requires Indexes(byId, objects, cs) && DistinctIds(cs) && id in byId
    ensures byId[id] in objects && byId[id].comment.id == id
    ensures forall n :: n in objects && n != byId[id] ==> n.comment.id != id
  {
    var j :| 0 <= j < |cs| && cs[j].id == id;
    assert objects[j] in objects;
  }

  lemma NotNestedKeeps(byId: map<int, Node>, objects: seq<Node>, cs: seq<CommentView>, i: nat)
    requires i < |cs| && Indexes(byId, objects, cs) && Attached(objects, cs[..i]) && !IsNested(cs[i], cs)
    ensures Attached(objects, cs[..i + 1])
  {
    assert cs[..i + 1][..i] == cs[..i] && cs[..i + 1][i] == cs[i];
    forall n | n in objects ensures !IsReplyTo(cs[i], n.comment.id) {
      var k :| 0 <= k < |objects| && objects[k] == n;
      assert Listed(cs, cs[k].id);
    }
  }

  /**
   The two loops of the post handler. Every node ends with the replies to its comment in
   list order, and the comments without a listed parent are returned in list order.
   */
  method Nest(comments: seq<CommentView>) returns (top: seq<Node>, ghost nodes: seq<Node>)
    requires DistinctIds(comments)
    ensures CommentsOf(nodes) == comments && fresh(nodes)
    ensures forall n :: n in top ==> n in nodes
    ensures CommentsOf(top) == Tops(comments, comments)
    ensures Attached(nodes, comments)
  {
    var objects, byId := Index(comments);
    hide Indexes, DistinctIds;
    CountNodes(byId, objects, comments);
    top := [];
    for i := 0 to |comments|
      invariant forall n :: n in top ==> n in objects
      invariant CommentsOf(top) == Tops(comments[..i], comments)
      invariant Attached(objects, comments[..i])
    {
      var c := comments[i];
      assert objects[i] in objects;
      assert comments[..i + 1] == comments[..i] + [c] && comments[..i + 1][..i] == comments[..i];
      if Truthy(c.row.parent) && c.row.parent.value in byId {
        FoundById(byId, objects, comments, c.row.parent.value);
        Append(objects, objects[i], byId[c.row.parent.value], comments[..i]);
      } else {
        top := top + [objects[i]];
        NotNestedKeeps(byId, objects, comments, i);
      }
    }
    assert comments[..|comments|] == comments;
    nodes := objects;
  }

  lemma ListedExtends(cs: seq<CommentView>, i: nat)
    requires i < |cs|
    ensures forall id :: Listed(cs[..i + 1], id) <==> Listed(cs[..i], id) || id == cs[i].id
  {
    forall id ensures Listed(cs[..i + 1], id) <==> Listed(cs[..i], id) || id == cs[i].id {
      if Listed(cs[..i], id) {
        var j :| 0 <= j < i && cs[..i][j].id == id;
        assert cs[..i + 1][j].id == id;
      }
      if id == cs[i].id {
        assert cs[..i + 1][i].id == id;
      }
      if Listed(cs[..i + 1], id) {
        var j :| 0 <= j < i + 1 && cs[..i + 1][j].id == id;
        assert j < i ==> cs[..i][j].id == id;
      }
    }
  }

  // ---- Each comment is placed exactly once ----

  function Flatten(threads: seq<Thread>): seq<CommentView> {
    if threads == [] then []
    else
      var last := threads[|threads| - 1];
      Flatten(threads[..|threads| - 1]) + [last.comment] + last.replies
  }

  /** The replies, among some comments, to any of a list of parents. */
  function Pooled(parents: seq<CommentView>, from: seq<CommentView>): multiset<CommentView> {
    if parents == [] then multiset{}
    else Pooled(parents[..|parents| - 1], from) + multiset(RepliesTo(from, parents[|parents| - 1].id))
  }

  lemma ListedSplit(cs: seq<CommentView>, id: int)
    requires cs != []
    ensures Listed(cs, id) <==> Listed(cs[..|cs| - 1], id) || cs[|cs| - 1].id == id
  {
    ListedExtends(cs, |cs| - 1);
    assert cs[..|cs|] == cs;
  }

  lemma RepliesExtends(from: seq<CommentView>, c: CommentView, id: int)
    ensures RepliesTo(from + [c], id) == RepliesTo(from, id) + if IsReplyTo(c, id) then [c] else []
  {
    assert (from + [c])[..|from|] == from;
  }

  /** A comment is nested under the last of some parents or under one before it, never both. */
  lemma NestedSplit(c: CommentView, parents: seq<CommentView>)
    requires DistinctIds(parents) && parents != []
    ensures var n := |parents| - 1;
      && (IsNested(c, parents) <==> IsNested(c, parents[..n]) || IsReplyTo(c, parents[n].id))
      && !(IsNested(c, parents[..n]) && IsReplyTo(c, parents[n].id))
  {
    var n := |parents| - 1;
    if Truthy(c.row.parent) {
      ListedSplit(parents, c.row.parent.value);
    }
    assert forall i :: 0 <= i < n ==> parents[..n][i].id != parents[n].id;
  }

  lemma {:induction false} PooledExtends(parents: seq<CommentView>, from: seq<CommentView>, c: CommentView)
    requires DistinctIds(parents)
    ensures Pooled(parents, from + [c])
         == Pooled(parents, from) + if IsNested(c, parents) then multiset{c} else multiset{}
  {
    if parents != [] {
      var n := |parents| - 1;
      PooledExtends(parents[..n], from, c);
      RepliesExtends(from, c, parents[n].id);
      NestedSplit(c, parents);
      hide IsNested, IsReplyTo, DistinctIds, RepliesTo;
    }
  }

  lemma {:induction false} TopsMembers(cs: seq<CommentView>, all: seq<CommentView>)
    requires DistinctIds(cs)
    ensures forall c :: c in Tops(cs, all) <==> c in cs && !IsNested(c, all)
    ensures DistinctIds(Tops(cs, all))
  {
    if cs != [] {
      var rest := cs[..|cs| - 1];
      TopsMembers(rest, all);
      assert cs == rest + [cs[|cs| - 1]];
      forall c | c in Tops(rest, all) ensures c.id != cs[|cs| - 1].id {
        var i :| 0 <= i < |rest| && rest[i] == c;
        assert cs[i].id == c.id;
      }
    }
  }

  lemma NestedUnderTop(all: seq<CommentView>, c: CommentView)
    requires DistinctIds(all) && OneLevel(all) && c in all
    ensures IsNested(c, Tops(all, all)) <==> IsNested(c, all)
  {
    TopsMembers(all, all);
    var tops := Tops(all, all);
    if Truthy(c.row.parent) {
      var id := c.row.parent.value;
      if Listed(all, id) {
        var j :| 0 <= j < |all| && all[j].id == id;
        var i :| 0 <= i < |all| && all[i] == c;
        assert IsReplyTo(all[i], all[j].id);
        assert all[j] in tops;
        var k :| 0 <= k < |tops| && tops[k] == all[j];
        assert Listed(tops, id);
      }
      if Listed(tops, id) {
        var k :| 0 <= k < |tops| && tops[k].id == id;
        assert tops[k] in tops;
        var j :| 0 <= j < |all| && all[j] == tops[k];
        assert Listed(all, id);
      }
    }
  }

  lemma TopsExtends(from: seq<CommentView>, c: CommentView, all: seq<CommentView>)
    ensures Tops(from + [c], all) == Tops(from, all) + if IsNested(c, all) then [] else [c]
  {
    assert (from + [c])[..|from|] == from;
  }

  /** One comment more goes to the top or under a top comment. */
  lemma PartitionStep(all: seq<CommentView>, n: nat)
    requires DistinctIds(all) && OneLevel(all) && 0 < n <= |all|
    ensures var c := all[n - 1];
      var tops, nested := Tops(all, all), IsNested(c, all);
      && Tops(all[..n], all) == Tops(all[..n - 1], all) + (if nested then [] else [c])
      && Pooled(tops, all[..n]) == Pooled(tops, all[..n - 1]) + (if nested then multiset{c} else multiset{})
  {
    hide Tops, Pooled, DistinctIds, OneLevel, IsNested;
    assert DistinctIds(Tops(all, all)) by { TopsMembers(all, all); }
    var from, c := all[..n - 1], all[n - 1];
    assert all[..n] == from + [c];
    NestedUnderTop(all, c);
    PooledExtends(Tops(all, all), from, c);
    TopsExtends(from, c, all);
  }

  /** The first n comments are on top or pooled under a top comment, each once. */
  ghost predicate Placed(all: seq<CommentView>, n: nat)
    requires n <= |all|
  {
    multiset(Tops(all[..n], all)) + Pooled(Tops(all, all), all[..n]) == multiset(all[..n])
  }

  lemma PlacedStep(all: seq<CommentView>, n: nat)
    requires DistinctIds(all) && OneLevel(all) && 0 < n <= |all| && Placed(all, n - 1)
    ensures Placed(all, n)
  {
    hide Tops, Pooled, DistinctIds, OneLevel, IsNested;
    PartitionStep(all, n);
    var c := all[n - 1];
    assert all[..n] == all[..n - 1] + [c];
    OneMore(Tops(all[..n - 1], all), Pooled(Tops(all, all), all[..n - 1]), c, IsNested(c, all), all[..n - 1]);
  }

  lemma {:induction false} Partition(all: seq<CommentView>, n: nat)
    requires DistinctIds(all) && OneLevel(all) && n <= |all|
    ensures Placed(all, n)
  {
    if n == 0 {
      PooledNothing(Tops(all, all));
      assert all[..0] == [];
    } else {
      hide Placed;
      Partition(all, n - 1);
      PlacedStep(all, n);
    }
  }

  lemma OneMore<T>(a: seq<T>, b: multiset<T>, c: T, nested: bool, whole: seq<T>)
    requires multiset(a) + b == multiset(whole)
    ensures multiset(a + (if nested then [] else [c])) + (b + if nested then multiset{c} else multiset{})
         == multiset(whole + [c])
  {
    assert a + [] == a;
  }

  lemma {:induction false} PooledNothing(parents: seq<CommentView>)
    ensures Pooled(parents, []) == multiset{}
  {
    if parents != [] {
      PooledNothing(parents[..|parents| - 1]);
    }
  }

  lemma FlattenExtends(threads: seq<Thread>, t: Thread)
    ensures multiset(Flatten(threads + [t])) == multiset(Flatten(threads)) + multiset{t.comment} + multiset(t.replies)
  {
    assert (threads + [t])[..|threads|] == threads;
  }

  lemma PooledBy(parents: seq<CommentView>, c: CommentView, from: seq<CommentView>)
    ensures Pooled(parents + [c], from) == Pooled(parents, from) + multiset(RepliesTo(from, c.id))
  {
    assert (parents + [c])[..|parents|] == parents;
  }

  lemma FlattenStep(all: seq<CommentView>, threads: seq<Thread>, tops: seq<CommentView>, top: CommentView)
    requires multiset(Flatten(threads)) == multiset(tops) + Pooled(tops, all)
    ensures multiset(Flatten(threads + [Thread(top, RepliesTo(all, top.id))]))
        == multiset(tops + [top]) + Pooled(tops + [top], all)
  {
    FlattenExtends(threads, Thread(top, RepliesTo(all, top.id)));
    PooledBy(tops, top, all);
    hide *;
    assert multiset(tops + [top]) == multiset(tops) + multiset{top};
  }

  lemma {:induction false} FlattenPools(all: seq<CommentView>, n: nat)
    requires n <= |Tops(all, all)|
    ensures multiset(Flatten(Threads(all)[..n])) == multiset(Tops(all, all)[..n]) + Pooled(Tops(all, all)[..n], all)
  {
    hide Flatten, Pooled, RepliesTo, Tops;
    var tops, threads := Tops(all, all), Threads(all);
    if n == 0 {
      NothingPooled(all);
      assert threads[..0] == [] && tops[..0] == [];
    } else {
      FlattenPools(all, n - 1);
      FlattenStep(all, threads[..n - 1], tops[..n - 1], tops[n - 1]);
      assert threads[..n] == threads[..n - 1] + [threads[n - 1]];
      assert tops[..n] == tops[..n - 1] + [tops[n - 1]];
    }
  }

  lemma NothingPooled(all: seq<CommentView>)
    ensures Flatten([]) == [] && Pooled([], all) == multiset{}
  {
  }

  /** Reading the tree back gives every comment of the list exactly once. */
  lemma NestingPermutes(all: seq<CommentView>)
    requires DistinctIds(all) && OneLevel(all)
    ensures multiset(Flatten(Threads(all))) == multiset(all)
  {
    var n := |Tops(all, all)|;
    FlattenPools(all, n);
    Partition(all, |all|);
    assert Threads(all)[..n] == Threads(all) && Tops(all, all)[..n] == Tops(all, all) && all[..|all|] == all;
  }

  lemma {:induction false} RepliesMembers(cs: seq<CommentView>, id: int)
    ensures forall c :: c in RepliesTo(cs, id) <==> c in cs && IsReplyTo(c, id)
  {
    if cs != [] {
      var rest := cs[..|cs| - 1];
      RepliesMembers(rest, id);
      assert cs == rest + [cs[|cs| - 1]];
    }
  }

  lemma FirstOf<T>(s: seq<T>) returns (x: T)
    requires s != []
    ensures x in s
  {
    x := s[0];
  }

  // ---- Order ----

  /** Whatever stands before another in one list stands before it in the other too. */
  ghost predicate KeepsOrder(part: seq<CommentView>, all: seq<CommentView>) {
    forall i, j, a, b ::
      0 <= i < j < |part| && 0 <= a < |all| && 0 <= b < |all| && all[a] == part[i] && all[b] == part[j] ==> a < b
  }

  lemma KeepsOrderExtends(part: seq<CommentView>, all: seq<CommentView>, n: nat)
    requires DistinctIds(all) && n < |all| && KeepsOrder(part, all[..n]) && forall v :: v in part ==> v in all[..n]
    ensures KeepsOrder(part, all[..n + 1]) && KeepsOrder(part + [all[n]], all[..n + 1])
  {
    var longer, more := all[..n + 1], part + [all[n]];
    forall i, a | 0 <= i < |part| && 0 <= a < |longer| && longer[a] == part[i] ensures a < n && all[..n][a] == part[i] {
      assert part[i] in part;
      var b :| 0 <= b < n && all[..n][b] == part[i];
      assert all[b].id == all[a].id;
    }
    forall i, j, a, b |
      0 <= i < j < |more| && 0 <= a < |longer| && 0 <= b < |longer| && longer[a] == more[i] && longer[b] == more[j]
      ensures a < b
    {
      assert more[i] == part[i];
      if j < |part| {
        assert more[j] == part[j];
      } else {
        assert longer[b] == all[n] && all[b].id == all[n].id;
      }
    }
  }

  lemma {:induction false} RepliesKeepOrder(all: seq<CommentView>, id: int, n: nat)
    requires DistinctIds(all) && n <= |all|
    ensures KeepsOrder(RepliesTo(all[..n], id), all[..n])
    ensures forall v :: v in RepliesTo(all[..n], id) ==> v in all[..n]
  {
    if n > 0 {
      RepliesKeepOrder(all, id, n - 1);
      KeepsOrderExtends(RepliesTo(all[..n - 1], id), all, n - 1);
      assert all[..n][..n - 1] == all[..n - 1] && all[..n][n - 1] == all[n - 1];
      hide KeepsOrder, DistinctIds;
    }
  }

  lemma {:induction false} TopsKeepOrder(all: seq<CommentView>, n: nat)
    requires DistinctIds(all) && n <= |all|
    ensures KeepsOrder(Tops(all[..n], all), all[..n])
    ensures forall v :: v in Tops(all[..n], all) ==> v in all[..n]
  {
    if n > 0 {
      TopsKeepOrder(all, n - 1);
      KeepsOrderExtends(Tops(all[..n - 1], all), all, n - 1);
      assert all[..n][..n - 1] == all[..n - 1] && all[..n][n - 1] == all[n - 1];
      hide KeepsOrder, DistinctIds;
    }
  }

  /** The comments that head the threads. */
  function Heads(threads: seq<Thread>): seq<CommentView> {
    seq(|threads|, i requires 0 <= i < |threads| => threads[i].comment)
  }

  /** The tree keeps the order of the list, at the top and among the replies of each thread, and puts every reply
      under its own parent. */
  lemma ThreadsInOrder(all: seq<CommentView>)
    requires DistinctIds(all)
    ensures var threads := Threads(all);
      && KeepsOrder(Heads(threads), all)
      && (forall v :: v in Heads(threads) <==> v in all && !IsNested(v, all))
      && forall i :: 0 <= i < |threads| ==>
        && KeepsOrder(threads[i].replies, all)
        && forall v :: v in threads[i].replies <==>
          v in all && v.row.parent == Some(threads[i].comment.id) && threads[i].comment.id != 0
  {
    var threads := Threads(all);
    assert all[..|all|] == all;
    TopsKeepOrder(all, |all|);
    TopsMembers(all, all);
    assert Heads(threads) == Tops(all, all);
    hide KeepsOrder, Tops, IsNested, DistinctIds;
    forall i | 0 <= i < |threads|
      ensures KeepsOrder(threads[i].replies, all)
      ensures forall v :: v in threads[i].replies <==>
        v in all && v.row.parent == Some(threads[i].comment.id) && threads[i].comment.id != 0
    {
      RepliesKeepOrder(all, threads[i].comment.id, |all|);
      RepliesMembers(all, threads[i].comment.id);
    }
  }

  /** Replies in the tree have no replies of their own. */
  lemma RepliesAreLeaves(all: seq<CommentView>, c: CommentView, r: CommentView)
    requires DistinctIds(all) && OneLevel(all) && r in RepliesTo(all, c.id) && c in all
    ensures RepliesTo(all, r.id) == []
  {
    RepliesMembers(all, c.id);
    RepliesMembers(all, r.id);
    var j :| 0 <= j < |all| && all[j] == r;
    var k :| 0 <= k < |all| && all[k] == c;
    assert Listed(all, c.id);
    forall x | x in all ensures !IsReplyTo(x, r.id) {
      var i :| 0 <= i < |all| && all[i] == x;
      assert IsReplyTo(all[i], all[j].id) ==> !IsNested(all[j], all);
    }
    if RepliesTo(all, r.id) != [] {
      var _ := FirstOf(RepliesTo(all, r.id));
      assert false;
    }
  }

  /**
   The comments of a post in a valid store meet what nesting needs, in whatever order
   parents and replies come, and the top level is exactly the comments without a parent.
   */
  lemma StoredCommentsNest(s: Store, p: int, all: seq<CommentView>)
    requires Interleaving.Valid(s) && ListsComments(s, p, all)
    ensures DistinctIds(all) && OneLevel(all)
    ensures forall c :: c in all ==> (IsNested(c, all) <==> c.row.parent.Some?)
  {
    hide Interleaving.Valid;
    forall i | 0 <= i < |all| ensures (p, all[i].id) in s.comments && all[i].row == s.comments[(p, all[i].id)] {
      assert all[i] in all;
    }
    forall i | 0 <= i < |all| && all[i].row.parent.Some?
      ensures IsNested(all[i], all)
    {
      StoredParent(s, p, all[i].id);
      var up := all[i].row.parent.value;
      assert CommentView(up, p, s.comments[(p, up)]) in all;
      var j :| 0 <= j < |all| && all[j] == CommentView(up, p, s.comments[(p, up)]);
      assert Listed(all, up);
    }
    forall i, j | 0 <= i < |all| && 0 <= j < |all| && IsReplyTo(all[i], all[j].id) ensures !IsNested(all[j], all) {
      StoredParent(s, p, all[i].id);
    }
  }

  lemma StoredParent(s: Store, p: int, c: int)
    requires Interleaving.Valid(s) && (p, c) in s.comments && s.comments[(p, c)].parent.Some?
    ensures var up := s.comments[(p, c)].parent.value;
      up >= 1 && (p, up) in s.comments && s.comments[(p, up)].parent == None
  {
    assert Interleaving.ParentOk(s, [], (p, c));
  }
}
