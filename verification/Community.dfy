/** What both stores of the community board share: results, vote tallies, creation order. */
module Community {
  import opened Options

  datatype Error = PostNotFound | CommentNotFound | NotOwner | NestingTooDeep

  datatype Result<+T> = Ok(value: T) | Err(error: Error)

  type Direction = d: int | d == 1 || d == -1 witness 1

  /** A vote is kept per post id and voter. */
  type VoteKey = (int, string)

  type Votes = map<VoteKey, Direction>

  datatype Counts = Counts(up: int, down: int)

  function Lookup<K, V>(m: map<K, V>, k: K): Option<V> {
    if k in m then Some(m[k]) else None
  }

  lemma NoMembers<T>(s: set<T>)
    requires forall x :: x !in s
    ensures s == {}
  {
  }

  lemma SameSet<T>(s: set<T>, t: set<T>)
    requires forall x :: x in s <==> x in t
    ensures s == t
  {
  }

  lemma SameMap<K, V>(m: map<K, V>, n: map<K, V>)
    requires forall k :: Lookup(m, k) == Lookup(n, k)
    ensures m == n
  {
    assert forall k :: k in m <==> Lookup(m, k).Some?;
    assert forall k :: k in m ==> Lookup(m, k) == Some(m[k]);
    assert forall k :: k in n ==> Lookup(n, k) == Some(n[k]);
  }

  /** One vote set to a direction, or withdrawn. */
  function SetVote(votes: Votes, k: VoteKey, vote: Option<Direction>): Votes {
    if vote.Some? then votes[k := vote.value] else votes - {k}
  }

  /** Voting the same way twice withdraws the vote; anything else replaces it. */
  function Flip(before: Option<Direction>, d: Direction): Option<Direction> {
    if before == Some(d) then None else Some(d)
  }

  function Delta(before: Option<Direction>, after: Option<Direction>, d: Direction): int {
    (if after == Some(d) then 1 else 0) - (if before == Some(d) then 1 else 0)
  }

  function Ballots(votes: Votes, p: int, d: Direction): set<VoteKey> {
    set k | k in votes && k.0 == p && votes[k] == d
  }

  /** The number of votes for a post in one direction, counted from the records. */
  function Tally(votes: Votes, p: int, d: Direction): nat {
    |Ballots(votes, p, d)|
  }

  lemma CountWithout<T>(s: set<T>, x: T)
    ensures |s| == |s - {x}| + if x in s then 1 else 0
  {
  }

  lemma BallotsElsewhere(votes: Votes, k: VoteKey, vote: Option<Direction>, p: int, d: Direction)
    ensures Ballots(SetVote(votes, k, vote), p, d) - {k} == Ballots(votes, p, d) - {k}
  {
    var votes' := SetVote(votes, k, vote);
    forall j: VoteKey | j != k
      ensures j in Ballots(votes', p, d) <==> j in Ballots(votes, p, d)
    {
      assert j in votes' <==> j in votes;
    }
  }

  /** Setting one vote moves the tallies of its own post by the change in that vote. */
  lemma TallySet(votes: Votes, k: VoteKey, vote: Option<Direction>, p: int, d: Direction)
    ensures Tally(SetVote(votes, k, vote), p, d)
         == Tally(votes, p, d) + if k.0 == p then Delta(Lookup(votes, k), vote, d) else 0
  {
    var was, now := Ballots(votes, p, d), Ballots(SetVote(votes, k, vote), p, d);
    BallotsElsewhere(votes, k, vote, p, d);
    CountWithout(was, k);
    CountWithout(now, k);
    assert k in was <==> k.0 == p && Lookup(votes, k) == Some(d);
    assert k in now <==> k.0 == p && vote == Some(d);
  }

  // ---- Creation order ----

  /** Order by creation time, then by id. */
  predicate Before(at: map<int, int>, i: int, j: int)
    requires i in at && j in at
  {
    at[i] < at[j] || (at[i] == at[j] && i < j)
  }

  ghost predicate Ordered(s: seq<int>, at: map<int, int>) {
    && (forall i :: 0 <= i < |s| ==> s[i] in at)
    && (forall i, j :: 0 <= i < j < |s| ==> Before(at, s[i], s[j]))
  }

  lemma Any<T>(s: set<T>) returns (x: T)
    requires s != {}
    ensures x in s
  {
    x :| x in s;
  }

  lemma {:induction false} FirstExists(ids: set<int>, at: map<int, int>) returns (m: int)
    requires ids != {} && ids <= at.Keys
    ensures m in ids && forall i :: i in ids && i != m ==> Before(at, m, i)
    decreases |ids|
  {
    var i := Any(ids);
    m := i;
    if ids != {i} {
      var n := FirstExists(ids - {i}, at);
      m := if Before(at, n, i) then n else i;
      assert forall j :: j in ids ==> j == i || j in ids - {i};
    }
  }

  /** The ids in creation order. */
  ghost function ByTime(ids: set<int>, at: map<int, int>): (s: seq<int>)
    requires ids <= at.Keys
    ensures forall i :: i in s <==> i in ids
    ensures |s| == |ids|
    ensures Ordered(s, at)
    decreases |ids|
  {
    if ids == {} then [] else
      assert exists m :: m in ids && forall i :: i in ids && i != m ==> Before(at, m, i) by {
        var m := FirstExists(ids, at);
      }
      var m :| m in ids && forall i :: i in ids && i != m ==> Before(at, m, i);
      [m] + ByTime(ids - {m}, at)
  }

  /** An ordered list is determined by its members. */
  lemma {:induction false} OrderedUnique(s: seq<int>, t: seq<int>, at: map<int, int>)
    requires Ordered(s, at) && Ordered(t, at)
    requires forall i :: i in s <==> i in t
    ensures s == t
  {
    if s != [] {
      var x := s[0];
      assert x in s && x in t;
    }
    if t != [] {
      var y := t[0];
      assert y in t && y in s;
      assert s[0] == t[0];
      forall i ensures i in s[1..] <==> i in t[1..] {
        assert i in s[1..] ==> i != s[0] && i in s;
        assert i in t[1..] ==> i != t[0] && i in t;
      }
      OrderedUnique(s[1..], t[1..], at);
    }
  }

  function Reverse<T>(s: seq<T>): (r: seq<T>)
    ensures |r| == |s| && forall i :: 0 <= i < |s| ==> r[i] == s[|s| - 1 - i]
  {
    seq(|s|, i requires 0 <= i < |s| => s[|s| - 1 - i])
  }

  // ---- Pages ----

  function Offset(page: nat, size: nat): nat
    requires page >= 1
  {
    (page - 1) * size
  }

  /** The part of a list that starts at an offset, no longer than a size and no further than the end. */
  function Slice<T>(s: seq<T>, start: nat, size: nat): seq<T> {
    if start >= |s| then [] else if start + size >= |s| then s[start..] else s[start..start + size]
  }

  lemma SliceAt<T>(s: seq<T>, start: nat, size: nat)
    ensures |Slice(s, start, size)| == if start >= |s| then 0 else if start + size >= |s| then |s| - start else size
    ensures forall i :: 0 <= i < |Slice(s, start, size)| ==> Slice(s, start, size)[i] == s[start + i]
  {
  }

  lemma {:induction false} ReverseMembers<T>(s: seq<T>)
    ensures multiset(Reverse(s)) == multiset(s)
  {
    if s != [] {
      var n := |s| - 1;
      ReverseMembers(s[..n]);
      assert Reverse(s) == [s[n]] + Reverse(s[..n]);
      assert s == s[..n] + [s[n]];
    }
  }

  // ---- Sorting a query's result by time, as the adapters do ----

  function TimeOf(at: map<int, int>, i: int): int {
    if i in at then at[i] else 0
  }

  ghost predicate SortedByTime(s: seq<int>, at: map<int, int>) {
    forall i, j :: 0 <= i < j < |s| ==> TimeOf(at, s[i]) <= TimeOf(at, s[j])
  }

  ghost predicate DistinctTimes(at: map<int, int>) {
    forall i, j :: i in at && j in at && at[i] == at[j] ==> i == j
  }

  /** Any enumeration of a set, each member once. */
  method Members<T(==)>(s: set<T>) returns (xs: seq<T>)
    ensures multiset(xs) == multiset(s)
  {
    xs := [];
    var todo := s;
    while todo != {}
      invariant todo <= s && multiset(xs) + multiset(todo) == multiset(s)
      decreases todo
    {
      var x :| x in todo;
      xs := xs + [x];
      todo := todo - {x};
    }
  }

  lemma InsertionSorted(s: seq<int>, i: nat, x: int, at: map<int, int>)
    requires i <= |s| && SortedByTime(s, at)
    requires i > 0 ==> TimeOf(at, s[i - 1]) <= TimeOf(at, x)
    requires forall j :: i <= j < |s| ==> TimeOf(at, x) < TimeOf(at, s[j])
    ensures SortedByTime(s[..i] + [x] + s[i..], at)
  {
    var r := s[..i] + [x] + s[i..];
    forall j, k | 0 <= j < k < |r| ensures TimeOf(at, r[j]) <= TimeOf(at, r[k]) {
      assert r[j] == if j < i then s[j] else if j == i then x else s[j - 1];
      assert r[k] == if k < i then s[k] else if k == i then x else s[k - 1];
    }
  }

  lemma InsertionMembers<T>(s: seq<T>, i: nat, x: T)
    requires i <= |s|
    ensures multiset(s[..i] + [x] + s[i..]) == multiset(s) + multiset{x}
  {
    assert s == s[..i] + s[i..];
  }

  method Insert(s: seq<int>, x: int, at: map<int, int>) returns (r: seq<int>)
    requires SortedByTime(s, at)
    ensures SortedByTime(r, at) && multiset(r) == multiset(s) + multiset{x}
  {
    hide SortedByTime;
    var i := |s|;
    while i > 0 && TimeOf(at, x) < TimeOf(at, s[i - 1])
      invariant 0 <= i <= |s|
      invariant forall j :: i <= j < |s| ==> TimeOf(at, x) < TimeOf(at, s[j])
    {
      i := i - 1;
    }
    InsertionSorted(s, i, x, at);
    InsertionMembers(s, i, x);
    r := s[..i] + [x] + s[i..];
  }

  method SortByTime(ids: seq<int>, at: map<int, int>) returns (r: seq<int>)
    ensures SortedByTime(r, at) && multiset(r) == multiset(ids)
  {
    r := [];
    for n := 0 to |ids|
      invariant SortedByTime(r, at) && multiset(r) == multiset(ids[..n])
    {
      r := Insert(r, ids[n], at);
      assert ids[..n + 1] == ids[..n] + [ids[n]];
    }
    assert ids[..|ids|] == ids;
  }

  lemma NoRepeats<T>(r: seq<T>, members: set<T>)
    requires multiset(r) == multiset(members)
    ensures forall i, j :: 0 <= i < j < |r| ==> r[i] != r[j]
  {
    forall i, j | 0 <= i < j < |r| ensures r[i] != r[j] {
      var before, after := r[..j], r[j..];
      assert r == before + after && r[i] == before[i] && r[j] == after[0];
      assert multiset(r)[r[i]] == multiset(before)[r[i]] + multiset(after)[r[i]];
    }
  }
}
