/** What sorting by time alone leaves open: the arrangements of one set of rows, and what they have in common. */
module Arrangements {
  import opened Community

  /** Any order a sort by time may leave the rows in. */
  ghost predicate Arranges(x: seq<int>, ids: set<int>, at: map<int, int>) {
    multiset(x) == multiset(ids) && SortedByTime(x, at)
  }

  lemma ArrangesMembers(x: seq<int>, ids: set<int>, at: map<int, int>)
    requires Arranges(x, ids, at)
    ensures |x| == |ids| && forall i :: i in x <==> i in ids
  {
    assert |x| == |multiset(x)|;
    forall i ensures i in x <==> i in ids {
      assert i in x <==> i in multiset(x);
    }
  }

  lemma {:induction false} PrefixSize(x: seq<int>, n: nat)
    requires n <= |x| && forall i, j :: 0 <= i < j < |x| ==> x[i] != x[j]
    ensures |set i | 0 <= i < n :: x[i]| == n
  {
    if n > 0 {
      PrefixSize(x, n - 1);
      assert (set i | 0 <= i < n :: x[i]) == (set i | 0 <= i < n - 1 :: x[i]) + {x[n - 1]};
    }
  }

  lemma SubsetSize<T>(a: set<T>, b: set<T>)
    requires a <= b
    ensures |a| <= |b|
  {
    assert b == a + (b - a);
  }

  function UpTo(ids: set<int>, at: map<int, int>, time: int): set<int> {
    set k | k in ids && TimeOf(at, k) <= time
  }

  lemma AtLeast(x: seq<int>, ids: set<int>, at: map<int, int>, i: nat)
    requires Arranges(x, ids, at) && i < |x|
    ensures |UpTo(ids, at, TimeOf(at, x[i]))| > i
  {
    ArrangesMembers(x, ids, at);
    NoRepeats(x, ids);
    var early, mine := UpTo(ids, at, TimeOf(at, x[i])), set j | 0 <= j < i + 1 :: x[j];
    forall j | 0 <= j < i + 1 ensures x[j] in early {
      assert x[j] in x;
    }
    PrefixSize(x, i + 1);
    SubsetSize(mine, early);
  }

  lemma AtMost(x: seq<int>, ids: set<int>, at: map<int, int>, i: nat, time: int)
    requires Arranges(x, ids, at) && i < |x| && time < TimeOf(at, x[i])
    ensures |UpTo(ids, at, time)| <= i
  {
    ArrangesMembers(x, ids, at);
    NoRepeats(x, ids);
    var early, mine := UpTo(ids, at, time), set j | 0 <= j < i :: x[j];
    assert forall j :: i <= j < |x| ==> TimeOf(at, x[j]) > time;
    forall k | k in early ensures k in mine {
      assert k in x;
    }
    PrefixSize(x, i);
    SubsetSize(early, mine);
  }

  lemma NotEarlier(x: seq<int>, y: seq<int>, ids: set<int>, at: map<int, int>, i: nat)
    requires Arranges(x, ids, at) && Arranges(y, ids, at) && i < |x|
    ensures |x| == |y| && TimeOf(at, x[i]) >= TimeOf(at, y[i])
  {
    ArrangesMembers(x, ids, at);
    ArrangesMembers(y, ids, at);
    AtLeast(x, ids, at, i);
    if TimeOf(at, x[i]) < TimeOf(at, y[i]) {
      AtMost(y, ids, at, i, TimeOf(at, x[i]));
    }
  }

  /** Two arrangements show the same time at every place. */
  lemma SameTimes(x: seq<int>, y: seq<int>, ids: set<int>, at: map<int, int>)
    requires Arranges(x, ids, at) && Arranges(y, ids, at)
    ensures |x| == |y| && forall i :: 0 <= i < |x| ==> TimeOf(at, x[i]) == TimeOf(at, y[i])
  {
    ArrangesMembers(x, ids, at);
    ArrangesMembers(y, ids, at);
    forall i | 0 <= i < |x| ensures TimeOf(at, x[i]) == TimeOf(at, y[i]) {
      NotEarlier(x, y, ids, at, i);
      NotEarlier(y, x, ids, at, i);
    }
  }

  /** Without equal times there is one arrangement only. */
  lemma OneArrangement(x: seq<int>, y: seq<int>, ids: set<int>, at: map<int, int>)
    requires Arranges(x, ids, at) && Arranges(y, ids, at) && ids <= at.Keys && DistinctTimes(at)
    ensures x == y
  {
    SameTimes(x, y, ids, at);
    ArrangesMembers(x, ids, at);
    ArrangesMembers(y, ids, at);
    forall i | 0 <= i < |x| ensures x[i] == y[i] {
      assert x[i] in x && y[i] in y;
    }
  }

  /** Creation order, ties broken by id, is an arrangement. */
  lemma CreationOrderArranges(ids: set<int>, at: map<int, int>)
    requires ids <= at.Keys
    ensures Arranges(ByTime(ids, at), ids, at)
  {
    var x := ByTime(ids, at);
    forall i, j | 0 <= i < j < |x| ensures TimeOf(at, x[i]) <= TimeOf(at, x[j]) && x[i] != x[j] {
      assert Before(at, x[i], x[j]);
    }
    OneEach(x, ids);
  }

  /** When no two times are equal, sorting by time alone gives the creation order. */
  lemma SortIsByTime(x: seq<int>, ids: set<int>, at: map<int, int>)
    requires ids <= at.Keys && DistinctTimes(at) && Arranges(x, ids, at)
    ensures x == ByTime(ids, at)
  {
    CreationOrderArranges(ids, at);
    OneArrangement(x, ByTime(ids, at), ids, at);
  }

  lemma {:induction false} OneEach<T>(x: seq<T>, members: set<T>)
    requires forall i, j :: 0 <= i < j < |x| ==> x[i] != x[j]
    requires forall v :: v in x <==> v in members
    ensures multiset(x) == multiset(members)
  {
    if x == [] {
      NoMembers(members);
    } else {
      var n := |x| - 1;
      forall v ensures v in x[..n] <==> v in members - {x[n]} {
        assert v in x <==> v in x[..n] || v == x[n];
      }
      OneEach(x[..n], members - {x[n]});
      assert x == x[..n] + [x[n]];
      assert members == (members - {x[n]}) + {x[n]};
    }
  }

  lemma SameSize<T>(a: set<T>, b: set<T>)
    requires a <= b && |a| == |b|
    ensures a == b
  {
    assert b == a + (b - a);
    NoneLeft(b - a);
  }

  lemma NoneLeft<T>(s: set<T>)
    requires |s| == 0
    ensures s == {}
  {
  }
}
