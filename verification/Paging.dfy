/** Reading a list page by page. */
module Paging {
  import opened Options
  import opened Community
  import Dy = DynamoStore

  /** Pages 1 to n, one after another. */
  ghost function FirstPages(s: Dy.Store, size: nat, filter: Option<string>, n: nat): seq<Dy.PostView>
    requires size >= 1
  {
    if n == 0 then [] else FirstPages(s, size, filter, n - 1) + Dy.ListPosts(s, n, size, filter).0
  }

  function Least(a: nat, b: nat): nat {
    if a <= b then a else b
  }

  lemma LeastOfZero(b: nat)
    ensures Least(0, b) == 0
  {
  }

  lemma PrefixGrows<T>(all: seq<T>, start: nat, size: nat)
    ensures all[..Least(start, |all|)] + Slice(all, start, size) == all[..Least(start + size, |all|)]
  {
  }

  lemma {:induction false} PagesArePrefix(s: Dy.Store, size: nat, filter: Option<string>, n: nat)
    requires size >= 1
    ensures FirstPages(s, size, filter, n) == Dy.Newest(s, filter)[..Least(n * size, |Dy.Newest(s, filter)|)]
  {
    hide Dy.Newest, Slice, Least;
    var all := Dy.Newest(s, filter);
    if n == 0 {
      LeastOfZero(|all|);
    } else {
      PagesArePrefix(s, size, filter, n - 1);
      PrefixGrows(all, Offset(n, size), size);
      assert n * size == Offset(n, size) + size;
    }
  }

  /**
   As many pages as it takes to reach the total give the whole list, newest first, with no
   gap and no repeat; every later page is empty, and every page reports the same total.
   */
  lemma PagesCoverList(s: Dy.Store, size: nat, filter: Option<string>, n: nat)
    requires size >= 1 && n * size >= |Dy.Newest(s, filter)|
    ensures FirstPages(s, size, filter, n) == Dy.Newest(s, filter)
    ensures Dy.ListPosts(s, n + 1, size, filter) == ([], |Dy.Newest(s, filter)|)
  {
    PagesArePrefix(s, size, filter, n);
    assert Offset(n + 1, size) == n * size;
    hide Dy.Newest, Offset;
  }

  /** The whole list holds each selected post once, each before every older one. */
  lemma NewestIsWholeList(s: Dy.Store, filter: Option<string>)
    ensures var all := Dy.Newest(s, filter);
      && (forall v :: v in all <==> v.id in Dy.SelectedIds(s.posts, filter) && v.row == s.posts[v.id])
      && (forall i, j :: 0 <= i < j < |all| ==> Before(Dy.Times(s.posts), all[j].id, all[i].id))
  {
    hide ByTime;
    var all, oldest := Dy.Newest(s, filter), ByTime(Dy.SelectedIds(s.posts, filter), Dy.Times(s.posts));
    var n := |oldest|;
    forall i | 0 <= i < n ensures oldest[i] in Dy.SelectedIds(s.posts, filter) {
      assert oldest[i] in oldest;
    }
    forall v: Dy.PostView | v.id in Dy.SelectedIds(s.posts, filter) && v.row == s.posts[v.id] ensures v in all {
      assert v.id in oldest;
      var i :| 0 <= i < n && oldest[i] == v.id;
      assert all[n - 1 - i] == v;
    }
    forall i, j | 0 <= i < j < |all| ensures Before(Dy.Times(s.posts), all[j].id, all[i].id) {
      assert Before(Dy.Times(s.posts), oldest[n - 1 - j], oldest[n - 1 - i]);
    }
  }

  function Concat(pages: seq<seq<Dy.PostView>>): seq<Dy.PostView> {
    if pages == [] then []
    else
      var last := |pages| - 1;
      Concat(pages[..last]) + pages[last]
  }

  /** A page answered when no two posts were created at one instant is the page of the one list. */
  lemma AnsweredPage(s: Dy.Store, page: nat, size: nat, filter: Option<string>, posts: seq<Dy.PostView>, total: nat)
    requires page >= 1 && size >= 1 && DistinctTimes(Dy.Times(s.posts))
    requires Dy.PageOf(s, page, size, filter, posts, total)
    ensures (posts, total) == Dy.ListPosts(s, page, size, filter)
  {
    var ids, all :| Dy.ListsPosts(s, filter, ids, all)
      && posts == Slice(all, Offset(page, size), size) && total == |all|;
    Dy.ItemsNewest(s, filter, ids, all);
    hide Dy.Newest, Slice, Offset, Dy.ListsPosts;
  }

  lemma {:induction false} AnsweredAreFirst(
    s: Dy.Store, size: nat, filter: Option<string>, pages: seq<seq<Dy.PostView>>, total: nat)
    requires size >= 1 && DistinctTimes(Dy.Times(s.posts))
    requires forall i :: 0 <= i < |pages| ==> Dy.PageOf(s, i + 1, size, filter, pages[i], total)
    ensures Concat(pages) == FirstPages(s, size, filter, |pages|)
  {
    hide Dy.PageOf, Dy.ListPosts;
    if pages != [] {
      var last := |pages| - 1;
      AnsweredAreFirst(s, size, filter, pages[..last], total);
      AnsweredPage(s, last + 1, size, filter, pages[last], total);
    }
  }

  /** Pages 1 to n as they were answered are the whole list when they reach the total they report: every selected post
      once, newest first. */
  lemma AnsweredPagesCover(
    s: Dy.Store, size: nat, filter: Option<string>, pages: seq<seq<Dy.PostView>>, total: nat)
    requires size >= 1 && DistinctTimes(Dy.Times(s.posts)) && pages != [] && |pages| * size >= total
    requires forall i :: 0 <= i < |pages| ==> Dy.PageOf(s, i + 1, size, filter, pages[i], total)
    ensures Concat(pages) == Dy.Newest(s, filter)
  {
    AnsweredPage(s, 1, size, filter, pages[0], total);
    AnsweredAreFirst(s, size, filter, pages, total);
    assert total == |Dy.Newest(s, filter)|;
    hide Dy.Newest, Dy.PageOf, Concat, FirstPages;
    PagesCoverList(s, size, filter, |pages|);
  }
}
