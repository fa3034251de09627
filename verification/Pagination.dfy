/** Pages of the forum's lists (examples/forum/src/server.rs:126-185): u32 arithmetic, then skip and
    take. */
module Pagination {
  import opened Wrappers

  const U32_SIZE: int := 0x1_0000_0000

  function Min(a: int, b: int): int { if a < b then a else b }

  function Reversed<T>(s: seq<T>): (r: seq<T>)
    ensures |r| == |s| && forall i :: 0 <= i < |s| ==> r[i] == s[|s| - 1 - i]
  {
    seq(|s|, i requires 0 <= i < |s| => s[|s| - 1 - i])
  }

  function Start(page: nat, size: nat): int
    requires page > 0
  {
    (page - 1) * size
  }

  /** One page; None when `(page - 1) * per_page` leaves u32. */
  function Page<T>(items: seq<T>, page: nat, perPage: nat): Option<seq<T>> {
    var size := Min(perPage, 100);
    if page == 0 || Start(page, size) >= U32_SIZE then None
    else
      var start := Start(page, size);
      StartNonNegative(page, size);
      if start >= |items| then Some([]) else Some(items[start..Min(start + size, |items|)])
  }

  /** list_threads: newest first, 20 to a page unless the query says otherwise. */
  function ListThreads<T>(threads: seq<T>, page: Option<nat>, perPage: Option<nat>): Option<seq<T>> {
    Page(Reversed(threads), if page.Some? then page.value else 1, if perPage.Some? then perPage.value else 20)
  }

  /** get_thread: replies in order, 50 to a page unless the query says otherwise. */
  function ListReplies<T>(replies: seq<T>, page: Option<nat>, perPage: Option<nat>): Option<seq<T>> {
    Page(replies, if page.Some? then page.value else 1, if perPage.Some? then perPage.value else 50)
  }

  /** Pages 1..n, concatenated; None when one of them overflows. */
  function Pages<T>(items: seq<T>, perPage: nat, n: nat): Option<seq<T>> {
    if n == 0 then Some([])
    else
      var before :- Pages(items, perPage, n - 1);
      var last :- Page(items, n, perPage);
      Some(before + last)
  }

  /** The number of the last page that is not empty. */
  function LastPage(length: nat, perPage: nat): nat
    requires perPage > 0
  {
    (length + perPage - 1) / perPage
  }

  lemma StartNonNegative(page: nat, size: nat)
    requires page > 0
    ensures Start(page, size) >= 0
  {
  }

  lemma NextStart(page: nat, size: nat)
    requires page > 0
    ensures Start(page + 1, size) == Start(page, size) + size
    ensures Start(1, size) == 0
  {
  }

  lemma {:induction false} StartMonotone(a: nat, b: nat, size: nat)
    requires 0 < a <= b
    ensures Start(a, size) <= Start(b, size)
  {
  }

  /** The last page starts before the end of the list and ends at or after it. */
  lemma LastPageBound(length: nat, perPage: nat)
    requires perPage > 0
    ensures Start(LastPage(length, perPage) + 1, perPage) >= length
    ensures LastPage(length, perPage) > 0 ==> Start(LastPage(length, perPage), perPage) < length
  {
    var q := LastPage(length, perPage);
    assert length + perPage - 1 == perPage * q + (length + perPage - 1) % perPage;
    assert q * perPage == perPage * q;
    if q > 0 {
      NextStart(q, perPage);
    }
  }

  /** The first n pages are the elements before page n + 1. */
  lemma {:induction false} PagesArePrefix<T>(items: seq<T>, perPage: nat, n: nat)
    requires 1 <= perPage <= 100 && (n > 0 ==> Start(n, perPage) < U32_SIZE)
    ensures Start(n + 1, perPage) >= 0
    ensures Pages(items, perPage, n) == Some(items[..Min(Start(n + 1, perPage), |items|)])
  {
    hide Start;
    StartNonNegative(n + 1, perPage);
    NextStart(if n > 0 then n else 1, perPage);
    if n > 0 {
      StartNonNegative(n, perPage);
      if n > 1 {
        StartMonotone(n - 1, n, perPage);
      }
      PagesArePrefix(items, perPage, n - 1);
      var start := Start(n, perPage);
      if start < |items| {
        var stop := Min(start + perPage, |items|);
        assert items[..start] + items[start..stop] == items[..stop];
      } else {
        assert items[..|items|] + [] == items[..|items|];
      }
    }
  }

  /** For every list within u32 and every page size from 1 to 100: pages 1, 2, ... up to the last one
      that is not empty concatenate to the list, and their arithmetic stays within u32. */
  lemma PagesCoverList<T>(items: seq<T>, perPage: nat)
    requires 1 <= perPage <= 100 && |items| < U32_SIZE
    ensures Pages(items, perPage, LastPage(|items|, perPage)) == Some(items)
    ensures forall page :: 1 <= page <= LastPage(|items|, perPage) ==>
              Page(items, page, perPage).Some? && Page(items, page, perPage).value != []
    ensures forall page, some :: page > LastPage(|items|, perPage) && Page(items, page, perPage) == Some(some) ==>
              some == []
  {
    hide Start, LastPage, Pages;
    var n := LastPage(|items|, perPage);
    LastPageBound(|items|, perPage);
    PagesArePrefix(items, perPage, n);
    assert items[..|items|] == items;
    forall page | 1 <= page <= n ensures Page(items, page, perPage).Some? && Page(items, page, perPage).value != [] {
      StartMonotone(page, n, perPage);
      StartNonNegative(page, perPage);
    }
    forall page, some | page > n && Page(items, page, perPage) == Some(some) ensures some == [] {
      StartMonotone(n + 1, page, perPage);
    }
  }

  lemma PageOfIndex(i: nat, page: nat, perPage: nat)
    requires perPage > 0 && page > 0
    ensures Start(page, perPage) <= i < Start(page, perPage) + perPage <==> page == i / perPage + 1
    ensures page == i / perPage + 1 ==> i == Start(page, perPage) + i % perPage
  {
    var own := i / perPage + 1;
    assert i == Start(own, perPage) + i % perPage;
    hide Start;
    if page < own {
      NextStart(page, perPage);
      StartMonotone(page + 1, own, perPage);
    } else if page > own {
      NextStart(own, perPage);
      StartMonotone(own + 1, page, perPage);
    }
  }

  /** Position i of the list is shown on page i / perPage + 1, at place i % perPage, and on no other. */
  lemma ElementOnOnePage<T>(items: seq<T>, perPage: nat, i: nat, page: nat)
    requires 1 <= perPage <= 100 && i < |items| < U32_SIZE && Page(items, page, perPage).Some?
    ensures page == i / perPage + 1 <==>
            Start(page, perPage) <= i < Start(page, perPage) + |Page(items, page, perPage).value|
    ensures page == i / perPage + 1 ==>
              var shown := Page(items, page, perPage).value; i % perPage < |shown| && shown[i % perPage] == items[i]
  {
    hide Start;
    PageOfIndex(i, page, perPage);
    StartNonNegative(page, perPage);
  }

  /** With the queries' own order: position i counts from the newest thread. */
  lemma ThreadsNewestFirst<T>(threads: seq<T>, perPage: nat, i: nat)
    requires 1 <= perPage <= 100 && i < |threads| < U32_SIZE
    ensures var page := ListThreads(threads, Some(i / perPage + 1), Some(perPage));
            page.Some? && i % perPage < |page.value| && page.value[i % perPage] == threads[|threads| - 1 - i]
  {
    hide Start;
    var items := Reversed(threads);
    var page := i / perPage + 1;
    PageOfIndex(i, page, perPage);
    ElementOnOnePage(items, perPage, i, page);
  }

  /** Replies are shown in the order of the thread. */
  lemma RepliesInOrder<T>(replies: seq<T>, perPage: nat, i: nat)
    requires 1 <= perPage <= 100 && i < |replies| < U32_SIZE
    ensures var page := ListReplies(replies, Some(i / perPage + 1), Some(perPage));
            page.Some? && i % perPage < |page.value| && page.value[i % perPage] == replies[i]
  {
    hide Start;
    PageOfIndex(i, i / perPage + 1, perPage);
    ElementOnOnePage(replies, perPage, i, i / perPage + 1);
  }

  /** Without a query a thread's first fifty replies are shown, and the twenty newest threads. */
  lemma DefaultPages<T>(items: seq<T>)
    requires |items| < U32_SIZE
    ensures ListReplies(items, None, None) == Some(items[..Min(50, |items|)])
    ensures ListThreads(items, None, None) == Some(Reversed(items)[..Min(20, |items|)])
  {
    assert Start(1, 50) == 0 && Start(1, 20) == 0;
  }

  /** Which requests fail: page 0, and those whose `(page - 1) * per_page` leaves u32, with more than a
      hundred to a page taken for a hundred. */
  lemma PageFailsIff<T>(items: seq<T>, page: nat, perPage: nat)
    ensures Page(items, page, perPage).None? <==>
            page == 0 || (page - 1) * (if perPage > 100 then 100 else perPage) >= 4_294_967_296
    ensures perPage > 100 ==> Page(items, page, perPage) == Page(items, page, 100)
    ensures perPage == 0 && page > 0 ==> Page(items, page, perPage) == Some([])
  {
    if page > 0 && perPage == 0 {
      assert Start(page, 0) == 0;
    }
  }
}
