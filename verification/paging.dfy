/** Listing posts: newest-first order, the in-place sort that produces it, and
    the page window cut out of the sorted listing. Page numbers start at 1;
    page 0 is read as page 1. Indices are unbounded naturals. */
module Paging {
  import opened Models

  function Min(a: int, b: int): int
  {
    if a <= b then a else b
  }

  /** Newest first: creation instants never increase along the sequence. */
  ghost predicate NewestFirst(s: seq<Post>)
  {
    forall i, j :: 0 <= i < j < |s| ==> s[i].createdAt >= s[j].createdAt
  }

  /** The first index of a page: `page.saturating_sub(1) * limit`. */
  function PageStart(page: nat, limit: nat): nat
  {
    (if page == 0 then 0 else page - 1) * limit
  }

  /** The page of `s` numbered `page`, each page `limit` long: from the page
      start to `min(start + limit, |s|)`, or nothing when the start is at or
      past the end. */
  function Window<T>(s: seq<T>, page: nat, limit: nat): (r: seq<T>)
    ensures |r| <= limit
  {
    var start := PageStart(page, limit);
    var end := Min(start + limit, |s|);
    if start < |s| then s[start..end] else []
  }

  /** A page is a contiguous slice of the listing, clamped to its end, so a
      page past the end is empty. */
  lemma WindowIsSlice<T>(s: seq<T>, page: nat, limit: nat)
    ensures Window(s, page, limit) == s[Min(PageStart(page, limit), |s|)..Min(PageStart(page, limit) + limit, |s|)]
    ensures PageStart(page, limit) >= |s| ==> Window(s, page, limit) == []
    ensures forall i :: 0 <= i < |Window(s, page, limit)| ==> Window(s, page, limit)[i] == s[PageStart(page, limit) + i]
  {
  }

  /** Page 0 and page 1 are the same page. */
  lemma PageZeroIsPageOne<T>(s: seq<T>, limit: nat)
    ensures Window(s, 0, limit) == Window(s, 1, limit)
  {
  }

  /** A page of a newest-first listing is itself newest first. */
  lemma WindowNewestFirst(s: seq<Post>, page: nat, limit: nat)
    requires NewestFirst(s)
    ensures NewestFirst(Window(s, page, limit))
  {
    WindowIsSlice(s, page, limit);
  }

  /** Pages 1 to n, one after another. */
  function Pages<T>(s: seq<T>, n: nat, limit: nat): seq<T>
  {
    if n == 0 then [] else Pages(s, n - 1, limit) + Window(s, n, limit)
  }

  /** Reading pages 1 to n in turn yields the first n * limit items of the
      listing, each exactly once and in order: pages neither overlap nor skip. */
  lemma {:induction false} PagesCover<T>(s: seq<T>, n: nat, limit: nat)
    ensures Pages(s, n, limit) == s[..Min(n * limit, |s|)]
  {
    if n > 0 {
      PagesCover(s, n - 1, limit);
      var lo := Min((n - 1) * limit, |s|);
      var hi := Min(n * limit, |s|);
      assert PageStart(n, limit) == (n - 1) * limit;
      assert (n - 1) * limit + limit == n * limit;
      WindowIsSlice(s, n, limit);
      assert Window(s, n, limit) == s[lo..hi];
      assert s[..lo] + s[lo..hi] == s[..hi];
    }
  }

  /** Exchanges two neighbouring posts. */
  method SwapWithPrevious(a: array<Post>, j: nat)
    requires 0 < j < a.Length
    modifies a
    ensures a[j - 1] == old(a[j]) && a[j] == old(a[j - 1])
    ensures forall k :: 0 <= k < a.Length && k != j - 1 && k != j ==> a[k] == old(a[k])
    ensures multiset(a[..]) == multiset(old(a[..]))
  {
    a[j - 1], a[j] := a[j], a[j - 1];
  }

  /** Moves `a[i]` left past every strictly older post, so that the newest-first
      prefix `a[..i]` grows to `a[..i + 1]`. */
  method InsertNewest(a: array<Post>, i: nat)
    requires i < a.Length
    requires forall x, y :: 0 <= x < y < i ==> a[x].createdAt >= a[y].createdAt
    modifies a
    ensures forall x, y :: 0 <= x < y <= i ==> a[x].createdAt >= a[y].createdAt
    ensures multiset(a[..]) == multiset(old(a[..]))
  {
    var j := i;
    while 0 < j && a[j - 1].createdAt < a[j].createdAt
      invariant 0 <= j <= i
      invariant forall x, y :: 0 <= x < y <= i && y != j ==> a[x].createdAt >= a[y].createdAt
      invariant 0 < j < i ==> a[j - 1].createdAt >= a[j + 1].createdAt
      invariant multiset(a[..]) == multiset(old(a[..]))
    {
      SwapWithPrevious(a, j);
      j := j - 1;
    }
  }

  /** `sort_by(|a, b| b.created_at.cmp(&a.created_at))`: a stable insertion
      sort, newest first, that permutes the array in place. */
  method SortNewestFirst(a: array<Post>)
    modifies a
    ensures NewestFirst(a[..])
    ensures multiset(a[..]) == multiset(old(a[..]))
  {
    var i := 0;
    while i < a.Length
      invariant 0 <= i <= a.Length
      invariant forall x, y :: 0 <= x < y < i ==> a[x].createdAt >= a[y].createdAt
      invariant multiset(a[..]) == multiset(old(a[..]))
    {
      InsertNewest(a, i);
      i := i + 1;
    }
  }
}
