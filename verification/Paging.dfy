/**
 The page protocol of the amoCRM API: page `page` of size `limit` holds the
 records (page-1)*limit .. page*limit of a listing, and links to a next page
 exactly when records remain after it.
 */
module Paging {
  import opened Base

  datatype Page<T> = Page(items: seq<T>, hasNext: bool)

  /** The records on `pages` pages of `size`: pages * size, without a product for the solver. */
  function Span(pages: nat, size: nat): (records: nat)
    ensures size >= 1 ==> records >= pages
  {
    if pages == 0 then 0 else Span(pages - 1, size) + size
  }

  lemma {:induction false} SpanIsProduct(pages: nat, size: nat)
    ensures Span(pages, size) == pages * size
  {
    if pages > 0 {
      SpanIsProduct(pages - 1, size);
      assert pages * size == (pages - 1) * size + size;
    }
  }

  lemma {:induction false} SpanGrows(pages: nat, a: nat, b: nat)
    requires a <= b
    ensures Span(pages, a) <= Span(pages, b)
  {
    if pages > 0 {
      SpanGrows(pages - 1, a, b);
    }
  }

  function Fetch<T>(listing: seq<T>, page: nat, limit: nat): Page<T>
    requires page >= 1 && limit >= 1
  {
    var lo, hi := Span(page - 1, limit), Span(page, limit);
    Page(listing[Min(lo, |listing|)..Min(hi, |listing|)], hi < |listing|)
  }

  lemma FetchBounds<T>(listing: seq<T>, page: nat, limit: nat)
    requires page >= 1 && limit >= 1
    ensures var data := Fetch(listing, page, limit);
            && |data.items| <= limit
            && (data.hasNext <==> |listing| > Span(page, limit))
            && (data.hasNext ==> |data.items| == limit)
            && (|data.items| == 0 <==> |listing| <= Span(page - 1, limit))
            && (!data.hasNext && |data.items| > 0 ==> Span(page - 1, limit) + |data.items| == |listing|)
  {
  }

  /** Adds the ids not seen before, in order, as a JavaScript Set or Map keyed by id does. */
  function AddNew<T(==)>(seen: seq<T>, items: seq<T>): seq<T>
    decreases |items|
  {
    if |items| == 0 then seen
    else AddNew(if items[0] in seen then seen else seen + [items[0]], items[1..])
  }

  lemma {:induction false} AddNewMeans<T>(seen: seq<T>, items: seq<T>)
    ensures Elements(AddNew(seen, items)) == Elements(seen) + Elements(items)
    ensures Distinct(seen) ==> Distinct(AddNew(seen, items))
    decreases |items|
  {
    if |items| > 0 {
      var seen' := if items[0] in seen then seen else seen + [items[0]];
      AddNewMeans(seen', items[1..]);
      assert Elements(items) == {items[0]} + Elements(items[1..]);
      assert Elements(seen') == Elements(seen) + {items[0]};
    }
  }

  lemma {:induction false} AddSlice<T>(listing: seq<T>, n: nat, lo: nat, hi: nat)
    requires Distinct(listing) && lo <= n <= |listing| && lo <= hi <= |listing|
    ensures AddNew(listing[..n], listing[lo..hi]) == listing[..Max(n, hi)]
    decreases hi - lo
  {
    if lo < hi {
      assert listing[lo..hi][1..] == listing[lo + 1..hi];
      if lo < n {
        assert listing[..n][lo] == listing[lo];
        AddSlice(listing, n, lo + 1, hi);
      } else {
        assert listing[..n] + [listing[n]] == listing[..n + 1];
        AddSlice(listing, n + 1, lo + 1, hi);
      }
    }
  }

  /**
   One more page keeps the ids seen a prefix of the listing, whatever page
   size it is asked with, as long as its own start lies inside that prefix.
   */
  lemma PrefixGrows<T>(listing: seq<T>, seen: seq<T>, page: nat, limit: nat)
    requires page >= 1 && limit >= 1 && Distinct(listing) && seen <= listing
    requires Span(page - 1, limit) <= |seen|
    ensures var seen' := AddNew(seen, Fetch(listing, page, limit).items);
            seen' <= listing && |seen'| == Max(|seen|, Min(Span(page, limit), |listing|))
  {
    assert seen == listing[..|seen|];
    AddSlice(listing, |seen|, Span(page - 1, limit), Min(Span(page, limit), |listing|));
  }

  lemma FetchIsSlice<T>(listing: seq<T>, page: nat, limit: nat) returns (lo: nat, hi: nat)
    requires page >= 1 && limit >= 1 && Span(page - 1, limit) <= |listing|
    ensures lo <= hi <= |listing| && lo == Span(page - 1, limit)
    ensures Fetch(listing, page, limit).items == listing[lo..hi]
  {
    lo, hi := Span(page - 1, limit), Min(Span(page, limit), |listing|);
  }

  /** So does the part of a page that was handled before a failure. */
  lemma PartGrows<T>(listing: seq<T>, seen: seq<T>, page: nat, limit: nat, n: nat)
    requires page >= 1 && limit >= 1 && Distinct(listing) && seen <= listing
    requires Span(page - 1, limit) <= |seen| && n <= |Fetch(listing, page, limit).items|
    ensures AddNew(seen, Fetch(listing, page, limit).items[..n]) <= listing
  {
    hide Fetch, Span, AddNew, Distinct;
    var lo, hi := FetchIsSlice(listing, page, limit);
    assert seen == listing[..|seen|];
    assert listing[lo..hi][..n] == listing[lo..lo + n];
    AddSlice(listing, |seen|, lo, lo + n);
  }

  // ----- the deal loop: counts fetched records against its cap -----

  /**
   The largest listing that the deal loop can finish: a shrunken last page
   restarts earlier in the listing and still uses up the cap.
   */
  function DealCapacity(cap: nat): nat
    requires cap >= 1
  {
    if cap <= 250 then cap
    else
      var full, rest := cap / 250, cap % 250;
      if rest == 0 then cap else Max(full * 250, Span(full + 1, rest))
  }

  lemma DealCapacityAtMostCap(cap: nat)
    requires cap >= 1
    ensures DealCapacity(cap) <= cap
  {
    if cap > 250 {
      var full, rest := cap / 250, cap % 250;
      SpanGrows(full, rest, 250);
      SpanIsProduct(full, 250);
    }
  }

  /** The capacity never exceeds the configured cap, and reaches it only for some caps. */
  lemma DealCapacityIsCapIff(cap: nat)
    requires cap >= 1
    ensures DealCapacity(cap) <= cap
    ensures DealCapacity(cap) == cap <==> cap <= 250 || cap % 250 == 0
    ensures DealCapacity(450) == 400
  {
    DealCapacityAtMostCap(cap);
    if cap > 250 {
      var full, rest := cap / 250, cap % 250;
      assert Span(full + 1, rest) == Span(full, rest) + rest && Span(full, rest) == Span(full - 1, rest) + rest;
      SpanGrows(full - 1, rest, 250);
      SpanIsProduct(full - 1, 250);
    }
    SpanIsProduct(2, 200);
  }

  /**
   Between two pages, `total` records fetched and `n` of `size` distinct ones
   seen: a full prefix, or the cap used up by a listing beyond capacity.
   */
  ghost predicate DealLoop(size: nat, cap: nat, page: nat, total: nat, n: nat)
    requires cap >= 1
  {
    && page >= 1 && total <= cap && n <= size
    && (|| (n == total == Span(page - 1, Min(250, cap)) && (page > 1 ==> size > total))
        || (page > 1 && total == cap && size > n == DealCapacity(cap)))
  }

  /** What the loop relies on after a page of `limit` records. */
  ghost predicate DealPageOk(size: nat, cap: nat, page: nat, total: nat, n: nat, limit: nat)
    requires cap >= 1 && page >= 1 && limit >= 1
  {
    var reached := Max(n, Min(Span(page, limit), size));
    && Span(page - 1, limit) <= n
    && (size <= Span(page - 1, limit) ==> page == 1 && n == size == 0)
    && (Span(page, limit) < size ==> DealLoop(size, cap, page + 1, total + limit, reached))
    && (Span(page, limit) >= size ==>
          reached == size <= DealCapacity(cap) && total - Span(page - 1, limit) + size <= cap)
  }

  lemma OnlyPage(size: nat, cap: nat, page: nat, total: nat, n: nat)
    requires 1 <= cap <= 250 && total < cap && DealLoop(size, cap, page, total, n)
    ensures page == 1 && DealPageOk(size, cap, page, total, n, cap)
  {
  }

  lemma FullPage(size: nat, cap: nat, page: nat, total: nat, n: nat)
    requires cap > 250 && total + 250 <= cap && DealLoop(size, cap, page, total, n)
    ensures DealPageOk(size, cap, page, total, n, 250)
  {
    SpanIsProduct(page, 250);
  }

  lemma ShrunkenPage(size: nat, cap: nat, page: nat, total: nat, n: nat)
    requires cap > 250 && cap - 250 < total < cap && DealLoop(size, cap, page, total, n)
    ensures DealPageOk(size, cap, page, total, n, cap - total)
  {
    SpanIsProduct(page - 1, 250);
    assert page - 1 == cap / 250 && cap - total == cap % 250;
    SpanGrows(page - 1, cap - total, 250);
  }

  /** One page of the deal loop, asked with min(250, cap - total) records. */
  lemma DealPage(size: nat, cap: nat, page: nat, total: nat, n: nat)
    requires cap >= 1 && total < cap && DealLoop(size, cap, page, total, n)
    ensures DealPageOk(size, cap, page, total, n, Min(Min(250, cap), cap - total))
  {
    if cap <= 250 {
      OnlyPage(size, cap, page, total, n);
    } else if total + 250 <= cap {
      FullPage(size, cap, page, total, n);
    } else {
      ShrunkenPage(size, cap, page, total, n);
    }
  }

  /** The same with the page itself: what the ids seen are after it. */
  lemma DealStep<T>(listing: seq<T>, seen: seq<T>, cap: nat, page: nat, total: nat)
    requires cap >= 1 && total < cap && Distinct(listing) && seen <= listing
    requires DealLoop(|listing|, cap, page, total, |seen|)
    ensures var data := Fetch(listing, page, Min(Min(250, cap), cap - total));
            var seen' := AddNew(seen, data.items);
            && Span(page - 1, Min(Min(250, cap), cap - total)) <= |seen| && (forall id <- data.items :: id in listing)
            && seen' <= listing && total + |data.items| <= cap
            && (data.hasNext ==> |data.items| > 0 && DealLoop(|listing|, cap, page + 1, total + |data.items|, |seen'|))
            && (|data.items| == 0 ==> seen == listing && |listing| <= DealCapacity(cap))
            && (!data.hasNext ==> seen' == listing && |listing| <= DealCapacity(cap))
  {
    var limit := Min(Min(250, cap), cap - total);
    DealPage(|listing|, cap, page, total, |seen|);
    hide DealLoop, DealCapacity, Distinct, AddNew;
    FetchBounds(listing, page, limit);
    PrefixGrows(listing, seen, page, limit);
  }

  /** A used up cap means that the listing is beyond capacity, and that its first part was seen. */
  lemma CapUsedUp(size: nat, cap: nat, page: nat, total: nat, n: nat)
    requires cap >= 1 && total >= cap && DealLoop(size, cap, page, total, n)
    ensures page > 1 && total == cap && size > n == DealCapacity(cap)
  {
    if n == total == Span(page - 1, Min(250, cap)) {
      SpanIsProduct(page - 1, 250);
      DealCapacityIsCapIff(cap);
    }
  }

  // ----- the event loop: counts distinct records against its cap -----

  /**
   Between two pages, `n` of `size` records seen: they reach past the last page
   asked for, with `asked` records, and later pages are never larger.
   */
  ghost predicate EventLoop(size: nat, cap: nat, page: nat, asked: nat, n: nat) {
    && page >= 1 && asked >= 1 && n <= cap && n <= size
    && (page == 1 ==> n == 0)
    && (page > 1 ==> Span(page - 1, asked) <= n && Span(page - 1, asked) < size)
    && (page > 1 ==> Min(Min(100, cap), cap - n) <= asked)
    && (n == cap ==> size > cap)
  }

  /** One page more: it starts inside what was seen, and only the end of the listing has no next page. */
  lemma EventPage(size: nat, cap: nat, page: nat, asked: nat, n: nat)
    requires n < cap && EventLoop(size, cap, page, asked, n)
    ensures var limit := Min(Min(100, cap), cap - n);
            var reached := Max(n, Min(Span(page, limit), size));
            && Span(page - 1, limit) <= n
            && (size <= Span(page - 1, limit) ==> page == 1 && n == size == 0)
            && (Span(page, limit) < size ==> EventLoop(size, cap, page + 1, limit, reached) && page < size)
            && (Span(page, limit) >= size ==> reached == size <= cap)
  {
    var limit := Min(Min(100, cap), cap - n);
    if page > 1 {
      SpanGrows(page - 1, limit, asked);
    }
  }
}
