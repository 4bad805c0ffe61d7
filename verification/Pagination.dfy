// Cursor pagination by modification date: a page, its links, and what following them delivers.
module Pagination {
  import opened Common
  import opened Seqs
  import opened Ordering

  type Stamp = int // ISO date-times, compared as strings

  const MAX_LIST_LIMIT := 10000

  datatype Item = Item(id: string, dateModified: Stamp, version: nat)

  // A place in the feed: nothing delivered yet, or everything up to a date.
  type Offset = Option<Stamp>

  datatype Link = Link(offset: Offset, limit: nat, reverse: bool)

  datatype Page = Page(items: seq<Item>, next: Link, prev: Option<Link>)

  function ByStamp(reverse: bool): Order<Item> {
    (a: Item, b: Item) => if reverse then a.dateModified >= b.dateModified else a.dateModified <= b.dateModified
  }

  function After(offset: Offset, reverse: bool): Item -> bool {
    (i: Item) => offset.None? || if reverse then i.dateModified < offset.value else i.dateModified > offset.value
  }

  function Clamp(limit: int): nat {
    Max(Min(limit, MAX_LIST_LIMIT), 1)
  }

  // What is left to deliver, in order; the page is the first part of it.
  function Rest(items: seq<Item>, offset: Offset, reverse: bool): seq<Item> {
    SortBy(ByStamp(reverse), Filter(items, After(offset, reverse)))
  }

  function PageItems(items: seq<Item>, offset: Offset, limit: nat, reverse: bool): seq<Item> {
    var rest := Rest(items, offset, reverse);
    rest[..Min(limit, |rest|)]
  }

  // The offset of the next page: that of the last item, or the same one if there was none.
  function NextOffset(page: seq<Item>, offset: Offset): Offset {
    if page == [] then offset else Some(page[|page| - 1].dateModified)
  }

  method PaginatedResult(items: seq<Item>, offset: Offset, limit: int, reverse: bool) returns (page: Page)
    ensures page.items == PageItems(items, offset, Clamp(limit), reverse)
    ensures page.next == Link(NextOffset(page.items, offset), Clamp(limit), reverse)
    ensures page.prev ==
            if offset.None? then None
            else Some(Link(if page.items == [] then offset else Some(page.items[0].dateModified), Clamp(limit), !reverse))
  {
    var size := if limit > MAX_LIST_LIMIT then MAX_LIST_LIMIT else limit;
    size := if size < 1 then 1 else size;
    var found := SortBy(ByStamp(reverse), Filter(items, After(offset, reverse)));
    if |found| > size {
      found := found[..size];
    }
    var next, prev := Link(offset, size, reverse), Link(offset, size, !reverse);
    if found != [] {
      next := next.(offset := Some(found[|found| - 1].dateModified));
      prev := prev.(offset := Some(found[0].dateModified));
    }
    page := Page(found, next, if offset.Some? then Some(prev) else None);
  }

  /******* Where the next page starts *******/

  lemma StampsAreOrdered(reverse: bool)
    ensures TotalPreorder(ByStamp(reverse))
  {
  }

  // How many of the items after position n bear the date of the one before it.
  function Ties(rest: seq<Item>, n: nat): nat
    requires 0 < n <= |rest|
    ensures n + Ties(rest, n) <= |rest|
    decreases |rest| - n
  {
    if n < |rest| && rest[n].dateModified == rest[n - 1].dateModified then 1 + Ties(rest, n + 1) else 0
  }

  lemma {:induction false} TiesAreTied(rest: seq<Item>, n: nat)
    requires 0 < n <= |rest|
    ensures forall i :: n <= i < n + Ties(rest, n) ==> rest[i].dateModified == rest[n - 1].dateModified
    ensures n + Ties(rest, n) < |rest| ==> rest[n + Ties(rest, n)].dateModified != rest[n - 1].dateModified
    decreases |rest| - n
  {
    if n < |rest| && rest[n].dateModified == rest[n - 1].dateModified {
      TiesAreTied(rest, n + 1);
    }
  }

  lemma BeyondIsSuffix(rest: seq<Item>, k: nat, offset: Offset, reverse: bool)
    requires k <= |rest|
    requires forall i :: 0 <= i < k ==> !After(offset, reverse)(rest[i])
    requires forall i :: k <= i < |rest| ==> After(offset, reverse)(rest[i])
    ensures Filter(rest, After(offset, reverse)) == rest[k..]
  {
    assert rest == rest[..k] + rest[k..];
    FilterConcat(rest[..k], rest[k..], After(offset, reverse));
    FilterNone(rest[..k], After(offset, reverse));
    FilterAll(rest[k..], After(offset, reverse));
  }

  lemma FurtherOffset(items: seq<Item>, offset: Offset, reverse: bool, next: Stamp)
    requires offset.Some? ==> if reverse then next <= offset.value else next >= offset.value
    ensures Rest(items, Some(next), reverse) == Filter(Rest(items, offset, reverse), After(Some(next), reverse))
  {
    var here, there := After(offset, reverse), After(Some(next), reverse);
    StampsAreOrdered(reverse);
    FilterSorted(ByStamp(reverse), Filter(items, here), there);
    FilterFilter(items, here, there);
    FilterAgrees(items, Both(here, there), there);
  }

  lemma RestIsSorted(items: seq<Item>, offset: Offset, reverse: bool)
    ensures IsSorted(ByStamp(reverse), Rest(items, offset, reverse))
    ensures forall x :: x in Rest(items, offset, reverse) ==> After(offset, reverse)(x)
  {
    StampsAreOrdered(reverse);
    SortedMembers(ByStamp(reverse), items, After(offset, reverse));
    SortIsSorted(ByStamp(reverse), Filter(items, After(offset, reverse)));
  }

  lemma TiesEndTheOffset(rest: seq<Item>, reverse: bool, n: nat)
    requires IsSorted(ByStamp(reverse), rest) && 0 < n <= |rest|
    ensures Filter(rest, After(Some(rest[n - 1].dateModified), reverse)) == rest[n + Ties(rest, n)..]
  {
    var last, k := rest[n - 1].dateModified, n + Ties(rest, n);
    TiesAreTied(rest, n);
    forall i | 0 <= i < k
      ensures !After(Some(last), reverse)(rest[i])
    {
      assert i < n - 1 ==> ByStamp(reverse)(rest[i], rest[n - 1]);
    }
    forall i | k <= i < |rest|
      ensures After(Some(last), reverse)(rest[i])
    {
      assert ByStamp(reverse)(rest[n - 1], rest[k]);
      assert i > k ==> ByStamp(reverse)(rest[k], rest[i]);
    }
    BeyondIsSuffix(rest, k, Some(last), reverse);
  }

  // Exactly what a step to the next page skips: the items tied with the last one of the page but
  // sorted after it.
  lemma NextPageSkipsTies(items: seq<Item>, offset: Offset, reverse: bool, n: nat)
    requires 0 < n <= |Rest(items, offset, reverse)|
    ensures var rest := Rest(items, offset, reverse);
            Rest(items, Some(rest[n - 1].dateModified), reverse) == rest[n + Ties(rest, n)..]
  {
    hide Rest, Filter, IsSorted, Ties;
    var rest := Rest(items, offset, reverse);
    RestIsSorted(items, offset, reverse);
    assert rest[n - 1] in rest;
    FurtherOffset(items, offset, reverse, rest[n - 1].dateModified);
    TiesEndTheOffset(rest, reverse, n);
  }

  /******* Traversals *******/

  // Following the next links until a page is empty.
  function Follow(items: seq<Item>, offset: Offset, limit: nat, reverse: bool): seq<seq<Item>>
    requires limit > 0
    decreases |Rest(items, offset, reverse)|
  {
    var page := PageItems(items, offset, limit, reverse);
    if page == [] then [] else
    NextPageSkipsTies(items, offset, reverse, |page|);
    [page] + Follow(items, NextOffset(page, offset), limit, reverse)
  }

  function Flatten(pages: seq<seq<Item>>): seq<Item> {
    if pages == [] then [] else pages[0] + Flatten(pages[1..])
  }

  // No page ends between two items of the same date.
  predicate Untorn(rest: seq<Item>, limit: nat)
    requires limit > 0
    decreases |rest|
  {
    |rest| > limit ==> Ties(rest, limit) == 0 && Untorn(rest[limit..], limit)
  }

  lemma {:induction false} FollowIsShorter(items: seq<Item>, offset: Offset, limit: nat, reverse: bool)
    requires limit > 0
    ensures |Flatten(Follow(items, offset, limit, reverse))| <= |Rest(items, offset, reverse)|
    decreases |Rest(items, offset, reverse)|
  {
    var rest, page := Rest(items, offset, reverse), PageItems(items, offset, limit, reverse);
    if page != [] {
      NextPageSkipsTies(items, offset, reverse, |page|);
      FollowIsShorter(items, NextOffset(page, offset), limit, reverse);
      assert Follow(items, offset, limit, reverse)[1..] == Follow(items, NextOffset(page, offset), limit, reverse);
    }
  }

  // Following the links, forward or descending, terminates, and delivers every remaining item once
  // and in order if and only if no page is torn.
  lemma {:induction false} FollowDelivers(items: seq<Item>, offset: Offset, limit: nat, reverse: bool)
    requires limit > 0
    ensures Flatten(Follow(items, offset, limit, reverse)) == Rest(items, offset, reverse) <==>
            Untorn(Rest(items, offset, reverse), limit)
    decreases |Rest(items, offset, reverse)|
  {
    hide Rest;
    var rest, page := Rest(items, offset, reverse), PageItems(items, offset, limit, reverse);
    if page != [] {
      hide Follow, Untorn;
      var next := NextOffset(page, offset);
      NextPageSkipsTies(items, offset, reverse, |page|);
      FollowDelivers(items, next, limit, reverse);
      FollowIsShorter(items, next, limit, reverse);
      FollowStep(items, offset, limit, reverse);
      UntornStep(rest, limit);
      PageAndLater(rest, |page|, Flatten(Follow(items, next, limit, reverse)));
    }
  }

  lemma FollowStep(items: seq<Item>, offset: Offset, limit: nat, reverse: bool)
    requires limit > 0 && PageItems(items, offset, limit, reverse) != []
    ensures var page := PageItems(items, offset, limit, reverse);
            Flatten(Follow(items, offset, limit, reverse)) ==
            page + Flatten(Follow(items, NextOffset(page, offset), limit, reverse))
  {
    var page := PageItems(items, offset, limit, reverse);
    assert Follow(items, offset, limit, reverse)[1..] == Follow(items, NextOffset(page, offset), limit, reverse);
  }

  lemma UntornStep(rest: seq<Item>, limit: nat)
    requires limit > 0 && rest != []
    ensures var n := Min(limit, |rest|);
            Untorn(rest, limit) <==> Ties(rest, n) == 0 && Untorn(rest[n..], limit)
  {
  }

  lemma PageAndLater(rest: seq<Item>, n: nat, later: seq<Item>)
    requires 0 < n <= |rest| && |later| <= |rest| - n - Ties(rest, n)
    ensures rest[..n] + later == rest <==> Ties(rest, n) == 0 && later == rest[n + Ties(rest, n)..]
  {
    assert (rest[..n] + later)[n..] == later;
    assert rest == rest[..n] + rest[n..];
  }

  ghost predicate DistinctStamps(items: seq<Item>) {
    forall i, j :: 0 <= i < j < |items| ==> items[i].dateModified != items[j].dateModified
  }

  lemma {:induction false} DistinctIsUntorn(rest: seq<Item>, limit: nat)
    requires limit > 0 && DistinctStamps(rest)
    ensures Untorn(rest, limit)
    decreases |rest|
  {
    if |rest| > limit {
      DistinctIsUntorn(rest[limit..], limit);
    }
  }

  lemma {:induction false} DistinctFiltered(items: seq<Item>, p: Item -> bool)
    requires DistinctStamps(items)
    ensures DistinctStamps(Filter(items, p))
  {
    if items != [] {
      DistinctFiltered(items[1..], p);
      FilterMembers(items[1..], p);
      if p(items[0]) {
        forall j | 0 <= j < |Filter(items[1..], p)|
          ensures Filter(items[1..], p)[j].dateModified != items[0].dateModified
        {
          assert Filter(items[1..], p)[j] in Filter(items[1..], p);
          var k :| 0 <= k < |items[1..]| && items[1..][k] == Filter(items[1..], p)[j];
          assert items[k + 1] == items[1..][k];
        }
      }
    }
  }

  lemma {:induction false} DistinctSorted(items: seq<Item>, reverse: bool)
    requires DistinctStamps(items)
    ensures DistinctStamps(SortBy(ByStamp(reverse), items))
  {
    if items != [] {
      DistinctSorted(items[1..], reverse);
      StampsAreOrdered(reverse);
      SortIsSorted(ByStamp(reverse), items[1..]);
      var rest := SortBy(ByStamp(reverse), items[1..]);
      forall j | 0 <= j < |rest|
        ensures rest[j].dateModified != items[0].dateModified
      {
        assert rest[j] in multiset(rest);
        assert rest[j] in items[1..];
        var k :| 0 <= k < |items[1..]| && items[1..][k] == rest[j];
        assert items[k + 1] == items[1..][k];
      }
      DistinctInserted(items[0], rest, reverse);
    }
  }

  lemma {:induction false} DistinctInserted(x: Item, s: seq<Item>, reverse: bool)
    requires DistinctStamps(s) && forall j :: 0 <= j < |s| ==> s[j].dateModified != x.dateModified
    ensures DistinctStamps(InsertBy(ByStamp(reverse), x, s))
  {
    if s != [] && !ByStamp(reverse)(x, s[0]) {
      DistinctInserted(x, s[1..], reverse);
      var rest := InsertBy(ByStamp(reverse), x, s[1..]);
      InsertedElements(ByStamp(reverse), x, s[1..]);
      forall j | 0 <= j < |rest|
        ensures rest[j].dateModified != s[0].dateModified
      {
        assert rest[j] in multiset(rest);
        assert rest[j] == x || rest[j] in s[1..];
      }
    }
  }

  lemma DistinctRest(items: seq<Item>, offset: Offset, reverse: bool)
    requires DistinctStamps(items)
    ensures DistinctStamps(Rest(items, offset, reverse))
  {
    DistinctFiltered(items, After(offset, reverse));
    DistinctSorted(Filter(items, After(offset, reverse)), reverse);
  }

  // With distinct dates: from the empty offset the pages add up to the sorted collection.
  lemma TraversalIsComplete(items: seq<Item>, limit: nat, reverse: bool)
    requires limit > 0 && DistinctStamps(items)
    ensures Flatten(Follow(items, None, limit, reverse)) == SortBy(ByStamp(reverse), items)
  {
    FilterAll(items, After(None, reverse));
    DistinctRest(items, None, reverse);
    DistinctIsUntorn(Rest(items, None, reverse), limit);
    FollowDelivers(items, None, limit, reverse);
  }

  /******* Going back *******/

  function Reversed(s: seq<Item>): (r: seq<Item>)
    ensures |r| == |s| && forall i :: 0 <= i < |s| ==> r[i] == s[|s| - 1 - i]
  {
    seq(|s|, i requires 0 <= i < |s| => s[|s| - 1 - i])
  }

  // Sorted lists of the same items with distinct dates are equal.
  lemma {:induction false} SortedIsUnique(a: seq<Item>, b: seq<Item>, reverse: bool)
    requires IsSorted(ByStamp(reverse), a) && IsSorted(ByStamp(reverse), b)
    requires DistinctStamps(a) && DistinctStamps(b)
    requires forall x :: x in a <==> x in b
    ensures a == b
  {
    assert (a != [] ==> a[0] in a) && (b != [] ==> b[0] in b);
    if a != [] {
      assert a[0] in b && b[0] in a;
      assert a[0] == b[0] by {
        var i :| 0 <= i < |b| && b[i] == a[0];
        var j :| 0 <= j < |a| && a[j] == b[0];
        assert i > 0 ==> ByStamp(reverse)(b[0], b[i]);
        assert j > 0 ==> ByStamp(reverse)(a[0], a[j]);
      }
      forall x
        ensures x in a[1..] <==> x in b[1..]
      {
        assert x in a[1..] <==> x in a && x != a[0];
        assert x in b[1..] <==> x in b && x != b[0];
      }
      SortedIsUnique(a[1..], b[1..], reverse);
    }
  }

  // On a sorted list with distinct dates, what lies before position s is what turning round sees.
  lemma BeforeIsBeyond(all: seq<Item>, reverse: bool, s: nat, x: Item)
    requires IsSorted(ByStamp(reverse), all) && DistinctStamps(all) && s < |all|
    ensures x in Reversed(all[..s]) <==> x in all && After(Some(all[s].dateModified), !reverse)(x)
  {
    if x in all {
      var i :| 0 <= i < |all| && all[i] == x;
      if i < s {
        assert ByStamp(reverse)(all[i], all[s]);
        assert Reversed(all[..s])[s - 1 - i] == x;
      } else {
        assert i > s ==> ByStamp(reverse)(all[s], all[i]);
        assert !After(Some(all[s].dateModified), !reverse)(x);
      }
    }
    if x in Reversed(all[..s]) {
      var i :| 0 <= i < s && Reversed(all[..s])[i] == x;
      assert x == all[s - 1 - i] && ByStamp(reverse)(all[s - 1 - i], all[s]);
    }
  }

  lemma ReversedIsSorted(all: seq<Item>, reverse: bool, s: nat)
    requires IsSorted(ByStamp(reverse), all) && DistinctStamps(all) && s <= |all|
    ensures IsSorted(ByStamp(!reverse), Reversed(all[..s])) && DistinctStamps(Reversed(all[..s]))
  {
    forall i, j | 0 <= i < j < s
      ensures ByStamp(!reverse)(Reversed(all[..s])[i], Reversed(all[..s])[j])
    {
      assert ByStamp(reverse)(all[s - 1 - j], all[s - 1 - i]);
    }
  }

  lemma SortedIsDistinct(items: seq<Item>, reverse: bool)
    requires DistinctStamps(items)
    ensures var all := SortBy(ByStamp(reverse), items);
            IsSorted(ByStamp(reverse), all) && DistinctStamps(all) && forall x :: x in all <==> x in items
  {
    StampsAreOrdered(reverse);
    SortIsSorted(ByStamp(reverse), items);
    DistinctSorted(items, reverse);
    forall x
      ensures x in SortBy(ByStamp(reverse), items) <==> x in items
    {
      assert x in items <==> x in multiset(items);
      assert x in SortBy(ByStamp(reverse), items) <==> x in multiset(SortBy(ByStamp(reverse), items));
    }
  }

  // Turning round at an item, what is left is what came before it, backwards.
  lemma RestBackwards(items: seq<Item>, reverse: bool, s: nat)
    requires DistinctStamps(items) && s < |SortBy(ByStamp(reverse), items)|
    ensures var all := SortBy(ByStamp(reverse), items);
            Rest(items, Some(all[s].dateModified), !reverse) == Reversed(all[..s])
  {
    hide SortBy, Filter, Beyond, ByStamp, IsSorted, DistinctStamps;
    var all := SortBy(ByStamp(reverse), items);
    var turned := After(Some(all[s].dateModified), !reverse);
    var back := SortBy(ByStamp(!reverse), Filter(items, turned));
    SortedIsDistinct(items, reverse);
    ReversedIsSorted(all, reverse, s);
    DistinctFiltered(items, turned);
    SortedIsDistinct(Filter(items, turned), !reverse);
    FilterMembers(items, turned);
    forall x
      ensures x in back <==> x in Reversed(all[..s])
    {
      BeforeIsBeyond(all, reverse, s, x);
    }
    SortedIsUnique(back, Reversed(all[..s]), !reverse);
  }

  lemma RestFromStart(items: seq<Item>, reverse: bool)
    ensures Rest(items, None, reverse) == SortBy(ByStamp(reverse), items)
  {
    FilterAll(items, After(None, reverse));
  }

  // The previous link of a page that starts after at least one full page leads to the page before,
  // reversed.
  lemma PreviousPage(items: seq<Item>, limit: nat, reverse: bool, s: nat)
    requires limit > 0 && DistinctStamps(items) && limit <= s < |SortBy(ByStamp(reverse), items)|
    ensures var all := SortBy(ByStamp(reverse), items);
            var page := PageItems(items, Some(all[s - 1].dateModified), limit, reverse);
            && page == all[s..Min(s + limit, |all|)]
            && PageItems(items, Some(page[0].dateModified), limit, !reverse) == Reversed(all[s - limit..s])
  {
    var all := SortBy(ByStamp(reverse), items);
    hide Rest, SortBy, IsSorted;
    RestFromStart(items, reverse);
    SortedIsDistinct(items, reverse);
    NextPageSkipsTies(items, None, reverse, s);
    assert Ties(all, s) == 0;
    RestBackwards(items, reverse, s);
    assert Reversed(all[..s])[..limit] == Reversed(all[s - limit..s]);
  }
}
