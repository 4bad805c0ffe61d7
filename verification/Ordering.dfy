// Stable sorting by an order: what a query's sort stage does to the documents it found.
module Ordering {
  import opened Seqs

  type Order<!T> = (T, T) -> bool

  ghost predicate TotalPreorder<T(!new)>(le: Order<T>) {
    && (forall a, b :: le(a, b) || le(b, a))
    && (forall a, b, c :: le(a, b) && le(b, c) ==> le(a, c))
  }

  predicate IsSorted<T>(le: Order<T>, s: seq<T>) {
    forall i, j :: 0 <= i < j < |s| ==> le(s[i], s[j])
  }

  function InsertBy<T>(le: Order<T>, x: T, s: seq<T>): seq<T> {
    if s == [] || le(x, s[0]) then [x] + s else [s[0]] + InsertBy(le, x, s[1..])
  }

  // Elements that are equal in the order keep their places relative to each other.
  function SortBy<T>(le: Order<T>, s: seq<T>): seq<T> {
    if s == [] then [] else InsertBy(le, s[0], SortBy(le, s[1..]))
  }

  lemma {:induction false} InsertedElements<T>(le: Order<T>, x: T, s: seq<T>)
    ensures multiset(InsertBy(le, x, s)) == multiset(s) + multiset{x}
  {
    if s != [] && !le(x, s[0]) {
      InsertedElements(le, x, s[1..]);
      assert s == [s[0]] + s[1..];
    }
  }

  lemma {:induction false} InsertedIsSorted<T(!new)>(le: Order<T>, x: T, s: seq<T>)
    requires TotalPreorder(le) && IsSorted(le, s)
    ensures IsSorted(le, InsertBy(le, x, s))
  {
    if s != [] && !le(x, s[0]) {
      InsertedIsSorted(le, x, s[1..]);
      InsertedElements(le, x, s[1..]);
      var rest := InsertBy(le, x, s[1..]);
      forall j | 0 <= j < |rest|
        ensures le(s[0], rest[j])
      {
        assert rest[j] in multiset(rest);
        assert rest[j] == x || rest[j] in s[1..];
      }
    } else if s != [] {
      forall j | 0 <= j < |s|
        ensures le(x, s[j])
      {
        assert j > 0 ==> le(s[0], s[j]);
      }
    }
  }

  lemma {:induction false} SortIsSorted<T(!new)>(le: Order<T>, s: seq<T>)
    requires TotalPreorder(le)
    ensures IsSorted(le, SortBy(le, s))
    ensures multiset(SortBy(le, s)) == multiset(s) && |SortBy(le, s)| == |s|
  {
    if s != [] {
      SortIsSorted(le, s[1..]);
      InsertedIsSorted(le, s[0], SortBy(le, s[1..]));
      InsertedElements(le, s[0], SortBy(le, s[1..]));
      assert s == [s[0]] + s[1..];
      assert |multiset(SortBy(le, s))| == |multiset(s)|;
    }
  }

  // What a sorted query returns: the elements that pass the filter, no more and no fewer.
  lemma SortedMembers<T(!new)>(le: Order<T>, s: seq<T>, p: T -> bool)
    requires TotalPreorder(le)
    ensures forall x :: x in SortBy(le, Filter(s, p)) <==> x in s && p(x)
    ensures |SortBy(le, Filter(s, p))| == |Filter(s, p)|
  {
    var kept := Filter(s, p);
    SortIsSorted(le, kept);
    FilterMembers(s, p);
    forall x
      ensures x in SortBy(le, kept) <==> x in kept
    {
      assert x in SortBy(le, kept) <==> x in multiset(SortBy(le, kept));
      assert x in kept <==> x in multiset(kept);
    }
  }

  lemma {:induction false} InsertBeforeLater<T>(le: Order<T>, x: T, s: seq<T>)
    requires forall i :: 0 <= i < |s| ==> le(x, s[i])
    ensures InsertBy(le, x, s) == [x] + s
  {
  }

  lemma {:induction false} FilterInserted<T(!new)>(le: Order<T>, x: T, s: seq<T>, p: T -> bool)
    requires TotalPreorder(le) && IsSorted(le, s)
    ensures Filter(InsertBy(le, x, s), p) == if p(x) then InsertBy(le, x, Filter(s, p)) else Filter(s, p)
  {
    if s == [] || le(x, s[0]) {
      assert InsertBy(le, x, s)[1..] == s;
      FilterMembers(s, p);
      forall y | y in Filter(s, p)
        ensures le(x, y)
      {
        var i :| 0 <= i < |s| && s[i] == y;
        assert i > 0 ==> le(s[0], s[i]);
      }
      InsertBeforeLater(le, x, Filter(s, p));
    } else {
      FilterInserted(le, x, s[1..], p);
      assert InsertBy(le, x, s)[1..] == InsertBy(le, x, s[1..]);
      if p(s[0]) {
        assert Filter(s, p)[1..] == Filter(s[1..], p);
      }
    }
  }

  // Sorting first and filtering afterwards gives the same list.
  lemma {:induction false} FilterSorted<T(!new)>(le: Order<T>, s: seq<T>, p: T -> bool)
    requires TotalPreorder(le)
    ensures Filter(SortBy(le, s), p) == SortBy(le, Filter(s, p))
  {
    if s != [] {
      FilterSorted(le, s[1..], p);
      SortIsSorted(le, s[1..]);
      FilterInserted(le, s[0], SortBy(le, s[1..]), p);
    }
  }
}
