// Filtering and mapping of sequences: the comprehensions the handlers are written with.
module Seqs {

  function Filter<T>(s: seq<T>, p: T -> bool): seq<T> {
    if s == [] then [] else if p(s[0]) then [s[0]] + Filter(s[1..], p) else Filter(s[1..], p)
  }

  lemma {:induction false} FilterMembers<T(!new)>(s: seq<T>, p: T -> bool)
    ensures forall x :: x in Filter(s, p) <==> x in s && p(x)
  {
    if s != [] {
      FilterMembers(s[1..], p);
      assert forall x :: x in s <==> x == s[0] || x in s[1..];
    }
  }

  function Map<T, U>(s: seq<T>, f: T -> U): (r: seq<U>)
    ensures |r| == |s| && forall i :: 0 <= i < |s| ==> r[i] == f(s[i])
  {
    seq(|s|, i requires 0 <= i < |s| => f(s[i]))
  }

  lemma {:induction false} FilterConcat<T(!new)>(s: seq<T>, t: seq<T>, p: T -> bool)
    ensures Filter(s + t, p) == Filter(s, p) + Filter(t, p)
  {
    if s == [] {
      assert s + t == t;
    } else {
      assert (s + t)[1..] == s[1..] + t;
      FilterConcat(s[1..], t, p);
    }
  }

  lemma FilterOneMore<T(!new)>(s: seq<T>, k: nat, p: T -> bool)
    requires k < |s|
    ensures Filter(s[..k + 1], p) == Filter(s[..k], p) + if p(s[k]) then [s[k]] else []
  {
    assert s[..k + 1] == s[..k] + [s[k]];
    FilterConcat(s[..k], [s[k]], p);
  }

  // Two filters that agree on the elements select the same subsequence.
  lemma {:induction false} FilterAgrees<T(!new)>(s: seq<T>, p: T -> bool, q: T -> bool)
    requires forall x :: x in s ==> p(x) == q(x)
    ensures Filter(s, p) == Filter(s, q)
  {
    if s != [] {
      FilterAgrees(s[1..], p, q);
    }
  }

  lemma {:induction false} FilterNone<T(!new)>(s: seq<T>, p: T -> bool)
    requires forall x :: x in s ==> !p(x)
    ensures Filter(s, p) == []
  {
    if s != [] {
      FilterNone(s[1..], p);
    }
  }

  lemma {:induction false} FilterAll<T(!new)>(s: seq<T>, p: T -> bool)
    requires forall x :: x in s ==> p(x)
    ensures Filter(s, p) == s
  {
    if s != [] {
      FilterAll(s[1..], p);
    }
  }

  function Both<T>(q: T -> bool, p: T -> bool): T -> bool {
    x => q(x) && p(x)
  }

  // Filtering by p what q has let through.
  lemma {:induction false} FilterFilter<T(!new)>(s: seq<T>, q: T -> bool, p: T -> bool)
    ensures Filter(Filter(s, q), p) == Filter(s, Both(q, p))
  {
    if s != [] {
      FilterFilter(s[1..], q, p);
      if q(s[0]) {
        assert Filter(s, q)[1..] == Filter(s[1..], q);
      }
    }
  }

  /******* Ascending lists of distinct numbers: sorted(set(...)) *******/

  predicate StrictlyAscending(s: seq<int>) {
    forall i, j :: 0 <= i < j < |s| ==> s[i] < s[j]
  }

  function InsertDistinct(d: int, s: seq<int>): (r: seq<int>)
    ensures forall x :: x in r <==> x == d || x in s
  {
    if s == [] || d < s[0] then [d] + s
    else if d == s[0] then s
    else [s[0]] + InsertDistinct(d, s[1..])
  }

  lemma {:induction false} InsertDistinctAscends(d: int, s: seq<int>)
    requires StrictlyAscending(s)
    ensures StrictlyAscending(InsertDistinct(d, s))
  {
    if s != [] && d > s[0] {
      InsertDistinctAscends(d, s[1..]);
      var rest := InsertDistinct(d, s[1..]);
      forall j | 0 <= j < |rest|
        ensures s[0] < rest[j]
      {
        assert rest[j] == d || rest[j] in s[1..];
      }
    }
  }

  function Distinct(s: seq<int>): (r: seq<int>)
    ensures StrictlyAscending(r)
    ensures forall d :: d in r <==> d in s
  {
    if s == [] then [] else
    InsertDistinctAscends(s[0], Distinct(s[1..]));
    assert forall d :: d in s <==> d == s[0] || d in s[1..];
    InsertDistinct(s[0], Distinct(s[1..]))
  }

  lemma {:induction false} DistinctIsShorter(s: seq<int>)
    ensures |Distinct(s)| <= |s|
  {
    if s != [] {
      DistinctIsShorter(s[1..]);
      InsertDistinctIsShort(s[0], Distinct(s[1..]));
    }
  }

  lemma {:induction false} InsertDistinctIsShort(d: int, s: seq<int>)
    ensures |InsertDistinct(d, s)| <= |s| + 1
  {
    if s != [] && d > s[0] {
      InsertDistinctIsShort(d, s[1..]);
    }
  }

  lemma {:induction false} FilterIsShorter<T>(s: seq<T>, p: T -> bool)
    ensures |Filter(s, p)| <= |s|
  {
    if s != [] {
      FilterIsShorter(s[1..], p);
    }
  }

  // In an ascending list with more members no member comes earlier.
  lemma {:induction false} PositionsGrow(a: seq<int>, b: seq<int>, i: nat, j: nat)
    requires StrictlyAscending(a) && StrictlyAscending(b) && forall x :: x in a ==> x in b
    requires i < |a| && j < |b| && a[i] == b[j]
    ensures i <= j
  {
    if i > 0 {
      assert a[i - 1] in a;
      var k :| 0 <= k < |b| && b[k] == a[i - 1];
      PositionsGrow(a, b, i - 1, k);
      assert b[k] < b[j];
    }
  }

  // Strictly ascending lists with the same members are equal.
  lemma {:induction false} DistinctIsUnique(a: seq<int>, b: seq<int>)
    requires StrictlyAscending(a) && StrictlyAscending(b)
    requires forall d :: d in a <==> d in b
    ensures a == b
  {
    assert (a != [] ==> a[0] in a) && (b != [] ==> b[0] in b);
    if a != [] {
      assert a[0] in b && b[0] in a;
      forall d
        ensures d in a[1..] <==> d in b[1..]
      {
        assert d in a[1..] <==> d in a && d != a[0];
        assert d in b[1..] <==> d in b && d != b[0];
      }
      DistinctIsUnique(a[1..], b[1..]);
    }
  }

  function UpTo(s: seq<int>, last: int): seq<int> {
    Filter(s, (d: int) => d <= last)
  }

  function Beyond(s: seq<int>, last: int): seq<int> {
    Filter(s, (d: int) => d > last)
  }

  lemma AscendingCons(d: int, s: seq<int>)
    requires StrictlyAscending(s) && forall x :: x in s ==> d < x
    ensures StrictlyAscending([d] + s)
  {
    assert forall i :: 0 <= i < |s| ==> s[i] in s;
  }

  // An ascending list is what lies up to a bound followed by what lies beyond it.
  lemma {:induction false} SplitAtBound(s: seq<int>, last: int)
    requires StrictlyAscending(s)
    ensures s == UpTo(s, last) + Beyond(s, last)
    ensures StrictlyAscending(UpTo(s, last)) && StrictlyAscending(Beyond(s, last))
  {
    var low, high := (d: int) => d <= last, (d: int) => d > last;
    if s != [] && s[0] > last {
      FilterNone(s, low);
      FilterAll(s, high);
    } else if s != [] {
      SplitAtBound(s[1..], last);
      FilterMembers(s[1..], low);
      assert UpTo(s, last) == [s[0]] + UpTo(s[1..], last) && Beyond(s, last) == Beyond(s[1..], last);
      hide Filter;
      AscendingCons(s[0], UpTo(s[1..], last));
    }
  }
}
