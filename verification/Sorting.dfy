// Sorting of price amounts, as Python's `sorted` gives it: the ascending arrangement of a list.
module Sorting {
  import opened Ordering

  function Numeric(): Order<real> {
    (x: real, y: real) => x <= y
  }

  lemma NumbersAreOrdered()
    ensures TotalPreorder(Numeric())
  {
  }

  predicate Ascending(s: seq<real>) {
    IsSorted(Numeric(), s)
  }

  function Insert(x: real, s: seq<real>): seq<real> {
    InsertBy(Numeric(), x, s)
  }

  function Sort(s: seq<real>): (r: seq<real>)
    ensures Ascending(r)
    ensures multiset(r) == multiset(s)
    ensures |r| == |s|
  {
    NumbersAreOrdered();
    SortIsSorted(Numeric(), s);
    SortBy(Numeric(), s)
  }

  // An ascending arrangement is determined by the elements alone.
  lemma {:induction false} AscendingIsUnique(a: seq<real>, b: seq<real>)
    requires Ascending(a) && Ascending(b) && multiset(a) == multiset(b)
    ensures a == b
  {
    assert |multiset(a)| == |multiset(b)|;
    if a != [] {
      assert a[0] == b[0] by {
        assert a[0] in multiset(b) && b[0] in multiset(a);
        var i :| 0 <= i < |b| && b[i] == a[0];
        var j :| 0 <= j < |a| && a[j] == b[0];
      }
      DropFirst(a);
      DropFirst(b);
      AscendingIsUnique(a[1..], b[1..]);
    }
  }

  lemma DropFirst(s: seq<real>)
    requires s != []
    ensures multiset(s[1..]) == multiset(s) - multiset{s[0]}
    ensures s == [s[0]] + s[1..]
  {
    assert s == [s[0]] + s[1..];
    assert multiset(s) == multiset{s[0]} + multiset(s[1..]);
  }

  // s is pointwise at most t.
  predicate Below(s: seq<real>, t: seq<real>) {
    |s| == |t| && forall i :: 0 <= i < |s| ==> s[i] <= t[i]
  }

  // Whichever of x and the first element comes first, inserting the other one gives the tail.
  lemma InsertFirst(x: real, s: seq<real>)
    requires s != [] && Ascending(s)
    ensures Insert(x, s) == [if x <= s[0] then x else s[0]] + Insert(if x <= s[0] then s[0] else x, s[1..])
  {
    assert s == [s[0]] + s[1..];
  }

  lemma BelowTails(s: seq<real>, t: seq<real>)
    requires s != [] && Below(s, t) && Ascending(s) && Ascending(t)
    ensures Below(s[1..], t[1..]) && Ascending(s[1..]) && Ascending(t[1..])
  {
  }

  lemma BelowCons(x: real, s: seq<real>, y: real, t: seq<real>)
    requires x <= y && Below(s, t)
    ensures Below([x] + s, [y] + t)
  {
  }

  lemma {:induction false} InsertKeepsBelow(x: real, s: seq<real>, y: real, t: seq<real>)
    requires x <= y && Below(s, t) && Ascending(s) && Ascending(t)
    ensures Below(Insert(x, s), Insert(y, t))
    decreases |s|
  {
    if s != [] {
      var x', y' := if x <= s[0] then s[0] else x, if y <= t[0] then t[0] else y;
      assert s[0] <= t[0];
      InsertFirst(x, s);
      InsertFirst(y, t);
      BelowTails(s, t);
      hide Insert, Below, Ascending;
      InsertKeepsBelow(x', s[1..], y', t[1..]);
      BelowCons(if x <= s[0] then x else s[0], Insert(x', s[1..]), if y <= t[0] then y else t[0], Insert(y', t[1..]));
    }
  }

  // Raising amounts in place never lowers any position of the sorted list.
  lemma {:induction false} SortKeepsBelow(s: seq<real>, t: seq<real>)
    requires Below(s, t)
    ensures Below(Sort(s), Sort(t))
  {
    if s != [] {
      SortKeepsBelow(s[1..], t[1..]);
      InsertKeepsBelow(s[0], Sort(s[1..]), t[0], Sort(t[1..]));
    }
  }

  // How many amounts are at most v, and how many at least v.
  function AtMost(s: seq<real>, v: real): nat {
    if s == [] then 0 else (if s[0] <= v then 1 else 0) + AtMost(s[1..], v)
  }

  function AtLeast(s: seq<real>, v: real): nat {
    if s == [] then 0 else (if s[0] >= v then 1 else 0) + AtLeast(s[1..], v)
  }

  lemma {:induction false} InsertCounts(x: real, s: seq<real>, v: real)
    ensures AtMost(Insert(x, s), v) == AtMost([x] + s, v)
    ensures AtLeast(Insert(x, s), v) == AtLeast([x] + s, v)
  {
    assert ([x] + s)[1..] == s;
    if s != [] && x > s[0] {
      InsertCounts(x, s[1..], v);
      assert ([x] + s[1..])[1..] == s[1..];
      assert Insert(x, s)[1..] == Insert(x, s[1..]);
    }
  }

  // Sorting does not change the two counts.
  lemma {:induction false} SortCounts(s: seq<real>, v: real)
    ensures AtMost(Sort(s), v) == AtMost(s, v)
    ensures AtLeast(Sort(s), v) == AtLeast(s, v)
  {
    if s != [] {
      SortCounts(s[1..], v);
      InsertCounts(s[0], Sort(s[1..]), v);
      assert ([s[0]] + Sort(s[1..]))[1..] == Sort(s[1..]);
    }
  }

  lemma {:induction false} PrefixIsAtMost(s: seq<real>, k: nat, v: real)
    requires Ascending(s) && k <= |s| && (k > 0 ==> s[k - 1] <= v)
    ensures AtMost(s, v) >= k
  {
    if k > 0 {
      PrefixIsAtMost(s[1..], k - 1, v);
    }
  }

  lemma {:induction false} SuffixIsAtLeast(s: seq<real>, k: nat, v: real)
    requires Ascending(s) && k <= |s| && (k < |s| ==> s[k] >= v)
    ensures AtLeast(s, v) >= |s| - k
  {
    if s != [] {
      SuffixIsAtLeast(s[1..], if k > 0 then k - 1 else 0, v);
    }
  }
}
