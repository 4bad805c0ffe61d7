// The quartiles of a window of amounts: one or two samples are special cases, three and more
// use the exclusive method of Python's statistics.quantiles(amounts, n=4), over reals.
module Quartiles {
  import opened Common
  import opened Sorting

  datatype Triple = Triple(lower: real, median: real, upper: real)

  // The 1-based position j of the sample just below cut point i of 4, clamped so that both
  // neighbours exist, and the weight d (in quarters) of the sample above it.
  function Rank(n: nat, i: nat): int {
    Max(1, Min(n - 1, i * (n + 1) / 4))
  }

  function Weight(n: nat, i: nat): int {
    i * (n + 1) - 4 * Rank(n, i)
  }

  // A mean of x and y with weights in quarters.
  function Mean(x: real, y: real, d: int): real {
    (x * (4 - d) as real + y * d as real) / 4.0
  }

  function CutPoint(a: seq<real>, i: nat): real
    requires |a| >= 2
  {
    var j, d := Rank(|a|, i), Weight(|a|, i);
    Mean(a[j - 1], a[j], d)
  }

  // The branches of the price engine over the sorted amounts.
  function OfSorted(a: seq<real>): Triple
    requires a != []
  {
    if |a| == 1 then Triple(a[0], a[0], a[0])
    else if |a| == 2 then Triple(a[0], a[0], a[1])
    else Triple(CutPoint(a, 1), CutPoint(a, 2), CutPoint(a, 3))
  }

  function Of(amounts: seq<real>): Triple
    requires amounts != []
  {
    OfSorted(Sort(amounts))
  }

  lemma RankIsInside(n: nat, i: nat)
    requires n >= 3 && 1 <= i <= 3
    ensures 1 <= Rank(n, i) < n && 0 <= Weight(n, i) <= 4
  {
    var j := i * (n + 1) / 4;
    assert i == 1 || i == 2 || i == 3;
    assert j <= n - 1 || (i == 3 && n == 3);
  }

  lemma MeanIsBetween(x: real, y: real, d: int)
    requires x <= y && 0 <= d <= 4
    ensures x <= Mean(x, y, d) <= y
  {
    assert d == 0 || d == 1 || d == 2 || d == 3 || d == 4;
  }

  // From three samples on, a cut point is a weighted mean of two neighbours.
  lemma CutPointIsBetween(a: seq<real>, i: nat)
    requires |a| >= 3 && Ascending(a) && 1 <= i <= 3
    ensures 1 <= Rank(|a|, i) < |a| && 0 <= Weight(|a|, i) <= 4
    ensures a[Rank(|a|, i) - 1] <= CutPoint(a, i) <= a[Rank(|a|, i)]
  {
    RankIsInside(|a|, i);
    var j, d := Rank(|a|, i), Weight(|a|, i);
    MeanIsBetween(a[j - 1], a[j], d);
  }

  lemma MeanGrowsWithWeight(x: real, y: real, d: int, d': int)
    requires x <= y && 0 <= d <= d' <= 4
    ensures Mean(x, y, d) <= Mean(x, y, d')
  {
    assert (d == 0 || d == 1 || d == 2 || d == 3 || d == 4) && (d' == 0 || d' == 1 || d' == 2 || d' == 3 || d' == 4);
  }

  lemma MeanGrows(x: real, y: real, x': real, y': real, d: int)
    requires x <= x' && y <= y' && 0 <= d <= 4
    ensures Mean(x, y, d) <= Mean(x', y', d)
  {
    assert d == 0 || d == 1 || d == 2 || d == 3 || d == 4;
  }

  // Neighbouring cut points never cross.
  lemma CutPointsAscend(a: seq<real>, i: nat)
    requires |a| >= 3 && Ascending(a) && 1 <= i <= 2
    ensures CutPoint(a, i) <= CutPoint(a, i + 1)
  {
    CutPointIsBetween(a, i);
    CutPointIsBetween(a, i + 1);
    var j, j' := Rank(|a|, i), Rank(|a|, i + 1);
    var d, d' := Weight(|a|, i), Weight(|a|, i + 1);
    if j < j' {
      assert a[j] <= a[j' - 1];
    } else {
      assert j == j' && d <= d';
      MeanGrowsWithWeight(a[j - 1], a[j], d, d');
    }
  }

  // The quartiles of any non-empty window are ordered and lie within the window: every quartile
  // is at least any lower bound of the amounts (so never negative) and at most any upper bound.
  lemma OrderedAndBounded(amounts: seq<real>, low: real, high: real)
    requires amounts != []
    requires forall v :: v in amounts ==> low <= v <= high
    ensures var q := Of(amounts); low <= q.lower <= q.median <= q.upper <= high
  {
    var a := Sort(amounts);
    forall k | 0 <= k < |a|
      ensures low <= a[k] <= high
    {
      assert a[k] in multiset(a);
      assert a[k] in amounts;
    }
    if |a| >= 3 {
      CutPointsAscend(a, 1);
      CutPointsAscend(a, 2);
      CutPointIsBetween(a, 1);
      CutPointIsBetween(a, 3);
    }
  }

  // The bounds are sharp in the sense the storage model asks: the extremes are samples.
  lemma BetweenTheExtremes(amounts: seq<real>)
    requires amounts != []
    ensures var q, a := Of(amounts), Sort(amounts);
            a[0] <= q.lower <= q.median <= q.upper <= a[|a| - 1]
    ensures Sort(amounts)[0] in amounts && Sort(amounts)[|amounts| - 1] in amounts
  {
    var a := Sort(amounts);
    assert a[0] in multiset(a) && a[|a| - 1] in multiset(a);
    forall v | v in amounts
      ensures a[0] <= v <= a[|a| - 1]
    {
      assert v in multiset(a);
    }
    OrderedAndBounded(amounts, a[0], a[|a| - 1]);
  }

  function Quartile(q: Triple, i: nat): real
    requires 1 <= i <= 3
  {
    if i == 1 then q.lower else if i == 2 then q.median else q.upper
  }

  lemma SplitsAt(amounts: seq<real>, j: nat, v: real)
    requires 1 <= j < |amounts| && Sort(amounts)[j - 1] <= v <= Sort(amounts)[j]
    ensures AtMost(amounts, v) >= j && AtLeast(amounts, v) >= |amounts| - j
  {
    PrefixIsAtMost(Sort(amounts), j, v);
    SuffixIsAtLeast(Sort(amounts), j, v);
    SortCounts(amounts, v);
  }

  // What makes it a quartile: with three samples or more, at least Rank(n, i) of the amounts are
  // at most quartile i and at least n - Rank(n, i) of them are at least quartile i.
  lemma SplitsTheSample(amounts: seq<real>, i: nat)
    requires |amounts| >= 3 && 1 <= i <= 3
    ensures AtMost(amounts, Quartile(Of(amounts), i)) >= Rank(|amounts|, i)
    ensures AtLeast(amounts, Quartile(Of(amounts), i)) >= |amounts| - Rank(|amounts|, i)
  {
    hide Sort, CutPoint, Rank, Weight;
    CutPointIsBetween(Sort(amounts), i);
    assert Quartile(Of(amounts), i) == CutPoint(Sort(amounts), i) by {
      assert i == 1 || i == 2 || i == 3;
    }
    SplitsAt(amounts, Rank(|amounts|, i), CutPoint(Sort(amounts), i));
  }

  // The order in which the bids come does not matter.
  lemma OrderIndependent(s: seq<real>, t: seq<real>)
    requires s != [] && multiset(s) == multiset(t)
    ensures t != [] && Of(s) == Of(t)
  {
    assert |multiset(s)| == |multiset(t)|;
    AscendingIsUnique(Sort(s), Sort(t));
  }

  lemma CutPointIsMonotone(a: seq<real>, b: seq<real>, i: nat)
    requires |a| >= 3 && Ascending(a) && Below(a, b) && 1 <= i <= 3
    ensures CutPoint(a, i) <= CutPoint(b, i)
  {
    CutPointIsBetween(a, i);
    var j := Rank(|a|, i);
    MeanGrows(a[j - 1], a[j], b[j - 1], b[j], Weight(|a|, i));
  }

  // Raising any of the amounts never lowers a quartile.
  lemma Monotone(s: seq<real>, t: seq<real>, i: nat)
    requires s != [] && Below(s, t) && 1 <= i <= 3
    ensures Quartile(Of(s), i) <= Quartile(Of(t), i)
  {
    hide Sort, CutPoint;
    SortKeepsBelow(s, t);
    if |s| >= 3 {
      CutPointIsMonotone(Sort(s), Sort(t), i);
    }
  }

  // Why two samples are a case of their own: there the general formula extrapolates, and its outer
  // cut points leave the sample exactly when the two amounts differ.
  lemma TwoSamplesExtrapolate(a: seq<real>)
    requires |a| == 2 && Ascending(a)
    ensures CutPoint(a, 1) == a[0] - (a[1] - a[0]) / 4.0
    ensures CutPoint(a, 3) == a[1] + (a[1] - a[0]) / 4.0
    ensures a[0] <= CutPoint(a, 1) && CutPoint(a, 3) <= a[1] <==> a[0] == a[1]
  {
    assert Rank(2, 1) == 1 && Weight(2, 1) == -1 && Rank(2, 3) == 1 && Weight(2, 3) == 5;
  }
}
