// What the price engine computes: the price of a product on a day, from the bids of the seven days
// that end with it, and the queries the engine reads its bids with.
module Prices {
  import opened Common
  import opened Seqs
  import opened Ordering
  import Quartiles

  type ProductId = int // ordered the way the database orders id strings

  const DAYS_BACK := 7
  const CURRENCY := "UAH"

  // An ISO date-time string: compared as a string it is ordered by local day first.
  datatype Moment = Moment(day: int, rest: nat) {
    predicate AtMost(other: Moment) {
      day < other.day || (day == other.day && rest <= other.rest)
    }
  }

  datatype Bid = Bid(product: ProductId, date: Moment, amount: real, unitCode: string,
                     unitName: string, currency: string, taxIncluded: bool)

  datatype Price = Price(product: ProductId, date: Moment, sampleSize: nat, quartiles: Quartiles.Triple,
                         unitCode: string, unitName: string, currency: string, taxIncluded: bool)

  predicate Matches(b: Bid, product: ProductId, unit: string) {
    b.product == product && b.currency == CURRENCY && !b.taxIncluded && b.unitCode == unit
  }

  predicate InWindow(b: Bid, day: int) {
    day - (DAYS_BACK - 1) <= b.date.day <= day
  }

  // The filters of the queries and comprehensions.
  function Matching(product: ProductId, unit: string): Bid -> bool {
    (b: Bid) => Matches(b, product, unit)
  }

  function MatchingSince(product: ProductId, unit: string, start: Option<int>): Bid -> bool {
    (b: Bid) => Matches(b, product, unit) && (start.None? || start.value <= b.date.day)
  }

  function MatchingInWindow(product: ProductId, unit: string, day: int): Bid -> bool {
    (b: Bid) => Matches(b, product, unit) && InWindow(b, day)
  }

  function MatchingOnDay(product: ProductId, unit: string, day: int): Bid -> bool {
    (b: Bid) => Matches(b, product, unit) && b.date.day == day
  }

  /******* Ordering the bids of a query *******/

  function ByDate(): Order<Bid> {
    (a: Bid, b: Bid) => a.date.AtMost(b.date)
  }

  lemma DatesAreOrdered()
    ensures TotalPreorder(ByDate())
  {
  }

  // The `$sort` stage; bids of equal date keep their stored order.
  function SortByDate(s: seq<Bid>): seq<Bid> {
    SortBy(ByDate(), s)
  }

  // The matching bids of a query, no more and no fewer, oldest first.
  lemma FoundBids(bids: seq<Bid>, p: Bid -> bool)
    ensures forall b :: b in SortByDate(Filter(bids, p)) <==> b in bids && p(b)
    ensures |SortByDate(Filter(bids, p))| == |Filter(bids, p)|
    ensures IsSorted(ByDate(), SortByDate(Filter(bids, p)))
  {
    DatesAreOrdered();
    SortedMembers(ByDate(), bids, p);
    SortIsSorted(ByDate(), Filter(bids, p));
  }

  // The per-product query: matching bids, from the start day on if there is one, oldest first.
  function FindBidsByProduct(bids: seq<Bid>, product: ProductId, start: Option<int>, unit: string): seq<Bid> {
    SortByDate(Filter(bids, MatchingSince(product, unit, start)))
  }

  // sorted(set(...)) of the local days of some bids.
  function DaysOf(s: seq<Bid>): seq<int> {
    Distinct(Map(s, (b: Bid) => b.date.day))
  }

  lemma DaysOfMembers(s: seq<Bid>)
    ensures forall d :: d in DaysOf(s) <==> exists b :: b in s && b.date.day == d
  {
    var days := Map(s, (b: Bid) => b.date.day);
    forall d
      ensures d in days <==> exists b :: b in s && b.date.day == d
    {
      if d in days {
        var i :| 0 <= i < |days| && days[i] == d;
        assert s[i] in s;
      }
      if b :| b in s && b.date.day == d {
        var i :| 0 <= i < |s| && s[i] == b;
        assert days[i] == d;
      }
    }
  }

  /******* The price of a day *******/

  // The last moment among some bids of a day.
  function Latest(s: seq<Bid>): (m: Moment)
    requires s != []
    ensures exists b :: b in s && b.date == m
    ensures forall b :: b in s ==> b.date.AtMost(m)
  {
    if |s| == 1 then s[0].date else
    var rest := Latest(s[1..]);
    assert forall b :: b in s <==> b == s[0] || b in s[1..];
    if rest.AtMost(s[0].date) then s[0].date else rest
  }

  function Amounts(s: seq<Bid>): (r: seq<real>)
    ensures |r| == |s| && forall i :: 0 <= i < |s| ==> r[i] == s[i].amount
  {
    Map(s, (b: Bid) => b.amount)
  }

  // The price record of a day from the bids of its window and those of the day itself.
  function Priced(product: ProductId, window: seq<Bid>, ofDay: seq<Bid>): Price
    requires window != [] && ofDay != []
  {
    Price(product, Latest(ofDay), |window|, Quartiles.Of(Amounts(window)),
          window[0].unitCode, window[0].unitName, window[0].currency, window[0].taxIncluded)
  }

  // Reference definition, straight from all stored bids: the price of a product on a day on which
  // it has a matching bid, and the whole table, one price for every such day.
  function Window(bids: seq<Bid>, product: ProductId, unit: string, day: int): seq<Bid> {
    SortByDate(Filter(bids, MatchingInWindow(product, unit, day)))
  }

  function OfDay(bids: seq<Bid>, product: ProductId, unit: string, day: int): seq<Bid> {
    SortByDate(Filter(bids, MatchingOnDay(product, unit, day)))
  }

  predicate HasBid(bids: seq<Bid>, product: ProductId, unit: string, day: int) {
    exists b :: b in bids && Matches(b, product, unit) && b.date.day == day
  }

  lemma BidIsInItsWindow(bids: seq<Bid>, product: ProductId, unit: string, day: int)
    requires HasBid(bids, product, unit, day)
    ensures Window(bids, product, unit, day) != [] && OfDay(bids, product, unit, day) != []
  {
    var b :| b in bids && Matches(b, product, unit) && b.date.day == day;
    FoundBids(bids, MatchingInWindow(product, unit, day));
    FoundBids(bids, MatchingOnDay(product, unit, day));
    assert b in Window(bids, product, unit, day) && b in OfDay(bids, product, unit, day);
  }

  function PriceOn(bids: seq<Bid>, product: ProductId, unit: string, day: int): (p: Price)
    requires HasBid(bids, product, unit, day)
    ensures p.date.day == day && p.product == product && p.unitCode == unit
    ensures p.sampleSize == |Filter(bids, MatchingInWindow(product, unit, day))|
  {
    BidIsInItsWindow(bids, product, unit, day);
    var window, ofDay := Window(bids, product, unit, day), OfDay(bids, product, unit, day);
    FoundBids(bids, MatchingInWindow(product, unit, day));
    FoundBids(bids, MatchingOnDay(product, unit, day));
    assert window[0] in window;
    Priced(product, window, ofDay)
  }

  lemma {:induction false} AmountsInserted(x: Bid, s: seq<Bid>)
    ensures multiset(Amounts(InsertBy(ByDate(), x, s))) == multiset(Amounts(s)) + multiset{x.amount}
  {
    var inserted := InsertBy(ByDate(), x, s);
    if s == [] || ByDate()(x, s[0]) {
      assert Amounts(inserted) == [x.amount] + Amounts(s);
    } else {
      AmountsInserted(x, s[1..]);
      assert Amounts(inserted) == [s[0].amount] + Amounts(InsertBy(ByDate(), x, s[1..]));
      assert Amounts(s) == [s[0].amount] + Amounts(s[1..]);
    }
  }

  lemma {:induction false} AmountsSorted(s: seq<Bid>)
    ensures multiset(Amounts(SortByDate(s))) == multiset(Amounts(s))
  {
    if s != [] {
      AmountsSorted(s[1..]);
      AmountsInserted(s[0], SortByDate(s[1..]));
      assert Amounts(s) == [s[0].amount] + Amounts(s[1..]);
    }
  }

  // What the price of a day says about the stored bids, in whatever order they are stored: its
  // quartiles are those of the amounts of the seven days, ...
  lemma PriceMeans(bids: seq<Bid>, product: ProductId, unit: string, day: int)
    requires HasBid(bids, product, unit, day)
    ensures var p, window := PriceOn(bids, product, unit, day), Filter(bids, MatchingInWindow(product, unit, day));
            && window != [] && p.sampleSize == |window| && p.quartiles == Quartiles.Of(Amounts(window))
            && p.product == product && p.unitCode == unit && p.currency == CURRENCY && !p.taxIncluded
  {
    var inWindow := MatchingInWindow(product, unit, day);
    var window := Window(bids, product, unit, day);
    BidIsInItsWindow(bids, product, unit, day);
    FoundBids(bids, inWindow);
    AmountsSorted(Filter(bids, inWindow));
    hide SortByDate, Filter, HasBid;
    Quartiles.OrderIndependent(Amounts(window), Amounts(Filter(bids, inWindow)));
    assert window[0] in window;
  }

  // ... its date is the last moment of the day with a bid, ...
  lemma PriceIsDated(bids: seq<Bid>, product: ProductId, unit: string, day: int)
    requires HasBid(bids, product, unit, day)
    ensures var p := PriceOn(bids, product, unit, day);
            && (exists b :: b in bids && MatchingOnDay(product, unit, day)(b) && b.date == p.date)
            && (forall b :: b in bids && MatchingOnDay(product, unit, day)(b) ==> b.date.AtMost(p.date))
  {
    BidIsInItsWindow(bids, product, unit, day);
    FoundBids(bids, MatchingOnDay(product, unit, day));
    hide SortByDate, Filter, HasBid;
  }

  // ... and its unit name is that of an earliest bid of the window.
  lemma PriceIsNamed(bids: seq<Bid>, product: ProductId, unit: string, day: int)
    requires HasBid(bids, product, unit, day)
    ensures var p := PriceOn(bids, product, unit, day);
            exists b :: b in bids && MatchingInWindow(product, unit, day)(b) && b.unitName == p.unitName &&
              forall c :: c in bids && MatchingInWindow(product, unit, day)(c) ==> b.date.AtMost(c.date)
  {
    var window := Window(bids, product, unit, day);
    BidIsInItsWindow(bids, product, unit, day);
    FoundBids(bids, MatchingInWindow(product, unit, day));
    hide SortByDate, Filter, HasBid;
    assert window[0] in window;
    forall c | c in window
      ensures window[0].date.AtMost(c.date)
    {
      var k :| 0 <= k < |window| && window[k] == c;
      assert k > 0 ==> ByDate()(window[0], window[k]);
    }
  }

  function DaysOfProduct(bids: seq<Bid>, product: ProductId, unit: string): (days: seq<int>)
    ensures StrictlyAscending(days)
    ensures forall d :: d in days <==> HasBid(bids, product, unit, d)
  {
    FilterMembers(bids, Matching(product, unit));
    DaysOfMembers(Filter(bids, Matching(product, unit)));
    DaysOf(Filter(bids, Matching(product, unit)))
  }

  function PricesOn(bids: seq<Bid>, product: ProductId, unit: string, days: seq<int>): (prices: seq<Price>)
    requires forall d :: d in days ==> HasBid(bids, product, unit, d)
    ensures |prices| == |days|
    ensures forall i :: 0 <= i < |days| ==> prices[i] == PriceOn(bids, product, unit, days[i])
  {
    seq(|days|, i requires 0 <= i < |days| => PriceOn(bids, product, unit, days[i]))
  }

  function FullTable(bids: seq<Bid>, product: ProductId, unit: string): seq<Price> {
    PricesOn(bids, product, unit, DaysOfProduct(bids, product, unit))
  }
}
