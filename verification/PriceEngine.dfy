// The price engine over its collections: the day loop of one product, the batching loop over the
// products with recent bids, and why selecting by the global watermark loses nothing.
module PriceEngine {
  import opened Common
  import opened Seqs
  import opened Ordering
  import opened Sorting
  import opened Prices
  import opened PriceRuns
  import Quartiles

  // Products name a category, categories a unit code; either may be missing or empty.
  datatype Catalog = Catalog(products: map<ProductId, Option<string>>, categories: map<string, Option<string>>) {
    function UnitOf(product: ProductId): Option<string> {
      if product !in products then None else
      var category := products[product];
      if category.None? || category.value == "" || category.value !in categories then None else
      var unit := categories[category.value];
      if unit.None? || unit.value == "" then None else unit
    }
  }

  function ByProduct(product: ProductId): Price -> bool {
    (p: Price) => p.product == product
  }

  function TableOf(prices: seq<Price>, product: ProductId): seq<Price> {
    Filter(prices, ByProduct(product))
  }

  function RunProduct(catalog: Catalog, bids: seq<Bid>, prices: seq<Price>, product: ProductId,
                      survives: Option<nat>): seq<Price>
  {
    var unit := catalog.UnitOf(product);
    if unit.None? then prices else
    prices + Cut(NewPrices(bids, product, unit.value, LastDay(TableOf(prices, product))), survives)
  }

  // Products run one after the other; `fails` says after how many inserts a product raises.
  function RunAll(catalog: Catalog, bids: seq<Bid>, prices: seq<Price>, ids: seq<ProductId>,
                  fails: map<ProductId, nat>): seq<Price>
  {
    if ids == [] then prices else
    var last := ids[|ids| - 1];
    RunProduct(catalog, bids, RunAll(catalog, bids, prices, ids[..|ids| - 1], fails), last, Fate(fails, last))
  }

  // Running some products and then some others is running them all.
  lemma {:induction false} RunAllConcat(catalog: Catalog, bids: seq<Bid>, prices: seq<Price>, first: seq<ProductId>,
                                        rest: seq<ProductId>, fails: map<ProductId, nat>)
    ensures RunAll(catalog, bids, prices, first + rest, fails) ==
            RunAll(catalog, bids, RunAll(catalog, bids, prices, first, fails), rest, fails)
    decreases |rest|
  {
    hide RunProduct;
    if rest == [] {
      assert first + rest == first;
    } else {
      var init := rest[..|rest| - 1];
      RunAllConcat(catalog, bids, prices, first, init, fails);
      assert (first + rest)[..|first + rest| - 1] == first + init;
    }
  }

  function Fate(fails: map<ProductId, nat>, product: ProductId): Option<nat> {
    if product in fails then Some(fails[product]) else None
  }

  function Watermark(prices: seq<Price>): Option<Moment> {
    var last := LastPrice(prices);
    if last.None? then None else Some(last.value.date)
  }

  function Recent(start: Option<Moment>, endDay: int): Bid -> bool {
    (b: Bid) => (start.None? || start.value.AtMost(b.date)) && b.date.day < endDay
  }

  // The grouping query without its skip and limit: the products with a recent bid, ascending.
  function SelectedProducts(bids: seq<Bid>, start: Option<Moment>, endDay: int): (ids: seq<ProductId>)
    ensures StrictlyAscending(ids)
  {
    Distinct(Map(Filter(bids, Recent(start, endDay)), (b: Bid) => b.product))
  }

  function FindBidsGroupProducts(bids: seq<Bid>, limit: nat, skip: nat, start: Option<Moment>, endDay: int): seq<ProductId> {
    var groups := SelectedProducts(bids, start, endDay);
    var rest := groups[Min(skip, |groups|)..];
    rest[..Min(limit, |rest|)]
  }

  // A batch is the next stretch of the groups, and a short one is the last.
  lemma NextBatch(bids: seq<Bid>, limit: nat, skip: nat, start: Option<Moment>, endDay: int)
    requires skip <= |SelectedProducts(bids, start, endDay)|
    ensures var ids, batch := SelectedProducts(bids, start, endDay), FindBidsGroupProducts(bids, limit, skip, start, endDay);
            && |batch| <= limit && skip + |batch| <= |ids| && ids[skip..] == batch + ids[skip + |batch|..]
            && (|batch| < limit ==> ids[skip..] == batch)
  {
    hide SelectedProducts;
  }

  lemma SelectedMembers(bids: seq<Bid>, start: Option<Moment>, endDay: int, product: ProductId)
    ensures product in SelectedProducts(bids, start, endDay) <==>
            exists b :: b in bids && b.product == product && Recent(start, endDay)(b)
  {
    var recent := Filter(bids, Recent(start, endDay));
    var owners := Map(recent, (b: Bid) => b.product);
    FilterMembers(bids, Recent(start, endDay));
    if product in owners {
      var i :| 0 <= i < |owners| && owners[i] == product;
      assert recent[i] in recent;
    }
    if b :| b in bids && b.product == product && Recent(start, endDay)(b) {
      assert b in recent;
      var i :| 0 <= i < |recent| && recent[i] == b;
      assert owners[i] == product;
    }
  }

  /******* Batches *******/

  lemma SelectedAreFew(bids: seq<Bid>, start: Option<Moment>, endDay: int)
    ensures |SelectedProducts(bids, start, endDay)| <= |bids|
  {
    FilterIsShorter(bids, Recent(start, endDay));
    DistinctIsShorter(Map(Filter(bids, Recent(start, endDay)), (b: Bid) => b.product));
  }

  lemma BatchIsFull(bids: seq<Bid>, limit: nat, skip: nat, start: Option<Moment>, endDay: int)
    requires limit > 0 && |FindBidsGroupProducts(bids, limit, skip, start, endDay)| >= limit
    ensures skip + limit <= |bids|
  {
    SelectedAreFew(bids, start, endDay);
  }

  // The products a run goes through, batch by batch. The end date is today's, and it is taken anew
  // for every batch: `clock` tells the local day at which each of them is fetched.
  function Visited(bids: seq<Bid>, limit: nat, start: Option<Moment>, clock: nat -> int, batch: nat, skip: nat): seq<ProductId>
    requires limit > 0
    decreases |bids| - skip
  {
    var ids := FindBidsGroupProducts(bids, limit, skip, start, clock(batch));
    if |ids| < limit then ids else
    BatchIsFull(bids, limit, skip, start, clock(batch));
    ids + Visited(bids, limit, start, clock, batch + 1, skip + limit)
  }

  ghost predicate Advances(clock: nat -> int) {
    forall j: nat, k: nat :: j <= k ==> clock(j) <= clock(k)
  }

  lemma SelectedGrows(bids: seq<Bid>, start: Option<Moment>, day: int, later: int)
    requires day <= later
    ensures forall x :: x in SelectedProducts(bids, start, day) ==> x in SelectedProducts(bids, start, later)
  {
    forall x | x in SelectedProducts(bids, start, day)
      ensures x in SelectedProducts(bids, start, later)
    {
      SelectedMembers(bids, start, day, x);
      SelectedMembers(bids, start, later, x);
      var b :| b in bids && b.product == x && Recent(start, day)(b);
      assert Recent(start, later)(b);
    }
  }

  lemma InThisBatchOrLater(bids: seq<Bid>, limit: nat, skip: nat, start: Option<Moment>, endDay: int, i: nat)
    requires skip <= i < |SelectedProducts(bids, start, endDay)|
    ensures var ids, batch := SelectedProducts(bids, start, endDay), FindBidsGroupProducts(bids, limit, skip, start, endDay);
            if i < skip + limit then ids[i] in batch else |batch| == limit
  {
    hide SelectedProducts;
    var ids, batch := SelectedProducts(bids, start, endDay), FindBidsGroupProducts(bids, limit, skip, start, endDay);
    if i < skip + limit {
      assert batch[i - skip] == ids[i];
    }
  }

  lemma VisitedStep(bids: seq<Bid>, limit: nat, start: Option<Moment>, clock: nat -> int, batch: nat, skip: nat)
    requires limit > 0
    ensures var ids := FindBidsGroupProducts(bids, limit, skip, start, clock(batch));
            Visited(bids, limit, start, clock, batch, skip) ==
              if |ids| < limit then ids else ids + Visited(bids, limit, start, clock, batch + 1, skip + limit)
  {
    hide FindBidsGroupProducts;
  }

  // Midnight may pass between two batches and more products may be selected then, but nobody who was
  // still to come is passed over.
  lemma {:induction false} NobodyIsPassedOver(bids: seq<Bid>, limit: nat, start: Option<Moment>, clock: nat -> int,
                                              batch: nat, skip: nat, i: nat)
    requires limit > 0 && Advances(clock)
    requires skip <= i < |SelectedProducts(bids, start, clock(batch))|
    ensures SelectedProducts(bids, start, clock(batch))[i] in Visited(bids, limit, start, clock, batch, skip)
    decreases |bids| - skip
  {
    hide Visited, SelectedProducts, FindBidsGroupProducts;
    var now, next := SelectedProducts(bids, start, clock(batch)), SelectedProducts(bids, start, clock(batch + 1));
    SelectedGrows(bids, start, clock(batch), clock(batch + 1));
    InThisBatchOrLater(bids, limit, skip, start, clock(batch), i);
    VisitedStep(bids, limit, start, clock, batch, skip);
    if i >= skip + limit {
      BatchIsFull(bids, limit, skip, start, clock(batch));
      hide StrictlyAscending, Advances;
      assert now[i] in now;
      var j: nat :| j < |next| && next[j] == now[i];
      PositionsGrow(now, next, i, j);
      NobodyIsPassedOver(bids, limit, start, clock, batch + 1, skip + limit, j);
    }
  }

  lemma SelectedOnAnyDay(bids: seq<Bid>, start: Option<Moment>, day: int, later: int)
    requires day <= later && forall b :: b in bids ==> b.date.day < day
    ensures SelectedProducts(bids, start, day) == SelectedProducts(bids, start, later)
  {
    FilterAgrees(bids, Recent(start, day), Recent(start, later));
  }

  lemma {:induction false} VisitedIsRest(bids: seq<Bid>, limit: nat, start: Option<Moment>, clock: nat -> int,
                                         batch: nat, skip: nat, ids: seq<ProductId>)
    requires limit > 0 && skip <= |ids|
    requires forall k: nat :: SelectedProducts(bids, start, clock(k)) == ids
    ensures Visited(bids, limit, start, clock, batch, skip) == ids[skip..]
    decreases |ids| - skip
  {
    hide SelectedProducts, FindBidsGroupProducts, Visited;
    assert SelectedProducts(bids, start, clock(batch)) == ids;
    NextBatch(bids, limit, skip, start, clock(batch));
    VisitedStep(bids, limit, start, clock, batch, skip);
    if |FindBidsGroupProducts(bids, limit, skip, start, clock(batch))| == limit {
      VisitedIsRest(bids, limit, start, clock, batch + 1, skip + limit, ids);
    }
  }

  // A run that sees no bids of its own day goes through the selected products, each of them once,
  // whatever the batch size and however late the batches are fetched.
  lemma VisitedIsSelected(bids: seq<Bid>, limit: nat, start: Option<Moment>, clock: nat -> int)
    requires limit > 0 && Advances(clock) && forall b :: b in bids ==> b.date.day < clock(0)
    ensures Visited(bids, limit, start, clock, 0, 0) == SelectedProducts(bids, start, clock(0))
  {
    hide SelectedProducts, Visited;
    forall k: nat
      ensures SelectedProducts(bids, start, clock(k)) == SelectedProducts(bids, start, clock(0))
    {
      SelectedOnAnyDay(bids, start, clock(0), clock(k));
    }
    VisitedIsRest(bids, limit, start, clock, 0, 0, SelectedProducts(bids, start, clock(0)));
  }

  // On any one day the batches add up to the selected products.
  lemma VisitedOnOneDay(bids: seq<Bid>, limit: nat, start: Option<Moment>, day: int)
    requires limit > 0
    ensures Visited(bids, limit, start, _ => day, 0, 0) == SelectedProducts(bids, start, day)
  {
    hide SelectedProducts, Visited;
    VisitedIsRest(bids, limit, start, _ => day, 0, 0, SelectedProducts(bids, start, day));
  }

  /******* What a run fetches is enough *******/

  function StartOf(last: Option<int>): Option<int> {
    if last.None? then None else Some(last.value - DAYS_BACK)
  }

  function Within(day: int): Bid -> bool {
    (b: Bid) => InWindow(b, day)
  }

  function OnDay(day: int): Bid -> bool {
    (b: Bid) => b.date.day == day
  }

  // Selecting from what the query has fetched is selecting from all stored bids.
  lemma FilterFetched(bids: seq<Bid>, product: ProductId, start: Option<int>, unit: string, p: Bid -> bool, q: Bid -> bool)
    requires forall b :: (MatchingSince(product, unit, start)(b) && p(b)) == q(b)
    ensures Filter(FindBidsByProduct(bids, product, start, unit), p) == SortByDate(Filter(bids, q))
  {
    var since := MatchingSince(product, unit, start);
    DatesAreOrdered();
    FilterSorted(ByDate(), Filter(bids, since), p);
    FilterFilter(bids, since, p);
    FilterAgrees(bids, Both(since, p), q);
  }

  // Reaching back seven days, the query sees every bid of every window that still has to be priced.
  lemma FetchedPrice(bids: seq<Bid>, product: ProductId, unit: string, last: Option<int>, day: int)
    requires HasBid(bids, product, unit, day) && (last.Some? ==> day > last.value)
    ensures var found := FindBidsByProduct(bids, product, StartOf(last), unit);
            && Filter(found, Within(day)) != [] && Filter(found, OnDay(day)) != []
            && Priced(product, Filter(found, Within(day)), Filter(found, OnDay(day))) == PriceOn(bids, product, unit, day)
  {
    BidIsInItsWindow(bids, product, unit, day);
    FilterFetched(bids, product, StartOf(last), unit, Within(day), MatchingInWindow(product, unit, day));
    FilterFetched(bids, product, StartOf(last), unit, OnDay(day), MatchingOnDay(product, unit, day));
  }

  lemma FetchedDays(bids: seq<Bid>, product: ProductId, unit: string, last: Option<int>)
    ensures DaysAfter(DaysOf(FindBidsByProduct(bids, product, StartOf(last), unit)), last) ==
            DaysAfter(DaysOfProduct(bids, product, unit), last)
  {
    var start := StartOf(last);
    var found := FindBidsByProduct(bids, product, start, unit);
    FoundBids(bids, MatchingSince(product, unit, start));
    DaysOfMembers(found);
    DaysAfterHaveBids(bids, product, unit, last);
    if last.Some? {
      FilterMembers(DaysOf(found), (d: int) => d > last.value);
      SplitAtBound(DaysOf(found), last.value);
      SplitAtBound(DaysOfProduct(bids, product, unit), last.value);
    }
    DistinctIsUnique(DaysAfter(DaysOf(found), last), DaysAfter(DaysOfProduct(bids, product, unit), last));
  }

  // The fetched bids determine this price for the day.
  ghost predicate Row(found: seq<Bid>, product: ProductId, day: int, price: Price) {
    var window, ofDay := Filter(found, Within(day)), Filter(found, OnDay(day));
    window != [] && ofDay != [] && price == Priced(product, window, ofDay)
  }

  ghost predicate Rows(found: seq<Bid>, product: ProductId, days: seq<int>, rows: seq<Price>) {
    |rows| == |days| && forall i :: 0 <= i < |days| ==> Row(found, product, days[i], rows[i])
  }

  lemma FetchedRows(bids: seq<Bid>, product: ProductId, unit: string, last: Option<int>)
    ensures Rows(FindBidsByProduct(bids, product, StartOf(last), unit), product,
                 DaysAfter(DaysOfProduct(bids, product, unit), last), NewPrices(bids, product, unit, last))
  {
    DaysAfterHaveBids(bids, product, unit, last);
    var days, rows := DaysAfter(DaysOfProduct(bids, product, unit), last), NewPrices(bids, product, unit, last);
    forall i | 0 <= i < |days|
      ensures Row(FindBidsByProduct(bids, product, StartOf(last), unit), product, days[i], rows[i])
    {
      assert days[i] in days;
      FetchedPrice(bids, product, unit, last, days[i]);
    }
  }

  // The body of the day loop: the window, its quartiles, and the date of the last bid of the day.
  method PriceDay(found: seq<Bid>, product: ProductId, day: int, ghost expected: Price) returns (price: Price)
    requires Row(found, product, day, expected)
    ensures price == expected
  {
    var window := Filter(found, Within(day));
    var amounts := Sort(Amounts(window));
    var n := |amounts|;
    var q1, q2, q3 := amounts[0], amounts[0], amounts[0];
    if n == 2 {
      q3 := amounts[1];
    } else if n > 2 {
      q1, q2, q3 := Quartiles.CutPoint(amounts, 1), Quartiles.CutPoint(amounts, 2), Quartiles.CutPoint(amounts, 3);
    }
    price := Price(product, Latest(Filter(found, OnDay(day))), n, Quartiles.Triple(q1, q2, q3),
                   window[0].unitCode, window[0].unitName, window[0].currency, window[0].taxIncluded);
  }

  class PriceBase {
    var catalog: Catalog
    var bids: seq<Bid>
    var prices: seq<Price>

    constructor (catalog: Catalog, bids: seq<Bid>)
      ensures this.catalog == catalog && this.bids == bids && prices == []
    {
      this.catalog, this.bids, prices := catalog, bids, [];
    }

    // Appends one price for every day with bids after the product's last price.
    method CalculatePriceForProduct(product: ProductId, survives: Option<nat>) returns (inserted: nat)
      modifies this`prices
      ensures prices == RunProduct(catalog, bids, old(prices), product, survives)
      ensures inserted == |prices| - |old(prices)|
    {
      inserted := 0;
      if product !in catalog.products {
        return;
      }
      var category := catalog.products[product];
      if category.None? || category.value == "" || category.value !in catalog.categories {
        return;
      }
      var unit := catalog.categories[category.value];
      if unit.None? || unit.value == "" {
        return;
      }

      var last := LastDay(TableOf(prices, product));
      var found := FindBidsByProduct(bids, product, StartOf(last), unit.value);
      var days := DaysOf(found);
      if last.Some? {
        days := Beyond(days, last.value);
      }
      FetchedDays(bids, product, unit.value, last);
      FetchedRows(bids, product, unit.value, last);
      inserted := InsertPrices(product, found, days, survives, NewPrices(bids, product, unit.value, last));
    }

    // The day loop.
    method InsertPrices(product: ProductId, found: seq<Bid>, days: seq<int>, survives: Option<nat>,
                        ghost rows: seq<Price>) returns (inserted: nat)
      requires Rows(found, product, days, rows)
      modifies this`prices
      ensures prices == old(prices) + Cut(rows, survives)
      ensures inserted == |prices| - |old(prices)|
    {
      hide Row;
      inserted := 0;
      while inserted < |days| && (survives.None? || inserted < survives.value)
        invariant inserted <= |days| && (survives.Some? ==> inserted <= survives.value)
        invariant prices == old(prices) + rows[..inserted]
      {
        var price := PriceDay(found, product, days[inserted], rows[inserted]);
        assert rows[..inserted + 1] == rows[..inserted] + [price];
        prices := prices + [price];
        inserted := inserted + 1;
      }
      assert rows[..inserted] == Cut(rows, survives);
    }

    // Runs every product with a bid since the last stored price, batch by batch.
    method CalculatePrice(batchSize: nat, clock: nat -> int, fails: map<ProductId, nat>)
      requires batchSize > 0
      modifies this`prices
      ensures prices == RunAll(catalog, bids, old(prices), Visited(bids, batchSize, Watermark(old(prices)), clock, 0, 0), fails)
    {
      var start := Watermark(prices);
      var batch, skip := 0, 0;
      hide RunAll, FindBidsGroupProducts, Watermark;
      while true
        invariant RunAll(catalog, bids, old(prices), Visited(bids, batchSize, start, clock, 0, 0), fails) ==
                  RunAll(catalog, bids, prices, Visited(bids, batchSize, start, clock, batch, skip), fails)
        decreases |bids| - skip
      {
        var ids := FindBidsGroupProducts(bids, batchSize, skip, start, clock(batch));
        ghost var before := prices;
        RunBatch(ids, fails);
        if |ids| < batchSize {
          return;
        }
        BatchIsFull(bids, batchSize, skip, start, clock(batch));
        RunAllConcat(catalog, bids, before, ids, Visited(bids, batchSize, start, clock, batch + 1, skip + batchSize), fails);
        batch, skip := batch + 1, skip + batchSize;
      }
    }

    // The inner loop: one product's failure does not stop the others.
    method RunBatch(batch: seq<ProductId>, fails: map<ProductId, nat>)
      modifies this`prices
      ensures prices == RunAll(catalog, bids, old(prices), batch, fails)
    {
      var count := 0;
      while count < |batch|
        invariant count <= |batch|
        invariant prices == RunAll(catalog, bids, old(prices), batch[..count], fails)
      {
        var _ := CalculatePriceForProduct(batch[count], Fate(fails, batch[count]));
        assert batch[..count + 1][..count] == batch[..count];
        count := count + 1;
      }
      assert batch[..count] == batch;
    }

    method FullRecalculation(batchSize: nat, clock: nat -> int, fails: map<ProductId, nat>)
      requires batchSize > 0
      modifies this`prices
      ensures prices == RunAll(catalog, bids, [], Visited(bids, batchSize, None, clock, 0, 0), fails)
    {
      prices := [];
      CalculatePrice(batchSize, clock, fails);
    }
  }

  /******* Tables of the products *******/

  lemma OwnPrices(bids: seq<Bid>, product: ProductId, unit: string, last: Option<int>, survives: Option<nat>, other: ProductId)
    ensures var added := Cut(NewPrices(bids, product, unit, last), survives);
            TableOf(added, other) == if other == product then added else []
  {
    hide DaysAfter, DaysOfProduct;
    var added := Cut(NewPrices(bids, product, unit, last), survives);
    forall p | p in added
      ensures p.product == product
    {
      var i :| 0 <= i < |added| && added[i] == p;
      assert p == NewPrices(bids, product, unit, last)[i];
    }
    if other == product {
      FilterAll(added, ByProduct(other));
    } else {
      FilterNone(added, ByProduct(other));
    }
  }

  // A run of one product touches its own table only.
  lemma RunProductTables(catalog: Catalog, bids: seq<Bid>, prices: seq<Price>, product: ProductId,
                         survives: Option<nat>, other: ProductId)
    ensures var after := RunProduct(catalog, bids, prices, product, survives);
            var unit := catalog.UnitOf(product);
            TableOf(after, other) ==
              if other == product && unit.Some? then Run(bids, product, unit.value, TableOf(prices, product), survives)
              else TableOf(prices, other)
  {
    var unit := catalog.UnitOf(product);
    if unit.Some? {
      var last := LastDay(TableOf(prices, product));
      FilterConcat(prices, Cut(NewPrices(bids, product, unit.value, last), survives), ByProduct(other));
      OwnPrices(bids, product, unit.value, last, survives, other);
    }
  }

  lemma {:induction false} RunAllTables(catalog: Catalog, bids: seq<Bid>, prices: seq<Price>, ids: seq<ProductId>,
                                        fails: map<ProductId, nat>, product: ProductId)
    requires StrictlyAscending(ids)
    ensures var unit := catalog.UnitOf(product);
            TableOf(RunAll(catalog, bids, prices, ids, fails), product) ==
              if product in ids && unit.Some?
              then Run(bids, product, unit.value, TableOf(prices, product), Fate(fails, product))
              else TableOf(prices, product)
  {
    if ids != [] {
      var init, last := ids[..|ids| - 1], ids[|ids| - 1];
      assert ids == init + [last] && last !in init && StrictlyAscending(init);
      hide RunProduct, Run, TableOf, StrictlyAscending, Catalog.UnitOf;
      RunAllTables(catalog, bids, prices, init, fails, product);
      RunProductTables(catalog, bids, RunAll(catalog, bids, prices, init, fails), last, Fate(fails, last), product);
    }
  }

  /******* Runs of the whole engine *******/

  datatype Base = Base(bids: seq<Bid>, prices: seq<Price>)

  datatype Event = Arrive(batch: seq<Bid>) | Calculate(today: int, fails: map<ProductId, nat>)

  function After(catalog: Catalog, s: Base, e: Event): Base {
    match e
    case Arrive(batch) => s.(bids := s.bids + batch)
    case Calculate(today, fails) =>
      s.(prices := RunAll(catalog, s.bids, s.prices, SelectedProducts(s.bids, Watermark(s.prices), today), fails))
  }

  function AfterAll(catalog: Catalog, s: Base, events: seq<Event>): Base
    decreases |events|
  {
    if events == [] then s else AfterAll(catalog, After(catalog, s, events[0]), events[1..])
  }

  // What the engine relies on: bids fall after the last priced day of all products, ...
  ghost predicate Timely(s: Base, e: Event) {
    e.Arrive? ==> forall b :: b in e.batch ==> Watermark(s.prices).None? || b.date.day > Watermark(s.prices).value.day
  }

  // ... a run does not see bids of its own day or later, and no product fails.
  ghost predicate Undisturbed(s: Base, e: Event) {
    e.Calculate? ==> e.fails == map[] && forall b :: b in s.bids ==> b.date.day < e.today
  }

  ghost predicate AllTimely(catalog: Catalog, s: Base, events: seq<Event>)
    decreases |events|
  {
    events != [] ==> Timely(s, events[0]) && AllTimely(catalog, After(catalog, s, events[0]), events[1..])
  }

  ghost predicate AllUndisturbed(catalog: Catalog, s: Base, events: seq<Event>)
    decreases |events|
  {
    events != [] ==> Undisturbed(s, events[0]) && AllUndisturbed(catalog, After(catalog, s, events[0]), events[1..])
  }

  ghost predicate SoundFor(catalog: Catalog, s: Base, product: ProductId) {
    var unit := catalog.UnitOf(product);
    unit.Some? ==> Sound(s.bids, product, unit.value, TableOf(s.prices, product))
  }

  ghost predicate FullFor(catalog: Catalog, s: Base, product: ProductId) {
    var unit := catalog.UnitOf(product);
    unit.Some? ==> TableOf(s.prices, product) == FullTable(s.bids, product, unit.value)
  }

  // The product's last priced day is not after the watermark, so timely bids are on time for it.
  lemma TimelyIsOnTime(s: Base, batch: seq<Bid>, product: ProductId, unit: string)
    requires Timely(s, Arrive(batch))
    ensures OnTime(batch, product, unit, LastDay(TableOf(s.prices, product)))
  {
    var table := TableOf(s.prices, product);
    LastIsGreatest(s.prices);
    LastIsGreatest(table);
    FilterMembers(s.prices, ByProduct(product));
    if table != [] {
      assert LastPrice(table).value in s.prices;
    }
  }

  // What matters for one product: each batch comes after its own last priced day.
  ghost predicate OnTimeFor(catalog: Catalog, s: Base, e: Event, product: ProductId) {
    var unit := catalog.UnitOf(product);
    e.Arrive? && unit.Some? ==> OnTime(e.batch, product, unit.value, LastDay(TableOf(s.prices, product)))
  }

  ghost predicate AllOnTimeFor(catalog: Catalog, s: Base, events: seq<Event>, product: ProductId)
    decreases |events|
  {
    events != [] ==>
      OnTimeFor(catalog, s, events[0], product) && AllOnTimeFor(catalog, After(catalog, s, events[0]), events[1..], product)
  }

  lemma {:induction false} AllTimelyIsOnTime(catalog: Catalog, s: Base, events: seq<Event>, product: ProductId)
    requires AllTimely(catalog, s, events)
    ensures AllOnTimeFor(catalog, s, events, product)
    decreases |events|
  {
    hide After;
    if events != [] {
      if events[0].Arrive? && catalog.UnitOf(product).Some? {
        TimelyIsOnTime(s, events[0].batch, product, catalog.UnitOf(product).value);
      }
      AllTimelyIsOnTime(catalog, After(catalog, s, events[0]), events[1..], product);
    }
  }

  lemma StepKeepsBroken(catalog: Catalog, s: Base, e: Event, product: ProductId, unit: string)
    requires catalog.UnitOf(product) == Some(unit) && Broken(s.bids, product, unit, TableOf(s.prices, product))
    ensures var after := After(catalog, s, e); Broken(after.bids, product, unit, TableOf(after.prices, product))
  {
    hide Broken, RunAll, SelectedProducts, TableOf, Run;
    var table := TableOf(s.prices, product);
    match e {
      case Arrive(batch) =>
        ArrivalStaysBroken(s.bids, batch, product, unit, table);
      case Calculate(today, fails) =>
        RunAllTables(catalog, s.bids, s.prices, SelectedProducts(s.bids, Watermark(s.prices), today), fails, product);
        RunStaysBroken(s.bids, product, unit, table, Fate(fails, product));
    }
  }

  lemma {:induction false} StepsKeepBroken(catalog: Catalog, s: Base, events: seq<Event>, product: ProductId, unit: string)
    requires catalog.UnitOf(product) == Some(unit) && Broken(s.bids, product, unit, TableOf(s.prices, product))
    ensures var end := AfterAll(catalog, s, events); Broken(end.bids, product, unit, TableOf(end.prices, product))
    decreases |events|
  {
    hide Broken, After, TableOf, Catalog.UnitOf;
    if events != [] {
      StepKeepsBroken(catalog, s, events[0], product, unit);
      StepsKeepBroken(catalog, After(catalog, s, events[0]), events[1..], product, unit);
    }
  }

  lemma OnTimeStepStaysSound(catalog: Catalog, s: Base, e: Event, product: ProductId)
    requires SoundFor(catalog, s, product) && OnTimeFor(catalog, s, e, product)
    ensures SoundFor(catalog, After(catalog, s, e), product)
  {
    var unit, table := catalog.UnitOf(product), TableOf(s.prices, product);
    if unit.Some? {
      hide Sound, RunAll, SelectedProducts, TableOf, Run, LastDay;
      match e {
        case Arrive(batch) =>
          ArrivalStaysSound(s.bids, batch, product, unit.value, table);
        case Calculate(today, fails) =>
          RunAllTables(catalog, s.bids, s.prices, SelectedProducts(s.bids, Watermark(s.prices), today), fails, product);
          RunStaysSound(s.bids, product, unit.value, table, Fate(fails, product));
      }
    }
  }

  lemma StepStaysSound(catalog: Catalog, s: Base, e: Event, product: ProductId)
    requires SoundFor(catalog, s, product) && Timely(s, e)
    ensures SoundFor(catalog, After(catalog, s, e), product)
  {
    hide SoundFor, After, Timely;
    if e.Arrive? && catalog.UnitOf(product).Some? {
      TimelyIsOnTime(s, e.batch, product, catalog.UnitOf(product).value);
    }
    OnTimeStepStaysSound(catalog, s, e, product);
  }

  // With products failing and runs seeing whatever they see: the table of a product holds a prefix of
  // its full recalculation if and only if no bid of the product ever came late.
  lemma {:induction false} EngineSoundExactly(catalog: Catalog, s: Base, events: seq<Event>, product: ProductId)
    requires SoundFor(catalog, s, product)
    ensures SoundFor(catalog, AfterAll(catalog, s, events), product) <==> AllOnTimeFor(catalog, s, events, product)
    decreases |events|
  {
    hide Sound, Broken, OnTime, TableOf, LastDay, Catalog.UnitOf;
    if events != [] {
      var next := After(catalog, s, events[0]);
      if OnTimeFor(catalog, s, events[0], product) {
        OnTimeStepStaysSound(catalog, s, events[0], product);
        EngineSoundExactly(catalog, next, events[1..], product);
      } else {
        var unit, end := catalog.UnitOf(product).value, AfterAll(catalog, s, events);
        LateBatchBreaks(s.bids, events[0].batch, product, unit, TableOf(s.prices, product));
        StepsKeepBroken(catalog, next, events[1..], product, unit);
        BrokenIsUnsound(end.bids, product, unit, TableOf(end.prices, product));
      }
    }
  }

  // Safety under timely arrivals: no table ever holds anything but a prefix of its full recalculation.
  lemma EngineStaysSound(catalog: Catalog, s: Base, events: seq<Event>, product: ProductId)
    requires SoundFor(catalog, s, product) && AllTimely(catalog, s, events)
    ensures SoundFor(catalog, AfterAll(catalog, s, events), product)
  {
    AllTimelyIsOnTime(catalog, s, events, product);
    EngineSoundExactly(catalog, s, events, product);
  }

  // The product has a bid that the next run would see.
  ghost predicate Visible(s: Base, product: ProductId) {
    var start := Watermark(s.prices);
    exists b :: b in s.bids && b.product == product && (start.None? || start.value.AtMost(b.date))
  }

  // Invariant: whatever a table lacks, the watermark does not hide.
  ghost predicate NothingHidden(catalog: Catalog, s: Base, product: ProductId) {
    SoundFor(catalog, s, product) && (FullFor(catalog, s, product) || Visible(s, product))
  }

  lemma ArrivalHidesNothing(catalog: Catalog, s: Base, batch: seq<Bid>, product: ProductId)
    requires NothingHidden(catalog, s, product) && Timely(s, Arrive(batch))
    ensures NothingHidden(catalog, After(catalog, s, Arrive(batch)), product)
  {
    StepStaysSound(catalog, s, Arrive(batch), product);
    var after, unit := After(catalog, s, Arrive(batch)), catalog.UnitOf(product);
    assert forall b :: b in after.bids <==> b in s.bids || b in batch;
    if unit.Some? && !Visible(after, product) {
      assert forall b :: b in batch ==> !Matches(b, product, unit.value);
      assert FullFor(catalog, s, product);
      NothingNew(s.bids, batch, product, unit.value);
    }
  }

  // A batch without matching bids changes nothing.
  lemma NothingNew(bids: seq<Bid>, batch: seq<Bid>, product: ProductId, unit: string)
    requires forall b :: b in batch ==> !Matches(b, product, unit)
    ensures FullTable(bids + batch, product, unit) == FullTable(bids, product, unit)
  {
    FilterIgnoresBatch(bids, batch, Matching(product, unit));
    var days := DaysOfProduct(bids, product, unit);
    assert DaysOfProduct(bids + batch, product, unit) == days;
    forall i | 0 <= i < |days|
      ensures PriceOn(bids + batch, product, unit, days[i]) == PriceOn(bids, product, unit, days[i])
    {
      assert days[i] in days;
      PriceUnchanged(bids, batch, product, unit, days[i]);
    }
  }

  ghost predicate HasRecentBid(s: Base, today: int, product: ProductId) {
    exists b :: b in s.bids && b.product == product && Recent(Watermark(s.prices), today)(b)
  }

  lemma TableAfterRun(catalog: Catalog, s: Base, today: int, product: ProductId)
    requires catalog.UnitOf(product).Some?
    ensures var after, table := After(catalog, s, Calculate(today, map[])), TableOf(s.prices, product);
            && after.bids == s.bids
            && TableOf(after.prices, product) ==
                 if HasRecentBid(s, today, product)
                 then Run(s.bids, product, catalog.UnitOf(product).value, table, None) else table
  {
    hide RunAll, SelectedProducts, Run, TableOf, Watermark;
    RunAllTables(catalog, s.bids, s.prices, SelectedProducts(s.bids, Watermark(s.prices), today), map[], product);
    SelectedMembers(s.bids, Watermark(s.prices), today, product);
  }

  // An undisturbed run fills every table that hides nothing.
  lemma RunFills(catalog: Catalog, s: Base, today: int, product: ProductId)
    requires NothingHidden(catalog, s, product) && Undisturbed(s, Calculate(today, map[]))
    ensures FullFor(catalog, After(catalog, s, Calculate(today, map[])), product)
  {
    var unit := catalog.UnitOf(product);
    if unit.Some? {
      TableAfterRun(catalog, s, today, product);
      RunCompletes(s.bids, product, unit.value, TableOf(s.prices, product));
      hide After, TableOf, Run, FullTable, Watermark;
    }
  }

  lemma {:induction false} WatermarkInvariant(catalog: Catalog, s: Base, events: seq<Event>, product: ProductId)
    requires NothingHidden(catalog, s, product)
    requires AllTimely(catalog, s, events) && AllUndisturbed(catalog, s, events)
    ensures NothingHidden(catalog, AfterAll(catalog, s, events), product)
    decreases |events|
  {
    if events != [] {
      match events[0] {
        case Arrive(batch) =>
          ArrivalHidesNothing(catalog, s, batch, product);
        case Calculate(today, fails) =>
          StepStaysSound(catalog, s, events[0], product);
          RunFills(catalog, s, today, product);
      }
      WatermarkInvariant(catalog, After(catalog, s, events[0]), events[1..], product);
    }
  }

  lemma EmptyHidesNothing(catalog: Catalog, bids: seq<Bid>, product: ProductId)
    ensures NothingHidden(catalog, Base(bids, []), product)
  {
    var unit, s := catalog.UnitOf(product), Base(bids, []);
    if unit.Some? && !FullFor(catalog, s, product) {
      var days := DaysOfProduct(bids, product, unit.value);
      assert days[0] in days;
    }
  }

  // Main result: starting with no prices, after any history that keeps to the engine's assumptions
  // a run leaves every product with its full table, although it only looks at products with bids
  // from the watermark on.
  lemma WatermarkLosesNothing(catalog: Catalog, bids: seq<Bid>, events: seq<Event>, today: int, product: ProductId)
    requires var history := events + [Calculate(today, map[])];
             AllTimely(catalog, Base(bids, []), history) && AllUndisturbed(catalog, Base(bids, []), history)
    ensures FullFor(catalog, AfterAll(catalog, Base(bids, []), events + [Calculate(today, map[])]), product)
  {
    EmptyHidesNothing(catalog, bids, product);
    SplitHistory(catalog, Base(bids, []), events, Calculate(today, map[]));
    WatermarkInvariant(catalog, Base(bids, []), events, product);
    RunFills(catalog, AfterAll(catalog, Base(bids, []), events), today, product);
  }

  lemma {:induction false} SplitHistory(catalog: Catalog, s: Base, events: seq<Event>, e: Event)
    requires AllTimely(catalog, s, events + [e]) && AllUndisturbed(catalog, s, events + [e])
    ensures AllTimely(catalog, s, events) && AllUndisturbed(catalog, s, events)
    ensures Undisturbed(AfterAll(catalog, s, events), e)
    ensures AfterAll(catalog, s, events + [e]) == After(catalog, AfterAll(catalog, s, events), e)
    decreases |events|
  {
    if events == [] {
      assert events + [e] == [e];
    } else {
      assert (events + [e])[0] == events[0] && (events + [e])[1..] == events[1..] + [e];
      SplitHistory(catalog, After(catalog, s, events[0]), events[1..], e);
    }
  }

  // A full recalculation needs no history at all: from any prices it gives every product its full
  // table, as long as the bids are dated before its day.
  lemma FullRecalculationIsFull(catalog: Catalog, bids: seq<Bid>, today: int, product: ProductId)
    requires forall b :: b in bids ==> b.date.day < today
    ensures FullFor(catalog, Base(bids, RunAll(catalog, bids, [], SelectedProducts(bids, None, today), map[])), product)
  {
    EmptyHidesNothing(catalog, bids, product);
    RunFills(catalog, Base(bids, []), today, product);
  }

  // Exactly which products a run leaves with their full table: those whose table was sound and that
  // have a bid from the watermark on and before today, or no bid to price after their last priced day.
  lemma RunIsExact(catalog: Catalog, s: Base, today: int, product: ProductId)
    requires catalog.UnitOf(product).Some?
    ensures FullFor(catalog, After(catalog, s, Calculate(today, map[])), product) <==>
            && SoundFor(catalog, s, product)
            && (HasRecentBid(s, today, product) ||
                NoLaterBid(s.bids, product, catalog.UnitOf(product).value, LastDay(TableOf(s.prices, product))))
  {
    var unit, table := catalog.UnitOf(product).value, TableOf(s.prices, product);
    TableAfterRun(catalog, s, today, product);
    RunCompletes(s.bids, product, unit, table);
    hide After, TableOf, HasRecentBid, NoLaterBid, Run, LastDay, FullTable;
    if Sound(s.bids, product, unit, table) {
      FullExactly(s.bids, product, unit, table);
    }
  }

  // Main result: after any history whatever, a run leaves a product with its full table if and only if
  // no bid of the product came late, and it has a bid from the watermark on and before today or no bid
  // to price after its last priced day.
  lemma RunIsExactAfterAnyHistory(catalog: Catalog, bids: seq<Bid>, events: seq<Event>, today: int, product: ProductId)
    requires catalog.UnitOf(product).Some?
    ensures var s := AfterAll(catalog, Base(bids, []), events);
            FullFor(catalog, After(catalog, s, Calculate(today, map[])), product) <==>
            && AllOnTimeFor(catalog, Base(bids, []), events, product)
            && (HasRecentBid(s, today, product) ||
                NoLaterBid(s.bids, product, catalog.UnitOf(product).value, LastDay(TableOf(s.prices, product))))
  {
    var s := AfterAll(catalog, Base(bids, []), events);
    assert SoundFor(catalog, Base(bids, []), product);
    hide FullFor, SoundFor, NoLaterBid, HasRecentBid, After, AllOnTimeFor;
    EngineSoundExactly(catalog, Base(bids, []), events, product);
    RunIsExact(catalog, s, today, product);
  }

  // Why runs must not see bids of their own day. The per-product query has no end date: product 1,
  // selected on day 10 for a bid of day 5, is priced for day 10 too and drags the watermark past the
  // bid product 2 already has that day, so the run of day 11 does not look at product 2 any more.
  lemma UnfinishedDayHidesABid()
    ensures var s := Base([EARLY, LATE, HIDDEN], []);
            var history := [Calculate(10, map[]), Calculate(11, map[])];
            AllTimely(SHOP, s, history) && !FullFor(SHOP, AfterAll(SHOP, s, history), 2)
  {
    hide RunAll, SelectedProducts, TableOf, FullTable, Sound;
    var s, first, second := Base([EARLY, LATE, HIDDEN], []), Calculate(10, map[]), Calculate(11, map[]);
    var after := After(SHOP, s, first);
    FirstRunPrices(s.bids, LATE, 10, map[]);
    FirstRunSkips(s.bids, 10, map[]);
    OldBidIsHidden(SHOP, after, 11, HIDDEN, LATE.date);
    assert [first, second][1..] == [second] && [second][1..] == [];
    assert AfterAll(SHOP, s, [first, second]) == AfterAll(SHOP, after, [second]) == After(SHOP, after, second);
  }

  // And why no product may fail: product 2 fails on day 10 before it is priced, product 1 takes the
  // watermark past its bid, and the run of day 11, in which nothing fails, misses it.
  lemma FailureHidesABid()
    ensures var s := Base([SOLD, MISSED], []);
            var history := [Calculate(10, map[2 := 0]), Calculate(11, map[])];
            && AllTimely(SHOP, s, history) && (forall b :: b in s.bids ==> b.date.day < 10)
            && !FullFor(SHOP, AfterAll(SHOP, s, history), 2)
  {
    hide RunAll, SelectedProducts, TableOf, FullTable, Sound;
    var s, first, second := Base([SOLD, MISSED], []), Calculate(10, map[2 := 0]), Calculate(11, map[]);
    var after := After(SHOP, s, first);
    FirstRunPrices(s.bids, SOLD, 10, map[2 := 0]);
    FirstRunSkips(s.bids, 10, map[2 := 0]);
    OldBidIsHidden(SHOP, after, 11, MISSED, SOLD.date);
    assert [first, second][1..] == [second] && [second][1..] == [];
    assert AfterAll(SHOP, s, [first, second]) == AfterAll(SHOP, after, [second]) == After(SHOP, after, second);
  }

  const SOLD := Bid(1, Moment(5, 500), 1.0, "kg", "", CURRENCY, false)
  const MISSED := Bid(2, Moment(5, 100), 1.0, "kg", "", CURRENCY, false)

  lemma NothingSurvives(bids: seq<Bid>, product: ProductId, unit: string, table: seq<Price>)
    ensures Run(bids, product, unit, table, Some(0)) == table
  {
  }

  // Why bids must not come late: a bid of day 3 arrives after day 5 has been priced, and no run prices
  // it any more, although no product fails and all bids lie before the days of the runs.
  lemma LateBidIsNotPriced()
    ensures var s := Base([SOLD], []);
            var history := [Calculate(10, map[]), Arrive([LATECOMER]), Calculate(11, map[])];
            AllUndisturbed(SHOP, s, history) && !FullFor(SHOP, AfterAll(SHOP, s, history), 1)
  {
    var s, first, arrival, second := Base([SOLD], []), Calculate(10, map[]), Arrive([LATECOMER]), Calculate(11, map[]);
    var one := After(SHOP, s, first);
    var two := After(SHOP, one, arrival);
    assert one.bids == [SOLD] && two.bids == [SOLD, LATECOMER];
    ThreeEvents(SHOP, s, first, arrival, second);
    assert AfterAll(SHOP, s, [first, arrival]) == two by {
      assert [first, arrival][1..] == [arrival] && [arrival][1..] == [];
      assert AfterAll(SHOP, one, [arrival]) == AfterAll(SHOP, two, []);
    }
    LatecomerIsLate();
    hide After, AllOnTimeFor, FullFor, HasRecentBid, NoLaterBid;
    RunIsExactAfterAnyHistory(SHOP, [SOLD], [first, arrival], 11, 1);
  }

  lemma LatecomerIsLate()
    ensures !AllOnTimeFor(SHOP, Base([SOLD], []), [Calculate(10, map[]), Arrive([LATECOMER])], 1)
  {
    var s, first, arrival := Base([SOLD], []), Calculate(10, map[]), Arrive([LATECOMER]);
    var one := After(SHOP, s, first);
    EmptyHidesNothing(SHOP, [SOLD], 1);
    RunFills(SHOP, s, 10, 1);
    assert one.bids == [SOLD] && SHOP.UnitOf(1) == Some("kg");
    hide RunAll, SelectedProducts, TableOf, FullTable, Sound, LastDay;
    FullExactly([SOLD], 1, "kg", TableOf(one.prices, 1));
    assert SOLD in [SOLD] && LATECOMER in [LATECOMER];
    assert !OnTimeFor(SHOP, one, arrival, 1);
    hide After, OnTimeFor;
    assert [first, arrival][1..] == [arrival] && [first, arrival][0] == first;
    assert !AllOnTimeFor(SHOP, one, [arrival], 1);
  }

  lemma ThreeEvents(catalog: Catalog, s: Base, a: Event, b: Event, c: Event)
    ensures var one := After(catalog, s, a);
            var two := After(catalog, one, b);
            && AfterAll(catalog, s, [a, b, c]) == After(catalog, two, c)
            && (AllUndisturbed(catalog, s, [a, b, c]) <==> Undisturbed(s, a) && Undisturbed(one, b) && Undisturbed(two, c))
  {
    hide After, Undisturbed;
    var one := After(catalog, s, a);
    var two := After(catalog, one, b);
    assert [a, b, c][1..] == [b, c] && [b, c][1..] == [c] && [c][1..] == [];
    assert AfterAll(catalog, two, [c]) == AfterAll(catalog, After(catalog, two, c), []);
    assert AfterAll(catalog, one, [b, c]) == AfterAll(catalog, two, [c]);
    assert AllUndisturbed(catalog, two, [c]) <==> Undisturbed(two, c);
    assert AllUndisturbed(catalog, one, [b, c]) <==> Undisturbed(one, b) && AllUndisturbed(catalog, two, [c]);
  }

  const LATECOMER := Bid(1, Moment(3, 0), 1.0, "kg", "", CURRENCY, false)

  const SHOP := Catalog(map[1 := Some("c"), 2 := Some("c")], map["c" := Some("kg")])
  const EARLY := Bid(1, Moment(5, 0), 1.0, "kg", "", CURRENCY, false)
  const LATE := Bid(1, Moment(10, 500), 1.0, "kg", "", CURRENCY, false)
  const HIDDEN := Bid(2, Moment(10, 100), 1.0, "kg", "", CURRENCY, false)

  // In the first run product 1 is priced, up to its last bid, ...
  lemma FirstRunPrices(bids: seq<Bid>, late: Bid, today: int, fails: map<ProductId, nat>)
    requires late in bids && Matches(late, 1, "kg") && 1 !in fails
    requires forall b :: b in bids && b.product == 1 && b.date.day == late.date.day ==> b == late
    requires exists b :: b in bids && b.product == 1 && b.date.day < today
    ensures var prices := After(SHOP, Base(bids, []), Calculate(today, fails)).prices;
            exists p :: p in prices && p.date == late.date
  {
    var ids := SelectedProducts(bids, None, today);
    hide RunAll, Run, FullTable, SelectedProducts, TableOf;
    SelectedMembers(bids, None, today, 1);
    RunAllTables(SHOP, bids, [], ids, fails, 1);
    NoPricesYet(1);
    RunCompletes(bids, 1, "kg", []);
    LatePriceIsStored(bids, late, RunAll(SHOP, bids, [], ids, fails));
  }

  // ... and product 2 is not, because it fails or because it is not looked at.
  lemma FirstRunSkips(bids: seq<Bid>, today: int, fails: map<ProductId, nat>)
    requires (2 in fails && fails[2] == 0) || forall b :: b in bids && b.product == 2 ==> b.date.day >= today
    ensures TableOf(After(SHOP, Base(bids, []), Calculate(today, fails)).prices, 2) == []
  {
    var ids := SelectedProducts(bids, None, today);
    SelectedMembers(bids, None, today, 2);
    NoPricesYet(2);
    NothingSurvives(bids, 2, "kg", []);
    hide RunAll, Run, SelectedProducts, TableOf;
    RunAllTables(SHOP, bids, [], ids, fails, 2);
  }

  lemma NoPricesYet(product: ProductId)
    ensures TableOf([], product) == []
  {
  }

  // A product whose bids all lie below the date of some price is not looked at any more.
  lemma OldBidIsHidden(catalog: Catalog, s: Base, today: int, hidden: Bid, stored: Moment)
    requires exists p :: p in s.prices && p.date == stored
    requires !stored.AtMost(hidden.date) && hidden in s.bids
    requires catalog.UnitOf(hidden.product).Some? && Matches(hidden, hidden.product, catalog.UnitOf(hidden.product).value)
    requires forall b :: b in s.bids && b.product == hidden.product ==> b == hidden
    requires TableOf(s.prices, hidden.product) == []
    ensures !FullFor(catalog, After(catalog, s, Calculate(today, map[])), hidden.product)
  {
    var product, unit := hidden.product, catalog.UnitOf(hidden.product);
    LastIsGreatest(s.prices);
    SelectedMembers(s.bids, Watermark(s.prices), today, product);
    RunIsExact(catalog, s, today, product);
    assert HasBid(s.bids, product, unit.value, hidden.date.day);
    assert hidden.date.day in DaysOfProduct(s.bids, product, unit.value);
  }

  lemma LatePriceIsStored(bids: seq<Bid>, late: Bid, prices: seq<Price>)
    requires late in bids && Matches(late, 1, "kg")
    requires forall b :: b in bids && b.product == 1 && b.date.day == late.date.day ==> b == late
    requires TableOf(prices, 1) == FullTable(bids, 1, "kg")
    ensures exists p :: p in prices && p.date == late.date
  {
    var day := late.date.day;
    assert HasBid(bids, 1, "kg", day);
    var days := DaysOfProduct(bids, 1, "kg");
    assert day in days;
    var i :| 0 <= i < |days| && days[i] == day;
    var p := FullTable(bids, 1, "kg")[i];
    assert p == PriceOn(bids, 1, "kg", day);
    FoundBids(bids, MatchingOnDay(1, "kg", day));
    assert p.date == late.date;
    FilterMembers(prices, ByProduct(1));
    assert p in TableOf(prices, 1);
  }
}
