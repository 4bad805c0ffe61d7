// Resuming the price calculation of one product. A table of stored prices is sound when it is a
// prefix of the full table; a run appends the prices of the days beyond the last stored one.
module PriceRuns {
  import opened Common
  import opened Seqs
  import opened Prices

  // The price with the greatest date: sort by date descending, take one.
  function LastPrice(prices: seq<Price>): Option<Price> {
    if prices == [] then None else
    var rest := LastPrice(prices[1..]);
    if rest.None? || rest.value.date.AtMost(prices[0].date) then Some(prices[0]) else rest
  }

  function LastDay(prices: seq<Price>): Option<int> {
    var last := LastPrice(prices);
    if last.None? then None else Some(last.value.date.day)
  }

  function DaysAfter(days: seq<int>, last: Option<int>): seq<int> {
    if last.None? then days else Beyond(days, last.value)
  }

  lemma DaysAfterHaveBids(bids: seq<Bid>, product: ProductId, unit: string, last: Option<int>)
    ensures forall d :: d in DaysAfter(DaysOfProduct(bids, product, unit), last) <==>
                        HasBid(bids, product, unit, d) && (last.Some? ==> d > last.value)
  {
    if last.Some? {
      FilterMembers(DaysOfProduct(bids, product, unit), (d: int) => d > last.value);
    }
  }

  // The prices a run that starts from the given last day has to add.
  function NewPrices(bids: seq<Bid>, product: ProductId, unit: string, last: Option<int>): seq<Price> {
    DaysAfterHaveBids(bids, product, unit, last);
    PricesOn(bids, product, unit, DaysAfter(DaysOfProduct(bids, product, unit), last))
  }

  // A run may be cut off after some inserts; None means that it is not.
  function Cut(s: seq<Price>, survives: Option<nat>): (r: seq<Price>)
    ensures r <= s
  {
    if survives.None? || survives.value >= |s| then s else s[..survives.value]
  }

  function Run(bids: seq<Bid>, product: ProductId, unit: string, table: seq<Price>, survives: Option<nat>): seq<Price> {
    table + Cut(NewPrices(bids, product, unit, LastDay(table)), survives)
  }

  ghost predicate Sound(bids: seq<Bid>, product: ProductId, unit: string, table: seq<Price>) {
    table <= FullTable(bids, product, unit)
  }

  /******* The last stored day *******/

  lemma {:induction false} LastOfAscending(prices: seq<Price>)
    requires forall i, j :: 0 <= i < j < |prices| ==> prices[i].date.day < prices[j].date.day
    ensures LastPrice(prices) == if prices == [] then None else Some(prices[|prices| - 1])
  {
    if |prices| > 1 {
      LastOfAscending(prices[1..]);
    }
  }

  // No stored price is dated after the last one.
  lemma {:induction false} LastIsGreatest(prices: seq<Price>)
    ensures prices != [] ==> LastPrice(prices).Some? && LastPrice(prices).value in prices
    ensures forall p :: p in prices ==> p.date.AtMost(LastPrice(prices).value.date)
  {
    if prices != [] {
      LastIsGreatest(prices[1..]);
      assert forall p :: p in prices <==> p == prices[0] || p in prices[1..];
    }
  }

  lemma LastDayOfSound(bids: seq<Bid>, product: ProductId, unit: string, table: seq<Price>)
    requires Sound(bids, product, unit, table)
    ensures LastDay(table) ==
            if table == [] then None else Some(DaysOfProduct(bids, product, unit)[|table| - 1])
  {
    var full := FullTable(bids, product, unit);
    forall i, j | 0 <= i < j < |table|
      ensures table[i].date.day < table[j].date.day
    {
      assert table[i] == full[i] && table[j] == full[j];
    }
    LastOfAscending(table);
    if table != [] {
      assert table[|table| - 1] == full[|table| - 1];
    }
  }

  lemma DaysAfterPosition(days: seq<int>, k: nat)
    requires StrictlyAscending(days) && k <= |days|
    ensures DaysAfter(days, if k == 0 then None else Some(days[k - 1])) == days[k..]
    ensures k > 0 ==> UpTo(days, days[k - 1]) == days[..k]
  {
    if k > 0 {
      var last := days[k - 1];
      var low, high := (d: int) => d <= last, (d: int) => d > last;
      assert days == days[..k] + days[k..];
      FilterConcat(days[..k], days[k..], low);
      FilterConcat(days[..k], days[k..], high);
      FilterAll(days[..k], low);
      FilterAll(days[k..], high);
      FilterNone(days[..k], high);
      FilterNone(days[k..], low);
    }
  }

  // From a sound table a run adds exactly the missing rows, in the order of the full table.
  lemma RunAddsTheRest(bids: seq<Bid>, product: ProductId, unit: string, table: seq<Price>)
    requires Sound(bids, product, unit, table)
    ensures table + NewPrices(bids, product, unit, LastDay(table)) == FullTable(bids, product, unit)
  {
    hide LastDay, DaysAfter, DaysOfProduct, PriceOn;
    LastDayOfSound(bids, product, unit, table);
    DaysAfterPosition(DaysOfProduct(bids, product, unit), |table|);
  }

  // No matching bid falls after the last priced day.
  ghost predicate NoLaterBid(bids: seq<Bid>, product: ProductId, unit: string, last: Option<int>) {
    forall b :: b in bids && Matches(b, product, unit) ==> last.Some? && b.date.day <= last.value
  }

  // A sound table lacks nothing exactly if no bid falls after its last day.
  lemma FullExactly(bids: seq<Bid>, product: ProductId, unit: string, table: seq<Price>)
    requires Sound(bids, product, unit, table)
    ensures table == FullTable(bids, product, unit) <==> NoLaterBid(bids, product, unit, LastDay(table))
  {
    hide LastDay, DaysAfter, DaysOfProduct, PriceOn;
    RunAddsTheRest(bids, product, unit, table);
    DaysAfterHaveBids(bids, product, unit, LastDay(table));
    var missing := DaysAfter(DaysOfProduct(bids, product, unit), LastDay(table));
    assert table == FullTable(bids, product, unit) <==> missing == [];
    if missing != [] {
      assert missing[0] in missing;
    } else {
      forall b | b in bids && Matches(b, product, unit)
        ensures LastDay(table).Some? && b.date.day <= LastDay(table).value
      {
        assert HasBid(bids, product, unit, b.date.day);
        assert b.date.day !in missing;
      }
    }
  }

  // A run that is not cut off ends with the full table exactly if it started from a sound one.
  lemma RunCompletes(bids: seq<Bid>, product: ProductId, unit: string, table: seq<Price>)
    ensures Run(bids, product, unit, table, None) == FullTable(bids, product, unit) <==>
            Sound(bids, product, unit, table)
  {
    if Sound(bids, product, unit, table) {
      RunAddsTheRest(bids, product, unit, table);
    }
  }

  // A run cut off anywhere leaves a sound table.
  lemma RunStaysSound(bids: seq<Bid>, product: ProductId, unit: string, table: seq<Price>, survives: Option<nat>)
    requires Sound(bids, product, unit, table)
    ensures Sound(bids, product, unit, Run(bids, product, unit, table, survives))
  {
    RunAddsTheRest(bids, product, unit, table);
  }

  /******* Bids that arrive later *******/

  // No matching bid of the batch falls on a day up to the last priced one.
  ghost predicate OnTime(batch: seq<Bid>, product: ProductId, unit: string, last: Option<int>) {
    forall b :: b in batch && Matches(b, product, unit) ==> last.None? || b.date.day > last.value
  }

  lemma FilterIgnoresBatch(bids: seq<Bid>, batch: seq<Bid>, p: Bid -> bool)
    requires forall b :: b in batch ==> !p(b)
    ensures Filter(bids + batch, p) == Filter(bids, p)
  {
    FilterConcat(bids, batch, p);
    FilterNone(batch, p);
  }

  lemma PriceUnchanged(bids: seq<Bid>, batch: seq<Bid>, product: ProductId, unit: string, day: int)
    requires HasBid(bids, product, unit, day)
    requires forall b :: b in batch && Matches(b, product, unit) ==> b.date.day > day
    ensures HasBid(bids + batch, product, unit, day)
    ensures PriceOn(bids + batch, product, unit, day) == PriceOn(bids, product, unit, day)
  {
    var b :| b in bids && Matches(b, product, unit) && b.date.day == day;
    assert b in bids + batch;
    FilterIgnoresBatch(bids, batch, MatchingInWindow(product, unit, day));
    FilterIgnoresBatch(bids, batch, MatchingOnDay(product, unit, day));
  }

  lemma DaysUpToUnchanged(bids: seq<Bid>, batch: seq<Bid>, product: ProductId, unit: string, last: int)
    requires OnTime(batch, product, unit, Some(last))
    ensures UpTo(DaysOfProduct(bids + batch, product, unit), last) == UpTo(DaysOfProduct(bids, product, unit), last)
  {
    var before, after := DaysOfProduct(bids, product, unit), DaysOfProduct(bids + batch, product, unit);
    SplitAtBound(before, last);
    SplitAtBound(after, last);
    FilterMembers(before, (d: int) => d <= last);
    FilterMembers(after, (d: int) => d <= last);
    forall d | d <= last
      ensures HasBid(bids + batch, product, unit, d) <==> HasBid(bids, product, unit, d)
    {
      assert forall b :: b in bids + batch <==> b in bids || b in batch;
    }
    DistinctIsUnique(UpTo(after, last), UpTo(before, last));
  }

  // Bids that arrive on time leave a sound table sound.
  lemma ArrivalStaysSound(bids: seq<Bid>, batch: seq<Bid>, product: ProductId, unit: string, table: seq<Price>)
    requires Sound(bids, product, unit, table)
    requires OnTime(batch, product, unit, LastDay(table))
    ensures Sound(bids + batch, product, unit, table)
  {
    hide LastDay, DaysAfter, DaysOfProduct, PriceOn, UpTo, Beyond;
    var days, days' := DaysOfProduct(bids, product, unit), DaysOfProduct(bids + batch, product, unit);
    var full, full' := FullTable(bids, product, unit), FullTable(bids + batch, product, unit);
    LastDayOfSound(bids, product, unit, table);
    if table != [] {
      var k := |table|;
      var last := days[k - 1];
      DaysAfterPosition(days, k);
      DaysUpToUnchanged(bids, batch, product, unit, last);
      SplitAtBound(days', last);
      assert days[..k] <= days';
      forall i | 0 <= i < k
        ensures full'[i] == table[i]
      {
        assert days'[i] == days[..k][i] == days[i] <= last;
        assert table[i] == full[i];
        PriceUnchanged(bids, batch, product, unit, days[i]);
      }
    }
  }

  /******* Histories *******/

  datatype Change = NewBids(batch: seq<Bid>) | OneRun(survives: Option<nat>)

  datatype History = History(bids: seq<Bid>, table: seq<Price>)

  function After(h: History, product: ProductId, unit: string, e: Change): History {
    match e
    case NewBids(batch) => h.(bids := h.bids + batch)
    case OneRun(survives) => h.(table := Run(h.bids, product, unit, h.table, survives))
  }

  function AfterAll(h: History, product: ProductId, unit: string, events: seq<Change>): History
    decreases |events|
  {
    if events == [] then h else AfterAll(After(h, product, unit, events[0]), product, unit, events[1..])
  }

  // Every batch comes after the product's last priced day at the time it arrives.
  ghost predicate AllOnTime(h: History, product: ProductId, unit: string, events: seq<Change>)
    decreases |events|
  {
    events != [] ==>
      && (events[0].NewBids? ==> OnTime(events[0].batch, product, unit, LastDay(h.table)))
      && AllOnTime(After(h, product, unit, events[0]), product, unit, events[1..])
  }

  /******* Bids that arrive too late *******/

  // A row counts too few bids, or a bid on or before the last priced day has no row.
  ghost predicate ShortRow(bids: seq<Bid>, product: ProductId, unit: string, p: Price) {
    p.sampleSize < |Filter(bids, MatchingInWindow(product, unit, p.date.day))|
  }

  ghost predicate Unpriced(b: Bid, product: ProductId, unit: string, table: seq<Price>) {
    && Matches(b, product, unit) && LastDay(table).Some? && b.date.day <= LastDay(table).value
    && forall p :: p in table ==> p.date.day != b.date.day
  }

  ghost predicate Broken(bids: seq<Bid>, product: ProductId, unit: string, table: seq<Price>) {
    || (exists p :: p in table && ShortRow(bids, product, unit, p))
    || (exists b :: b in bids && Unpriced(b, product, unit, table))
  }

  lemma SoundRow(bids: seq<Bid>, product: ProductId, unit: string, table: seq<Price>, p: Price)
    requires Sound(bids, product, unit, table) && p in table
    ensures HasBid(bids, product, unit, p.date.day) && p == PriceOn(bids, product, unit, p.date.day)
  {
    var i :| 0 <= i < |table| && table[i] == p;
    var days := DaysOfProduct(bids, product, unit);
    assert p == FullTable(bids, product, unit)[i];
    assert days[i] in days;
  }

  lemma BrokenIsUnsound(bids: seq<Bid>, product: ProductId, unit: string, table: seq<Price>)
    requires Broken(bids, product, unit, table)
    ensures !Sound(bids, product, unit, table)
  {
    if Sound(bids, product, unit, table) {
      forall p | p in table
        ensures !ShortRow(bids, product, unit, p)
      {
        SoundRow(bids, product, unit, table, p);
      }
      forall b | b in bids
        ensures !Unpriced(b, product, unit, table)
      {
        if Matches(b, product, unit) && LastDay(table).Some? && b.date.day <= LastDay(table).value {
          DayIsPriced(bids, product, unit, table, b);
        }
      }
    }
  }

  lemma DayIsPriced(bids: seq<Bid>, product: ProductId, unit: string, table: seq<Price>, b: Bid)
    requires Sound(bids, product, unit, table) && b in bids && Matches(b, product, unit)
    requires LastDay(table).Some? && b.date.day <= LastDay(table).value
    ensures exists p :: p in table && p.date.day == b.date.day
  {
    hide LastDay, DaysOfProduct, PriceOn;
    var days := DaysOfProduct(bids, product, unit);
    LastDayOfSound(bids, product, unit, table);
    assert HasBid(bids, product, unit, b.date.day);
    assert b.date.day in days;
    var i :| 0 <= i < |days| && days[i] == b.date.day;
    assert i < |table|;
    assert table[i] == FullTable(bids, product, unit)[i] && table[i] in table;
  }

  // A late bid breaks a sound table: it is missing from the row of its day, or the day has none.
  lemma LateBatchBreaks(bids: seq<Bid>, batch: seq<Bid>, product: ProductId, unit: string, table: seq<Price>)
    requires Sound(bids, product, unit, table) && !OnTime(batch, product, unit, LastDay(table))
    ensures Broken(bids + batch, product, unit, table)
  {
    hide LastDay, Sound, PriceOn;
    var b :| b in batch && Matches(b, product, unit) && LastDay(table).Some? && b.date.day <= LastDay(table).value;
    assert b in bids + batch;
    if p :| p in table && p.date.day == b.date.day {
      var window := MatchingInWindow(product, unit, p.date.day);
      SoundRow(bids, product, unit, table, p);
      FilterConcat(bids, batch, window);
      FilterMembers(batch, window);
      assert b in Filter(batch, window);
      assert ShortRow(bids + batch, product, unit, p);
    } else {
      assert Unpriced(b, product, unit, table);
    }
  }

  lemma ArrivalStaysBroken(bids: seq<Bid>, batch: seq<Bid>, product: ProductId, unit: string, table: seq<Price>)
    requires Broken(bids, product, unit, table)
    ensures Broken(bids + batch, product, unit, table)
  {
    hide Unpriced;
    if p :| p in table && ShortRow(bids, product, unit, p) {
      FilterConcat(bids, batch, MatchingInWindow(product, unit, p.date.day));
      assert ShortRow(bids + batch, product, unit, p);
    } else {
      var b :| b in bids && Unpriced(b, product, unit, table);
      assert b in bids + batch;
    }
  }

  // A run only adds rows of later days.
  lemma AddedAreLater(bids: seq<Bid>, product: ProductId, unit: string, last: Option<int>, survives: Option<nat>)
    ensures forall p :: p in Cut(NewPrices(bids, product, unit, last), survives) ==> last.None? || p.date.day > last.value
  {
    hide DaysAfter, DaysOfProduct, PriceOn;
    var days, rows := DaysAfter(DaysOfProduct(bids, product, unit), last), NewPrices(bids, product, unit, last);
    DaysAfterHaveBids(bids, product, unit, last);
    forall p | p in Cut(rows, survives)
      ensures last.None? || p.date.day > last.value
    {
      var i :| 0 <= i < |Cut(rows, survives)| && Cut(rows, survives)[i] == p;
      assert p == rows[i] && days[i] in days;
    }
  }

  lemma RunStaysBroken(bids: seq<Bid>, product: ProductId, unit: string, table: seq<Price>, survives: Option<nat>)
    requires Broken(bids, product, unit, table)
    ensures Broken(bids, product, unit, Run(bids, product, unit, table, survives))
  {
    hide Cut, NewPrices, ShortRow;
    var added, after := Cut(NewPrices(bids, product, unit, LastDay(table)), survives), Run(bids, product, unit, table, survives);
    assert forall p :: p in after <==> p in table || p in added;
    if b :| b in bids && Unpriced(b, product, unit, table) {
      AddedAreLater(bids, product, unit, LastDay(table), survives);
      LastIsGreatest(table);
      LastIsGreatest(after);
      assert LastPrice(table).value in after;
      assert Unpriced(b, product, unit, after);
    }
  }

  // How far resuming goes: from a sound table, a run after a batch agrees with recalculating
  // everything if and only if no matching bid of the batch falls on or before the last priced day.
  lemma ResumingIsExact(bids: seq<Bid>, batch: seq<Bid>, product: ProductId, unit: string, table: seq<Price>)
    requires Sound(bids, product, unit, table)
    ensures Run(bids + batch, product, unit, table, None) == FullTable(bids + batch, product, unit) <==>
            OnTime(batch, product, unit, LastDay(table))
  {
    hide Run, Sound, FullTable, Broken, LastDay;
    RunCompletes(bids + batch, product, unit, table);
    if OnTime(batch, product, unit, LastDay(table)) {
      ArrivalStaysSound(bids, batch, product, unit, table);
    } else {
      LateBatchBreaks(bids, batch, product, unit, table);
      BrokenIsUnsound(bids + batch, product, unit, table);
    }
  }

  lemma {:induction false} StaysBroken(h: History, product: ProductId, unit: string, events: seq<Change>)
    requires Broken(h.bids, product, unit, h.table)
    ensures var end := AfterAll(h, product, unit, events); Broken(end.bids, product, unit, end.table)
    decreases |events|
  {
    hide Broken, Run;
    if events != [] {
      match events[0] {
        case NewBids(batch) => ArrivalStaysBroken(h.bids, batch, product, unit, h.table);
        case OneRun(survives) => RunStaysBroken(h.bids, product, unit, h.table, survives);
      }
      StaysBroken(After(h, product, unit, events[0]), product, unit, events[1..]);
    }
  }

  // Main result. Whatever runs happen and wherever each is cut off: if no bid comes late, the table is
  // the full recalculation over the bids at hand, restricted to a prefix of its days - ascending, none
  // priced twice, none skipped. And one late bid spoils it for good.
  lemma {:induction false} SoundExactly(h: History, product: ProductId, unit: string, events: seq<Change>)
    requires Sound(h.bids, product, unit, h.table)
    ensures var end := AfterAll(h, product, unit, events);
            Sound(end.bids, product, unit, end.table) <==> AllOnTime(h, product, unit, events)
    decreases |events|
  {
    hide Sound, Broken, Run, LastDay;
    if events != [] {
      var next := After(h, product, unit, events[0]);
      if events[0].NewBids? && !OnTime(events[0].batch, product, unit, LastDay(h.table)) {
        LateBatchBreaks(h.bids, events[0].batch, product, unit, h.table);
        StaysBroken(next, product, unit, events[1..]);
        var end := AfterAll(h, product, unit, events);
        BrokenIsUnsound(end.bids, product, unit, end.table);
      } else {
        match events[0] {
          case NewBids(batch) => ArrivalStaysSound(h.bids, batch, product, unit, h.table);
          case OneRun(survives) => RunStaysSound(h.bids, product, unit, h.table, survives);
        }
        SoundExactly(next, product, unit, events[1..]);
      }
    }
  }

  // Incremental equals full: after a history one completed run yields what a single run from the
  // empty table would, if and only if no bid of the history came late.
  lemma IncrementalEqualsFull(bids: seq<Bid>, product: ProductId, unit: string, events: seq<Change>)
    ensures var end := AfterAll(History(bids, []), product, unit, events);
            Run(end.bids, product, unit, end.table, None) == Run(end.bids, product, unit, [], None) <==>
            AllOnTime(History(bids, []), product, unit, events)
    ensures var end := AfterAll(History(bids, []), product, unit, events);
            Run(end.bids, product, unit, [], None) == FullTable(end.bids, product, unit)
  {
    var end := AfterAll(History(bids, []), product, unit, events);
    assert Sound(bids, product, unit, []) && Sound(end.bids, product, unit, []);
    hide Sound, Run, FullTable;
    SoundExactly(History(bids, []), product, unit, events);
    RunCompletes(end.bids, product, unit, end.table);
    RunCompletes(end.bids, product, unit, []);
  }
}
