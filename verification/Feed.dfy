// A crawler on the feed while documents are being written: when a page comes back empty, it has seen
// every document in its current version.
module Feed {
  import opened Common
  import opened Seqs
  import opened Ordering
  import opened Pagination

  datatype World = World(items: seq<Item>, offset: Offset, delivered: map<string, nat>)

  // Writers create a document or replace one, which moves it to the date of the write; the crawler
  // takes a page and follows its next link.
  datatype Step = Write(id: string, dateModified: Stamp, version: nat) | Crawl(limit: nat)

  function Other(id: string): Item -> bool {
    (i: Item) => i.id != id
  }

  function Deliver(delivered: map<string, nat>, page: seq<Item>): map<string, nat>
    decreases |page|
  {
    if page == [] then delivered else Deliver(delivered[page[0].id := page[0].version], page[1..])
  }

  function Next(w: World, s: Step): World {
    match s
    case Write(id, dateModified, version) =>
      w.(items := Filter(w.items, Other(id)) + [Item(id, dateModified, version)])
    case Crawl(limit) =>
      var page := PageItems(w.items, w.offset, Clamp(limit), false);
      w.(offset := NextOffset(page, w.offset), delivered := Deliver(w.delivered, page))
  }

  function Run(w: World, steps: seq<Step>): World
    decreases |steps|
  {
    if steps == [] then w else Run(Next(w, steps[0]), steps[1..])
  }

  predicate DistinctIds(items: seq<Item>) {
    forall i, j :: 0 <= i < j < |items| ==> items[i].id != items[j].id
  }

  ghost predicate Seen(w: World, i: Item) {
    i.id in w.delivered && w.delivered[i.id] == i.version
  }

  // Every document at or below the offset has been delivered in its current version.
  ghost predicate AllSeen(w: World) {
    forall i :: i in w.items && !After(w.offset, false)(i) ==> Seen(w, i)
  }

  ghost predicate FeedInv(w: World) {
    DistinctIds(w.items) && DistinctStamps(w.items) && AllSeen(w)
  }

  // The write is dated beyond the crawler's offset, or the crawler knows that version already ...
  predicate Ahead(w: World, id: string, dateModified: Stamp, version: nat) {
    w.offset.None? || dateModified > w.offset.value || (id in w.delivered && w.delivered[id] == version)
  }

  // ... and no other document bears its date.
  ghost predicate Fits(w: World, s: Step) {
    s.Write? ==>
      && Ahead(w, s.id, s.dateModified, s.version)
      && forall i :: i in w.items && i.id != s.id ==> i.dateModified != s.dateModified
  }

  ghost predicate AllFit(w: World, steps: seq<Step>)
    decreases |steps|
  {
    steps != [] ==> Fits(w, steps[0]) && AllFit(Next(w, steps[0]), steps[1..])
  }

  /******* Writing *******/

  lemma {:induction false} FilterKeepsDistinctIds(items: seq<Item>, p: Item -> bool)
    requires DistinctIds(items)
    ensures DistinctIds(Filter(items, p))
  {
    if items != [] {
      FilterKeepsDistinctIds(items[1..], p);
      FilterMembers(items[1..], p);
      var rest := Filter(items[1..], p);
      forall j | 0 <= j < |rest|
        ensures rest[j].id != items[0].id
      {
        assert rest[j] in rest;
        var k :| 0 <= k < |items[1..]| && items[1..][k] == rest[j];
        assert items[k + 1] == items[1..][k];
      }
    }
  }

  lemma WrittenItems(items: seq<Item>, i: Item)
    requires DistinctIds(items)
    ensures var after := Filter(items, Other(i.id)) + [i];
            && DistinctIds(after)
            && forall x :: x in after <==> (x in items && x.id != i.id) || x == i
  {
    FilterKeepsDistinctIds(items, Other(i.id));
    FilterMembers(items, Other(i.id));
    var kept := Filter(items, Other(i.id));
    assert forall j :: 0 <= j < |kept| ==> kept[j] in kept;
  }

  // Exactly which writes keep what lies at or below the offset delivered, whatever their dates.
  lemma WriteKeepsSeenExactly(w: World, id: string, dateModified: Stamp, version: nat)
    requires DistinctIds(w.items) && AllSeen(w)
    ensures AllSeen(Next(w, Write(id, dateModified, version))) <==> Ahead(w, id, dateModified, version)
  {
    var i := Item(id, dateModified, version);
    var after := Next(w, Write(id, dateModified, version));
    WrittenItems(w.items, i);
    assert i in after.items;
    assert AllSeen(after) <==> (!After(w.offset, false)(i) ==> Seen(w, i));
  }

  lemma DistinctStampsAfter(items: seq<Item>, i: Item)
    requires DistinctIds(items) && DistinctStamps(items)
    ensures DistinctStamps(Filter(items, Other(i.id)) + [i]) <==>
            forall x :: x in items && x.id != i.id ==> x.dateModified != i.dateModified
  {
    var kept := Filter(items, Other(i.id));
    DistinctFiltered(items, Other(i.id));
    FilterMembers(items, Other(i.id));
    var after := kept + [i];
    assert after[|kept|] == i;
    if DistinctStamps(after) {
      forall x | x in kept
        ensures x.dateModified != i.dateModified
      {
        var j :| 0 <= j < |kept| && kept[j] == x;
        assert after[j].dateModified != after[|kept|].dateModified;
      }
    } else {
      assert forall j :: 0 <= j < |kept| ==> kept[j] in kept;
    }
  }

  // And which of them keep the whole invariant, distinct dates included.
  lemma WriteKeepsInvExactly(w: World, id: string, dateModified: Stamp, version: nat)
    requires FeedInv(w)
    ensures FeedInv(Next(w, Write(id, dateModified, version))) <==> Fits(w, Write(id, dateModified, version))
  {
    var i := Item(id, dateModified, version);
    WrittenItems(w.items, i);
    DistinctStampsAfter(w.items, i);
    WriteKeepsSeenExactly(w, id, dateModified, version);
    hide DistinctIds, DistinctStamps, AllSeen, Ahead;
  }

  /******* Crawling *******/

  lemma {:induction false} DeliverAll(delivered: map<string, nat>, page: seq<Item>)
    requires DistinctIds(page)
    ensures forall i :: i in page ==> i.id in Deliver(delivered, page) && Deliver(delivered, page)[i.id] == i.version
    ensures forall id :: id in delivered && (forall i :: i in page ==> i.id != id) ==>
              id in Deliver(delivered, page) && Deliver(delivered, page)[id] == delivered[id]
    decreases |page|
  {
    if page != [] {
      var next := delivered[page[0].id := page[0].version];
      DeliverAll(next, page[1..]);
      assert forall i :: i in page <==> i == page[0] || i in page[1..];
      assert forall i :: i in page[1..] ==> i.id != page[0].id by {
        forall i | i in page[1..]
          ensures i.id != page[0].id
        {
          var k :| 0 <= k < |page[1..]| && page[1..][k] == i;
          assert page[k + 1] == i;
        }
      }
    }
  }

  // Items of distinct ids stay so however they are sorted.
  lemma SameIdSameItem(items: seq<Item>, a: Item, b: Item)
    requires DistinctIds(items) && a in items && b in items && a.id == b.id
    ensures a == b
  {
  }

  lemma RestHasDistinctIds(items: seq<Item>, offset: Offset)
    requires DistinctIds(items) && DistinctStamps(items)
    ensures DistinctIds(Rest(items, offset, false)) && DistinctStamps(Rest(items, offset, false))
    ensures forall i :: i in Rest(items, offset, false) <==> i in items && After(offset, false)(i)
  {
    var rest := Rest(items, offset, false);
    DistinctRest(items, offset, false);
    StampsAreOrdered(false);
    SortedMembers(ByStamp(false), items, After(offset, false));
    forall i, j | 0 <= i < j < |rest|
      ensures rest[i].id != rest[j].id
    {
      assert rest[i] in rest && rest[j] in rest;
      if rest[i].id == rest[j].id {
        SameIdSameItem(items, rest[i], rest[j]);
      }
    }
  }

  // What is left to deliver and not on the page is dated after the page.
  lemma PageComesFirst(items: seq<Item>, offset: Offset, limit: nat, i: Item)
    requires DistinctIds(items) && DistinctStamps(items)
    requires i in items && After(offset, false)(i)
    ensures var page := PageItems(items, offset, Clamp(limit), false);
            page != [] && (i in page || i.dateModified > page[|page| - 1].dateModified)
  {
    var rest, page := Rest(items, offset, false), PageItems(items, offset, Clamp(limit), false);
    RestHasDistinctIds(items, offset);
    RestIsSorted(items, offset, false);
    var k :| 0 <= k < |rest| && rest[k] == i;
    if k < |page| {
      assert page[k] == i;
    } else {
      assert ByStamp(false)(rest[|page| - 1], rest[k]);
    }
  }

  lemma CrawlKeepsInv(w: World, limit: nat)
    requires FeedInv(w)
    ensures FeedInv(Next(w, Crawl(limit)))
  {
    var rest, page := Rest(w.items, w.offset, false), PageItems(w.items, w.offset, Clamp(limit), false);
    var after := Next(w, Crawl(limit));
    RestHasDistinctIds(w.items, w.offset);
    DeliverAll(w.delivered, page);
    assert forall i :: i in page ==> i in rest;
    hide Rest, PageItems, Deliver;
    if page != [] {
      assert page[|page| - 1] in page;
    }
    forall i | i in w.items && !After(after.offset, false)(i)
      ensures Seen(after, i)
    {
      if After(w.offset, false)(i) {
        PageComesFirst(w.items, w.offset, limit, i);
      } else {
        forall j | j in page
          ensures j.id != i.id
        {
          if j.id == i.id {
            SameIdSameItem(w.items, i, j);
          }
        }
      }
    }
  }

  lemma {:induction false} RunKeepsInv(w: World, steps: seq<Step>)
    requires FeedInv(w) && AllFit(w, steps)
    ensures FeedInv(Run(w, steps))
    decreases |steps|
  {
    hide FeedInv, Fits, Next;
    if steps != [] {
      match steps[0] {
        case Write(id, dateModified, version) => WriteKeepsInvExactly(w, id, dateModified, version);
        case Crawl(limit) => CrawlKeepsInv(w, limit);
      }
      RunKeepsInv(Next(w, steps[0]), steps[1..]);
    }
  }

  const EMPTY_FEED := World([], None, map[])

  // Completeness under concurrent edits: whatever was written while the crawler went along, when the
  // page it asks for is empty it has delivered every document in its current version.
  lemma EmptyPageMeansComplete(steps: seq<Step>, limit: nat, i: Item)
    requires AllFit(EMPTY_FEED, steps)
    requires var end := Run(EMPTY_FEED, steps); PageItems(end.items, end.offset, Clamp(limit), false) == [] && i in end.items
    ensures Seen(Run(EMPTY_FEED, steps), i)
  {
    var end := Run(EMPTY_FEED, steps);
    RunKeepsInv(EMPTY_FEED, steps);
    if After(end.offset, false)(i) {
      PageComesFirst(end.items, end.offset, limit, i);
    }
  }

  /******* Writers that stamp later than anything stored *******/

  ghost predicate Later(w: World, s: Step) {
    s.Write? ==> forall i :: i in w.items ==> i.dateModified < s.dateModified
  }

  ghost predicate AllLater(w: World, steps: seq<Step>)
    decreases |steps|
  {
    steps != [] ==> Later(w, steps[0]) && AllLater(Next(w, steps[0]), steps[1..])
  }

  // The crawler has not gone past all documents.
  ghost predicate OffsetIsReached(w: World) {
    w.offset.Some? ==> exists i :: i in w.items && w.offset.value <= i.dateModified
  }

  lemma OffsetStaysReached(w: World, s: Step)
    requires OffsetIsReached(w) && Later(w, s)
    ensures OffsetIsReached(Next(w, s))
  {
    if s.Write? {
      assert Next(w, s).items[|Filter(w.items, Other(s.id))|] == Item(s.id, s.dateModified, s.version);
    } else {
      var page := PageItems(w.items, w.offset, Clamp(s.limit), false);
      StampsAreOrdered(false);
      SortedMembers(ByStamp(false), w.items, After(w.offset, false));
      hide SortBy, Filter;
      if page != [] {
        assert page[|page| - 1] == Rest(w.items, w.offset, false)[|page| - 1];
        assert page[|page| - 1] in Rest(w.items, w.offset, false);
      }
    }
  }

  // Such writers always fit, wherever the crawler is.
  lemma {:induction false} LaterFits(w: World, steps: seq<Step>)
    requires OffsetIsReached(w) && AllLater(w, steps)
    ensures AllFit(w, steps)
    decreases |steps|
  {
    hide Next;
    if steps != [] {
      OffsetStaysReached(w, steps[0]);
      LaterFits(Next(w, steps[0]), steps[1..]);
    }
  }

  /******* Writers that stamp too early *******/

  // Crawling on, and writes of other documents.
  ghost predicate Leaves(steps: seq<Step>, id: string) {
    forall k :: 0 <= k < |steps| ==> steps[k].Write? ==> steps[k].id != id
  }

  ghost predicate Missed(w: World, i: Item) {
    DistinctIds(w.items) && i in w.items && w.offset.Some? && i.dateModified <= w.offset.value
  }

  lemma {:induction false} DeliverOthers(delivered: map<string, nat>, page: seq<Item>, id: string)
    requires forall i :: i in page ==> i.id != id
    ensures (id in Deliver(delivered, page) <==> id in delivered)
    ensures id in delivered ==> Deliver(delivered, page)[id] == delivered[id]
    decreases |page|
  {
    if page != [] {
      DeliverOthers(delivered[page[0].id := page[0].version], page[1..], id);
    }
  }

  lemma MissedStep(w: World, i: Item, s: Step)
    requires Missed(w, i) && Leaves([s], i.id)
    ensures Missed(Next(w, s), i) && (Seen(Next(w, s), i) <==> Seen(w, i))
  {
    assert [s][0] == s;
    if s.Write? {
      WrittenItems(w.items, Item(s.id, s.dateModified, s.version));
    } else {
      var rest, page := Rest(w.items, w.offset, false), PageItems(w.items, w.offset, Clamp(s.limit), false);
      StampsAreOrdered(false);
      SortedMembers(ByStamp(false), w.items, After(w.offset, false));
      hide SortBy, Filter, Deliver;
      forall j | j in page
        ensures j.id != i.id && After(w.offset, false)(j)
      {
        assert j in rest;
        if j.id == i.id {
          SameIdSameItem(w.items, i, j);
        }
      }
      DeliverOthers(w.delivered, page, i.id);
      if page != [] {
        assert page[|page| - 1] in page;
      }
    }
  }

  // A document dated at or below the crawler's offset is missed until it is written anew: however the
  // crawler goes on and whatever else is written, it is on no page, and its version stays unseen if it
  // was.
  lemma {:induction false} EarlyStampIsMissed(w: World, i: Item, steps: seq<Step>, limit: nat)
    requires Missed(w, i) && Leaves(steps, i.id)
    ensures var end := Run(w, steps);
            Missed(end, i) && (Seen(end, i) <==> Seen(w, i)) && i !in PageItems(end.items, end.offset, Clamp(limit), false)
    decreases |steps|
  {
    if steps == [] {
      RestIsSorted(w.items, w.offset, false);
      assert forall x :: x in PageItems(w.items, w.offset, Clamp(limit), false) ==> x in Rest(w.items, w.offset, false);
    } else {
      hide Missed, Seen, Next, PageItems;
      MissedStep(w, i, steps[0]);
      EarlyStampIsMissed(Next(w, steps[0]), i, steps[1..], limit);
    }
  }

  // It happens when a handler takes its time between stamping and storing: "b", stamped 1, is stored
  // after the crawler has gone past "a", stamped 2.
  lemma EarlyStampHappens()
    ensures var end := Run(EMPTY_FEED, [Write("a", 2, 1), Crawl(10), Write("b", 1, 1)]);
            var b := Item("b", 1, 1);
            Missed(end, b) && !Seen(end, b)
  {
    var a, b := Item("a", 2, 1), Item("b", 1, 1);
    var first, second, third := Write("a", 2, 1), Crawl(10), Write("b", 1, 1);
    var one := World([a], None, map[]);
    var two := World([a], Some(2), map["a" := 1]);
    var three := World([a, b], Some(2), map["a" := 1]);
    assert Next(EMPTY_FEED, first) == one;
    assert Next(one, second) == two by {
      assert [a][1..] == [];
      assert Filter([a], After(None, false)) == [a] && SortBy(ByStamp(false), [a]) == [a];
      assert PageItems([a], None, Clamp(10), false) == [a];
      assert Deliver(map[], [a]) == map["a" := 1];
    }
    assert Next(two, third) == three by {
      assert "a"[0] != "b"[0] && [a][1..] == [];
      assert Filter([a], Other("b")) == [a];
    }
    hide Next;
    assert [first, second, third][1..] == [second, third] && [second, third][1..] == [third] && [third][1..] == [];
    assert Run(three, []) == three;
    assert Run(two, [third]) == three;
    assert Run(one, [second, third]) == three;
    assert Run(EMPTY_FEED, [first, second, third]) == three;
    assert three.items[1] == b;
  }
}
