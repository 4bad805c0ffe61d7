// The append-only list of document versions: post and put append, patch edits the latest version in
// place, get looks backwards. The list behaves like a map from document ids to their versions.
module Documents {
  import opened Common
  import opened Seqs

  type DocId = string
  type Time = int

  // The API url of a document carries the id of the file in the document service.
  datatype Url = Url(path: string, download: string)

  datatype Document = Document(id: DocId, hash: string, url: Url, format: string, title: string,
                               description: Option<string>, datePublished: Time, dateModified: Time)

  // Patch data: only the title and the description can be sent.
  datatype Changes = Changes(title: Option<string>, description: Option<string>)

  function Updated(d: Document, changes: Changes): Document {
    d.(title := changes.title.GetOr(d.title), description := if changes.description.Some? then changes.description else d.description)
  }

  // The date is bumped only if the update made a difference.
  function Patched(d: Document, changes: Changes, now: Time): Document {
    var after := Updated(d, changes);
    if after == d then d else after.(dateModified := now)
  }

  function Published(d: Document, now: Time): Document {
    d.(datePublished := now, dateModified := now)
  }

  // Position of the last entry with the id, or -1.
  function LastIndex(docs: seq<Document>, id: DocId): (i: int)
    ensures -1 <= i < |docs|
    ensures i >= 0 ==> docs[i].id == id
    ensures forall j :: i < j < |docs| ==> docs[j].id != id
  {
    if docs == [] then -1
    else if docs[|docs| - 1].id == id then |docs| - 1
    else LastIndex(docs[..|docs| - 1], id)
  }

  function PatchedList(docs: seq<Document>, id: DocId, changes: Changes, now: Time): seq<Document> {
    var i := LastIndex(docs, id);
    if i < 0 then docs else docs[i := Patched(docs[i], changes, now)]
  }

  predicate Wanted(d: Document, id: DocId, download: Option<string>) {
    d.id == id && (download.None? || d.url.download == download.value)
  }

  function Lookup(docs: seq<Document>, id: DocId, download: Option<string>): Option<Document> {
    if docs == [] then None
    else if Wanted(docs[|docs| - 1], id, download) then Some(docs[|docs| - 1])
    else Lookup(docs[..|docs| - 1], id, download)
  }

  class DocumentList {
    var documents: seq<Document>
    var dateModified: Time

    constructor (now: Time)
      ensures documents == [] && dateModified == now
    {
      documents, dateModified := [], now;
    }

    method Post(data: Document, now: Time)
      modifies this
      ensures documents == Apply(old(documents), Operation.Post(data), now) && dateModified == now
    {
      dateModified := now;
      documents := documents + [data.(datePublished := now, dateModified := now)];
    }

    // False stands for the not-found error.
    method Put(id: DocId, data: Document, now: Time) returns (ok: bool)
      modifies this
      ensures ok <==> LastIndex(old(documents), id) >= 0
      ensures documents == Apply(old(documents), Operation.Put(id, data), now)
      ensures dateModified == if ok then now else old(dateModified)
    {
      var i := Find(id);
      if i < 0 {
        return false;
      }
      dateModified := now;
      documents := documents + [data.(id := id, datePublished := now, dateModified := now)];
      ok := true;
    }

    method Patch(id: DocId, changes: Changes, now: Time) returns (ok: bool)
      modifies this
      ensures ok <==> LastIndex(old(documents), id) >= 0
      ensures documents == Apply(old(documents), Operation.Patch(id, changes), now)
      ensures dateModified == if documents != old(documents) && ok then now else old(dateModified)
    {
      var i := Find(id);
      if i < 0 {
        return false;
      }
      var initial := documents[i];
      documents := documents[i := Updated(initial, changes)];
      if initial != documents[i] {
        dateModified := now;
        documents := documents[i := documents[i].(dateModified := now)];
      }
      ok := true;
    }

    // The backwards search of put and patch.
    method Find(id: DocId) returns (i: int)
      ensures i == LastIndex(documents, id)
    {
      i := |documents| - 1;
      while i >= 0 && documents[i].id != id
        invariant -1 <= i < |documents|
        invariant LastIndex(documents[..i + 1], id) == LastIndex(documents, id)
      {
        assert documents[..i + 1][..i] == documents[..i];
        i := i - 1;
      }
      assert documents[..|documents|] == documents;
    }

    // Get by id: the latest version, or the latest one with the file asked for.
    method Get(id: DocId, download: Option<string>) returns (d: Option<Document>)
      ensures d == Lookup(documents, id, download)
    {
      var i := |documents|;
      assert documents[..i] == documents;
      while i > 0
        invariant 0 <= i <= |documents|
        invariant Lookup(documents[..i], id, download) == Lookup(documents, id, download)
      {
        i := i - 1;
        assert documents[..i + 1][..i] == documents[..i];
        if Wanted(documents[i], id, download) {
          return Some(documents[i]);
        }
      }
      d := None;
    }
  }

  /******* The list as a map of histories *******/

  datatype Operation =
    | Post(data: Document)
    | Put(id: DocId, data: Document)
    | Patch(id: DocId, changes: Changes)

  // What an operation does to the list; refused operations leave it alone.
  function Apply(docs: seq<Document>, op: Operation, now: Time): seq<Document> {
    match op
    case Post(data) => docs + [Published(data, now)]
    case Put(id, data) => if LastIndex(docs, id) < 0 then docs else docs + [Published(data.(id := id), now)]
    case Patch(id, changes) => PatchedList(docs, id, changes, now)
  }

  function ApplyAll(docs: seq<Document>, ops: seq<(Operation, Time)>): seq<Document>
    decreases |ops|
  {
    if ops == [] then docs else ApplyAll(Apply(docs, ops[0].0, ops[0].1), ops[1..])
  }

  type Histories = map<DocId, seq<Document>>

  function HistoryOf(h: Histories, id: DocId): seq<Document> {
    if id in h then h[id] else []
  }

  // The same operations on a map from ids to versions: post starts or extends a history, put extends
  // an existing one, patch rewrites its latest version.
  function ApplyToMap(h: Histories, op: Operation, now: Time): Histories {
    match op
    case Post(data) => h[data.id := HistoryOf(h, data.id) + [Published(data, now)]]
    case Put(id, data) =>
      if HistoryOf(h, id) == [] then h else h[id := h[id] + [Published(data.(id := id), now)]]
    case Patch(id, changes) =>
      var versions := HistoryOf(h, id);
      if versions == [] then h
      else h[id := versions[|versions| - 1 := Patched(versions[|versions| - 1], changes, now)]]
  }

  function ApplyAllToMap(h: Histories, ops: seq<(Operation, Time)>): Histories
    decreases |ops|
  {
    if ops == [] then h else ApplyAllToMap(ApplyToMap(h, ops[0].0, ops[0].1), ops[1..])
  }

  function WithId(id: DocId): Document -> bool {
    (d: Document) => d.id == id
  }

  function Versions(docs: seq<Document>, id: DocId): seq<Document> {
    Filter(docs, WithId(id))
  }

  ghost predicate Agrees(docs: seq<Document>, h: Histories) {
    forall id :: Versions(docs, id) == HistoryOf(h, id)
  }

  // The last index is where the latest version is.
  lemma LastVersion(docs: seq<Document>, id: DocId)
    ensures var i, versions := LastIndex(docs, id), Versions(docs, id);
            if i < 0 then versions == []
            else versions == Versions(docs[..i], id) + [docs[i]]
  {
    var i := LastIndex(docs, id);
    if i < 0 {
      FilterNone(docs, WithId(id));
    } else {
      assert docs == docs[..i] + ([docs[i]] + docs[i + 1..]);
      FilterConcat(docs[..i], [docs[i]] + docs[i + 1..], WithId(id));
      FilterConcat([docs[i]], docs[i + 1..], WithId(id));
      FilterNone(docs[i + 1..], WithId(id));
      FilterAll([docs[i]], WithId(id));
    }
  }

  lemma Appended(docs: seq<Document>, d: Document, id: DocId)
    ensures Versions(docs + [d], id) == if d.id == id then Versions(docs, id) + [d] else Versions(docs, id)
  {
    FilterConcat(docs, [d], WithId(id));
    if d.id == id {
      FilterAll([d], WithId(id));
    } else {
      FilterNone([d], WithId(id));
    }
  }

  lemma VersionsAround(before: seq<Document>, d: Document, after: seq<Document>, id: DocId)
    requires forall e :: e in after ==> e.id != d.id
    ensures Versions(before + ([d] + after), id) ==
            Versions(before, id) + if d.id == id then [d] else Versions(after, id)
  {
    var head := before + [d];
    assert before + ([d] + after) == head + after;
    FilterConcat(head, after, WithId(id));
    Appended(before, d, id);
    if d.id == id {
      FilterNone(after, WithId(id));
    }
  }

  lemma ReplacedAround(before: seq<Document>, e: Document, d: Document, after: seq<Document>, id: DocId)
    requires e.id == d.id && forall x :: x in after ==> x.id != d.id
    ensures var versions := Versions(before + ([e] + after), id);
            if id == d.id then versions != [] && Versions(before + ([d] + after), id) == versions[|versions| - 1 := d]
            else Versions(before + ([d] + after), id) == versions
  {
    hide Versions;
    VersionsAround(before, e, after, id);
    VersionsAround(before, d, after, id);
    var own := Versions(before, id);
    assert (own + [e])[|own| := d] == own + [d];
  }

  lemma SplitAround(docs: seq<Document>, i: nat, d: Document)
    requires i < |docs|
    ensures docs == docs[..i] + ([docs[i]] + docs[i + 1..])
    ensures docs[i := d] == docs[..i] + ([d] + docs[i + 1..])
  {
  }

  // Replacing an entry by one of the same id changes that version and no other.
  lemma Replaced(docs: seq<Document>, i: nat, d: Document, id: DocId)
    requires i < |docs| && docs[i].id == d.id && LastIndex(docs, d.id) == i
    ensures var versions := Versions(docs, id);
            if id == d.id then versions != [] && Versions(docs[i := d], id) == versions[|versions| - 1 := d]
            else Versions(docs[i := d], id) == versions
  {
    hide Versions, LastIndex;
    SplitAround(docs, i, d);
    ReplacedAround(docs[..i], docs[i], d, docs[i + 1..], id);
  }

  lemma ApplyAgrees(docs: seq<Document>, h: Histories, op: Operation, now: Time)
    requires Agrees(docs, h)
    ensures Agrees(Apply(docs, op, now), ApplyToMap(h, op, now))
  {
    hide Versions;
    forall id
      ensures Versions(Apply(docs, op, now), id) == HistoryOf(ApplyToMap(h, op, now), id)
    {
      assert Versions(docs, id) == HistoryOf(h, id);
      match op {
        case Post(data) =>
          Appended(docs, Published(data, now), id);
        case Put(doc, data) =>
          LastVersion(docs, doc);
          assert Versions(docs, doc) == HistoryOf(h, doc);
          Appended(docs, Published(data.(id := doc), now), id);
        case Patch(doc, changes) =>
          LastVersion(docs, doc);
          assert Versions(docs, doc) == HistoryOf(h, doc);
          var i := LastIndex(docs, doc);
          if i >= 0 {
            Replaced(docs, i, Patched(docs[i], changes, now), id);
          }
      }
    }
  }

  // Whatever is posted, put and patched, the list holds for every id exactly the versions the map of
  // histories holds, in order.
  lemma {:induction false} ListRefinesMap(docs: seq<Document>, h: Histories, ops: seq<(Operation, Time)>)
    requires Agrees(docs, h)
    ensures Agrees(ApplyAll(docs, ops), ApplyAllToMap(h, ops))
    decreases |ops|
  {
    if ops != [] {
      ApplyAgrees(docs, h, ops[0].0, ops[0].1);
      ListRefinesMap(Apply(docs, ops[0].0, ops[0].1), ApplyToMap(h, ops[0].0, ops[0].1), ops[1..]);
    }
  }

  function OfFile(download: Option<string>): Document -> bool {
    (d: Document) => download.None? || d.url.download == download.value
  }

  // Get returns the last of the document's versions, or the last one with the file asked for.
  lemma {:induction false} LookupIsLastVersion(docs: seq<Document>, id: DocId, download: Option<string>)
    ensures var versions := Filter(Versions(docs, id), OfFile(download));
            Lookup(docs, id, download) == if versions == [] then None else Some(versions[|versions| - 1])
  {
    if docs != [] {
      var init, last := docs[..|docs| - 1], docs[|docs| - 1];
      assert docs == init + [last];
      Appended(init, last, id);
      LookupIsLastVersion(init, id, download);
      if last.id == id {
        FilterConcat(Versions(init, id), [last], OfFile(download));
        if Wanted(last, id, download) {
          FilterAll([last], OfFile(download));
        } else {
          FilterNone([last], OfFile(download));
        }
      }
    }
  }

  // Get after any run of writes that started with no documents: the version the map has last.
  lemma GetReturnsTheLastWrite(ops: seq<(Operation, Time)>, id: DocId)
    ensures var versions := HistoryOf(ApplyAllToMap(map[], ops), id);
            Lookup(ApplyAll([], ops), id, None) == if versions == [] then None else Some(versions[|versions| - 1])
  {
    var docs := ApplyAll([], ops);
    assert Agrees([], map[]);
    ListRefinesMap([], map[], ops);
    LookupIsLastVersion(docs, id, None);
    FilterAll(Versions(docs, id), OfFile(None));
  }

  // The published file of an entry.
  predicate SameFile(d: Document, e: Document) {
    d.id == e.id && d.hash == e.hash && d.url == e.url && d.format == e.format && d.datePublished == e.datePublished
  }

  // The list never shrinks and the file behind an entry never changes.
  lemma {:induction false} EntriesArePermanent(docs: seq<Document>, ops: seq<(Operation, Time)>)
    ensures var after := ApplyAll(docs, ops);
            |docs| <= |after| && forall i :: 0 <= i < |docs| ==> SameFile(docs[i], after[i])
    decreases |ops|
  {
    if ops != [] {
      var next := Apply(docs, ops[0].0, ops[0].1);
      EntriesArePermanent(next, ops[1..]);
      assert forall i :: 0 <= i < |docs| ==> SameFile(docs[i], next[i]);
    }
  }
}
