// The document store with optimistic locking: documents carry a revision, a writer replaces the
// document only if it still has the revision that was read. Clients are interleaved freely.
module Store {
  import opened Common

  type Id = string
  type ClientId = int
  type Time = int

  // "<version>-<uuid>": the token stands for the uuid and is never drawn twice.
  datatype Rev = Rev(version: nat, token: nat)

  datatype Doc<T> = Doc(rev: Option<Rev>, body: T)

  function NextRev(current: Option<Rev>, token: nat): Rev {
    Rev(if current.None? then 2 else current.value.version + 1, token)
  }

  // find_one_and_replace matches the id, and the revision if the document that was read has one.
  predicate CanReplace<T>(docs: map<Id, Doc<T>>, id: Id, rev: Option<Rev>) {
    id in docs && (rev.None? || docs[id].rev == rev)
  }

  function Replaced<T>(docs: map<Id, Doc<T>>, id: Id, rev: Option<Rev>, body: T, token: nat): map<Id, Doc<T>> {
    if CanReplace(docs, id, rev) then docs[id := Doc(Some(NextRev(rev, token)), body)] else docs
  }

  function Inserted<T>(docs: map<Id, Doc<T>>, id: Id, body: T, token: nat): map<Id, Doc<T>> {
    if id in docs then docs else docs[id := Doc(Some(NextRev(None, token)), body)]
  }

  class Collection<T> {
    var docs: map<Id, Doc<T>>

    constructor ()
      ensures docs == map[]
    {
      docs := map[];
    }

    // False stands for the duplicate-key error.
    method InsertObject(id: Id, body: T, token: nat) returns (ok: bool)
      modifies this
      ensures docs == Inserted(old(docs), id, body, token)
      ensures ok <==> id !in old(docs)
    {
      if id in docs {
        return false;
      }
      docs := docs[id := Doc(Some(NextRev(None, token)), body)];
      ok := true;
    }

    // None stands for the not-found error.
    method ReadObject(id: Id) returns (doc: Option<Doc<T>>)
      ensures doc == if id in docs then Some(docs[id]) else None
    {
      doc := if id in docs then Some(docs[id]) else None;
    }

    // False stands for the conflict error; nothing is written then.
    method UpdateObject(id: Id, rev: Option<Rev>, body: T, token: nat) returns (ok: bool)
      modifies this
      ensures docs == Replaced(old(docs), id, rev, body, token)
      ensures ok <==> CanReplace(old(docs), id, rev)
    {
      if id !in docs || (rev.Some? && docs[id].rev != rev) {
        return false;
      }
      docs := docs[id := Doc(Some(NextRev(rev, token)), body)];
      ok := true;
    }
  }

  /******* Interleaved clients *******/

  // The body of a read-and-update block: it edits what was read, or raises.
  type Handler<!T> = T -> Option<T>

  // A client between its read and its write. `seen` only serves the proofs: it is the place in the
  // document's history that the client has read.
  datatype Client<!T> =
    | Reading(id: Id, base: Doc<T>, seen: nat)
    | Ready(id: Id, base: Doc<T>, seen: nat, handler: Handler<T>, body: T)

  // The history of a document: how each of its states came about.
  datatype Entry<!T> =
    | Created(rev: Option<Rev>, body: T)
    | Updated(rev: Option<Rev>, body: T, handler: Handler<T>)
    | Patched(rev: Option<Rev>, body: T)

  datatype World<!T> = World(docs: map<Id, Doc<T>>, clients: map<ClientId, Client<T>>, drawn: set<nat>,
                             log: map<Id, seq<Entry<T>>>, now: Time)

  datatype Step<!T> =
    | Insert(id: Id, body: T, token: nat)
    | Read(client: ClientId, id: Id)
    | Handle(client: ClientId, handler: Handler<T>)
    | Commit(client: ClientId, token: nat)
    | Patch(id: Id, change: T -> T) // a cron's `$set`: the revision stays
    | Delete(id: Id)
    | Tick(elapsed: nat)

  function Next<T>(w: World<T>, s: Step<T>): World<T> {
    match s
    case Insert(id, body, token) =>
      if id in w.docs || token in w.drawn then w else
      var docs := Inserted(w.docs, id, body, token);
      w.(docs := docs, drawn := w.drawn + {token}, log := w.log[id := [Created(docs[id].rev, body)]])
    case Read(client, id) =>
      if id !in w.docs || id !in w.log || w.log[id] == [] then w else
      w.(clients := w.clients[client := Reading(id, w.docs[id], |w.log[id]| - 1)])
    case Handle(client, handler) =>
      if client !in w.clients || !w.clients[client].Reading? then w else
      var c := w.clients[client];
      var result := handler(c.base.body);
      w.(clients := if result.None? then w.clients - {client}
                    else w.clients[client := Ready(c.id, c.base, c.seen, handler, result.value)])
    case Commit(client, token) =>
      if client !in w.clients || !w.clients[client].Ready? || token in w.drawn then w else
      var c := w.clients[client];
      var docs := Replaced(w.docs, c.id, c.base.rev, c.body, token);
      var rest := w.(docs := docs, clients := w.clients - {client});
      if !CanReplace(w.docs, c.id, c.base.rev) || c.id !in w.log then rest else
      rest.(drawn := w.drawn + {token}, log := w.log[c.id := w.log[c.id] + [Updated(docs[c.id].rev, c.body, c.handler)]])
    case Patch(id, change) =>
      if id !in w.docs || id !in w.log then w else
      var doc := w.docs[id];
      var body := change(doc.body);
      w.(docs := w.docs[id := doc.(body := body)], log := w.log[id := w.log[id] + [Patched(doc.rev, body)]])
    case Delete(id) =>
      w.(docs := w.docs - {id}, log := w.log - {id})
    case Tick(elapsed) =>
      w.(now := w.now + elapsed)
  }

  function Run<T>(w: World<T>, steps: seq<Step<T>>): World<T>
    decreases |steps|
  {
    if steps == [] then w else Run(Next(w, steps[0]), steps[1..])
  }

  function Empty<T>(): World<T> {
    World(map[], map[], {}, map[], 0)
  }

  /******* What every history looks like *******/

  // Update k applied its handler to state j, and only cron patches came in between.
  ghost predicate BasedOn<T(!new)>(log: seq<Entry<T>>, j: nat, k: nat)
    requires k < |log|
  {
    && j < k && log[k].Updated?
    && log[k].handler(log[j].body) == Some(log[k].body)
    && forall m :: j < m < k ==> log[m].Patched?
  }

  ghost predicate Linked<T(!new)>(log: seq<Entry<T>>, k: nat)
    requires k < |log|
  {
    match log[k]
    case Created(rev, _) => k == 0 && rev.Some? && rev.value.version == 2
    case Patched(rev, _) => k > 0 && rev == log[k - 1].rev
    case Updated(rev, _, _) =>
      && k > 0 && rev.Some? && log[k - 1].rev.Some? && rev.value.version == log[k - 1].rev.value.version + 1
      && exists j :: BasedOn(log, j, k)
  }

  ghost predicate IsHistory<T(!new)>(log: seq<Entry<T>>) {
    log != [] && forall k :: 0 <= k < |log| ==> Linked(log, k)
  }

  ghost predicate DocInv<T(!new)>(w: World<T>, id: Id)
    requires id in w.docs
  {
    && id in w.log && IsHistory(w.log[id])
    && w.log[id][|w.log[id]| - 1].body == w.docs[id].body
    && w.log[id][|w.log[id]| - 1].rev == w.docs[id].rev
    && w.docs[id].rev.Some? && w.docs[id].rev.value.token in w.drawn
  }

  // While the revision has not changed, the document differs from what was read by patches only.
  ghost predicate ClientInv<T(!new)>(w: World<T>, c: Client<T>) {
    && c.base.rev.Some? && c.base.rev.value.token in w.drawn
    && (c.Ready? ==> c.handler(c.base.body) == Some(c.body))
    && (c.id in w.docs && c.id in w.log && w.docs[c.id].rev == c.base.rev ==>
          && c.seen < |w.log[c.id]| && w.log[c.id][c.seen].body == c.base.body
          && forall m :: c.seen < m < |w.log[c.id]| ==> w.log[c.id][m].Patched?)
  }

  ghost predicate Inv<T(!new)>(w: World<T>) {
    && w.docs.Keys == w.log.Keys
    && (forall id :: id in w.docs ==> DocInv(w, id))
    && (forall client :: client in w.clients ==> ClientInv(w, w.clients[client]))
  }

  lemma HistoryGrows<T(!new)>(log: seq<Entry<T>>, e: Entry<T>)
    requires IsHistory(log) && Linked(log + [e], |log|)
    ensures IsHistory(log + [e])
  {
    var grown := log + [e];
    forall k | 0 <= k < |log|
      ensures Linked(grown, k)
    {
      assert Linked(log, k);
      if log[k].Updated? {
        var j :| BasedOn(log, j, k);
        assert BasedOn(grown, j, k);
      }
    }
  }

  // A commit that goes through: the handler was applied to a state that only patches separate from
  // the document, so the history grows by an update based on it.
  lemma CommitExtendsHistory<T(!new)>(w: World<T>, client: ClientId, token: nat)
    requires Inv(w) && client in w.clients && w.clients[client].Ready? && token !in w.drawn
    requires CanReplace(w.docs, w.clients[client].id, w.clients[client].base.rev)
    ensures var after, id := Next(w, Commit(client, token)), w.clients[client].id;
            id in after.docs && DocInv(after, id)
  {
    var after, c := Next(w, Commit(client, token)), w.clients[client];
    assert DocInv(w, c.id) && ClientInv(w, c);
    var log := w.log[c.id];
    var e := Updated(after.docs[c.id].rev, c.body, c.handler);
    assert BasedOn(log + [e], c.seen, |log|);
    hide IsHistory, BasedOn;
    HistoryGrows(log, e);
  }

  // The others see at most that the document has a new revision.
  lemma CommitKeepsClients<T(!new)>(w: World<T>, client: ClientId, token: nat)
    requires Inv(w) && client in w.clients && w.clients[client].Ready? && token !in w.drawn
    ensures var after := Next(w, Commit(client, token));
            forall other :: other in after.clients ==> ClientInv(after, after.clients[other])
  {
    hide IsHistory, BasedOn;
    var after := Next(w, Commit(client, token));
    forall other | other in after.clients
      ensures ClientInv(after, after.clients[other])
    {
      assert ClientInv(w, w.clients[other]);
    }
  }

  lemma CommitKeepsInv<T(!new)>(w: World<T>, client: ClientId, token: nat)
    requires Inv(w)
    ensures Inv(Next(w, Commit(client, token)))
  {
    var after := Next(w, Commit(client, token));
    if client in w.clients && w.clients[client].Ready? && token !in w.drawn {
      CommitKeepsClients(w, client, token);
      var c := w.clients[client];
      if CanReplace(w.docs, c.id, c.base.rev) {
        CommitExtendsHistory(w, client, token);
      }
      hide IsHistory, ClientInv;
      forall id | id in after.docs
        ensures DocInv(after, id)
      {
        assert id in w.docs && DocInv(w, id);
      }
    }
  }

  lemma PatchKeepsInv<T(!new)>(w: World<T>, id: Id, change: T -> T)
    requires Inv(w)
    ensures Inv(Next(w, Patch(id, change)))
  {
    var after := Next(w, Patch(id, change));
    if id in w.docs {
      assert DocInv(w, id);
      HistoryGrows(w.log[id], Patched(w.docs[id].rev, change(w.docs[id].body)));
      assert forall other :: other in w.docs && other != id ==> DocInv(w, other);
      forall client | client in w.clients
        ensures ClientInv(after, w.clients[client])
      {
        assert ClientInv(w, w.clients[client]);
      }
    }
  }

  lemma InsertKeepsInv<T(!new)>(w: World<T>, id: Id, body: T, token: nat)
    requires Inv(w)
    ensures Inv(Next(w, Insert(id, body, token)))
  {
    var after := Next(w, Insert(id, body, token));
    if after != w {
      hide IsHistory, BasedOn;
      assert IsHistory(after.log[id]) by {
        FirstEntry(after.log[id]);
      }
      assert forall other :: other in w.docs ==> DocInv(w, other);
      assert forall client :: client in w.clients ==> ClientInv(w, w.clients[client]);
    }
  }

  lemma FirstEntry<T(!new)>(log: seq<Entry<T>>)
    requires |log| == 1 && log[0].Created? && log[0].rev.Some? && log[0].rev.value.version == 2
    ensures IsHistory(log)
  {
  }

  // What an invariant needs beyond the documents, which stay as they are here.
  lemma SameDocsKeepInv<T(!new)>(w: World<T>, after: World<T>)
    requires Inv(w) && after.docs == w.docs && after.log == w.log && after.drawn == w.drawn
    requires forall client :: client in after.clients ==> ClientInv(w, after.clients[client])
    ensures Inv(after)
  {
    hide IsHistory;
    forall id | id in after.docs
      ensures DocInv(after, id)
    {
      assert DocInv(w, id);
    }
    forall client | client in after.clients
      ensures ClientInv(after, after.clients[client])
    {
      assert ClientInv(w, after.clients[client]);
    }
  }

  // Reading, handling and the passing of time concern the clients only.
  lemma QuietStepKeepsInv<T(!new)>(w: World<T>, s: Step<T>)
    requires Inv(w) && (s.Read? || s.Handle? || s.Tick?)
    ensures Inv(Next(w, s))
  {
    hide IsHistory;
    var after := Next(w, s);
    forall client | client in after.clients
      ensures ClientInv(w, after.clients[client])
    {
      if client in w.clients {
        assert ClientInv(w, w.clients[client]);
      }
      if s.Read? && s.id in w.docs {
        assert DocInv(w, s.id);
      }
    }
    SameDocsKeepInv(w, after);
  }

  lemma DeleteKeepsInv<T(!new)>(w: World<T>, id: Id)
    requires Inv(w)
    ensures Inv(Next(w, Delete(id)))
  {
    hide IsHistory;
    var after := Next(w, Delete(id));
    forall other | other in after.docs
      ensures DocInv(after, other)
    {
      assert DocInv(w, other);
    }
    forall client | client in after.clients
      ensures ClientInv(after, after.clients[client])
    {
      assert ClientInv(w, w.clients[client]);
    }
  }

  lemma NextKeepsInv<T(!new)>(w: World<T>, s: Step<T>)
    requires Inv(w)
    ensures Inv(Next(w, s))
  {
    hide Inv, Next;
    if s.Commit? {
      CommitKeepsInv(w, s.client, s.token);
    } else if s.Patch? {
      PatchKeepsInv(w, s.id, s.change);
    } else if s.Insert? {
      InsertKeepsInv(w, s.id, s.body, s.token);
    } else if s.Delete? {
      DeleteKeepsInv(w, s.id);
    } else {
      QuietStepKeepsInv(w, s);
    }
  }

  // Main result, for every interleaving of any number of clients: each state a client committed is
  // its handler applied to an earlier state of the document, nothing but cron patches lies between
  // the two, and the revision number has gone up by one.
  lemma {:induction false} NoLostUpdates<T(!new)>(w: World<T>, steps: seq<Step<T>>)
    requires Inv(w)
    ensures Inv(Run(w, steps))
    decreases |steps|
  {
    if steps != [] {
      NextKeepsInv(w, steps[0]);
      NoLostUpdates(Next(w, steps[0]), steps[1..]);
    }
  }

  // Without cron patches the history is a plain chain, numbered 2, 3, 4, ...
  ghost predicate IsChain<T(!new)>(log: seq<Entry<T>>) {
    && log != [] && log[0].Created?
    && (forall k :: 0 <= k < |log| ==> log[k].rev.Some? && log[k].rev.value.version == k + 2)
    && (forall k :: 1 <= k < |log| ==> log[k].Updated? && log[k].handler(log[k - 1].body) == Some(log[k].body))
  }

  ghost predicate Unpatched<T(!new)>(log: seq<Entry<T>>) {
    forall k :: 0 <= k < |log| ==> !log[k].Patched?
  }

  lemma {:induction false} UnpatchedIsChain<T(!new)>(log: seq<Entry<T>>)
    requires IsHistory(log) && Unpatched(log)
    ensures IsChain(log)
  {
    assert Linked(log, 0);
    if |log| > 1 {
      var k: nat := |log| - 1;
      var init := log[..k];
      forall i | 0 <= i < k
        ensures Linked(init, i)
      {
        assert Linked(log, i);
        if log[i].Updated? {
          var j :| BasedOn(log, j, i);
          assert BasedOn(init, j, i);
        }
      }
      UnpatchedIsChain(init);
      assert Linked(log, k) && !log[k].Patched?;
      var j: nat :| BasedOn(log, j, k);
      assert !log[k - 1].Patched?;
      assert j == k - 1;
    }
  }

  ghost predicate NoPatches<T(!new)>(steps: seq<Step<T>>) {
    forall i :: 0 <= i < |steps| ==> !steps[i].Patch?
  }

  lemma {:induction false} StaysUnpatched<T(!new)>(w: World<T>, steps: seq<Step<T>>)
    requires forall id :: id in w.log ==> Unpatched(w.log[id])
    requires NoPatches(steps)
    ensures forall id :: id in Run(w, steps).log ==> Unpatched(Run(w, steps).log[id])
    decreases |steps|
  {
    if steps != [] {
      StaysUnpatched(Next(w, steps[0]), steps[1..]);
    }
  }

  lemma NoLostUpdatesAmongClients<T(!new)>(steps: seq<Step<T>>, id: Id)
    requires NoPatches(steps) && id in Run(Empty(), steps).docs
    ensures var end := Run(Empty(), steps);
            && id in end.log && IsChain(end.log[id])
            && end.log[id][|end.log[id]| - 1].body == end.docs[id].body
            && end.log[id][|end.log[id]| - 1].rev == end.docs[id].rev
  {
    NoLostUpdates(Empty<T>(), steps);
    StaysUnpatched(Empty<T>(), steps);
    assert DocInv(Run(Empty(), steps), id);
    UnpatchedIsChain(Run(Empty(), steps).log[id]);
  }

  // A commit whose revision still matches works on the current document, if no cron touched it since
  // it was read.
  lemma CommitIsCurrent<T(!new)>(w: World<T>, client: ClientId)
    requires Inv(w) && client in w.clients
    requires var c := w.clients[client]; CanReplace(w.docs, c.id, c.base.rev) && c.seen == |w.log[c.id]| - 1
    ensures w.docs[w.clients[client].id].body == w.clients[client].base.body
  {
    var c := w.clients[client];
    assert ClientInv(w, c) && DocInv(w, c.id);
  }

  /******* Where the protection ends *******/

  // A cron write keeps the revision, so a client that read before it overwrites it: the store ends
  // as if the cron had never run.
  lemma CronWriteIsOverwritten<T(!new)>(w: World<T>, client: ClientId, token: nat, change: T -> T)
    requires Inv(w) && client in w.clients && w.clients[client].Ready? && token !in w.drawn
    requires var c := w.clients[client]; CanReplace(w.docs, c.id, c.base.rev)
    ensures var id := w.clients[client].id;
            && Next(Next(w, Patch(id, change)), Commit(client, token)).docs == Next(w, Commit(client, token)).docs
            && Next(w, Commit(client, token)).docs[id].body == w.clients[client].body
  {
    var c := w.clients[client];
    assert DocInv(w, c.id);
    assert Next(Next(w, Patch(c.id, change)), Commit(client, token)).docs == Next(w, Commit(client, token)).docs;
  }

  // A client that read a document without a revision is never refused, whatever others have
  // committed meanwhile; its write wins.
  lemma RevlessReaderOverwrites<T(!new)>(docs: map<Id, Doc<T>>, id: Id, body: T, rev: Option<Rev>, other: T,
                                         token: nat, token': nat)
    requires id in docs && CanReplace(docs, id, rev)
    ensures var meanwhile := Replaced(docs, id, rev, other, token);
            meanwhile[id].body == other && Replaced(meanwhile, id, None, body, token')[id].body == body
  {
  }

  lemma RunFirst<T(!new)>(w: World<T>, s: Step<T>, rest: seq<Step<T>>)
    ensures Run(w, [s] + rest) == Run(Next(w, s), rest)
  {
    assert ([s] + rest)[1..] == rest;
  }

  const NUMBER := "d"
  const ADD_ONE: Handler<int> := (x: int) => Some(x + 1)
  const ADD_TEN: Handler<int> := (x: int) => Some(x + 10)
  const ADD_HUNDRED: int -> int := (x: int) => x + 100

  const ZERO: Doc<int> := Doc(Some(Rev(2, 1)), 0)
  const BORN: Entry<int> := Created(Some(Rev(2, 1)), 0)
  const RAISED: Entry<int> := Patched(Some(Rev(2, 1)), 100)
  const INSERTED: World<int> := World(map[NUMBER := ZERO], map[], {1}, map[NUMBER := [BORN]], 0)
  const HANDLED := INSERTED.(clients := map[1 := Ready(NUMBER, ZERO, 0, ADD_ONE, 1)])
  const RAISED_STORE := HANDLED.(docs := map[NUMBER := ZERO.(body := 100)], log := map[NUMBER := [BORN, RAISED]])

  lemma NumberIsHandled()
    ensures Next(Empty<int>(), Insert(NUMBER, 0, 1)) == INSERTED
    ensures Next(Next(INSERTED, Read(1, NUMBER)), Handle(1, ADD_ONE)) == HANDLED
  {
  }

  lemma NumberIsRaised()
    ensures Next(HANDLED, Patch(NUMBER, ADD_HUNDRED)) == RAISED_STORE
  {
    assert [BORN] + [RAISED] == [BORN, RAISED];
  }

  lemma NumberIsOverwritten()
    ensures var end := Next(RAISED_STORE, Commit(1, 2));
            && NUMBER in end.docs && end.docs[NUMBER].body == 1
            && NUMBER in end.log && |end.log[NUMBER]| == 3 && end.log[NUMBER][1] == RAISED
  {
    assert Next(RAISED_STORE, Commit(1, 2)).log[NUMBER] == [BORN, RAISED] + [Updated(Some(Rev(3, 2)), 1, ADD_ONE)];
  }

  // A run from the empty store in which a cron adds 100 to a number and nothing of it is left.
  lemma CronWriteHappens()
    ensures var steps := [Insert(NUMBER, 0, 1)] + ([Read(1, NUMBER)] + ([Handle(1, ADD_ONE)] +
                         ([Patch(NUMBER, ADD_HUNDRED)] + ([Commit(1, 2)] + []))));
            var end := Run(Empty(), steps);
            && NUMBER in end.docs && end.docs[NUMBER].body == 1
            && NUMBER in end.log && |end.log[NUMBER]| == 3 && end.log[NUMBER][1] == RAISED
  {
    NumberIsHandled();
    NumberIsRaised();
    NumberIsOverwritten();
    hide Next;
    RunFirst(Empty<int>(), Insert(NUMBER, 0, 1), [Read(1, NUMBER)] + ([Handle(1, ADD_ONE)] +
             ([Patch(NUMBER, ADD_HUNDRED)] + ([Commit(1, 2)] + []))));
    RunFirst(INSERTED, Read(1, NUMBER), [Handle(1, ADD_ONE)] + ([Patch(NUMBER, ADD_HUNDRED)] + ([Commit(1, 2)] + [])));
    RunFirst(Next(INSERTED, Read(1, NUMBER)), Handle(1, ADD_ONE), [Patch(NUMBER, ADD_HUNDRED)] + ([Commit(1, 2)] + []));
    RunFirst(HANDLED, Patch(NUMBER, ADD_HUNDRED), [Commit(1, 2)] + []);
    RunFirst(RAISED_STORE, Commit(1, 2), []);
  }

  // A store with a document that has no revision, as they were before revisions came.
  const OLD: Doc<int> := Doc(None, 0)
  const OLD_ENTRY: Entry<int> := Created(None, 0)
  const OLD_STORE: World<int> := World(map[NUMBER := OLD], map[], {}, map[NUMBER := [OLD_ENTRY]], 0)
  const OLD_READ: Client<int> := Reading(NUMBER, OLD, 0)
  const BOTH_READ := OLD_STORE.(clients := map[1 := OLD_READ, 2 := OLD_READ])
  const ONE_ADDED: Entry<int> := Updated(Some(Rev(2, 1)), 1, ADD_ONE)
  const FIRST_SAVED: World<int> := World(map[NUMBER := Doc(Some(Rev(2, 1)), 1)], map[2 := OLD_READ], {1},
                                         map[NUMBER := [OLD_ENTRY, ONE_ADDED]], 0)

  lemma BothRead()
    ensures Next(Next(OLD_STORE, Read(1, NUMBER)), Read(2, NUMBER)) == BOTH_READ
  {
  }

  lemma FirstSaves()
    ensures Next(Next(BOTH_READ, Handle(1, ADD_ONE)), Commit(1, 1)) == FIRST_SAVED
  {
    var handled := BOTH_READ.(clients := map[1 := Ready(NUMBER, OLD, 0, ADD_ONE, 1), 2 := OLD_READ]);
    assert Next(BOTH_READ, Handle(1, ADD_ONE)) == handled;
    assert handled.clients - {1} == map[2 := OLD_READ];
    assert [OLD_ENTRY] + [ONE_ADDED] == [OLD_ENTRY, ONE_ADDED];
  }

  lemma SecondSaves()
    ensures var end := Next(Next(FIRST_SAVED, Handle(2, ADD_TEN)), Commit(2, 2));
            && NUMBER in end.docs && end.docs[NUMBER].body == 10
            && NUMBER in end.log && |end.log[NUMBER]| == 3 && end.log[NUMBER][1] == ONE_ADDED
  {
    var handled := FIRST_SAVED.(clients := map[2 := Ready(NUMBER, OLD, 0, ADD_TEN, 10)]);
    assert Next(FIRST_SAVED, Handle(2, ADD_TEN)) == handled;
    assert Next(handled, Commit(2, 2)).log[NUMBER] == [OLD_ENTRY, ONE_ADDED] + [Updated(Some(Rev(2, 2)), 10, ADD_TEN)];
  }

  // Two clients add to the number, both go through, and the 1 of the first is lost.
  lemma RevlessOverwriteHappens()
    ensures var steps := [Read(1, NUMBER)] + ([Read(2, NUMBER)] + ([Handle(1, ADD_ONE)] + ([Commit(1, 1)] +
                         ([Handle(2, ADD_TEN)] + ([Commit(2, 2)] + [])))));
            var end := Run(OLD_STORE, steps);
            && NUMBER in end.docs && end.docs[NUMBER].body == 10
            && NUMBER in end.log && |end.log[NUMBER]| == 3 && end.log[NUMBER][1] == ONE_ADDED
  {
    BothRead();
    FirstSaves();
    SecondSaves();
    hide Next;
    RunFirst(OLD_STORE, Read(1, NUMBER), [Read(2, NUMBER)] + ([Handle(1, ADD_ONE)] + ([Commit(1, 1)] +
             ([Handle(2, ADD_TEN)] + ([Commit(2, 2)] + [])))));
    RunFirst(Next(OLD_STORE, Read(1, NUMBER)), Read(2, NUMBER), [Handle(1, ADD_ONE)] + ([Commit(1, 1)] +
             ([Handle(2, ADD_TEN)] + ([Commit(2, 2)] + []))));
    RunFirst(BOTH_READ, Handle(1, ADD_ONE), [Commit(1, 1)] + ([Handle(2, ADD_TEN)] + ([Commit(2, 2)] + [])));
    RunFirst(Next(BOTH_READ, Handle(1, ADD_ONE)), Commit(1, 1), [Handle(2, ADD_TEN)] + ([Commit(2, 2)] + []));
    RunFirst(FIRST_SAVED, Handle(2, ADD_TEN), [Commit(2, 2)] + []);
    RunFirst(Next(FIRST_SAVED, Handle(2, ADD_TEN)), Commit(2, 2), []);
  }

  /******* From one handler to every interleaving *******/

  ghost predicate KeptBy<T(!new)>(inv: (Time, T) -> bool, now: Time, s: Step<T>) {
    match s
    case Insert(_, body, _) => inv(now, body)
    case Handle(_, handler) => forall b :: inv(now, b) && handler(b).Some? ==> inv(now, handler(b).value)
    case Patch(_, change) => forall b :: inv(now, b) ==> inv(now, change(b))
    case _ => true
  }

  ghost predicate AllKept<T(!new)>(inv: (Time, T) -> bool, w: World<T>, steps: seq<Step<T>>)
    decreases |steps|
  {
    steps != [] ==> KeptBy(inv, w.now, steps[0]) && AllKept(inv, Next(w, steps[0]), steps[1..])
  }

  // Once true, it stays true as time passes.
  ghost predicate Lasting<T(!new)>(inv: (Time, T) -> bool) {
    forall t, t', b :: t <= t' && inv(t, b) ==> inv(t', b)
  }

  ghost predicate Everywhere<T(!new)>(inv: (Time, T) -> bool, w: World<T>) {
    && (forall id :: id in w.docs ==> inv(w.now, w.docs[id].body))
    && (forall client :: client in w.clients ==>
          var c := w.clients[client];
          inv(w.now, c.base.body) && (c.Ready? ==> inv(w.now, c.body)))
  }

  lemma StepKeepsEverywhere<T(!new)>(inv: (Time, T) -> bool, w: World<T>, s: Step<T>)
    requires Lasting(inv) && Everywhere(inv, w) && KeptBy(inv, w.now, s)
    ensures Everywhere(inv, Next(w, s))
  {
    var after := Next(w, s);
    if !s.Tick? {
      hide Lasting;
      if s.Commit? || s.Delete? || s.Read? {
        hide KeptBy;
      }
    }
  }

  // An invariant of every single handler is an invariant of all documents in every interleaving,
  // cron writes and stale readers included.
  lemma {:induction false} LiftInvariant<T(!new)>(inv: (Time, T) -> bool, w: World<T>, steps: seq<Step<T>>)
    requires Lasting(inv) && Everywhere(inv, w) && AllKept(inv, w, steps)
    ensures Everywhere(inv, Run(w, steps))
    decreases |steps|
  {
    hide Lasting, Everywhere, KeptBy, Next;
    if steps != [] {
      StepKeepsEverywhere(inv, w, steps[0]);
      LiftInvariant(inv, Next(w, steps[0]), steps[1..]);
    }
  }
}
