// Revision history: every recorded update stores the patch that leads from the new state back to the
// old one (JSON Patch, section 4 of RFC 6902), so the history can be replayed backwards.
module Revisions {
  import opened Common

  // Recorded revisions are entries of the document like any other; their fields are kept apart so
  // that patches can be compared as they are.
  datatype Json =
    | Null
    | Bool(b: bool)
    | Number(n: real)
    | Str(s: string)
    | Arr(items: seq<Json>)
    | Obj(fields: map<string, Json>)
    | Revision(author: string, changes: seq<Op>, rev: Json, date: string)

  datatype Key = Name(name: string) | Index(index: nat)

  datatype Op =
    | Add(path: seq<Key>, value: Json)
    | Remove(path: seq<Key>)
    | Replace(path: seq<Key>, value: Json)

  type Fields = map<string, Json>

  /******* Applying a patch *******/

  function At(op: Op, path: seq<Key>): Op {
    match op
    case Add(_, value) => Add(path, value)
    case Remove(_) => Remove(path)
    case Replace(_, value) => Replace(path, value)
  }

  // None if the target of the operation does not exist.
  function Apply(doc: Json, op: Op): Option<Json>
    decreases |op.path|
  {
    if op.path == [] then
      if op.Remove? then None else Some(op.value)
    else if doc.Obj? && op.path[0].Name? then
      var name := op.path[0].name;
      if |op.path| == 1 && op.Add? then Some(Obj(doc.fields[name := op.value]))
      else if name !in doc.fields then None
      else if |op.path| == 1 && op.Remove? then Some(Obj(doc.fields - {name}))
      else
        var child := Apply(doc.fields[name], At(op, op.path[1..]));
        if child.None? then None else Some(Obj(doc.fields[name := child.value]))
    else if doc.Arr? && op.path[0].Index? then
      var i := op.path[0].index;
      if |op.path| == 1 && op.Add? then
        if i <= |doc.items| then Some(Arr(doc.items[..i] + [op.value] + doc.items[i..])) else None
      else if i >= |doc.items| then None
      else if |op.path| == 1 && op.Remove? then Some(Arr(doc.items[..i] + doc.items[i + 1..]))
      else
        var child := Apply(doc.items[i], At(op, op.path[1..]));
        if child.None? then None else Some(Arr(doc.items[i := child.value]))
    else None
  }

  function ApplyAll(doc: Json, ops: seq<Op>): Option<Json>
    decreases |ops|
  {
    if ops == [] then Some(doc) else
    var next := Apply(doc, ops[0]);
    if next.None? then None else ApplyAll(next.value, ops[1..])
  }

  /******* Making a patch *******/

  ghost function PickOne(keys: set<string>): (k: string)
    requires keys != {}
    ensures k in keys
  {
    var k :| k in keys; k
  }

  function Under(key: Key, ops: seq<Op>): (r: seq<Op>)
    ensures |r| == |ops| && forall i :: 0 <= i < |ops| ==> r[i] == At(ops[i], [key] + ops[i].path)
  {
    seq(|ops|, i requires 0 <= i < |ops| => At(ops[i], [key] + ops[i].path))
  }

  ghost function Removals(keys: set<string>): seq<Op> {
    if keys == {} then [] else var k := PickOne(keys); [Remove([Name(k)])] + Removals(keys - {k})
  }

  ghost function Additions(keys: set<string>, target: Fields): seq<Op>
    requires keys <= target.Keys
  {
    if keys == {} then [] else var k := PickOne(keys); [Add([Name(k)], target[k])] + Additions(keys - {k}, target)
  }

  // Objects: names gone, names new, then the names they share. Arrays: item by item, then what one
  // of them has left over. Anything else is replaced if it differs.
  ghost function Diff(a: Json, b: Json): seq<Op>
    decreases a, 1, 0
  {
    if a.Obj? && b.Obj? then
      Removals(a.fields.Keys - b.fields.Keys) + Additions(b.fields.Keys - a.fields.Keys, b.fields) +
      Changes(a, b, a.fields.Keys * b.fields.Keys)
    else if a.Arr? && b.Arr? then DiffItems(a, b, 0)
    else if a == b then []
    else [Replace([], b)]
  }

  ghost function Changes(a: Json, b: Json, keys: set<string>): seq<Op>
    requires a.Obj? && b.Obj? && keys <= a.fields.Keys * b.fields.Keys
    decreases a, 0, |keys|
  {
    if keys == {} then [] else
    var k := PickOne(keys);
    Under(Name(k), Diff(a.fields[k], b.fields[k])) + Changes(a, b, keys - {k})
  }

  ghost function DiffItems(a: Json, b: Json, i: nat): seq<Op>
    requires a.Arr? && b.Arr?
    decreases a, 0, |a.items| + |b.items| - i
  {
    if i < |a.items| && i < |b.items| then Under(Index(i), Diff(a.items[i], b.items[i])) + DiffItems(a, b, i + 1)
    else if i < |a.items| then [Remove([Index(|b.items|)])] + DiffItems(a, b, i + 1)
    else if i < |b.items| then [Add([Index(i)], b.items[i])] + DiffItems(a, b, i + 1)
    else []
  }

  /******* Round trip *******/

  lemma {:induction false} ApplyConcat(doc: Json, first: seq<Op>, rest: seq<Op>)
    ensures ApplyAll(doc, first + rest) ==
            var mid := ApplyAll(doc, first); if mid.None? then None else ApplyAll(mid.value, rest)
    decreases |first|
  {
    if first == [] {
      assert first + rest == rest;
    } else {
      assert (first + rest)[0] == first[0] && (first + rest)[1..] == first[1..] + rest;
      var next := Apply(doc, first[0]);
      if next.Some? {
        ApplyConcat(next.value, first[1..], rest);
      }
    }
  }

  // Operations that make sense below another key: only a replacement may have an empty path.
  predicate Nestable(ops: seq<Op>) {
    forall i :: 0 <= i < |ops| ==> ops[i].path != [] || ops[i].Replace?
  }

  lemma {:induction false} ApplyUnderName(fields: Fields, k: string, ops: seq<Op>)
    requires k in fields && Nestable(ops)
    ensures ApplyAll(Obj(fields), Under(Name(k), ops)) ==
            var child := ApplyAll(fields[k], ops); if child.None? then None else Some(Obj(fields[k := child.value]))
    decreases |ops|
  {
    var under := Under(Name(k), ops);
    if ops == [] {
      assert fields[k := fields[k]] == fields;
    } else {
      assert under[0].path[1..] == ops[0].path && At(under[0], ops[0].path) == ops[0];
      assert under[1..] == Under(Name(k), ops[1..]);
      var child := Apply(fields[k], ops[0]);
      if child.Some? {
        var next := fields[k := child.value];
        assert Apply(Obj(fields), under[0]) == Some(Obj(next));
        ApplyUnderName(next, k, ops[1..]);
        var end := ApplyAll(child.value, ops[1..]);
        if end.Some? {
          assert next[k := end.value] == fields[k := end.value];
        }
      }
    }
  }

  lemma {:induction false} ApplyUnderIndex(items: seq<Json>, i: nat, ops: seq<Op>)
    requires i < |items| && Nestable(ops)
    ensures ApplyAll(Arr(items), Under(Index(i), ops)) ==
            var child := ApplyAll(items[i], ops); if child.None? then None else Some(Arr(items[i := child.value]))
    decreases |ops|
  {
    var under := Under(Index(i), ops);
    if ops == [] {
      assert items[i := items[i]] == items;
    } else {
      assert under[0].path[1..] == ops[0].path && At(under[0], ops[0].path) == ops[0];
      assert under[1..] == Under(Index(i), ops[1..]);
      var child := Apply(items[i], ops[0]);
      if child.Some? {
        var next := items[i := child.value];
        assert Apply(Arr(items), under[0]) == Some(Arr(next));
        ApplyUnderIndex(next, i, ops[1..]);
        var end := ApplyAll(child.value, ops[1..]);
        if end.Some? {
          assert next[i := end.value] == items[i := end.value];
        }
      }
    }
  }

  lemma {:induction false} RemovalsNestable(keys: set<string>)
    ensures Nestable(Removals(keys))
  {
    if keys != {} {
      RemovalsNestable(keys - {PickOne(keys)});
    }
  }

  lemma {:induction false} AdditionsNestable(keys: set<string>, target: Fields)
    requires keys <= target.Keys
    ensures Nestable(Additions(keys, target))
  {
    if keys != {} {
      AdditionsNestable(keys - {PickOne(keys)}, target);
    }
  }

  lemma {:induction false} ChangesNestable(a: Json, b: Json, keys: set<string>)
    requires a.Obj? && b.Obj? && keys <= a.fields.Keys * b.fields.Keys
    ensures Nestable(Changes(a, b, keys))
    decreases |keys|
  {
    if keys != {} {
      ChangesNestable(a, b, keys - {PickOne(keys)});
    }
  }

  lemma {:induction false} ItemsNestable(a: Json, b: Json, i: nat)
    requires a.Arr? && b.Arr?
    ensures Nestable(DiffItems(a, b, i))
    decreases |a.items| + |b.items| - i
  {
    if i < |a.items| || i < |b.items| {
      ItemsNestable(a, b, i + 1);
    }
  }

  lemma DiffNestable(a: Json, b: Json)
    ensures Nestable(Diff(a, b))
  {
    if a.Obj? && b.Obj? {
      RemovalsNestable(a.fields.Keys - b.fields.Keys);
      AdditionsNestable(b.fields.Keys - a.fields.Keys, b.fields);
      ChangesNestable(a, b, a.fields.Keys * b.fields.Keys);
    } else if a.Arr? && b.Arr? {
      ItemsNestable(a, b, 0);
    }
  }

  lemma {:induction false} ApplyRemovals(fields: Fields, keys: set<string>)
    requires keys <= fields.Keys
    ensures ApplyAll(Obj(fields), Removals(keys)) == Some(Obj(fields - keys))
  {
    if keys == {} {
      assert fields - keys == fields;
    } else {
      var k := PickOne(keys);
      assert Apply(Obj(fields), Remove([Name(k)])) == Some(Obj(fields - {k}));
      ApplyRemovals(fields - {k}, keys - {k});
      assert fields - {k} - (keys - {k}) == fields - keys;
      assert Removals(keys)[1..] == Removals(keys - {k});
    }
  }

  function Restricted(fields: Fields, keys: set<string>): Fields {
    map k | k in fields && k in keys :: fields[k]
  }

  lemma {:induction false} ApplyAdditions(fields: Fields, keys: set<string>, target: Fields)
    requires keys <= target.Keys
    ensures ApplyAll(Obj(fields), Additions(keys, target)) == Some(Obj(fields + Restricted(target, keys)))
    decreases keys
  {
    if keys == {} {
      assert fields + Restricted(target, keys) == fields;
    } else {
      var k := PickOne(keys);
      var next := fields[k := target[k]];
      assert Apply(Obj(fields), Add([Name(k)], target[k])) == Some(Obj(next));
      ApplyAdditions(next, keys - {k}, target);
      assert next + Restricted(target, keys - {k}) == fields + Restricted(target, keys);
      assert Additions(keys, target)[1..] == Additions(keys - {k}, target);
    }
  }

  lemma {:induction false} ApplyChanges(a: Json, b: Json, fields: Fields, keys: set<string>)
    requires a.Obj? && b.Obj? && keys <= a.fields.Keys * b.fields.Keys
    requires forall k :: k in keys ==> k in fields && fields[k] == a.fields[k]
    ensures ApplyAll(Obj(fields), Changes(a, b, keys)) == Some(Obj(fields + Restricted(b.fields, keys)))
    decreases a, 0, |keys|
  {
    hide ApplyAll, Diff, Nestable;
    if keys == {} {
      assert fields + Restricted(b.fields, keys) == fields;
      ApplyNothing(Obj(fields));
    } else {
      var k := PickOne(keys);
      DiffRoundTrip(a.fields[k], b.fields[k]);
      DiffNestable(a.fields[k], b.fields[k]);
      ApplyUnderName(fields, k, Diff(a.fields[k], b.fields[k]));
      var next := fields[k := b.fields[k]];
      ApplyChanges(a, b, next, keys - {k});
      ApplyConcat(Obj(fields), Under(Name(k), Diff(a.fields[k], b.fields[k])), Changes(a, b, keys - {k}));
      assert next + Restricted(b.fields, keys - {k}) == fields + Restricted(b.fields, keys);
    }
  }

  // While items are compared, the array is what of b is done followed by what of a is left.
  function Mixed(a: seq<Json>, b: seq<Json>, i: nat): seq<Json> {
    b[..Min(i, |b|)] + a[Min(i, |a|)..]
  }

  lemma MixedChange(a: seq<Json>, b: seq<Json>, i: nat)
    requires i < |a| && i < |b|
    ensures i < |Mixed(a, b, i)| && Mixed(a, b, i)[i] == a[i] && Mixed(a, b, i)[i := b[i]] == Mixed(a, b, i + 1)
  {
    assert a[i..] == [a[i]] + a[i + 1..] && b[..i + 1] == b[..i] + [b[i]];
  }

  lemma MixedRemoval(a: seq<Json>, b: seq<Json>, i: nat)
    requires |b| <= i < |a|
    ensures |b| < |Mixed(a, b, i)| && Mixed(a, b, i)[..|b|] + Mixed(a, b, i)[|b| + 1..] == Mixed(a, b, i + 1)
  {
    assert b[..|b|] == b && a[i..] == [a[i]] + a[i + 1..];
    assert Mixed(a, b, i)[..|b|] == b && Mixed(a, b, i)[|b| + 1..] == a[i + 1..];
  }

  lemma MixedAddition(a: seq<Json>, b: seq<Json>, i: nat)
    requires |a| <= i < |b|
    ensures |Mixed(a, b, i)| == i && Mixed(a, b, i)[..i] + [b[i]] + Mixed(a, b, i)[i..] == Mixed(a, b, i + 1)
  {
    assert Mixed(a, b, i) == b[..i] && b[..i + 1] == b[..i] + [b[i]];
    assert Mixed(a, b, i)[..i] == b[..i] && Mixed(a, b, i)[i..] == [];
  }

  lemma MixedEnds(a: seq<Json>, b: seq<Json>, i: nat)
    ensures |a| <= i && |b| <= i ==> Mixed(a, b, i) == b
    ensures Mixed(a, b, 0) == a
  {
  }

  lemma ApplyFirst(doc: Json, op: Op, rest: seq<Op>)
    ensures ApplyAll(doc, [op] + rest) ==
            var next := Apply(doc, op); if next.None? then None else ApplyAll(next.value, rest)
  {
    assert ([op] + rest)[1..] == rest;
  }

  lemma {:induction false} ApplyItems(a: Json, b: Json, i: nat)
    requires a.Arr? && b.Arr?
    ensures ApplyAll(Arr(Mixed(a.items, b.items, i)), DiffItems(a, b, i)) == Some(b)
    decreases a, 0, |a.items| + |b.items| - i
  {
    hide ApplyAll, Mixed, Diff;
    var items, n := Mixed(a.items, b.items, i), |b.items|;
    if i < |a.items| && i < n {
      MixedChange(a.items, b.items, i);
      var ops := Diff(a.items[i], b.items[i]);
      DiffRoundTrip(a.items[i], b.items[i]);
      DiffNestable(a.items[i], b.items[i]);
      ApplyUnderIndex(items, i, ops);
      ApplyConcat(Arr(items), Under(Index(i), ops), DiffItems(a, b, i + 1));
      ApplyItems(a, b, i + 1);
    } else if i < |a.items| {
      MixedRemoval(a.items, b.items, i);
      ApplyFirst(Arr(items), Remove([Index(n)]), DiffItems(a, b, i + 1));
      ApplyItems(a, b, i + 1);
    } else if i < n {
      MixedAddition(a.items, b.items, i);
      ApplyFirst(Arr(items), Add([Index(i)], b.items[i]), DiffItems(a, b, i + 1));
      ApplyItems(a, b, i + 1);
    } else {
      MixedEnds(a.items, b.items, i);
      ApplyNothing(b);
    }
  }

  lemma ApplyNothing(doc: Json)
    ensures ApplyAll(doc, []) == Some(doc)
  {
  }

  lemma ApplyThree(doc: Json, first: seq<Op>, second: seq<Op>, third: seq<Op>, one: Json, two: Json, three: Json)
    requires ApplyAll(doc, first) == Some(one) && ApplyAll(one, second) == Some(two) && ApplyAll(two, third) == Some(three)
    ensures ApplyAll(doc, first + second + third) == Some(three)
  {
    hide ApplyAll;
    ApplyConcat(doc, first, second);
    ApplyConcat(doc, first + second, third);
  }

  // Without the names gone, with the names new, and with the new values of the names shared.
  lemma FieldsAreComplete(a: Fields, b: Fields)
    ensures var grown := a - (a.Keys - b.Keys) + Restricted(b, b.Keys - a.Keys);
            && (forall k :: k in a.Keys * b.Keys ==> k in grown && grown[k] == a[k])
            && grown + Restricted(b, a.Keys * b.Keys) == b
  {
  }

  // The patch from one value to another turns the one into the other.
  lemma {:induction false} DiffRoundTrip(a: Json, b: Json)
    ensures ApplyAll(a, Diff(a, b)) == Some(b)
    decreases a, 1, 0
  {
    hide Removals, Additions, Changes, DiffItems;
    if a.Obj? && b.Obj? {
      hide Apply, ApplyAll;
      var gone, added, both := a.fields.Keys - b.fields.Keys, b.fields.Keys - a.fields.Keys, a.fields.Keys * b.fields.Keys;
      ApplyRemovals(a.fields, gone);
      var kept := a.fields - gone;
      ApplyAdditions(kept, added, b.fields);
      var grown := kept + Restricted(b.fields, added);
      FieldsAreComplete(a.fields, b.fields);
      ApplyChanges(a, b, grown, both);
      ApplyThree(a, Removals(gone), Additions(added, b.fields), Changes(a, b, both), Obj(kept), Obj(grown), b);
    } else if a.Arr? && b.Arr? {
      ApplyItems(a, b, 0);
      MixedEnds(a.items, b.items, 0);
    }
  }

  /******* Recording an update *******/

  const REVISIONS := "revisions"
  const REV := "rev"

  function RevisionsOf(obj: Fields): seq<Json> {
    if REVISIONS in obj && obj[REVISIONS].Arr? then obj[REVISIONS].items else []
  }

  function RevOf(obj: Fields): Json {
    if REV in obj then obj[REV] else Null
  }

  function Appended(obj: Fields, patch: seq<Op>, author: string, date: string): Fields {
    obj[REVISIONS := Arr(RevisionsOf(obj) + [Revision(author, patch, RevOf(obj), date)])]
  }

  // A revision is appended if there is anything to go back to.
  function WithRevision(obj: Fields, patch: seq<Op>, author: string, date: string): Fields {
    if patch == [] then obj else Appended(obj, patch, author, date)
  }

  class Editable {
    var obj: Fields

    constructor (obj: Fields)
      ensures this.obj == obj
    {
      this.obj := obj;
    }

    method AppendRevision(author: string, patch: seq<Op>, date: string)
      requires REVISIONS in obj ==> obj[REVISIONS].Arr?
      modifies this
      ensures obj == Appended(old(obj), patch, author, date)
    {
      var revision := Revision(author, patch, if REV in obj then obj[REV] else Null, date);
      if REVISIONS !in obj {
        obj := obj[REVISIONS := Arr([])];
      }
      obj := obj[REVISIONS := Arr(obj[REVISIONS].items + [revision])];
    }

    // `patch` is what the diff library makes of the two states.
    method GetRevisionChanges(before: Fields, patch: seq<Op>, author: string, date: string)
      requires REVISIONS in obj ==> obj[REVISIONS].Arr?
      requires patch == Diff(Obj(obj), Obj(before))
      modifies this
      ensures obj == WithRevision(old(obj), Diff(Obj(old(obj)), Obj(before)), author, date)
    {
      if patch != [] {
        AppendRevision(author, patch, date);
      }
    }
  }

  // A handler gives the object new content; the revisions and the revision id are not its business.
  datatype Edit = Edit(content: Fields, author: string, date: string, rev: string)

  const BOOKKEEPING := {REVISIONS, REV}

  function Edited(before: Fields, content: Fields): Fields {
    (content - BOOKKEEPING) + Restricted(before, BOOKKEEPING)
  }

  // One update: edit, record the way back, store under the next revision id.
  ghost function Recorded(before: Fields, e: Edit): Fields {
    var edited := Edited(before, e.content);
    WithRevision(edited, Diff(Obj(edited), Obj(before)), e.author, e.date)[REV := Str(e.rev)]
  }

  predicate Effective(before: Fields, e: Edit) {
    Edited(before, e.content) != before
  }

  // The list of revisions exists once there is one, and a stored document has a revision id.
  predicate WellKept(obj: Fields) {
    && (REVISIONS in obj ==> obj[REVISIONS].Arr? && obj[REVISIONS].items != [])
    && (REV in obj ==> obj[REV] != Null)
  }

  // Undoing the last revision: take it off the list, go back to the revision id it names, and apply
  // its patch.
  function Rollback(obj: Fields): Option<Fields> {
    var revisions := RevisionsOf(obj);
    if revisions == [] || !revisions[|revisions| - 1].Revision? then None else
    var last := revisions[|revisions| - 1];
    var before := ApplyAll(Obj(Unrecorded(obj, last.rev)), last.changes);
    if before.Some? && before.value.Obj? then Some(before.value.fields) else None
  }

  // The object without its last revision and under the revision id given.
  function Unrecorded(obj: Fields, rev: Json): Fields {
    var revisions := RevisionsOf(obj);
    (obj - BOOKKEEPING)
    + (if |revisions| <= 1 then map[] else map[REVISIONS := Arr(revisions[..|revisions| - 1])])
    + (if rev == Null then map[] else map[REV := rev])
  }

  lemma RecordingIsUndone(before: Fields, e: Edit)
    requires WellKept(before) && Diff(Obj(Edited(before, e.content)), Obj(before)) != []
    ensures Unrecorded(Recorded(before, e), RevOf(before)) == Edited(before, e.content)
    ensures RevisionsOf(Recorded(before, e)) ==
            RevisionsOf(before) + [Revision(e.author, Diff(Obj(Edited(before, e.content)), Obj(before)), RevOf(before), e.date)]
    ensures WellKept(Recorded(before, e))
  {
    var edited := Edited(before, e.content);
    var patch := Diff(Obj(edited), Obj(before));
    hide Diff;
    AppendedIsUndone(before, edited, patch, e);
  }

  lemma AppendedIsUndone(before: Fields, edited: Fields, patch: seq<Op>, e: Edit)
    requires WellKept(before) && edited - BOOKKEEPING + Restricted(before, BOOKKEEPING) == edited
    ensures var recorded := Appended(edited, patch, e.author, e.date)[REV := Str(e.rev)];
            && Unrecorded(recorded, RevOf(before)) == edited
            && RevisionsOf(recorded) == RevisionsOf(before) + [Revision(e.author, patch, RevOf(before), e.date)]
            && WellKept(recorded)
  {
    var recorded := Appended(edited, patch, e.author, e.date)[REV := Str(e.rev)];
    assert forall k :: k in BOOKKEEPING ==> (k in edited <==> k in before) && (k in edited ==> edited[k] == before[k]);
    var revisions := RevisionsOf(recorded);
    assert RevisionsOf(edited) == RevisionsOf(before) && RevOf(edited) == RevOf(before);
    assert revisions[..|revisions| - 1] == RevisionsOf(before);
    assert recorded - BOOKKEEPING == edited - BOOKKEEPING;
    assert Unrecorded(recorded, RevOf(before)) == edited;
  }

  // Rolling back a recorded update gives the state before it, whole and exact.
  lemma RollbackUndoes(before: Fields, e: Edit)
    requires WellKept(before) && Effective(before, e)
    ensures Rollback(Recorded(before, e)) == Some(before) && WellKept(Recorded(before, e))
  {
    DiffRoundTrip(Obj(Edited(before, e.content)), Obj(before));
    assert Diff(Obj(Edited(before, e.content)), Obj(before)) != [];
    hide ApplyAll, Diff, Unrecorded, Recorded, RevisionsOf, Edited;
    RecordingIsUndone(before, e);
  }

  // An update without effect records nothing, but is stored under a new revision id all the same; to
  // a rollback it makes no difference.
  lemma IdleUpdateIsSkipped(before: Fields, e: Edit)
    requires WellKept(before) && !Effective(before, e)
    ensures Rollback(Recorded(before, e)) == Rollback(before) && WellKept(Recorded(before, e))
    ensures Recorded(before, e) == before[REV := Str(e.rev)]
  {
    DiffToItself(Obj(before));
    var after := Recorded(before, e);
    assert after == before[REV := Str(e.rev)];
    assert after - BOOKKEEPING == before - BOOKKEEPING;
    hide Diff, ApplyAll;
  }

  ghost function RecordedAll(obj: Fields, edits: seq<Edit>): Fields
    decreases |edits|
  {
    if edits == [] then obj else Recorded(RecordedAll(obj, edits[..|edits| - 1]), edits[|edits| - 1])
  }

  ghost predicate LastIsEffective(obj: Fields, edits: seq<Edit>)
    requires edits != []
  {
    Effective(RecordedAll(obj, edits[..|edits| - 1]), edits[|edits| - 1])
  }

  // How many of the updates have an effect, and so a revision.
  ghost function Revisions(obj: Fields, edits: seq<Edit>): nat
    decreases |edits|
  {
    if edits == [] then 0 else Revisions(obj, edits[..|edits| - 1]) + if LastIsEffective(obj, edits) then 1 else 0
  }

  // How many of the updates came before the last `count` ones with an effect.
  ghost function BackTo(obj: Fields, edits: seq<Edit>, count: nat): nat
    requires count <= Revisions(obj, edits)
    ensures BackTo(obj, edits, count) <= |edits|
    decreases |edits|
  {
    if count == 0 then |edits|
    else if LastIsEffective(obj, edits) then BackTo(obj, edits[..|edits| - 1], count - 1)
    else BackTo(obj, edits[..|edits| - 1], count)
  }

  function RollbackAll(obj: Fields, count: nat): Option<Fields>
    decreases count
  {
    if count == 0 then Some(obj) else
    var before := Rollback(obj);
    if before.None? then None else RollbackAll(before.value, count - 1)
  }

  lemma {:induction false} StaysWellKept(obj: Fields, edits: seq<Edit>)
    requires WellKept(obj)
    ensures WellKept(RecordedAll(obj, edits))
    decreases |edits|
  {
    hide Recorded, WellKept, Effective;
    if edits != [] {
      var init, last := edits[..|edits| - 1], edits[|edits| - 1];
      StaysWellKept(obj, init);
      if Effective(RecordedAll(obj, init), last) {
        RollbackUndoes(RecordedAll(obj, init), last);
      } else {
        IdleUpdateIsSkipped(RecordedAll(obj, init), last);
      }
    }
  }

  // Reverse history: after any run of updates, popping k revisions rebuilds the state before the last
  // k updates that had an effect.
  lemma {:induction false} HistoryReplaysBackwards(obj: Fields, edits: seq<Edit>, count: nat)
    requires WellKept(obj) && count <= Revisions(obj, edits)
    ensures RollbackAll(RecordedAll(obj, edits), count) == Some(RecordedAll(obj, edits[..BackTo(obj, edits, count)]))
    decreases |edits|
  {
    hide Recorded, Rollback, Effective, WellKept;
    if count == 0 {
      assert edits[..|edits|] == edits;
    } else {
      var init, last := edits[..|edits| - 1], edits[|edits| - 1];
      StaysWellKept(obj, init);
      if LastIsEffective(obj, edits) {
        RollbackUndoes(RecordedAll(obj, init), last);
        HistoryReplaysBackwards(obj, init, count - 1);
        assert init[..BackTo(obj, init, count - 1)] == edits[..BackTo(obj, edits, count)];
      } else {
        IdleUpdateIsSkipped(RecordedAll(obj, init), last);
        HistoryReplaysBackwards(obj, init, count);
        assert init[..BackTo(obj, init, count)] == edits[..BackTo(obj, edits, count)];
      }
    }
  }

  // Until the first update with an effect nothing but the revision id changes.
  lemma {:induction false} NothingButTheId(edits: seq<Edit>)
    requires Revisions(map[], edits) == 0
    ensures RecordedAll(map[], edits) - {REV} == map[]
    decreases |edits|
  {
    hide Recorded, Effective;
    if edits != [] {
      var init, last := edits[..|edits| - 1], edits[|edits| - 1];
      NothingButTheId(init);
      StaysWellKept(map[], init);
      IdleUpdateIsSkipped(RecordedAll(map[], init), last);
    }
  }

  lemma {:induction false} NoneBefore(obj: Fields, edits: seq<Edit>)
    ensures Revisions(obj, edits[..BackTo(obj, edits, Revisions(obj, edits))]) == 0
    ensures edits != [] && Effective(obj, edits[0]) ==> BackTo(obj, edits, Revisions(obj, edits)) == 0
    decreases |edits|
  {
    hide Recorded, Effective;
    if edits != [] {
      var init := edits[..|edits| - 1];
      NoneBefore(obj, init);
      if Revisions(obj, edits) == 0 {
        assert edits[..|edits|] == edits;
        NoRevisionsNoEffect(obj, edits);
      } else {
        var k := BackTo(obj, init, Revisions(obj, init));
        assert BackTo(obj, edits, Revisions(obj, edits)) == k && init[..k] == edits[..k];
        if |edits| == 1 {
          assert init == [];
        }
      }
    }
  }

  lemma {:induction false} NoRevisionsNoEffect(obj: Fields, edits: seq<Edit>)
    requires edits != [] && Revisions(obj, edits) == 0
    ensures !Effective(obj, edits[0])
    decreases |edits|
  {
    hide Recorded, Effective;
    var init := edits[..|edits| - 1];
    if init == [] {
      assert RecordedAll(obj, init) == obj;
    } else {
      NoRevisionsNoEffect(obj, init);
    }
  }

  // Popping all revisions of a document that started empty leaves nothing but, perhaps, a revision id;
  // and not even that if the first update had an effect, as the one that creates a document has.
  lemma WholeHistoryReplays(edits: seq<Edit>)
    ensures var origin := RollbackAll(RecordedAll(map[], edits), Revisions(map[], edits));
            && origin.Some? && origin.value - {REV} == map[]
            && (edits != [] && Effective(map[], edits[0]) ==> origin.value == map[])
  {
    hide Recorded, Effective, RollbackAll, Revisions, BackTo;
    HistoryReplaysBackwards(map[], edits, Revisions(map[], edits));
    NoneBefore(map[], edits);
    NothingButTheId(edits[..BackTo(map[], edits, Revisions(map[], edits))]);
    assert edits[..0] == [];
  }

  /******* What a patch does not touch *******/

  lemma {:induction false} NoChangesNoOps(a: Json, b: Json, keys: set<string>)
    requires a == b && a.Obj? && keys <= a.fields.Keys
    ensures Changes(a, b, keys) == []
    decreases a, 0, |keys|
  {
    if keys != {} {
      var k := PickOne(keys);
      DiffToItself(a.fields[k]);
      NoChangesNoOps(a, b, keys - {k});
    }
  }

  lemma {:induction false} SameItemsNoOps(a: Json, i: nat)
    requires a.Arr?
    ensures DiffItems(a, a, i) == []
    decreases a, 0, 2 * |a.items| - i
  {
    if i < |a.items| {
      DiffToItself(a.items[i]);
      SameItemsNoOps(a, i + 1);
    }
  }

  lemma {:induction false} DiffToItself(a: Json)
    ensures Diff(a, a) == []
    decreases a, 1, 0
  {
    if a.Obj? {
      NoChangesNoOps(a, a, a.fields.Keys);
      assert a.fields.Keys * a.fields.Keys == a.fields.Keys;
    } else if a.Arr? {
      SameItemsNoOps(a, 0);
    }
  }

  ghost predicate Avoids(ops: seq<Op>, k: string) {
    forall i :: 0 <= i < |ops| ==> ops[i].path != [] && ops[i].path[0] != Name(k)
  }

  lemma {:induction false} RemovalsAvoid(keys: set<string>, k: string)
    requires k !in keys
    ensures Avoids(Removals(keys), k)
  {
    if keys != {} {
      RemovalsAvoid(keys - {PickOne(keys)}, k);
    }
  }

  lemma {:induction false} AdditionsAvoid(keys: set<string>, target: Fields, k: string)
    requires keys <= target.Keys && k !in keys
    ensures Avoids(Additions(keys, target), k)
  {
    if keys != {} {
      AdditionsAvoid(keys - {PickOne(keys)}, target, k);
    }
  }

  lemma {:induction false} ChangesAvoid(a: Json, b: Json, keys: set<string>, k: string)
    requires a.Obj? && b.Obj? && keys <= a.fields.Keys * b.fields.Keys
    requires k in keys ==> a.fields[k] == b.fields[k]
    ensures Avoids(Changes(a, b, keys), k)
    decreases |keys|
  {
    if keys != {} {
      var one := PickOne(keys);
      if one == k {
        DiffToItself(a.fields[k]);
      }
      ChangesAvoid(a, b, keys - {one}, k);
    }
  }

  // A name that has the same value on both sides, or is on neither, is in no operation.
  lemma DiffAvoidsUnchanged(a: Fields, b: Fields, k: string)
    requires (k in a <==> k in b) && (k in a ==> a[k] == b[k])
    ensures Avoids(Diff(Obj(a), Obj(b)), k)
  {
    RemovalsAvoid(a.Keys - b.Keys, k);
    AdditionsAvoid(b.Keys - a.Keys, b, k);
    ChangesAvoid(Obj(a), Obj(b), a.Keys * b.Keys, k);
  }

  // So the history never records itself, nor the revision id.
  lemma PatchLeavesBookkeeping(before: Fields, e: Edit)
    ensures var patch := Diff(Obj(Edited(before, e.content)), Obj(before));
            Avoids(patch, REVISIONS) && Avoids(patch, REV)
  {
    var edited := Edited(before, e.content);
    DiffAvoidsUnchanged(edited, before, REVISIONS);
    DiffAvoidsUnchanged(edited, before, REV);
  }

  /******* What nobody recorded *******/

  lemma AvoidsStep(fields: Fields, op: Op, k: string, v: Json)
    requires op.path != [] && op.path[0] != Name(k)
    ensures var plain, changed := Apply(Obj(fields), op), Apply(Obj(fields[k := v]), op);
            if plain.None? then changed.None?
            else plain.value.Obj? && changed == Some(Obj(plain.value.fields[k := v]))
  {
    if op.path[0].Name? {
      var name := op.path[0].name;
      if |op.path| == 1 && op.Add? {
        UpdatesCommute(fields, name, op.value, k, v);
      } else if name in fields {
        if |op.path| == 1 && op.Remove? {
          assert fields[k := v] - {name} == (fields - {name})[k := v];
        } else {
          var child := Apply(fields[name], At(op, op.path[1..]));
          if child.Some? {
            UpdatesCommute(fields, name, child.value, k, v);
          }
        }
      }
    }
  }

  lemma UpdatesCommute(fields: Fields, name: string, x: Json, k: string, v: Json)
    requires name != k
    ensures fields[k := v][name := x] == fields[name := x][k := v]
  {
  }

  lemma UnionKeeps(a: Fields, b: Fields, k: string, v: Json)
    requires k !in b
    ensures a[k := v] + b == (a + b)[k := v]
  {
  }

  lemma {:induction false} AvoidsAll(fields: Fields, ops: seq<Op>, k: string, v: Json)
    requires Avoids(ops, k)
    ensures var plain, changed := ApplyAll(Obj(fields), ops), ApplyAll(Obj(fields[k := v]), ops);
            if plain.None? then changed.None?
            else plain.value.Obj? && changed == Some(Obj(plain.value.fields[k := v]))
    decreases |ops|
  {
    hide Apply;
    if ops != [] {
      AvoidsStep(fields, ops[0], k, v);
      var next := Apply(Obj(fields), ops[0]);
      if next.Some? {
        AvoidsAll(next.value.fields, ops[1..], k, v);
      }
    }
  }

  // A cron sets a field without recording it. If the last recorded update left that field alone,
  // rolling that update back gives a state that never was: the earlier one, with the cron's value.
  lemma CronWriteLeaksIntoThePast(before: Fields, e: Edit, k: string, v: Json)
    requires WellKept(before) && Effective(before, e) && k !in BOOKKEEPING
    requires var edited := Edited(before, e.content); (k in edited <==> k in before) && (k in edited ==> edited[k] == before[k])
    ensures Rollback(Recorded(before, e)[k := v]) == Some(before[k := v])
  {
    var edited := Edited(before, e.content);
    var patch := Diff(Obj(edited), Obj(before));
    DiffRoundTrip(Obj(edited), Obj(before));
    DiffAvoidsUnchanged(edited, before, k);
    hide Diff, ApplyAll, Edited;
    assert patch != [] by {
      ApplyNothing(Obj(edited));
    }
    AvoidsAll(edited, patch, k, v);
    RecordingIsUndone(before, e);
    UnrecordedKeeps(Recorded(before, e), k, v, RevOf(before));
  }

  lemma UnrecordedKeeps(obj: Fields, k: string, v: Json, rev: Json)
    requires k !in BOOKKEEPING
    ensures Unrecorded(obj[k := v], rev) == Unrecorded(obj, rev)[k := v]
    ensures RevisionsOf(obj[k := v]) == RevisionsOf(obj)
  {
    var revisions := RevisionsOf(obj);
    var list: Fields := if |revisions| <= 1 then map[] else map[REVISIONS := Arr(revisions[..|revisions| - 1])];
    var id: Fields := if rev == Null then map[] else map[REV := rev];
    assert obj[k := v] - BOOKKEEPING == (obj - BOOKKEEPING)[k := v];
    UnionKeeps(obj - BOOKKEEPING, list, k, v);
    UnionKeeps(obj - BOOKKEEPING + list, id, k, v);
  }
}
