// One run of the migration over the criteria of a category or a profile, and what a second run does.
module MigrationRun {
  import opened Common
  import opened Requirements
  import opened Criteria
  import opened Migration

  // What a run sees: the titles a profile may use (None for categories, whose requirements are all
  // kept) and what products have responded to a requirement, by its title.
  datatype Run = Run(py: Conversions, titles: Option<set<string>>, responses: string -> seq<Value>) {
    predicate Keeps(r: Requirement) {
      titles.None? || r.title in titles.value
    }

    function Rewritten(r: Requirement): Option<Requirement> {
      Rewrite(py, r, responses(r.title))
    }

    // A requirement that is kept and comes out different; dropping one does not count as a change.
    predicate Changes(r: Requirement) {
      Keeps(r) && Rewritten(r).Some? && !SameDict(Rewritten(r).value, r)
    }

    ghost predicate ChangesAny(list: seq<Requirement>) {
      exists r :: r in list && Changes(r)
    }
  }

  /******* The migrated tree *******/

  function Prepend<T>(front: seq<T>, rest: Option<seq<T>>): (r: Option<seq<T>>)
    ensures front == [] ==> r == rest
  {
    if rest.None? then None
    else
      assert front == [] ==> front + rest.value == rest.value;
      Some(front + rest.value)
  }

  function MigratedList(run: Run, list: seq<Requirement>): Option<seq<Requirement>> {
    if list == [] then Some([])
    else if !run.Keeps(list[0]) then MigratedList(run, list[1..])
    else if run.Rewritten(list[0]).None? then None
    else Prepend([run.Rewritten(list[0]).value], MigratedList(run, list[1..]))
  }

  function MigratedGroups(run: Run, groups: seq<Group>): Option<seq<Group>> {
    if groups == [] then Some([])
    else
      var list := MigratedList(run, groups[0].requirements);
      if list.None? then None
      else Prepend([groups[0].(requirements := list.value)], MigratedGroups(run, groups[1..]))
  }

  // None if a conversion raises.
  function MigratedTree(run: Run, criteria: seq<Criterion>): Option<seq<Criterion>> {
    if criteria == [] then Some([])
    else
      var groups := MigratedGroups(run, criteria[0].groups);
      if groups.None? then None
      else Prepend([criteria[0].(groups := groups.value)], MigratedTree(run, criteria[1..]))
  }

  // What the database holds afterwards: it is written only if a requirement has changed.
  ghost function Stored(run: Run, criteria: seq<Criterion>): seq<Criterion>
    requires MigratedTree(run, criteria).Some?
  {
    if run.ChangesAny(OfTree(criteria)) then MigratedTree(run, criteria).value else criteria
  }

  /******* The loops *******/

  lemma PrependPrepend<T>(front: seq<T>, more: seq<T>, rest: Option<seq<T>>)
    ensures Prepend(front, Prepend(more, rest)) == Prepend(front + more, rest)
  {
    if rest.Some? {
      assert front + (more + rest.value) == front + more + rest.value;
    }
  }

  lemma ChangesAnyOf(run: Run, front: seq<Requirement>, rest: seq<Requirement>)
    ensures run.ChangesAny(front + rest) <==> run.ChangesAny(front) || run.ChangesAny(rest)
  {
    if run.ChangesAny(front) {
      var r :| r in front && run.Changes(r);
      assert r in front + rest;
    }
    if run.ChangesAny(rest) {
      var r :| r in rest && run.Changes(r);
      assert r in front + rest;
    }
  }

  lemma ChangesAnyFrom(run: Run, list: seq<Requirement>)
    requires list != []
    ensures run.ChangesAny(list) <==> run.Changes(list[0]) || run.ChangesAny(list[1..])
  {
    ChangesAnyOf(run, [list[0]], list[1..]);
    assert [list[0]] + list[1..] == list;
    assert list[0] in [list[0]];
  }

  method MigrateList(run: Run, list: seq<Requirement>) returns (ok: bool, after: seq<Requirement>, updated: bool)
    ensures ok <==> MigratedList(run, list).Some?
    ensures ok ==> after == MigratedList(run, list).value
    ensures ok ==> (updated <==> run.ChangesAny(list))
  {
    hide Rewrite, SameDict;
    after, updated := [], false;
    for i := 0 to |list|
      invariant MigratedList(run, list) == Prepend(after, MigratedList(run, list[i..]))
      invariant run.ChangesAny(list) <==> updated || run.ChangesAny(list[i..])
    {
      ChangesAnyFrom(run, list[i..]);
      if !run.Keeps(list[i]) {
        continue;
      }
      var draft := new Draft(list[i]);
      var done := draft.Update(run.py, run.responses(list[i].title));
      if !done {
        return false, [], false;
      }
      PrependPrepend(after, [draft.r], MigratedList(run, list[i + 1..]));
      after := after + [draft.r];
      updated := updated || !SameDict(draft.r, list[i]);
    }
    ok := true;
  }

  method MigrateGroups(run: Run, groups: seq<Group>) returns (ok: bool, after: seq<Group>, updated: bool)
    ensures ok <==> MigratedGroups(run, groups).Some?
    ensures ok ==> after == MigratedGroups(run, groups).value
    ensures ok ==> (updated <==> run.ChangesAny(OfGroups(groups)))
  {
    after, updated := [], false;
    for i := 0 to |groups|
      invariant MigratedGroups(run, groups) == Prepend(after, MigratedGroups(run, groups[i..]))
      invariant run.ChangesAny(OfGroups(groups)) <==> updated || run.ChangesAny(OfGroups(groups[i..]))
    {
      hide MigratedList;
      ChangesAnyOf(run, groups[i].requirements, OfGroups(groups[i + 1..]));
      var done, list, changed := MigrateList(run, groups[i].requirements);
      if !done {
        return false, [], false;
      }
      PrependPrepend(after, [groups[i].(requirements := list)], MigratedGroups(run, groups[i + 1..]));
      after := after + [groups[i].(requirements := list)];
      updated := updated || changed;
    }
    ok := true;
  }

  // The new criteria, or None if they are to stay as they are; not ok if a conversion raises.
  method UpdateCriteria(run: Run, criteria: seq<Criterion>) returns (ok: bool, after: Option<seq<Criterion>>)
    ensures ok <==> MigratedTree(run, criteria).Some?
    ensures ok ==> Stored(run, criteria) == after.GetOr(criteria)
    ensures ok && criteria != [] ==> (after.Some? <==> run.ChangesAny(OfTree(criteria)))
  {
    if criteria == [] {
      return true, Some([]);
    }
    var tree, updated := [], false;
    for i := 0 to |criteria|
      invariant MigratedTree(run, criteria) == Prepend(tree, MigratedTree(run, criteria[i..]))
      invariant run.ChangesAny(OfTree(criteria)) <==> updated || run.ChangesAny(OfTree(criteria[i..]))
    {
      hide MigratedGroups, OfGroups;
      ChangesAnyOf(run, OfGroups(criteria[i].groups), OfTree(criteria[i + 1..]));
      var done, groups, changed := MigrateGroups(run, criteria[i].groups);
      if !done {
        return false, None;
      }
      PrependPrepend(tree, [criteria[i].(groups := groups)], MigratedTree(run, criteria[i + 1..]));
      tree := tree + [criteria[i].(groups := groups)];
      updated := updated || changed;
    }
    return true, if updated then Some(tree) else None;
  }

  /******* The second run *******/

  // Migrating a tree and then listing its requirements is migrating the list of them.
  lemma {:induction false} MigratedListConcat(run: Run, a: seq<Requirement>, b: seq<Requirement>)
    ensures var left, right := MigratedList(run, a), MigratedList(run, b);
            MigratedList(run, a + b) == if left.None? then None else Prepend(left.value, right)
  {
    hide Run.Rewritten;
    if a == [] {
      assert a + b == b;
    } else {
      assert (a + b)[1..] == a[1..] + b;
      MigratedListConcat(run, a[1..], b);
      var left := MigratedList(run, a[1..]);
      if run.Keeps(a[0]) && run.Rewritten(a[0]).Some? && left.Some? {
        PrependPrepend([run.Rewritten(a[0]).value], left.value, MigratedList(run, b));
      }
    }
  }

  lemma {:induction false} MigratedGroupsFlatten(run: Run, groups: seq<Group>)
    ensures MigratedList(run, OfGroups(groups)) ==
            if MigratedGroups(run, groups).None? then None else Some(OfGroups(MigratedGroups(run, groups).value))
  {
    if groups != [] {
      MigratedListConcat(run, groups[0].requirements, OfGroups(groups[1..]));
      MigratedGroupsFlatten(run, groups[1..]);
      hide MigratedList;
      if MigratedGroups(run, groups).Some? {
        assert MigratedGroups(run, groups).value[1..] == MigratedGroups(run, groups[1..]).value;
      }
    }
  }

  lemma {:induction false} MigratedTreeFlattens(run: Run, criteria: seq<Criterion>)
    ensures MigratedList(run, OfTree(criteria)) ==
            if MigratedTree(run, criteria).None? then None else Some(OfTree(MigratedTree(run, criteria).value))
  {
    if criteria != [] {
      MigratedListConcat(run, OfGroups(criteria[0].groups), OfTree(criteria[1..]));
      MigratedGroupsFlatten(run, criteria[0].groups);
      MigratedTreeFlattens(run, criteria[1..]);
      hide MigratedList, OfGroups, MigratedGroups;
      if MigratedTree(run, criteria).Some? {
        assert MigratedTree(run, criteria).value[1..] == MigratedTree(run, criteria[1..]).value;
      }
    }
  }

  // What one run leaves as it is, any later run leaves as it is.
  lemma UnchangedStays(run: Run, later: Run, r: Requirement)
    requires later.py == run.py && later.titles == run.titles
    requires run.Rewritten(r).Some? && run.Keeps(r) && !run.Changes(r)
    ensures later.Rewritten(r).Some? && !later.Changes(r)
  {
    UnchangedByType(run.py, r, run.responses(r.title), later.responses(r.title));
  }

  lemma {:induction false} UnchangedListStays(run: Run, later: Run, list: seq<Requirement>)
    requires later.py == run.py && later.titles == run.titles
    requires MigratedList(run, list).Some? && !run.ChangesAny(list)
    ensures MigratedList(later, list).Some? && !later.ChangesAny(list)
  {
    hide Run.Rewritten, SameDict;
    if list != [] {
      ChangesAnyFrom(run, list);
      ChangesAnyFrom(later, list);
      UnchangedListStays(run, later, list[1..]);
      if run.Keeps(list[0]) {
        UnchangedStays(run, later, list[0]);
      }
    }
  }

  ghost predicate AnyNeedsTwoRuns(run: Run, list: seq<Requirement>) {
    exists r :: r in list && run.Keeps(r) && NeedsTwoRuns(r)
  }

  lemma {:induction false} MigratedListIsStable(run: Run, later: Run, list: seq<Requirement>)
    requires Faithful(run.py) && later.py == run.py && later.titles == run.titles
    requires MigratedList(run, list).Some?
    ensures var after := MigratedList(run, list).value;
            MigratedList(later, after).Some? && (later.ChangesAny(after) <==> AnyNeedsTwoRuns(run, list))
  {
    hide Rewrite, SameDict, NeedsTwoRuns;
    if list != [] {
      MigratedListIsStable(run, later, list[1..]);
      if run.Keeps(list[0]) {
        var once := run.Rewritten(list[0]).value;
        var after := MigratedList(run, list).value;
        assert after[0] == once && after[1..] == MigratedList(run, list[1..]).value;
        TitleStays(run.py, list[0], run.responses(list[0].title));
        MigrationIsIdempotent(run.py, list[0], run.responses(list[0].title), later.responses(once.title));
        ChangesAnyFrom(later, after);
      }
    }
  }

  lemma TwoRunsMeanAChange(run: Run, list: seq<Requirement>)
    requires MigratedList(run, list).Some? && AnyNeedsTwoRuns(run, list)
    ensures run.ChangesAny(list)
  {
    var r :| r in list && run.Keeps(r) && NeedsTwoRuns(r);
    assert run.Rewritten(r).value.expectedValues.None?;
    assert run.Changes(r);
  }

  // Running the migration again over what is stored never fails and never writes, whatever products
  // have responded meanwhile, unless a requirement that is kept needs two runs, and then it does write.
  lemma SecondRunWritesNothing(run: Run, later: Run, criteria: seq<Criterion>)
    requires Faithful(run.py) && later.py == run.py && later.titles == run.titles
    requires MigratedTree(run, criteria).Some?
    ensures var stored := Stored(run, criteria);
            && MigratedTree(later, stored).Some?
            && (later.ChangesAny(OfTree(stored)) <==> AnyNeedsTwoRuns(run, OfTree(criteria)))
  {
    hide MigratedTree, MigratedList, OfTree, Run.ChangesAny, AnyNeedsTwoRuns;
    var list := OfTree(criteria);
    MigratedTreeFlattens(run, criteria);
    MigratedTreeFlattens(later, Stored(run, criteria));
    if run.ChangesAny(list) {
      MigratedListIsStable(run, later, list);
    } else {
      UnchangedListStays(run, later, list);
      if AnyNeedsTwoRuns(run, list) {
        TwoRunsMeanAChange(run, list);
      }
    }
  }

  // So over requirements the models accept, a second run never writes.
  lemma ValidTreesMigrateOnce(run: Run, later: Run, criteria: seq<Criterion>)
    requires Faithful(run.py) && later.py == run.py && later.titles == run.titles
    requires MigratedTree(run, criteria).Some? && forall r :: r in OfTree(criteria) ==> ValidBase(r)
    ensures var stored := Stored(run, criteria);
            MigratedTree(later, stored).Some? && !later.ChangesAny(OfTree(stored))
  {
    hide MigratedTree, MigratedList, OfTree, Run.ChangesAny, Rewrite;
    SecondRunWritesNothing(run, later, criteria);
    forall r | r in OfTree(criteria)
      ensures !NeedsTwoRuns(r)
    {
      assert ValidBase(r);
    }
  }
}
