// Editing the criteria tree of a category or a profile: posting, patching and deleting criteria,
// requirement groups and requirements, and what stays true of the tree in every run of edits.
module CriteriaTree {
  import opened Common
  import opened Requirements
  import opened Criteria

  /******* Lookups *******/

  // The first item with the id, or -1.
  function FindItem<T>(items: seq<T>, idOf: T -> string, id: string): (i: int)
    ensures -1 <= i < |items|
    ensures i >= 0 ==> idOf(items[i]) == id
    ensures forall k :: 0 <= k < (if i < 0 then |items| else i) ==> idOf(items[k]) != id
  {
    if items == [] then -1
    else if idOf(items[0]) == id then 0
    else var i := FindItem(items[1..], idOf, id); if i < 0 then -1 else i + 1
  }

  function FindCriterion(criteria: seq<Criterion>, id: string): int {
    FindItem(criteria, (c: Criterion) => c.id, id)
  }

  function FindGroup(groups: seq<Group>, id: string): int {
    FindItem(groups, (g: Group) => g.id, id)
  }

  function FindRequirement(requirements: seq<Requirement>, id: string): int {
    FindItem(requirements, (r: Requirement) => r.id, id)
  }

  function Without<T>(s: seq<T>, i: nat): seq<T>
    requires i < |s|
  {
    s[..i] + s[i + 1..]
  }

  /******* Validations *******/

  predicate Unique<T(==)>(s: seq<T>) {
    forall i, j :: 0 <= i < j < |s| ==> s[i] != s[j]
  }

  function TitlesOf(requirements: seq<Requirement>): (titles: seq<string>)
    ensures |titles| == |requirements| && forall i :: 0 <= i < |titles| ==> titles[i] == requirements[i].title
  {
    seq(|requirements|, i requires 0 <= i < |requirements| => requirements[i].title)
  }

  predicate TitlesUnique(criteria: seq<Criterion>) {
    Unique(TitlesOf(OfTree(criteria)))
  }

  predicate ClassificationsUnique(criteria: seq<Criterion>) {
    forall i, j :: 0 <= i < j < |criteria| && criteria[i].classification.Some? ==>
      criteria[i].classification != criteria[j].classification
  }

  // The check of a patched criterion compares it with the criteria before the patch, and raises on
  // one that has no classification.
  predicate PatchedIsUnique(before: seq<Criterion>, patched: Criterion) {
    patched.classification.Some? ==>
      forall c :: c in before ==> c.classification.Some? && (c.classification == patched.classification ==> c.id == patched.id)
  }

  /******* Edits *******/

  datatype Edit =
    | PostCriteria(added: seq<Criterion>)
    | PatchCriterion(criterion: string, classification: Option<string>, title: Option<string>)
    | DeleteCriterion(criterion: string)
    | PostGroup(criterion: string, id: string, description: string)
    | PatchGroup(criterion: string, group: string, description: string)
    | DeleteGroup(criterion: string, group: string)
    | PostRequirements(criterion: string, group: string, requirements: seq<Requirement>, allowed: bool)
    | PatchRequirement(criterion: string, group: string, requirement: string, edited: Requirement, allowed: bool)
    | DeleteRequirement(criterion: string, group: string, requirement: string)

  // New criteria come with fresh ids, a classification and no groups.
  predicate AreNew(criteria: seq<Criterion>, added: seq<Criterion>) {
    && (forall c :: c in added ==> c.groups == [] && c.classification.Some?)
    && (forall i, j :: 0 <= i < |added| && 0 <= j < |criteria| ==> added[i].id != criteria[j].id)
    && (forall i, j :: 0 <= i < j < |added| ==> added[i].id != added[j].id)
  }

  function WithGroups(criteria: seq<Criterion>, i: nat, groups: seq<Group>): seq<Criterion>
    requires i < |criteria|
  {
    criteria[i := criteria[i].(groups := groups)]
  }

  function WithRequirements(criteria: seq<Criterion>, i: nat, g: nat, requirements: seq<Requirement>): seq<Criterion>
    requires i < |criteria| && g < |criteria[i].groups|
  {
    WithGroups(criteria, i, criteria[i].groups[g := criteria[i].groups[g].(requirements := requirements)])
  }

  function Patched(c: Criterion, classification: Option<string>, title: Option<string>): Criterion {
    c.(classification := if classification.Some? then classification else c.classification, title := title.GetOr(c.title))
  }

  // None: the edit is refused or raises, and nothing is written. `allowed` stands for the checks of
  // requirements against their model and, for profiles, against the category.
  function Apply(criteria: seq<Criterion>, e: Edit): Option<seq<Criterion>> {
    if e.PostCriteria? then
      if AreNew(criteria, e.added) && ClassificationsUnique(criteria + e.added) then Some(criteria + e.added) else None
    else
      var i := FindCriterion(criteria, e.criterion);
      if i < 0 then None else
      var c := criteria[i];
      if e.PatchCriterion? then
        var patched := Patched(c, e.classification, e.title);
        if PatchedIsUnique(criteria, patched) then Some(criteria[i := patched]) else None
      else if e.DeleteCriterion? then Some(Without(criteria, i))
      else if e.PostGroup? then
        var groups := c.groups + [Group(e.id, e.description, [])];
        if !c.IsLocalization() && |groups| > 1 then None else Some(WithGroups(criteria, i, groups))
      else
        var g := FindGroup(c.groups, e.group);
        if g < 0 then None else ApplyInGroup(criteria, i, g, e)
  }

  function ApplyInGroup(criteria: seq<Criterion>, i: nat, g: nat, e: Edit): Option<seq<Criterion>>
    requires i < |criteria| && g < |criteria[i].groups|
    requires e.PatchGroup? || e.DeleteGroup? || e.PostRequirements? || e.PatchRequirement? || e.DeleteRequirement?
  {
    var groups := criteria[i].groups;
    var requirements := groups[g].requirements;
    match e
    case PatchGroup(_, _, description) =>
      Some(WithGroups(criteria, i, groups[g := groups[g].(description := description)]))
    case DeleteGroup(_, _) =>
      Some(WithGroups(criteria, i, Without(groups, g)))
    case PostRequirements(_, _, added, allowed) =>
      var after := WithRequirements(criteria, i, g, requirements + added);
      if allowed && TitlesUnique(after) then Some(after) else None
    case PatchRequirement(_, _, requirement, edited, allowed) =>
      var r := FindRequirement(requirements, requirement);
      if r < 0 then None else
      var after := WithRequirements(criteria, i, g, requirements[r := edited]);
      if allowed && TitlesUnique(after) then Some(after) else None
    case DeleteRequirement(_, _, requirement) =>
      var r := FindRequirement(requirements, requirement);
      if r < 0 then None else Some(WithRequirements(criteria, i, g, Without(requirements, r)))
  }

  // The tree after an edit, which a refused one leaves alone.
  function After(criteria: seq<Criterion>, e: Edit): seq<Criterion> {
    Apply(criteria, e).GetOr(criteria)
  }

  function AfterAll(criteria: seq<Criterion>, edits: seq<Edit>): seq<Criterion>
    decreases |edits|
  {
    if edits == [] then criteria else AfterAll(After(criteria, edits[0]), edits[1..])
  }

  /******* The tree as a list of requirements *******/

  lemma {:induction false} GroupsConcat(a: seq<Group>, b: seq<Group>)
    ensures OfGroups(a + b) == OfGroups(a) + OfGroups(b)
  {
    if a == [] {
      assert a + b == b;
    } else {
      assert (a + b)[1..] == a[1..] + b;
      GroupsConcat(a[1..], b);
    }
  }

  lemma {:induction false} TreeConcat(a: seq<Criterion>, b: seq<Criterion>)
    ensures OfTree(a + b) == OfTree(a) + OfTree(b)
  {
    if a == [] {
      assert a + b == b;
    } else {
      assert (a + b)[1..] == a[1..] + b;
      TreeConcat(a[1..], b);
    }
  }

  lemma TreeAround(criteria: seq<Criterion>, i: nat, c: Criterion)
    requires i < |criteria|
    ensures OfTree(criteria[i := c]) == OfTree(criteria[..i]) + OfGroups(c.groups) + OfTree(criteria[i + 1..])
    ensures OfTree(criteria) == OfTree(criteria[..i]) + OfGroups(criteria[i].groups) + OfTree(criteria[i + 1..])
    ensures OfTree(Without(criteria, i)) == OfTree(criteria[..i]) + OfTree(criteria[i + 1..])
  {
    var before, after := criteria[..i], criteria[i + 1..];
    assert criteria[i := c] == before + ([c] + after) && criteria == before + ([criteria[i]] + after);
    TreeConcat(before, [c] + after);
    TreeConcat(before, [criteria[i]] + after);
    TreeConcat(before, after);
    assert ([c] + after)[1..] == after && ([criteria[i]] + after)[1..] == after;
  }

  lemma GroupsAround(groups: seq<Group>, g: nat, group: Group)
    requires g < |groups|
    ensures OfGroups(groups[g := group]) == OfGroups(groups[..g]) + group.requirements + OfGroups(groups[g + 1..])
    ensures OfGroups(groups) == OfGroups(groups[..g]) + groups[g].requirements + OfGroups(groups[g + 1..])
    ensures OfGroups(Without(groups, g)) == OfGroups(groups[..g]) + OfGroups(groups[g + 1..])
  {
    var before, after := groups[..g], groups[g + 1..];
    assert groups[g := group] == before + ([group] + after) && groups == before + ([groups[g]] + after);
    GroupsConcat(before, [group] + after);
    GroupsConcat(before, [groups[g]] + after);
    GroupsConcat(before, after);
    assert ([group] + after)[1..] == after && ([groups[g]] + after)[1..] == after;
  }

  // Taking a stretch out of a list keeps its titles unique.
  lemma UniqueWithoutMiddle(a: seq<Requirement>, b: seq<Requirement>, c: seq<Requirement>)
    requires Unique(TitlesOf(a + b + c))
    ensures Unique(TitlesOf(a + c))
  {
    var all, left := TitlesOf(a + b + c), TitlesOf(a + c);
    forall i, j | 0 <= i < j < |left|
      ensures left[i] != left[j]
    {
      var i' := if i < |a| then i else i + |b|;
      var j' := if j < |a| then j else j + |b|;
      assert left[i] == all[i'] && left[j] == all[j'];
    }
  }

  // Leaving out a stretch of a criterion's requirements.
  lemma ShrinkingCriterion(criteria: seq<Criterion>, i: nat, c: Criterion, a: seq<Requirement>, b: seq<Requirement>, d: seq<Requirement>)
    requires i < |criteria| && TitlesUnique(criteria)
    requires OfGroups(criteria[i].groups) == a + b + d && OfGroups(c.groups) == a + d
    ensures TitlesUnique(criteria[i := c])
  {
    hide OfTree, OfGroups, Unique;
    TreeAround(criteria, i, c);
    var before, after := OfTree(criteria[..i]), OfTree(criteria[i + 1..]);
    Reassociated(before, a, b, d, after);
    UniqueWithoutMiddle(before + a, b, d + after);
  }

  lemma Reassociated<T>(before: seq<T>, a: seq<T>, b: seq<T>, d: seq<T>, after: seq<T>)
    ensures before + (a + b + d) + after == (before + a) + b + (d + after)
    ensures before + (a + d) + after == (before + a) + (d + after)
  {
  }

  /******* Invariants *******/

  lemma {:induction false} EmptyCriteriaAddNothing(added: seq<Criterion>)
    requires forall c :: c in added ==> c.groups == []
    ensures OfTree(added) == []
  {
    if added != [] {
      assert added[0] in added;
      EmptyCriteriaAddNothing(added[1..]);
    }
  }

  lemma DeletionKeepsTitles(criteria: seq<Criterion>, i: nat, g: nat, r: nat)
    requires TitlesUnique(criteria) && i < |criteria| && g < |criteria[i].groups|
    requires r < |criteria[i].groups[g].requirements|
    ensures TitlesUnique(WithRequirements(criteria, i, g, Without(criteria[i].groups[g].requirements, r)))
  {
    hide TitlesUnique, OfGroups;
    var groups := criteria[i].groups;
    var requirements := groups[g].requirements;
    var before, after := OfGroups(groups[..g]), OfGroups(groups[g + 1..]);
    var group := groups[g].(requirements := Without(requirements, r));
    GroupsAround(groups, g, group);
    SplitInside(before, requirements, r, after);
    ShrinkingCriterion(criteria, i, criteria[i].(groups := groups[g := group]),
                       before + requirements[..r], [requirements[r]], requirements[r + 1..] + after);
  }

  lemma SplitInside<T>(before: seq<T>, s: seq<T>, r: nat, after: seq<T>)
    requires r < |s|
    ensures before + s + after == (before + s[..r]) + [s[r]] + (s[r + 1..] + after)
    ensures before + Without(s, r) + after == (before + s[..r]) + (s[r + 1..] + after)
  {
  }

  lemma GroupEditKeepsTitles(criteria: seq<Criterion>, i: nat, g: nat, e: Edit)
    requires TitlesUnique(criteria) && i < |criteria| && g < |criteria[i].groups|
    requires e.PatchGroup? || e.DeleteGroup? || e.PostRequirements? || e.PatchRequirement? || e.DeleteRequirement?
    requires ApplyInGroup(criteria, i, g, e).Some?
    ensures TitlesUnique(ApplyInGroup(criteria, i, g, e).value)
  {
    hide TitlesUnique, OfGroups;
    var groups := criteria[i].groups;
    var requirements := groups[g].requirements;
    var before, after := OfGroups(groups[..g]), OfGroups(groups[g + 1..]);
    GroupsAround(groups, g, groups[g]);
    match e {
      case PatchGroup(_, _, description) =>
        var group := groups[g].(description := description);
        GroupsAround(groups, g, group);
        assert before + requirements + after == (before + requirements) + [] + after;
        ShrinkingCriterion(criteria, i, criteria[i].(groups := groups[g := group]), before + requirements, [], after);
      case DeleteGroup(_, _) =>
        ShrinkingCriterion(criteria, i, criteria[i].(groups := Without(groups, g)), before, requirements, after);
      case DeleteRequirement(_, _, requirement) =>
        DeletionKeepsTitles(criteria, i, g, FindRequirement(requirements, requirement));
      case _ =>
    }
  }

  lemma EditKeepsTitles(criteria: seq<Criterion>, e: Edit)
    requires TitlesUnique(criteria)
    ensures TitlesUnique(After(criteria, e))
  {
    if e.PostCriteria? {
      TreeConcat(criteria, e.added);
      if AreNew(criteria, e.added) {
        EmptyCriteriaAddNothing(e.added);
      }
    } else {
      var i := FindCriterion(criteria, e.criterion);
      if i >= 0 && Apply(criteria, e).Some? {
        var c := criteria[i];
        if e.PatchCriterion? {
          TreeAround(criteria, i, After(criteria, e)[i]);
        } else if e.DeleteCriterion? {
          TreeAround(criteria, i, c);
          UniqueWithoutMiddle(OfTree(criteria[..i]), OfGroups(c.groups), OfTree(criteria[i + 1..]));
        } else if e.PostGroup? {
          GroupsConcat(c.groups, [Group(e.id, e.description, [])]);
          assert OfGroups(After(criteria, e)[i].groups) == OfGroups(c.groups) + [] == OfGroups(c.groups);
          TreeAround(criteria, i, After(criteria, e)[i]);
        } else {
          GroupEditKeepsTitles(criteria, i, FindGroup(c.groups, e.group), e);
        }
      }
    }
  }

  predicate IdsUnique(criteria: seq<Criterion>) {
    forall i, j :: 0 <= i < j < |criteria| ==> criteria[i].id != criteria[j].id
  }

  // Replacing a criterion by one of the same id whose classification, if new, no other one has.
  lemma ReplacedStaysUnique(criteria: seq<Criterion>, i: nat, c: Criterion)
    requires ClassificationsUnique(criteria) && IdsUnique(criteria) && i < |criteria| && c.id == criteria[i].id
    requires c.classification == criteria[i].classification || PatchedIsUnique(criteria, c)
    ensures ClassificationsUnique(criteria[i := c]) && IdsUnique(criteria[i := c])
  {
    if c.classification != criteria[i].classification {
      assert forall k :: 0 <= k < |criteria| ==> criteria[k] in criteria;
    }
  }

  lemma ShorterStaysUnique(criteria: seq<Criterion>, i: nat)
    requires ClassificationsUnique(criteria) && IdsUnique(criteria) && i < |criteria|
    ensures ClassificationsUnique(Without(criteria, i)) && IdsUnique(Without(criteria, i))
  {
    var after := Without(criteria, i);
    forall j, k | 0 <= j < k < |after|
      ensures after[j].id != after[k].id
      ensures after[j].classification.Some? ==> after[j].classification != after[k].classification
    {
      var j', k' := if j < i then j else j + 1, if k < i then k else k + 1;
      assert after[j] == criteria[j'] && after[k] == criteria[k'];
    }
  }

  lemma LongerStaysUnique(criteria: seq<Criterion>, added: seq<Criterion>)
    requires IdsUnique(criteria) && AreNew(criteria, added)
    ensures IdsUnique(criteria + added)
  {
  }

  lemma EditKeepsClassifications(criteria: seq<Criterion>, e: Edit)
    requires ClassificationsUnique(criteria) && IdsUnique(criteria)
    ensures ClassificationsUnique(After(criteria, e)) && IdsUnique(After(criteria, e))
  {
    if Apply(criteria, e).Some? {
      if e.PostCriteria? {
        LongerStaysUnique(criteria, e.added);
      } else {
        var i := FindCriterion(criteria, e.criterion);
        hide ClassificationsUnique, IdsUnique, FindItem, TitlesUnique, PatchedIsUnique;
        if e.DeleteCriterion? {
          ShorterStaysUnique(criteria, i);
        } else {
          var c := After(criteria, e)[i];
          assert After(criteria, e) == criteria[i := c];
          ReplacedStaysUnique(criteria, i, c);
        }
      }
    }
  }

  // A criterion that is not about localization has at most one group.
  predicate OneGroupEach(criteria: seq<Criterion>) {
    forall c :: c in criteria && !c.IsLocalization() ==> |c.groups| <= 1
  }

  // The one edit that can break this: a patch takes the localization classification away from a
  // criterion with several groups. Every accepted edit keeps the rule exactly if it is not that one.
  predicate Declassifies(criteria: seq<Criterion>, e: Edit) {
    e.PatchCriterion? &&
    var i := FindCriterion(criteria, e.criterion);
    i >= 0 && |criteria[i].groups| > 1 && e.classification.Some? && e.classification != Some(LOCALIZATION)
  }

  lemma ElementOfUpdate<T>(s: seq<T>, i: nat, x: T, y: T)
    requires i < |s| && y in s[i := x]
    ensures y == x || y in s
  {
  }

  lemma EditKeepsOneGroupExactly(criteria: seq<Criterion>, e: Edit)
    requires OneGroupEach(criteria) && Apply(criteria, e).Some?
    ensures OneGroupEach(After(criteria, e)) <==> !Declassifies(criteria, e)
  {
    var after := After(criteria, e);
    if Declassifies(criteria, e) {
      var i := FindCriterion(criteria, e.criterion);
      assert after[i] in after;
    } else if !e.PostCriteria? && !e.DeleteCriterion? {
      var i := FindCriterion(criteria, e.criterion);
      assert criteria[i] in criteria;
      assert after == criteria[i := after[i]];
      forall c | c in after && !c.IsLocalization()
        ensures |c.groups| <= 1
      {
        ElementOfUpdate(criteria, i, after[i], c);
      }
    }
  }

  // In every run of edits requirement titles stay unique over the whole tree and classifications
  // stay unique among the criteria.
  lemma {:induction false} UniquenessIsKept(criteria: seq<Criterion>, edits: seq<Edit>)
    requires TitlesUnique(criteria) && ClassificationsUnique(criteria) && IdsUnique(criteria)
    ensures var end := AfterAll(criteria, edits); TitlesUnique(end) && ClassificationsUnique(end) && IdsUnique(end)
    decreases |edits|
  {
    if edits != [] {
      EditKeepsTitles(criteria, edits[0]);
      EditKeepsClassifications(criteria, edits[0]);
      UniquenessIsKept(After(criteria, edits[0]), edits[1..]);
    }
  }

  predicate NeverDeclassifies(criteria: seq<Criterion>, edits: seq<Edit>)
    decreases |edits|
  {
    edits != [] ==> !Declassifies(criteria, edits[0]) && NeverDeclassifies(After(criteria, edits[0]), edits[1..])
  }

  lemma {:induction false} OneGroupIsKept(criteria: seq<Criterion>, edits: seq<Edit>)
    requires OneGroupEach(criteria) && NeverDeclassifies(criteria, edits)
    ensures OneGroupEach(AfterAll(criteria, edits))
    decreases |edits|
  {
    if edits != [] {
      if Apply(criteria, edits[0]).Some? {
        EditKeepsOneGroupExactly(criteria, edits[0]);
      }
      OneGroupIsKept(After(criteria, edits[0]), edits[1..]);
    }
  }

  // A run that does break it, from an empty tree.
  lemma OneGroupCanBreak()
    ensures var run := [PostCriteria([Criterion("1", Some(LOCALIZATION), "", [])]), PostGroup("1", "2", ""),
                        PostGroup("1", "3", ""), PatchCriterion("1", Some(TECHNICAL_FEATURES), None)];
            !OneGroupEach(AfterAll([], run))
  {
    var c := Criterion("1", Some(LOCALIZATION), "", []);
    var first, second := Group("2", "", []), Group("3", "", []);
    var e1, e2, e3, e4 := PostCriteria([c]), PostGroup("1", "2", ""), PostGroup("1", "3", ""),
                          PatchCriterion("1", Some(TECHNICAL_FEATURES), None);
    var one, two := [c.(groups := [first])], [c.(groups := [first, second])];
    assert After([], e1) == [c];
    assert After([c], e2) == one by {
      assert c.groups + [first] == [first];
    }
    assert After(one, e3) == two by {
      assert one[0].groups + [second] == [first, second];
    }
    EditKeepsOneGroupExactly(two, e4);
    assert [e1, e2, e3, e4][1..] == [e2, e3, e4] && [e2, e3, e4][1..] == [e3, e4] && [e3, e4][1..] == [e4] && [e4][1..] == [];
    hide After, OneGroupEach;
    assert AfterAll(two, [e4]) == After(two, e4);
    assert AfterAll(one, [e3, e4]) == AfterAll(two, [e4]);
    assert AfterAll([c], [e2, e3, e4]) == AfterAll(one, [e3, e4]);
    assert AfterAll([], [e1, e2, e3, e4]) == AfterAll([c], [e2, e3, e4]);
  }

  /******* The handlers *******/

  lemma {:induction false} SetSize(s: seq<string>)
    ensures |set x | x in s| <= |s|
    ensures |set x | x in s| == |s| <==> Unique(s)
  {
    if s != [] {
      var rest := s[1..];
      SetSize(rest);
      assert (set x | x in s) == {s[0]} + set x | x in rest;
      assert Unique(s) ==> s[0] !in rest;
      if s[0] in rest {
        var k :| 0 <= k < |rest| && rest[k] == s[0];
        assert s[0] == s[k + 1];
      } else {
        assert forall j :: 1 <= j < |s| ==> s[j] == rest[j - 1] && s[j] in rest;
        assert Unique(rest) ==> Unique(s);
        assert Unique(s) ==> Unique(rest);
      }
    }
  }

  // Collects all titles of the tree and compares the list with its set.
  method ValidateTitlesUnique(criteria: seq<Criterion>) returns (ok: bool)
    ensures ok <==> TitlesUnique(criteria)
  {
    var titles := TitlesOf(OfTree(criteria));
    SetSize(titles);
    ok := |set t | t in titles| == |titles|;
  }

  function ClassificationsOf(criteria: seq<Criterion>): seq<string> {
    if criteria == [] then []
    else if criteria[0].classification.None? then ClassificationsOf(criteria[1..])
    else [criteria[0].classification.value] + ClassificationsOf(criteria[1..])
  }

  lemma {:induction false} ClassificationsMembers(criteria: seq<Criterion>, classification: string)
    ensures classification in ClassificationsOf(criteria) <==>
            exists i :: 0 <= i < |criteria| && criteria[i].classification == Some(classification)
  {
    if criteria != [] {
      ClassificationsMembers(criteria[1..], classification);
      if i :| 0 <= i < |criteria| && criteria[i].classification == Some(classification) {
        assert i > 0 ==> criteria[1..][i - 1] == criteria[i];
      }
      if i :| 0 <= i < |criteria[1..]| && criteria[1..][i].classification == Some(classification) {
        assert criteria[i + 1] == criteria[1..][i];
      }
    }
  }

  lemma {:induction false} ClassificationsListed(criteria: seq<Criterion>)
    ensures Unique(ClassificationsOf(criteria)) <==> ClassificationsUnique(criteria)
  {
    if criteria != [] {
      var first, rest := criteria[0].classification, criteria[1..];
      ClassificationsListed(rest);
      assert forall i :: 1 <= i < |criteria| ==> criteria[i] == rest[i - 1];
      assert ClassificationsUnique(criteria) <==>
             ClassificationsUnique(rest) && (first.Some? ==> forall i :: 0 <= i < |rest| ==> rest[i].classification != first);
      if first.Some? {
        ClassificationsMembers(rest, first.value);
        UniqueFrom(first.value, ClassificationsOf(rest));
      }
    }
  }

  lemma UniqueFrom(first: string, rest: seq<string>)
    ensures Unique([first] + rest) <==> first !in rest && Unique(rest)
  {
    var all := [first] + rest;
    if Unique(all) {
      forall i | 0 <= i < |rest|
        ensures rest[i] != first && forall j :: i < j < |rest| ==> rest[i] != rest[j]
      {
        assert all[0] != all[i + 1] == rest[i];
        assert forall j :: i < j < |rest| ==> rest[j] == all[j + 1];
      }
    } else {
      var i, j :| 0 <= i < j < |all| && all[i] == all[j];
      assert all[j] == rest[j - 1] && (i > 0 ==> all[i] == rest[i - 1]);
    }
  }

  // The same for the classifications of the criteria that have one.
  method ValidateClassificationsUnique(criteria: seq<Criterion>) returns (ok: bool)
    ensures ok <==> ClassificationsUnique(criteria)
  {
    var classifications := ClassificationsOf(criteria);
    SetSize(classifications);
    ClassificationsListed(criteria);
    ok := |set c | c in classifications| == |classifications|;
  }

  class CriteriaDocument {
    var criteria: seq<Criterion>

    constructor (criteria: seq<Criterion>)
      ensures this.criteria == criteria
    {
      this.criteria := criteria;
    }

    method Find(id: string) returns (i: int)
      ensures i == FindCriterion(criteria, id)
    {
      i := 0;
      while i < |criteria|
        invariant 0 <= i <= |criteria|
        invariant forall k :: 0 <= k < i ==> criteria[k].id != id
      {
        if criteria[i].id == id {
          return;
        }
        i := i + 1;
      }
      i := -1;
    }

    // The new criteria come from the model, which gives them ids.
    method PostCriteria(added: seq<Criterion>) returns (ok: bool)
      requires AreNew(criteria, added)
      modifies this
      ensures ok <==> Apply(old(criteria), Edit.PostCriteria(added)).Some?
      ensures criteria == After(old(criteria), Edit.PostCriteria(added))
    {
      var before := criteria;
      criteria := criteria + added;
      ok := ValidateClassificationsUnique(criteria);
      if !ok {
        criteria := before; // nothing is written
      }
    }

    method DeleteCriterion(id: string) returns (ok: bool)
      modifies this
      ensures ok <==> Apply(old(criteria), Edit.DeleteCriterion(id)).Some?
      ensures criteria == After(old(criteria), Edit.DeleteCriterion(id))
    {
      var i := Find(id);
      if i < 0 {
        return false;
      }
      criteria := criteria[..i] + criteria[i + 1..];
      ok := true;
    }

    method PatchCriterion(id: string, classification: Option<string>, title: Option<string>) returns (ok: bool)
      modifies this
      ensures ok <==> Apply(old(criteria), Edit.PatchCriterion(id, classification, title)).Some?
      ensures criteria == After(old(criteria), Edit.PatchCriterion(id, classification, title))
    {
      var i := Find(id);
      if i < 0 {
        return false;
      }
      var before := criteria;
      criteria := criteria[i := Patched(criteria[i], classification, title)];
      if criteria[i].classification.Some? {
        var k := 0;
        while k < |before|
          invariant k <= |before|
          invariant forall j :: 0 <= j < k ==>
            before[j].classification.Some? && (before[j].classification == criteria[i].classification ==> before[j].id == criteria[i].id)
          invariant criteria == before[i := Patched(before[i], classification, title)]
        {
          if before[k].classification.None? || (before[k].classification == criteria[i].classification && before[k].id != criteria[i].id) {
            assert before[k] in before;
            criteria := before;
            return false;
          }
          k := k + 1;
        }
      }
      ok := true;
    }

    method PostGroup(id: string, group: string, description: string) returns (ok: bool)
      modifies this
      ensures ok <==> Apply(old(criteria), Edit.PostGroup(id, group, description)).Some?
      ensures criteria == After(old(criteria), Edit.PostGroup(id, group, description))
    {
      var i := Find(id);
      if i < 0 {
        return false;
      }
      var groups := criteria[i].groups + [Group(group, description, [])];
      if !criteria[i].IsLocalization() && |groups| > 1 {
        return false;
      }
      criteria := criteria[i := criteria[i].(groups := groups)];
      ok := true;
    }

    method PatchGroup(id: string, group: string, description: string) returns (ok: bool)
      modifies this
      ensures ok <==> Apply(old(criteria), Edit.PatchGroup(id, group, description)).Some?
      ensures criteria == After(old(criteria), Edit.PatchGroup(id, group, description))
    {
      var i := Find(id);
      if i < 0 {
        return false;
      }
      var groups := criteria[i].groups;
      var g := FindGroup(groups, group);
      if g < 0 {
        return false;
      }
      groups := groups[g := groups[g].(description := description)];
      criteria := criteria[i := criteria[i].(groups := groups)];
      ok := true;
    }

    method DeleteGroup(id: string, group: string) returns (ok: bool)
      modifies this
      ensures ok <==> Apply(old(criteria), Edit.DeleteGroup(id, group)).Some?
      ensures criteria == After(old(criteria), Edit.DeleteGroup(id, group))
    {
      var i := Find(id);
      if i < 0 {
        return false;
      }
      var groups := criteria[i].groups;
      var g := FindGroup(groups, group);
      if g < 0 {
        return false;
      }
      groups := groups[..g] + groups[g + 1..];
      criteria := criteria[i := criteria[i].(groups := groups)];
      ok := true;
    }

    method PatchRequirement(id: string, group: string, requirement: string, edited: Requirement, allowed: bool)
      returns (ok: bool)
      modifies this
      ensures ok <==> Apply(old(criteria), Edit.PatchRequirement(id, group, requirement, edited, allowed)).Some?
      ensures criteria == After(old(criteria), Edit.PatchRequirement(id, group, requirement, edited, allowed))
    {
      var i := Find(id);
      if i < 0 {
        return false;
      }
      var groups := criteria[i].groups;
      var g := FindGroup(groups, group);
      if g < 0 {
        return false;
      }
      var requirements := groups[g].requirements;
      var r := FindRequirement(requirements, requirement);
      if r < 0 || !allowed {
        return false;
      }
      groups := groups[g := groups[g].(requirements := requirements[r := edited])];
      var after := criteria[i := criteria[i].(groups := groups)];
      ok := ValidateTitlesUnique(after);
      if ok {
        criteria := after;
      }
    }

    method PostRequirements(id: string, group: string, added: seq<Requirement>, allowed: bool) returns (ok: bool)
      modifies this
      ensures ok <==> Apply(old(criteria), Edit.PostRequirements(id, group, added, allowed)).Some?
      ensures criteria == After(old(criteria), Edit.PostRequirements(id, group, added, allowed))
    {
      var i := Find(id);
      if i < 0 {
        return false;
      }
      var g := FindGroup(criteria[i].groups, group);
      if g < 0 || !allowed {
        return false;
      }
      var extended := criteria[i].groups[g].requirements + added;
      var edited := criteria[i := criteria[i].(groups := criteria[i].groups[g := criteria[i].groups[g].(requirements := extended)])];
      ok := ValidateTitlesUnique(edited);
      if ok {
        criteria := edited;
      }
    }

    method DeleteRequirement(id: string, group: string, requirement: string) returns (ok: bool)
      modifies this
      ensures ok <==> Apply(old(criteria), Edit.DeleteRequirement(id, group, requirement)).Some?
      ensures criteria == After(old(criteria), Edit.DeleteRequirement(id, group, requirement))
    {
      var i := Find(id);
      if i < 0 {
        return false;
      }
      var g := FindGroup(criteria[i].groups, group);
      if g < 0 {
        return false;
      }
      var requirements := criteria[i].groups[g].requirements;
      var r := FindRequirement(requirements, requirement);
      if r < 0 {
        return false;
      }
      requirements := requirements[..r] + requirements[r + 1..];
      criteria := criteria[i := criteria[i].(groups := criteria[i].groups[g := criteria[i].groups[g].(requirements := requirements)])];
      ok := true;
    }
  }
}
