// Editing a profile whose requirements are checked against its category: however it is edited, the
// profile goes on narrowing the category, so answers that fit it fit the category.
module ProfileEditing {
  import opened Common
  import opened Requirements
  import opened Criteria
  import opened CriteriaTree
  import opened Refinement

  // What the profile handlers demand of new requirements and of a patched one: the model accepts
  // them, and so does the check against the category.
  predicate AllowedInProfile(category: seq<Requirement>, requirements: seq<Requirement>) {
    (forall r :: r in requirements ==> ValidProfile(r)) && CheckAll(requirements, category) == Accepted
  }

  ghost predicate IsProfileEdit(category: seq<Requirement>, e: Edit) {
    && (e.PostRequirements? ==> (e.allowed <==> AllowedInProfile(category, e.requirements)))
    && (e.PatchRequirement? ==> (e.allowed <==> AllowedInProfile(category, [e.edited])))
  }

  // Every requirement of the profile is valid and narrows the one of the category.
  ghost predicate Narrows(criteria: seq<Criterion>, category: seq<Requirement>) {
    AllowedInProfile(category, OfTree(criteria))
  }

  lemma {:induction false} AllowedOneByOne(category: seq<Requirement>, requirements: seq<Requirement>)
    ensures AllowedInProfile(category, requirements) <==>
            forall r :: r in requirements ==> AllowedInProfile(category, [r])
  {
    if requirements != [] {
      hide AllowedInProfile;
      var first, rest := requirements[0], requirements[1..];
      AllowedOneByOne(category, rest);
      AllowedFirst(category, first, rest);
      assert requirements == [first] + rest;
      assert AllowedInProfile(category, requirements) <==>
             AllowedInProfile(category, [first]) && forall r :: r in rest ==> AllowedInProfile(category, [r]);
      assert forall r :: r in requirements <==> r == first || r in rest;
    }
  }

  lemma AllowedFirst(category: seq<Requirement>, r: Requirement, rest: seq<Requirement>)
    ensures AllowedInProfile(category, [r] + rest) <==>
            AllowedInProfile(category, [r]) && AllowedInProfile(category, rest)
  {
    hide CheckAgainst, ValidProfile;
    var list := [r] + rest;
    assert list[0] == r && list[1..] == rest && [r][1..] == [];
    assert forall q :: q in list <==> q == r || q in rest;
    assert r in [r] && forall q :: q in [r] <==> q == r;
    assert CheckAll([r], category) == Accepted <==>
           Titled(category, r.title).Some? && CheckAgainst(r, Titled(category, r.title).value) == Accepted;
  }

  lemma AllowedSingle(category: seq<Requirement>, r: Requirement)
    ensures AllowedInProfile(category, [r]) <==>
            && ValidProfile(r) && Titled(category, r.title).Some?
            && CheckAgainst(r, Titled(category, r.title).value) == Accepted
  {
    hide CheckAgainst, ValidProfile;
    assert [r][1..] == [] && [r][0] == r && forall q :: q in [r] <==> q == r;
    assert CheckAll([r], category) == Accepted <==>
           Titled(category, r.title).Some? && CheckAgainst(r, Titled(category, r.title).value) == Accepted;
    if ValidProfile(r) {
      assert forall q :: q in [r] ==> ValidProfile(q);
    }
  }

  ghost predicate BroughtIn(e: Edit, r: Requirement) {
    || (e.PostRequirements? && e.allowed && r in e.requirements)
    || (e.PatchRequirement? && e.allowed && r == e.edited)
  }

  lemma GroupEditMembers(criteria: seq<Criterion>, i: nat, g: nat, e: Edit, r: Requirement)
    requires i < |criteria| && g < |criteria[i].groups|
    requires e.PatchGroup? || e.DeleteGroup? || e.PostRequirements? || e.PatchRequirement? || e.DeleteRequirement?
    requires ApplyInGroup(criteria, i, g, e).Some? && r in OfTree(ApplyInGroup(criteria, i, g, e).value)
    ensures r in OfTree(criteria) || BroughtIn(e, r)
  {
    hide OfTree, OfGroups, TitlesUnique;
    var after, groups := ApplyInGroup(criteria, i, g, e).value, criteria[i].groups;
    assert after == criteria[i := after[i]];
    TreeAround(criteria, i, after[i]);
    if e.DeleteGroup? {
      GroupsAround(groups, g, groups[g]);
    } else {
      assert after[i].groups == groups[g := after[i].groups[g]];
      GroupsAround(groups, g, after[i].groups[g]);
    }
  }

  // An edit brings in no requirement but the ones it was sent.
  lemma EditMembers(criteria: seq<Criterion>, e: Edit, r: Requirement)
    requires r in OfTree(After(criteria, e))
    ensures r in OfTree(criteria) || BroughtIn(e, r)
  {
    hide OfTree, OfGroups, ApplyInGroup;
    if e.PostCriteria? {
      TreeConcat(criteria, e.added);
      if AreNew(criteria, e.added) {
        EmptyCriteriaAddNothing(e.added);
      }
    } else {
      var i := FindCriterion(criteria, e.criterion);
      if i >= 0 && Apply(criteria, e).Some? {
        var c, after := criteria[i], After(criteria, e);
        if e.PatchCriterion? || e.DeleteCriterion? {
          TreeAround(criteria, i, Patched(c, if e.PatchCriterion? then e.classification else None, if e.PatchCriterion? then e.title else None));
        } else if e.PostGroup? {
          TreeAround(criteria, i, after[i]);
          NewGroupIsEmpty(c.groups, e.id, e.description);
        } else {
          GroupEditMembers(criteria, i, FindGroup(c.groups, e.group), e, r);
        }
      }
    }
  }

  lemma NewGroupIsEmpty(groups: seq<Group>, id: string, description: string)
    ensures OfGroups(groups + [Group(id, description, [])]) == OfGroups(groups)
  {
    GroupsConcat(groups, [Group(id, description, [])]);
  }

  lemma EditKeepsNarrowing(criteria: seq<Criterion>, category: seq<Requirement>, e: Edit)
    requires Narrows(criteria, category) && IsProfileEdit(category, e)
    ensures Narrows(After(criteria, e), category)
  {
    hide AllowedInProfile, After, OfTree;
    AllowedOneByOne(category, OfTree(criteria));
    forall r | r in OfTree(After(criteria, e))
      ensures AllowedInProfile(category, [r])
    {
      EditMembers(criteria, e, r);
      if e.PostRequirements? {
        AllowedOneByOne(category, e.requirements);
      }
    }
    AllowedOneByOne(category, OfTree(After(criteria, e)));
  }

  lemma {:induction false} EditsKeepNarrowing(criteria: seq<Criterion>, category: seq<Requirement>, edits: seq<Edit>)
    requires Narrows(criteria, category) && forall e :: e in edits ==> IsProfileEdit(category, e)
    ensures Narrows(AfterAll(criteria, edits), category)
    decreases |edits|
  {
    hide IsProfileEdit, Narrows;
    if edits != [] {
      EditKeepsNarrowing(criteria, category, edits[0]);
      EditsKeepNarrowing(After(criteria, edits[0]), category, edits[1..]);
    }
  }

  /******* The handlers *******/

  // What a patch says of a field: nothing, null, or a value.
  datatype Sent<+T> = NotSent | SentNull | SentValue(value: T)

  datatype Changes = Changes(title: Sent<string>, dataType: Sent<DataType>, expectedValue: Sent<Value>,
                             expectedValues: Sent<seq<Value>>, expectedMinItems: Sent<nat>, expectedMaxItems: Sent<nat>,
                             minValue: Sent<Value>, maxValue: Sent<Value>, pattern: Sent<string>, unit: Sent<string>,
                             dataSchema: Sent<string>, isArchived: Sent<bool>)

  function Merge<T>(field: Option<T>, sent: Sent<T>): Option<T> {
    match sent
    case NotSent => field
    case SentNull => None
    case SentValue(value) => Some(value)
  }

  // The values sent are taken over, then the fields sent as null are deleted. None: a field that the
  // model requires has gone.
  function Merged(r: Requirement, c: Changes): Option<Requirement> {
    var title, dataType := Merge(Some(r.title), c.title), Merge(Some(r.dataType), c.dataType);
    if title.None? || dataType.None? then None else
    Some(r.(title := title.value, dataType := dataType.value,
            expectedValue := Merge(r.expectedValue, c.expectedValue), expectedValues := Merge(r.expectedValues, c.expectedValues),
            expectedMinItems := Merge(r.expectedMinItems, c.expectedMinItems),
            expectedMaxItems := Merge(r.expectedMaxItems, c.expectedMaxItems),
            minValue := Merge(r.minValue, c.minValue), maxValue := Merge(r.maxValue, c.maxValue),
            pattern := Merge(r.pattern, c.pattern), unit := Merge(r.unit, c.unit), dataSchema := Merge(r.dataSchema, c.dataSchema),
            isArchived := Merge(Some(r.isArchived), c.isArchived).GetOr(false)))
  }

  // The requirement a request names, if it exists.
  function Target(criteria: seq<Criterion>, criterion: string, group: string, requirement: string): Option<Requirement> {
    var i := FindCriterion(criteria, criterion);
    if i < 0 then None else
    var g := FindGroup(criteria[i].groups, group);
    if g < 0 then None else
    var r := FindRequirement(criteria[i].groups[g].requirements, requirement);
    if r < 0 then None else Some(criteria[i].groups[g].requirements[r])
  }

  method AreValidForProfile(requirements: seq<Requirement>, category: seq<Requirement>) returns (ok: bool)
    ensures ok <==> AllowedInProfile(category, requirements)
  {
    for i := 0 to |requirements|
      invariant forall k :: 0 <= k < i ==> ValidProfile(requirements[k])
    {
      if !ValidProfile(requirements[i]) {
        assert requirements[i] in requirements;
        return false;
      }
    }
    var verdict := ValidateProfileRequirements(requirements, category);
    ok := verdict == Accepted;
  }

  method PostRequirementsToProfile(document: CriteriaDocument, criterion: string, group: string, added: seq<Requirement>,
                                   category: seq<Requirement>) returns (ok: bool)
    modifies document
    ensures var e := PostRequirements(criterion, group, added, AllowedInProfile(category, added));
            && IsProfileEdit(category, e)
            && (ok <==> Apply(old(document.criteria), e).Some?) && document.criteria == CriteriaTree.After(old(document.criteria), e)
  {
    var allowed := AreValidForProfile(added, category);
    ok := document.PostRequirements(criterion, group, added, allowed);
  }

  method PatchRequirementOfProfile(document: CriteriaDocument, criterion: string, group: string, requirement: string,
                                   changes: Changes, category: seq<Requirement>) returns (ok: bool)
    modifies document
    ensures var before, target := old(document.criteria), Target(old(document.criteria), criterion, group, requirement);
            if target.None? || Merged(target.value, changes).None? then !ok && document.criteria == before
            else
              var edited := Merged(target.value, changes).value;
              var e := PatchRequirement(criterion, group, requirement, edited, AllowedInProfile(category, [edited]));
              && IsProfileEdit(category, e)
              && (ok <==> Apply(before, e).Some?) && document.criteria == CriteriaTree.After(before, e)
  {
    var target := Target(document.criteria, criterion, group, requirement);
    if target.None? {
      return false;
    }
    var edited := Merged(target.value, changes);
    if edited.None? {
      return false;
    }
    var allowed := AreValidForProfile([edited.value], category);
    ok := document.PatchRequirement(criterion, group, requirement, edited.value, allowed);
  }
}
