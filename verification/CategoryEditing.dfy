// Editing a category that profiles narrow: its requirements can be patched without looking at the
// profiles, and this is the only edit that can take a profile out of the category.
module CategoryEditing {
  import opened Common
  import opened Requirements
  import opened Criteria
  import opened CriteriaTree
  import opened Refinement
  import opened ProfileEditing

  // What the category handlers demand of new requirements and of a patched one: only that the model
  // accepts them. They delete nothing.
  ghost predicate IsCategoryEdit(e: Edit) {
    && !e.DeleteCriterion? && !e.DeleteGroup? && !e.DeleteRequirement?
    && (e.PostRequirements? ==> (e.allowed <==> forall r :: r in e.requirements ==> ValidCategory(r)))
    && (e.PatchRequirement? ==> (e.allowed <==> ValidCategory(e.edited)))
  }

  ghost predicate AllValid(category: seq<Criterion>) {
    forall r :: r in OfTree(category) ==> ValidCategory(r)
  }

  lemma EditKeepsValid(category: seq<Criterion>, e: Edit)
    requires AllValid(category) && IsCategoryEdit(e)
    ensures AllValid(CriteriaTree.After(category, e))
  {
    hide OfTree, ValidCategory, CriteriaTree.After;
    forall r | r in OfTree(CriteriaTree.After(category, e))
      ensures ValidCategory(r)
    {
      EditMembers(category, e, r);
    }
  }

  /******* Which requirement bears a title *******/

  lemma {:induction false} TitledConcat(a: seq<Requirement>, b: seq<Requirement>, title: string)
    ensures Titled(a + b, title) == if Titled(b, title).Some? then Titled(b, title) else Titled(a, title)
  {
    if a == [] {
      assert a + b == b;
    } else {
      assert (a + b)[1..] == a[1..] + b;
      TitledConcat(a[1..], b, title);
    }
  }

  lemma TitledIgnores(a: seq<Requirement>, middle: seq<Requirement>, b: seq<Requirement>, title: string)
    requires Titled(middle, title).None?
    ensures Titled(a + middle + b, title) == Titled(a + b, title)
  {
    hide Titled;
    TitledConcat(a + middle, b, title);
    TitledConcat(a, middle, title);
    TitledConcat(a, b, title);
  }

  // Of titles that are all different, those of a stretch are not found elsewhere.
  lemma OthersAreUntitled(a: seq<Requirement>, middle: seq<Requirement>, b: seq<Requirement>, title: string)
    requires Unique(TitlesOf(a + middle + b)) && Titled(a + b, title).Some?
    ensures Titled(middle, title).None?
  {
    var q := Titled(a + b, title).value;
    var i :| 0 <= i < |a + b| && (a + b)[i] == q;
    var all := a + middle + b;
    var i' := if i < |a| then i else i + |middle|;
    assert all[i'] == q;
    forall p | p in middle
      ensures p.title != title
    {
      var j :| 0 <= j < |middle| && middle[j] == p;
      assert all[|a| + j] == p;
      assert TitlesOf(all)[i'] != TitlesOf(all)[|a| + j];
    }
  }

  // Adding requirements to a group puts them in the middle of the tree.
  lemma TreeWithAdded(category: seq<Criterion>, i: nat, g: nat, added: seq<Requirement>)
    returns (a: seq<Requirement>, b: seq<Requirement>)
    requires i < |category| && g < |category[i].groups|
    ensures OfTree(category) == a + b
    ensures OfTree(WithRequirements(category, i, g, category[i].groups[g].requirements + added)) == a + added + b
  {
    hide OfTree, OfGroups;
    var groups := category[i].groups;
    var requirements := groups[g].requirements;
    var group := groups[g].(requirements := requirements + added);
    TreeAround(category, i, category[i].(groups := groups[g := group]));
    GroupsAround(groups, g, group);
    var before, after := OfGroups(groups[..g]), OfGroups(groups[g + 1..]);
    a, b := OfTree(category[..i]) + before + requirements, after + OfTree(category[i + 1..]);
    Regrouped(OfTree(category[..i]), before, requirements, added, after, OfTree(category[i + 1..]));
  }

  lemma Regrouped<T>(a: seq<T>, b: seq<T>, c: seq<T>, added: seq<T>, d: seq<T>, e: seq<T>)
    ensures a + (b + c + d) + e == (a + b + c) + (d + e)
    ensures a + (b + (c + added) + d) + e == (a + b + c) + added + (d + e)
  {
  }

  // No edit but a patch of a requirement changes what a title of the category stands for.
  lemma OnlyPatchesRetitle(category: seq<Criterion>, e: Edit, title: string)
    requires TitlesUnique(category) && IsCategoryEdit(e) && !e.PatchRequirement?
    requires Titled(OfTree(category), title).Some?
    ensures Titled(OfTree(CriteriaTree.After(category, e)), title) == Titled(OfTree(category), title)
  {
    hide OfTree, OfGroups, Titled, Unique, FindItem;
    var after := CriteriaTree.After(category, e);
    if e.PostCriteria? {
      TreeConcat(category, e.added);
      if AreNew(category, e.added) {
        EmptyCriteriaAddNothing(e.added);
        assert OfTree(category) + [] == OfTree(category);
      }
    } else if Apply(category, e).Some? {
      var i := FindCriterion(category, e.criterion);
      FoundCriterion(category, e.criterion);
      TreeAround(category, i, after[i]);
      if e.PostGroup? {
        NewGroupIsEmpty(category[i].groups, e.id, e.description);
      } else if e.PatchGroup? {
        var g := FindGroup(category[i].groups, e.group);
        GroupsAround(category[i].groups, g, after[i].groups[g]);
      } else if e.PostRequirements? {
        var g := FindGroup(category[i].groups, e.group);
        var a, b := TreeWithAdded(category, i, g, e.requirements);
        OthersAreUntitled(a, e.requirements, b, title);
        TitledIgnores(a, e.requirements, b, title);
      }
    }
  }

  lemma FoundCriterion(category: seq<Criterion>, id: string)
    ensures -1 <= FindCriterion(category, id) < |category|
  {
  }

  /******* What an edit of the category means for a profile *******/

  // The requirements of the profile whose counterpart has changed pass the check against the new one.
  ghost predicate Rechecked(profile: seq<Criterion>, category: seq<Requirement>, edited: seq<Requirement>) {
    forall r :: r in OfTree(profile) && Titled(edited, r.title) != Titled(category, r.title) ==> AllowedInProfile(edited, [r])
  }

  lemma SameCounterpartSameVerdict(category: seq<Requirement>, edited: seq<Requirement>, r: Requirement)
    requires Titled(edited, r.title) == Titled(category, r.title)
    ensures AllowedInProfile(edited, [r]) <==> AllowedInProfile(category, [r])
  {
    hide ValidProfile, CheckAgainst, AllowedInProfile;
    AllowedSingle(category, r);
    AllowedSingle(edited, r);
  }

  // Exactly which changes of the category leave a profile within it.
  lemma ChangeKeepsNarrowingExactly(profile: seq<Criterion>, category: seq<Requirement>, edited: seq<Requirement>)
    requires Narrows(profile, category)
    ensures Narrows(profile, edited) <==> Rechecked(profile, category, edited)
  {
    hide AllowedInProfile, OfTree;
    AllowedOneByOne(category, OfTree(profile));
    AllowedOneByOne(edited, OfTree(profile));
    forall r | r in OfTree(profile) && Titled(edited, r.title) == Titled(category, r.title)
      ensures AllowedInProfile(edited, [r])
    {
      SameCounterpartSameVerdict(category, edited, r);
    }
  }

  // Archiving a requirement takes every profile that has it out of the category.
  lemma ArchivingBreaks(profile: seq<Criterion>, edited: seq<Requirement>, r: Requirement)
    requires r in OfTree(profile) && Titled(edited, r.title).Some? && Titled(edited, r.title).value.isArchived
    ensures !Narrows(profile, edited)
  {
    hide OfTree, ValidProfile, AllowedInProfile;
    AllowedOneByOne(edited, OfTree(profile));
    AllowedSingle(edited, r);
  }

  // Every other edit needs no check at all.
  lemma OnlyPatchesNeedChecking(profile: seq<Criterion>, category: seq<Criterion>, e: Edit)
    requires Narrows(profile, OfTree(category)) && TitlesUnique(category) && IsCategoryEdit(e) && !e.PatchRequirement?
    ensures Narrows(profile, OfTree(CriteriaTree.After(category, e)))
  {
    hide OfTree, TitlesUnique, CriteriaTree.After, AllowedInProfile;
    var edited := OfTree(CriteriaTree.After(category, e));
    AllowedOneByOne(OfTree(category), OfTree(profile));
    forall r | r in OfTree(profile)
      ensures Titled(edited, r.title) == Titled(OfTree(category), r.title)
    {
      AllowedHasCounterpart(OfTree(category), r);
      OnlyPatchesRetitle(category, e, r.title);
    }
    ChangeKeepsNarrowingExactly(profile, OfTree(category), edited);
  }

  lemma AllowedHasCounterpart(category: seq<Requirement>, r: Requirement)
    requires AllowedInProfile(category, [r])
    ensures Titled(category, r.title).Some?
  {
    AllowedSingle(category, r);
  }

  /******* Profile and category edited side by side *******/

  datatype Pair = Pair(profile: seq<Criterion>, category: seq<Criterion>)

  datatype Event = EditProfile(e: Edit) | EditCategory(e: Edit)

  function AfterEvent(p: Pair, event: Event): Pair {
    match event
    case EditProfile(e) => p.(profile := CriteriaTree.After(p.profile, e))
    case EditCategory(e) => p.(category := CriteriaTree.After(p.category, e))
  }

  function AfterEvents(p: Pair, events: seq<Event>): Pair
    decreases |events|
  {
    if events == [] then p else AfterEvents(AfterEvent(p, events[0]), events[1..])
  }

  // The profile is checked against the category as it stands; a patched requirement of the category
  // is not checked against the profile, so that has to be asked for.
  ghost predicate Proper(p: Pair, event: Event) {
    match event
    case EditProfile(e) => IsProfileEdit(OfTree(p.category), e)
    case EditCategory(e) =>
      && IsCategoryEdit(e)
      && (e.PatchRequirement? ==> Rechecked(p.profile, OfTree(p.category), OfTree(CriteriaTree.After(p.category, e))))
  }

  ghost predicate AllProper(p: Pair, events: seq<Event>)
    decreases |events|
  {
    events != [] ==> Proper(p, events[0]) && AllProper(AfterEvent(p, events[0]), events[1..])
  }

  ghost predicate PairInv(p: Pair) {
    Narrows(p.profile, OfTree(p.category)) && TitlesUnique(p.category) && AllValid(p.category)
  }

  lemma EventKeepsInv(p: Pair, event: Event)
    requires PairInv(p) && Proper(p, event)
    ensures PairInv(AfterEvent(p, event))
  {
    hide Narrows, TitlesUnique, AllValid, CriteriaTree.After, IsProfileEdit, IsCategoryEdit, Rechecked, OfTree;
    match event {
      case EditProfile(e) =>
        EditKeepsNarrowing(p.profile, OfTree(p.category), e);
      case EditCategory(e) =>
        EditKeepsTitles(p.category, e);
        EditKeepsValid(p.category, e);
        if e.PatchRequirement? {
          ChangeKeepsNarrowingExactly(p.profile, OfTree(p.category), OfTree(CriteriaTree.After(p.category, e)));
        } else {
          OnlyPatchesNeedChecking(p.profile, p.category, e);
        }
    }
  }

  lemma {:induction false} EventsKeepInv(p: Pair, events: seq<Event>)
    requires PairInv(p) && AllProper(p, events)
    ensures PairInv(AfterEvents(p, events))
    decreases |events|
  {
    hide PairInv, Proper, AfterEvent;
    if events != [] {
      EventKeepsInv(p, events[0]);
      EventsKeepInv(AfterEvent(p, events[0]), events[1..]);
    }
  }

  const NEW_PAIR := Pair([], [])

  lemma NewPairIsProper()
    ensures PairInv(NEW_PAIR)
  {
    assert OfTree([]) == [];
  }

  // End to end: a profile and its category, both edited in any way from nothing, each new or patched
  // requirement of the profile being checked on its own and the profile rechecked where a requirement
  // of the category is patched. An answer that fits a requirement of the profile names an unarchived
  // one of the category and, unless that has another pattern, fits it too.
  lemma EditedProfileNarrows(m: Matcher, events: seq<Event>, responses: seq<Response>, response: Response)
    requires AllProper(NEW_PAIR, events)
    requires var p := AfterEvents(NEW_PAIR, events);
             && Fits(m, OfTree(p.profile), responses) && response in responses
             && Titled(OfTree(p.profile), response.requirement).Some?
             && (Titled(OfTree(p.category), response.requirement).Some? ==>
                   PatternKept(Titled(OfTree(p.profile), response.requirement).value,
                               Titled(OfTree(p.category), response.requirement).value))
    ensures var c := Titled(OfTree(AfterEvents(NEW_PAIR, events).category), response.requirement);
            c.Some? && !c.value.isArchived && CheckValues(m, c.value, Given(response)) == Accepted
  {
    hide AllProper, AfterEvents, Fits, OfTree, ValidCategory, ValidProfile, CheckValues, CheckAgainst, TitlesUnique;
    var p := AfterEvents(NEW_PAIR, events);
    NewPairIsProper();
    EventsKeepInv(NEW_PAIR, events);
    ProfileTreeRefinesCategory(m, OfTree(p.profile), OfTree(p.category), responses, response);
  }

  /******* A run that ends outside the category *******/

  // What the handlers see to, which is all but the recheck.
  ghost predicate Handled(p: Pair, event: Event) {
    match event
    case EditProfile(e) => IsProfileEdit(OfTree(p.category), e)
    case EditCategory(e) => IsCategoryEdit(e)
  }

  ghost predicate AllHandled(p: Pair, events: seq<Event>)
    decreases |events|
  {
    events != [] ==> Handled(p, events[0]) && AllHandled(AfterEvent(p, events[0]), events[1..])
  }

  const COLOUR := Requirement("3", "colour", String, None, Some([VStr("red")]), Some(1), None, None, None, None, None, None, false)
  const ARCHIVED := COLOUR.(isArchived := true)

  const BARE := Criterion("1", Some(TECHNICAL_FEATURES), "", [])

  function TreeOf(requirements: seq<Requirement>): seq<Criterion> {
    [BARE.(groups := [Group("2", "", requirements)])]
  }

  // A criterion, a group and then a requirement are posted, and the requirement may be archived.
  const POST_CRITERION := PostCriteria([BARE])
  const POST_GROUP := PostGroup("1", "2", "")
  const POST_COLOUR := PostRequirements("1", "2", [COLOUR], true)
  const ARCHIVE := PatchRequirement("1", "2", "3", ARCHIVED, true)

  lemma TreesBuilt()
    ensures CriteriaTree.After([], POST_CRITERION) == [BARE]
    ensures CriteriaTree.After([BARE], POST_GROUP) == TreeOf([])
    ensures CriteriaTree.After(TreeOf([]), POST_COLOUR) == TreeOf([COLOUR])
    ensures CriteriaTree.After(TreeOf([COLOUR]), ARCHIVE) == TreeOf([ARCHIVED])
  {
    CriterionPosted();
    GroupPosted();
    hide CriteriaTree.After;
    ColourPosted();
    ColourArchived();
  }

  lemma CriterionPosted()
    ensures CriteriaTree.After([], POST_CRITERION) == [BARE]
  {
    assert [] + [BARE] == [BARE];
    assert AreNew([], [BARE]) && ClassificationsUnique([BARE]);
    hide AreNew, ClassificationsUnique;
  }

  lemma GroupPosted()
    ensures CriteriaTree.After([BARE], POST_GROUP) == TreeOf([])
  {
    assert FindCriterion([BARE], "1") == 0;
    hide FindItem, ClassificationsUnique, AreNew;
    var groups := [Group("2", "", [])];
    assert BARE.groups + groups == groups;
    assert [BARE][0 := BARE.(groups := groups)] == TreeOf([]);
  }

  lemma FoundInTree(requirements: seq<Requirement>, other: seq<Requirement>)
    ensures var tree := TreeOf(requirements);
            && FindCriterion(tree, "1") == 0 && FindGroup(tree[0].groups, "2") == 0
            && WithRequirements(tree, 0, 0, other) == TreeOf(other)
  {
    var tree, group := TreeOf(requirements), Group("2", "", requirements);
    assert tree == [BARE.(groups := [group])] && tree[0].id == "1" && tree[0].groups == [group];
    assert [group][0 := group.(requirements := other)] == [Group("2", "", other)];
  }

  lemma OneIsUnique(r: Requirement)
    ensures TitlesUnique(TreeOf([r]))
  {
    ListOfTree([r]);
  }

  lemma ColourPosted()
    ensures CriteriaTree.After(TreeOf([]), POST_COLOUR) == TreeOf([COLOUR])
  {
    FoundInTree([], [COLOUR]);
    OneIsUnique(COLOUR);
    assert [] + [COLOUR] == [COLOUR];
    hide TitlesUnique, FindItem, WithRequirements;
  }

  lemma ColourArchived()
    ensures CriteriaTree.After(TreeOf([COLOUR]), ARCHIVE) == TreeOf([ARCHIVED])
  {
    FoundInTree([COLOUR], [ARCHIVED]);
    OneIsUnique(ARCHIVED);
    assert FindRequirement([COLOUR], "3") == 0 && [COLOUR][0 := ARCHIVED] == [ARCHIVED];
    hide TitlesUnique, FindItem, WithRequirements;
  }

  lemma ListOfTree(requirements: seq<Requirement>)
    ensures OfTree(TreeOf(requirements)) == requirements
  {
    var tree := TreeOf(requirements);
    assert tree[1..] == [] && tree[0].groups[1..] == [];
    assert OfGroups(tree[0].groups) == requirements + [];
  }

  lemma ColourIsAllowed()
    ensures AllowedInProfile([COLOUR], [COLOUR]) && ValidCategory(COLOUR) && ValidCategory(ARCHIVED)
  {
    AllowedSingle([COLOUR], COLOUR);
    assert Titled([COLOUR], "colour") == Some(COLOUR) by {
      assert [COLOUR][1..] == [];
    }
    CopyIsAccepted(COLOUR);
  }

  lemma OneMoreEvent(p: Pair, event: Event, rest: seq<Event>)
    ensures AfterEvents(p, [event] + rest) == AfterEvents(AfterEvent(p, event), rest)
    ensures AllHandled(p, [event] + rest) <==> Handled(p, event) && AllHandled(AfterEvent(p, event), rest)
  {
    assert ([event] + rest)[1..] == rest;
  }

  // Both are built, all checks being made, and then the category archives its requirement.
  function ArchivingRun(): seq<Event> {
    [EditCategory(POST_CRITERION)] + ([EditCategory(POST_GROUP)] + ([EditCategory(POST_COLOUR)] +
    ([EditProfile(POST_CRITERION)] + ([EditProfile(POST_GROUP)] + ([EditProfile(POST_COLOUR)] + ([EditCategory(ARCHIVE)] + []))))))
  }

  lemma ArchivingHappens()
    ensures AllHandled(NEW_PAIR, ArchivingRun())
    ensures var end := AfterEvents(NEW_PAIR, ArchivingRun()); !Narrows(end.profile, OfTree(end.category))
  {
    var full := TreeOf([COLOUR]);
    TreesBuilt();
    ColourIsAllowed();
    ListOfTree([COLOUR]);
    ListOfTree([ARCHIVED]);
    RunIsHandled();
    assert Titled([ARCHIVED], "colour") == Some(ARCHIVED) by {
      assert [ARCHIVED][1..] == [];
    }
    hide CriteriaTree.After, AllowedInProfile, OfTree;
    ArchivingBreaks(full, [ARCHIVED], COLOUR);
  }

  lemma RunIsHandled()
    ensures AllHandled(NEW_PAIR, ArchivingRun())
    ensures AfterEvents(NEW_PAIR, ArchivingRun()) == Pair(TreeOf([COLOUR]), TreeOf([ARCHIVED]))
  {
    var full := TreeOf([COLOUR]);
    TreesBuilt();
    ColourIsAllowed();
    ListOfTree([COLOUR]);
    hide CriteriaTree.After, AllowedInProfile, OfTree, ValidCategory, TreeOf, AllHandled, AfterEvents;
    var seven := [EditCategory(ARCHIVE)] + [];
    var six := [EditProfile(POST_COLOUR)] + seven;
    var five := [EditProfile(POST_GROUP)] + six;
    var four := [EditProfile(POST_CRITERION)] + five;
    var three := [EditCategory(POST_COLOUR)] + four;
    var two := [EditCategory(POST_GROUP)] + three;
    OneMoreEvent(NEW_PAIR, EditCategory(POST_CRITERION), two);
    OneMoreEvent(Pair([], [BARE]), EditCategory(POST_GROUP), three);
    OneMoreEvent(Pair([], TreeOf([])), EditCategory(POST_COLOUR), four);
    OneMoreEvent(Pair([], full), EditProfile(POST_CRITERION), five);
    OneMoreEvent(Pair([BARE], full), EditProfile(POST_GROUP), six);
    OneMoreEvent(Pair(TreeOf([]), full), EditProfile(POST_COLOUR), seven);
    OneMoreEvent(Pair(full, full), EditCategory(ARCHIVE), []);
    NoMoreEvents(Pair(full, TreeOf([ARCHIVED])));
  }

  lemma NoMoreEvents(p: Pair)
    ensures AfterEvents(p, []) == p && AllHandled(p, [])
  {
  }

  /******* The handlers *******/

  method AreValidForCategory(requirements: seq<Requirement>) returns (ok: bool)
    ensures ok <==> forall r :: r in requirements ==> ValidCategory(r)
  {
    for i := 0 to |requirements|
      invariant forall k :: 0 <= k < i ==> ValidCategory(requirements[k])
    {
      if !ValidCategory(requirements[i]) {
        assert requirements[i] in requirements;
        return false;
      }
    }
    ok := true;
  }

  method PostRequirementsToCategory(document: CriteriaDocument, criterion: string, group: string, added: seq<Requirement>)
    returns (ok: bool)
    modifies document
    ensures var e := PostRequirements(criterion, group, added, forall r :: r in added ==> ValidCategory(r));
            && IsCategoryEdit(e)
            && (ok <==> Apply(old(document.criteria), e).Some?) && document.criteria == CriteriaTree.After(old(document.criteria), e)
  {
    var allowed := AreValidForCategory(added);
    ok := document.PostRequirements(criterion, group, added, allowed);
  }

  method PatchRequirementOfCategory(document: CriteriaDocument, criterion: string, group: string, requirement: string,
                                    changes: Changes) returns (ok: bool)
    modifies document
    ensures var before, target := old(document.criteria), Target(old(document.criteria), criterion, group, requirement);
            if target.None? || Merged(target.value, changes).None? then !ok && document.criteria == before
            else
              var edited := Merged(target.value, changes).value;
              var e := PatchRequirement(criterion, group, requirement, edited, ValidCategory(edited));
              && IsCategoryEdit(e)
              && (ok <==> Apply(before, e).Some?) && document.criteria == CriteriaTree.After(before, e)
  {
    var target := Target(document.criteria, criterion, group, requirement);
    if target.None? {
      return false;
    }
    var edited := Merged(target.value, changes);
    if edited.None? {
      return false;
    }
    ok := document.PatchRequirement(criterion, group, requirement, edited.value, ValidCategory(edited.value));
  }
}
