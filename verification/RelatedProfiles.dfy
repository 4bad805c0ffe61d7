// Which profiles a product is listed under, and why the two checkers agree about localization.
module RelatedProfiles {
  import opened Common
  import opened Seqs
  import opened Requirements
  import opened Criteria
  import opened ProfileMatching
  import ProductCheck

  datatype Profile = Profile(id: string, criteria: seq<Criterion>)

  function TitlesOf(requirements: seq<Requirement>): set<string> {
    set r | r in requirements :: r.title
  }

  predicate Covered(group: Group, answered: set<string>) {
    TitlesOf(group.requirements) <= answered
  }

  function CountCovered(groups: seq<Group>, answered: set<string>): nat {
    if groups == [] then 0 else (if Covered(groups[0], answered) then 1 else 0) + CountCovered(groups[1..], answered)
  }

  // A localization criterion needs exactly one covered group, other criteria all of them.
  predicate CriterionCovered(criterion: Criterion, answered: set<string>) {
    if criterion.IsLocalization() then CountCovered(criterion.groups, answered) == 1
    else forall group :: group in criterion.groups ==> Covered(group, answered)
  }

  // A response hits a profile if it names one of its requirements.
  predicate Hits(requirements: seq<Requirement>, response: Response) {
    Titled(requirements, response.requirement).Some?
  }

  // What a profile has to satisfy to be listed.
  predicate Listed(lib: Library, profile: Profile, responses: seq<Response>) {
    var requirements := OfTree(profile.criteria);
    && requirements != []
    && (forall criterion :: criterion in profile.criteria ==> CriterionCovered(criterion, ProductCheck.Titles(responses)))
    && (exists response :: response in responses && Hits(requirements, response))
    && (forall response :: response in responses && Hits(requirements, response) ==>
          Match(lib, Titled(requirements, response.requirement).value, response) == Accepted)
  }

  // The response at which the check of a profile dies: it hits the profile and has no value to take,
  // and all hits before it are valid.
  ghost predicate DiesAt(lib: Library, requirements: seq<Requirement>, responses: seq<Response>, k: nat) {
    && k < |responses| && Hits(requirements, responses[k])
    && Match(lib, Titled(requirements, responses[k].requirement).value, responses[k]) == Crashed
    && forall j :: 0 <= j < k && Hits(requirements, responses[j]) ==>
         Match(lib, Titled(requirements, responses[j].requirement).value, responses[j]) == Accepted
  }

  // A profile whose criteria are covered and whose check dies.
  ghost predicate Dies(lib: Library, profile: Profile, responses: seq<Response>) {
    var requirements := OfTree(profile.criteria);
    && requirements != []
    && (forall criterion :: criterion in profile.criteria ==> CriterionCovered(criterion, ProductCheck.Titles(responses)))
    && exists k :: DiesAt(lib, requirements, responses, k)
  }

  /******* The cron's loops *******/

  // The flag of the response loop: set by every hit, and a failed hit ends the loop.
  method ValidateRequirements(lib: Library, requirements: seq<Requirement>, responses: seq<Response>)
    returns (verdict: Verdict)
    ensures verdict == Accepted <==>
            && (exists response :: response in responses && Hits(requirements, response))
            && (forall response :: response in responses && Hits(requirements, response) ==>
                  Match(lib, Titled(requirements, response.requirement).value, response) == Accepted)
    ensures verdict == Crashed <==> exists k :: DiesAt(lib, requirements, responses, k)
  {
    hide Match;
    verdict := Refused;
    for i := 0 to |responses|
      invariant verdict == Accepted <==> exists k :: 0 <= k < i && Hits(requirements, responses[k])
      invariant forall k :: 0 <= k < i && Hits(requirements, responses[k]) ==>
                  Match(lib, Titled(requirements, responses[k].requirement).value, responses[k]) == Accepted
      invariant verdict != Crashed
    {
      if Titled(requirements, responses[i].requirement).Some? {
        verdict := Match(lib, Titled(requirements, responses[i].requirement).value, responses[i]);
        if verdict != Accepted {
          assert responses[i] in responses && Hits(requirements, responses[i]);
          if verdict == Crashed {
            assert DiesAt(lib, requirements, responses, i);
          }
          return;
        }
      }
    }
    if verdict == Accepted {
      var k :| 0 <= k < |responses| && Hits(requirements, responses[k]);
      assert responses[k] in responses;
    }
  }

  method CheckCriteria(criteria: seq<Criterion>, responses: seq<Response>) returns (ok: bool)
    ensures ok <==> forall criterion :: criterion in criteria ==> CriterionCovered(criterion, ProductCheck.Titles(responses))
  {
    var answered := ProductCheck.Titles(responses);
    ok := true;
    for i := 0 to |criteria|
      invariant ok <==> forall k :: 0 <= k < i ==> CriterionCovered(criteria[k], answered)
    {
      var count := 0;
      for j := 0 to |criteria[i].groups|
        invariant count + CountCovered(criteria[i].groups[j..], answered) == CountCovered(criteria[i].groups, answered)
        invariant count <= j
        invariant count == j <==> forall k :: 0 <= k < j ==> Covered(criteria[i].groups[k], answered)
      {
        if TitlesOf(criteria[i].groups[j].requirements) <= answered {
          count := count + 1;
        }
      }
      var met := if criteria[i].IsLocalization() then count == 1 else count == |criteria[i].groups|;
      assert met <==> CriterionCovered(criteria[i], answered);
      ok := ok && met;
    }
  }

  // The profiles of a product, in the order they are stored; None if the cron dies of one of them.
  method GetRelatedProfiles(lib: Library, responses: seq<Response>, profiles: seq<Profile>) returns (ids: Option<seq<string>>)
    ensures ids.Some? ==> ids.value == Ids(Filter(profiles, ListedFor(lib, responses)))
    ensures ids.None? <==> exists profile :: profile in profiles && Dies(lib, profile, responses)
  {
    hide Hits, CriterionCovered, DiesAt, Match, OfTree;
    var related: seq<string> := [];
    for i := 0 to |profiles|
      invariant related == Ids(Filter(profiles[..i], ListedFor(lib, responses)))
      invariant forall j :: 0 <= j < i ==> !Dies(lib, profiles[j], responses)
    {
      var profile := profiles[i];
      FilterOneMore(profiles, i, ListedFor(lib, responses));
      var requirements := OfTree(profile.criteria);
      if requirements == [] {
        continue;
      }
      var covered := CheckCriteria(profile.criteria, responses);
      if !covered {
        continue;
      }
      var verdict := ValidateRequirements(lib, requirements, responses);
      if verdict == Crashed {
        assert profile in profiles && Dies(lib, profile, responses);
        return None;
      }
      if verdict == Accepted {
        related := related + [profile.id];
      }
    }
    assert profiles[..|profiles|] == profiles;
    ids := Some(related);
  }

  // What the cron stores for a product: the id of a profile is among the ids exactly if some profile of
  // that id has requirements, its criteria are covered, some response hits one of its requirements and
  // all hits are valid.
  lemma ListedExactly(lib: Library, profiles: seq<Profile>, responses: seq<Response>, id: string)
    ensures id in Ids(Filter(profiles, ListedFor(lib, responses))) <==>
            exists p :: p in profiles && p.id == id && Listed(lib, p, responses)
  {
    var kept := Filter(profiles, ListedFor(lib, responses));
    FilterMembers(profiles, ListedFor(lib, responses));
    hide Listed, Filter;
    if id in Ids(kept) {
      var i :| 0 <= i < |kept| && Ids(kept)[i] == id;
      assert kept[i] in kept;
    }
    if p :| p in profiles && p.id == id && Listed(lib, p, responses) {
      assert ListedFor(lib, responses)(p) && p in kept;
      var i :| 0 <= i < |kept| && kept[i] == p;
      assert Ids(kept)[i] == id;
    }
  }

  // Only a response with an empty list of values can be its undoing.
  lemma DyingNeedsAnEmptyList(lib: Library, profile: Profile, responses: seq<Response>)
    requires Dies(lib, profile, responses)
    ensures exists response :: response in responses && !HasFirst(response)
  {
    var requirements := OfTree(profile.criteria);
    var k: nat :| DiesAt(lib, requirements, responses, k);
    assert responses[k] in responses && !HasFirst(responses[k]);
  }

  function Ids(profiles: seq<Profile>): (r: seq<string>)
    ensures |r| == |profiles| && forall i :: 0 <= i < |r| ==> r[i] == profiles[i].id
  {
    Map(profiles, (p: Profile) => p.id)
  }

  function ListedFor(lib: Library, responses: seq<Response>): Profile -> bool {
    (p: Profile) => Listed(lib, p, responses)
  }

  /******* Localization *******/

  lemma {:induction false} AtMostOneCovered(groups: seq<Group>, answered: set<string>)
    requires forall i, j :: 0 <= i < j < |groups| ==> !(Covered(groups[i], answered) && Covered(groups[j], answered))
    ensures CountCovered(groups, answered) <= 1
    ensures CountCovered(groups, answered) == 1 <==> exists group :: group in groups && Covered(group, answered)
  {
    if groups != [] {
      assert forall i, j :: 0 <= i < j < |groups[1..]| ==> groups[1..][i] == groups[i + 1] && groups[1..][j] == groups[j + 1];
      AtMostOneCovered(groups[1..], answered);
      assert forall group :: group in groups <==> group == groups[0] || group in groups[1..];
      if Covered(groups[0], answered) {
        forall group | group in groups[1..]
          ensures !Covered(group, answered)
        {
          var j :| 0 <= j < |groups[1..]| && groups[1..][j] == group;
          assert group == groups[j + 1];
        }
      }
    }
  }

  // All requirements of the group belong to the localization group `home` of the category.
  ghost predicate DrawnFrom(known: map<string, ProductCheck.Entry>, group: Group, home: string) {
    && group.requirements != []
    && forall r :: r in group.requirements ==>
         r.title in known && known[r.title].classification == Some(LOCALIZATION) && known[r.title].group == home
  }

  lemma CoveredGroupIsResponded(known: map<string, ProductCheck.Entry>, group: Group, home: string, responses: seq<Response>)
    requires DrawnFrom(known, group, home) && Covered(group, ProductCheck.Titles(responses))
    ensures home in ProductCheck.LocalizationGroups(known, responses)
  {
    var r := group.requirements[0];
    assert r.title in TitlesOf(group.requirements);
    var response :| response in responses && response.requirement == r.title;
    assert known[response.requirement].group == home;
  }

  lemma AtMostOne<T>(s: set<T>, a: T, b: T)
    requires |s| <= 1 && a in s && b in s
    ensures a == b
  {
    assert s == {a} + (s - {a});
  }

  // The checkers agree: for a product its category accepted, if the localization groups of a profile
  // are not empty and come from different localization groups of the category, the cron's demand for
  // exactly one covered group holds as soon as some group is covered.
  lemma LocalizationAgrees(m: Matcher, category: seq<Criterion>, responses: seq<Response>, before: set<string>,
                           required: set<string>, criterion: Criterion, homes: seq<string>)
    requires ProductCheck.Fits(m, category, responses, before, required)
    requires criterion.IsLocalization() && |homes| == |criterion.groups|
    requires forall i, j :: 0 <= i < j < |homes| ==> homes[i] != homes[j]
    requires forall i :: 0 <= i < |homes| ==>
               DrawnFrom(ProductCheck.ByTitle(ProductCheck.Entries(category)), criterion.groups[i], homes[i])
    ensures var answered := ProductCheck.Titles(responses);
            && CountCovered(criterion.groups, answered) <= 1
            && (CriterionCovered(criterion, answered) <==> exists group :: group in criterion.groups && Covered(group, answered))
  {
    var known, answered := ProductCheck.ByTitle(ProductCheck.Entries(category)), ProductCheck.Titles(responses);
    forall i, j | 0 <= i < j < |criterion.groups|
      ensures !(Covered(criterion.groups[i], answered) && Covered(criterion.groups[j], answered))
    {
      if Covered(criterion.groups[i], answered) && Covered(criterion.groups[j], answered) {
        CoveredGroupIsResponded(known, criterion.groups[i], homes[i], responses);
        CoveredGroupIsResponded(known, criterion.groups[j], homes[j], responses);
        AtMostOne(ProductCheck.LocalizationGroups(known, responses), homes[i], homes[j]);
      }
    }
    AtMostOneCovered(criterion.groups, answered);
  }
}
