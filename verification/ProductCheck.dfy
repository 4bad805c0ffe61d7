// The check of a product's responses against its category, at write time.
module ProductCheck {
  import opened Common
  import opened Requirements
  import opened Criteria

  // A requirement of the category with the places it belongs to.
  datatype Entry = Entry(requirement: Requirement, classification: Option<string>, group: string)

  function GroupEntries(requirements: seq<Requirement>, classification: Option<string>, group: string): (entries: seq<Entry>)
    ensures |entries| == |requirements|
    ensures forall i :: 0 <= i < |requirements| ==> entries[i] == Entry(requirements[i], classification, group)
  {
    seq(|requirements|, i requires 0 <= i < |requirements| => Entry(requirements[i], classification, group))
  }

  function CriterionEntries(groups: seq<Group>, classification: Option<string>): seq<Entry> {
    if groups == [] then []
    else GroupEntries(groups[0].requirements, classification, groups[0].id) + CriterionEntries(groups[1..], classification)
  }

  function Entries(criteria: seq<Criterion>): seq<Entry> {
    if criteria == [] then []
    else CriterionEntries(criteria[0].groups, criteria[0].classification) + Entries(criteria[1..])
  }

  // The dict of the category's requirements by title: the last one wins.
  function ByTitle(entries: seq<Entry>): map<string, Entry> {
    if entries == [] then map[] else
    var last := entries[|entries| - 1];
    ByTitle(entries[..|entries| - 1])[last.requirement.title := last]
  }

  function Titles(responses: seq<Response>): set<string> {
    set response | response in responses :: response.requirement
  }

  ghost predicate ResponseFits(m: Matcher, known: map<string, Entry>, before: set<string>, response: Response) {
    && response.requirement in known
    && (response.requirement in before || !known[response.requirement].requirement.isArchived)
    && CheckResponse(m, known[response.requirement].requirement, response) == Accepted
  }

  // The localization groups some responses belong to, and the classifications.
  function LocalizationGroups(known: map<string, Entry>, responses: seq<Response>): set<string> {
    set response | response in responses && response.requirement in known &&
      known[response.requirement].classification == Some(LOCALIZATION) :: known[response.requirement].group
  }

  function Classifications(known: map<string, Entry>, responses: seq<Response>): set<Option<string>> {
    set response | response in responses && response.requirement in known :: known[response.requirement].classification
  }

  // The required classifications that some requirement of the category has.
  function Needed(known: map<string, Entry>, required: set<string>): set<Option<string>> {
    set title | title in known && known[title].classification.Some? && known[title].classification.value in required ::
      known[title].classification
  }

  // What the check accepts.
  ghost predicate Fits(m: Matcher, criteria: seq<Criterion>, responses: seq<Response>, before: set<string>,
                       required: set<string>)
  {
    var known := ByTitle(Entries(criteria));
    && (known != map[] ==> responses != [])
    && (forall response :: response in responses ==> ResponseFits(m, known, before, response))
    && |LocalizationGroups(known, responses)| <= 1
    && Needed(known, required) <= Classifications(known, responses)
  }

  lemma OneMoreResponse(known: map<string, Entry>, responses: seq<Response>, i: nat)
    requires i < |responses| && responses[i].requirement in known
    ensures var entry := known[responses[i].requirement];
            && LocalizationGroups(known, responses[..i + 1]) ==
                 LocalizationGroups(known, responses[..i]) +
                 (if entry.classification == Some(LOCALIZATION) then {entry.group} else {})
            && Classifications(known, responses[..i + 1]) == Classifications(known, responses[..i]) + {entry.classification}
  {
    assert responses[..i + 1] == responses[..i] + [responses[i]];
  }

  method ValidateResponses(m: Matcher, criteria: seq<Criterion>, responses: seq<Response>, before: set<string>,
                           required: set<string>) returns (verdict: Verdict)
    ensures verdict == Accepted <==> Fits(m, criteria, responses, before, required)
  {
    var known := ByTitle(Entries(criteria));
    var needed := Needed(known, required);
    hide ByTitle, Entries, Needed, LocalizationGroups, Classifications, CheckResponse;
    if known != map[] && responses == [] {
      return Refused;
    }
    var groups: set<string> := {};
    var responded: set<Option<string>> := {};
    NoResponses(known);
    for i := 0 to |responses|
      invariant forall k :: 0 <= k < i ==> ResponseFits(m, known, before, responses[k])
      invariant groups == LocalizationGroups(known, responses[..i])
      invariant responded == Classifications(known, responses[..i])
    {
      var response := responses[i];
      var title := response.requirement;
      assert response in responses;
      if title !in known {
        return Refused;
      }
      var entry := known[title];
      if title !in before && entry.requirement.isArchived {
        return Refused;
      }
      if entry.classification == Some(LOCALIZATION) {
        groups := groups + {entry.group};
      }
      var one := CheckResponse(m, entry.requirement, response);
      if one != Accepted {
        return one;
      }
      responded := responded + {entry.classification};
      OneMoreResponse(known, responses, i);
    }
    assert responses[..|responses|] == responses;
    if |groups| > 1 {
      return Refused;
    }
    verdict := if needed <= responded then Accepted else Refused;
  }

  lemma NoResponses(known: map<string, Entry>)
    ensures LocalizationGroups(known, []) == {} && Classifications(known, []) == {}
  {
  }
}
