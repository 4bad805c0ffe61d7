// Criteria trees of categories and profiles: criteria with groups of requirements.
module Criteria {
  import opened Common
  import opened Requirements

  const LOCALIZATION := "CRITERION.OTHER.SUBJECT_OF_PROCUREMENT.LOCAL_ORIGIN_LEVEL"
  const TECHNICAL_FEATURES := "CRITERION.OTHER.SUBJECT_OF_PROCUREMENT.TECHNICAL_FEATURES"

  datatype Group = Group(id: string, description: string, requirements: seq<Requirement>)

  datatype Criterion = Criterion(id: string, classification: Option<string>, title: string, groups: seq<Group>) {
    predicate IsLocalization() {
      classification == Some(LOCALIZATION)
    }
  }

  function OfGroups(groups: seq<Group>): seq<Requirement> {
    if groups == [] then [] else groups[0].requirements + OfGroups(groups[1..])
  }

  // All requirements of a tree, in order.
  function OfTree(criteria: seq<Criterion>): seq<Requirement> {
    if criteria == [] then [] else OfGroups(criteria[0].groups) + OfTree(criteria[1..])
  }
}
