// A profile narrows its category: the check of profile requirements against the category is a
// semantic refinement, so whatever fits the profile fits the category.
module Refinement {
  import opened Common
  import opened Requirements

  // Bounds of the parent must be present and not looser in the child; only numbers are compared.
  function CheckLower(low: Option<Value>, parentLow: Option<Value>): Verdict {
    if parentLow.None? then Accepted
    else if low.None? then Refused
    else if low.value.VStr? || parentLow.value.VStr? then Accepted
    else Require(PyLess(low.value, parentLow.value) == Some(false))
  }

  function CheckUpper(high: Option<Value>, parentHigh: Option<Value>): Verdict {
    if parentHigh.None? then Accepted
    else if high.None? then Refused
    else if high.value.VStr? || parentHigh.value.VStr? then Accepted
    else Require(PyLess(parentHigh.value, high.value) == Some(false))
  }

  function AsValue(count: Option<nat>): Option<Value> {
    if count.None? then None else Some(VInt(count.value))
  }

  // One profile requirement against the category requirement of the same title.
  function CheckAgainst(p: Requirement, c: Requirement): Verdict {
    And(Require(!c.isArchived && p.dataType == c.dataType),
    And(Require(p.dataType.Boolean? ==> p.minValue.None? && p.maxValue.None? && p.expectedValues.None?),
    And(Require(c.expectedValue.Some? ==> p.expectedValue.Some? && PyEqual(p.expectedValue.value, c.expectedValue.value)),
    And(if c.expectedValues.None? || c.expectedValues.value == [] then Accepted
        else And(Require(p.expectedValues.Some? && p.expectedValues.value != [] &&
                         PySet(p.expectedValues.value) <= PySet(c.expectedValues.value)),
             And(Require(p.dataSchema == c.dataSchema),
             And(CheckLower(AsValue(p.expectedMinItems), AsValue(c.expectedMinItems)),
                 CheckUpper(AsValue(p.expectedMaxItems), AsValue(c.expectedMaxItems))))),
        if c.minValue.None? && c.maxValue.None? then Accepted
        else if p.expectedValue.Some? then
          And(if c.minValue.None? then Accepted else BoundVerdict(PyLess(p.expectedValue.value, c.minValue.value)),
              if c.maxValue.None? then Accepted else BoundVerdict(PyLess(c.maxValue.value, p.expectedValue.value)))
        else And(CheckLower(p.minValue, c.minValue), CheckUpper(p.maxValue, c.maxValue))))))
  }

  // All requirements of a profile against those of the category, flattened over their trees.
  function CheckAll(profile: seq<Requirement>, category: seq<Requirement>): Verdict {
    if profile == [] then Accepted else
    var c := Titled(category, profile[0].title);
    if c.None? then Refused else And(CheckAgainst(profile[0], c.value), CheckAll(profile[1..], category))
  }

  method ValidateProfileRequirements(profile: seq<Requirement>, category: seq<Requirement>) returns (verdict: Verdict)
    ensures verdict == CheckAll(profile, category)
  {
    for i := 0 to |profile|
      invariant CheckAll(profile, category) == CheckAll(profile[i..], category)
    {
      var c := Titled(category, profile[i].title);
      if c.None? {
        return Refused;
      }
      var one := CheckAgainst(profile[i], c.value);
      if one != Accepted {
        return one;
      }
    }
    verdict := Accepted;
  }

  /******* One requirement *******/

  // The check does not compare patterns, so refinement needs them to be the same, or the category to
  // have none.
  predicate PatternKept(p: Requirement, c: Requirement) {
    c.pattern.None? || p.pattern == c.pattern
  }

  lemma ValueFitsCategory(m: Matcher, p: Requirement, c: Requirement, v: Value)
    requires ValidProfile(p) && ValidCategory(c) && PatternKept(p, c)
    requires CheckAgainst(p, c) == Accepted && CheckValue(m, p, v) == Accepted
    ensures CheckValue(m, c, v) == Accepted
  {
  }

  lemma SubsetFits(p: Requirement, c: Requirement, values: seq<Value>)
    requires ValidProfile(p) && ValidCategory(c)
    requires CheckAgainst(p, c) == Accepted && CheckList(p, values) == Accepted
    ensures CheckList(c, values) == Accepted
  {
  }

  // Every list of values the profile requirement accepts is accepted by the category requirement.
  lemma ProfileRefinesCategory(m: Matcher, p: Requirement, c: Requirement, values: Option<seq<Value>>)
    requires ValidProfile(p) && ValidCategory(c) && PatternKept(p, c)
    requires CheckAgainst(p, c) == Accepted
    requires CheckValues(m, p, values) == Accepted
    ensures CheckValues(m, c, values) == Accepted
  {
    var vs := values.value;
    EachIsAccepted(m, p, vs);
    forall i | 0 <= i < |vs|
      ensures CheckValue(m, c, vs[i]) == Accepted
    {
      ValueFitsCategory(m, p, c, vs[i]);
    }
    EachIsAccepted(m, c, vs);
    SubsetFits(p, c, vs);
  }

  const ANYTHING: Matcher := (_: string, _: Value) => true

  // Some list of values fits the requirement, patterns aside.
  ghost predicate Answerable(p: Requirement) {
    exists values: seq<Value> :: CheckValues(ANYTHING, p, Some(values)) == Accepted
  }

  // A matcher that lets more through accepts no less.
  lemma MatcherGrows(m: Matcher, more: Matcher, r: Requirement, values: seq<Value>)
    requires CheckValues(m, r, Some(values)) == Accepted
    requires r.pattern.Some? ==> forall v :: v in values && m(r.pattern.value, v) ==> more(r.pattern.value, v)
    ensures CheckValues(more, r, Some(values)) == Accepted
  {
    hide CheckValues;
    AcceptedExactly(m, r, values);
    AcceptedExactly(more, r, values);
  }

  // Exactly when a checked profile requirement refines the one of the category whatever the patterns
  // mean: the patterns are the same, the category has none, or the profile cannot be answered at all.
  lemma PatternsDecide(p: Requirement, c: Requirement)
    requires ValidProfile(p) && ValidCategory(c) && CheckAgainst(p, c) == Accepted
    ensures (forall m: Matcher, values: seq<Value> ::
              CheckValues(m, p, Some(values)) == Accepted ==> CheckValues(m, c, Some(values)) == Accepted) <==>
            PatternKept(p, c) || !Answerable(p)
  {
    hide CheckValues, CheckAgainst, ValidProfile, ValidCategory;
    if PatternKept(p, c) || !Answerable(p) {
      forall m: Matcher, values: seq<Value> | CheckValues(m, p, Some(values)) == Accepted
        ensures CheckValues(m, c, Some(values)) == Accepted
      {
        MatcherGrows(m, ANYTHING, p, values);
        ProfileRefinesCategory(m, p, c, Some(values));
      }
    } else {
      var values: seq<Value> :| CheckValues(ANYTHING, p, Some(values)) == Accepted;
      var own: Matcher := (pattern: string, v: Value) => p.pattern == Some(pattern);
      MatcherGrows(ANYTHING, own, p, values);
      PatternRefuses(own, c, values);
      assert CheckValues(own, p, Some(values)) == Accepted && CheckValues(own, c, Some(values)) != Accepted;
    }
  }

  lemma PatternRefuses(m: Matcher, r: Requirement, values: seq<Value>)
    requires r.pattern.Some? && forall v :: !m(r.pattern.value, v)
    ensures CheckValues(m, r, Some(values)) != Accepted
  {
    AcceptedExactly(m, r, values);
    if values != [] {
      assert values[0] in values && !Admits(m, r, values[0]);
    }
  }

  // A category pattern that a profile drops: both requirements are valid, the check lets the profile
  // through, and it accepts a value the pattern of the category refuses.
  lemma PatternIsNotCompared(m: Matcher)
    requires !m("x", VInt(1))
    ensures var p := Requirement("1", "weight", Integer, None, None, None, None, Some(VInt(0)), None, None, Some("kg"), None, false);
            var c := p.(pattern := Some("x"));
            && ValidProfile(p) && ValidCategory(c) && CheckAgainst(p, c) == Accepted
            && CheckValues(m, p, Some([VInt(1)])) == Accepted && CheckValues(m, c, Some([VInt(1)])) == Refused
  {
    var p := Requirement("1", "weight", Integer, None, None, None, None, Some(VInt(0)), None, None, Some("kg"), None, false);
    EachIsAccepted(m, p, [VInt(1)]);
    assert CheckValue(m, p.(pattern := Some("x")), VInt(1)) == Refused;
  }

  // The check is not stricter than that: a profile may always copy the requirement of the category.
  lemma CopyIsAccepted(c: Requirement)
    requires ValidCategory(c) && !c.isArchived
    ensures CheckAgainst(c, c) == Accepted
  {
    if c.expectedValues.Some? {
      assert c.expectedValues.value[0] in c.expectedValues.value;
    }
  }

  /******* A whole tree of requirements *******/

  lemma {:induction false} CheckedOneByOne(profile: seq<Requirement>, category: seq<Requirement>, p: Requirement)
    requires CheckAll(profile, category) == Accepted && p in profile
    ensures var c := Titled(category, p.title); c.Some? && CheckAgainst(p, c.value) == Accepted
  {
    if p != profile[0] {
      CheckedOneByOne(profile[1..], category, p);
    }
  }

  // A product's responses, checked against whatever of a list of requirements they name.
  ghost predicate Fits(m: Matcher, requirements: seq<Requirement>, responses: seq<Response>) {
    forall response :: response in responses && Titled(requirements, response.requirement).Some? ==>
      CheckValues(m, Titled(requirements, response.requirement).value, Given(response)) == Accepted
  }

  // A profile that passed the check: all answers that fit the profile also fit the requirements of
  // the category that they name.
  lemma ProfileTreeRefinesCategory(m: Matcher, profile: seq<Requirement>, category: seq<Requirement>,
                                   responses: seq<Response>, response: Response)
    requires forall p :: p in profile ==> ValidProfile(p)
    requires CheckAll(profile, category) == Accepted
    requires Fits(m, profile, responses) && response in responses
    requires Titled(profile, response.requirement).Some?
    requires var p, c := Titled(profile, response.requirement).value, Titled(category, response.requirement);
             c.Some? ==> ValidCategory(c.value) && PatternKept(p, c.value)
    ensures var c := Titled(category, response.requirement);
            c.Some? && !c.value.isArchived && CheckValues(m, c.value, Given(response)) == Accepted
  {
    var p := Titled(profile, response.requirement).value;
    CheckedOneByOne(profile, category, p);
    ProfileRefinesCategory(m, p, Titled(category, response.requirement).value, Given(response));
  }

  /******* Whole responses *******/

  function Repeated(v: Value, count: nat): (values: seq<Value>)
    ensures |values| == count && forall i :: 0 <= i < count ==> values[i] == v
  {
    seq(count, _ => v)
  }

  lemma ListIsAccepted(m: Matcher, p: Requirement, v: Value, count: nat)
    requires ValidProfile(p) && p.expectedValues.Some? && v in p.expectedValues.value
    requires p.pattern.Some? ==> m(p.pattern.value, v)
    requires count > 0 && (p.expectedMinItems.Some? ==> count >= p.expectedMinItems.value)
    requires p.expectedMaxItems.Some? ==> count <= p.expectedMaxItems.value
    ensures CheckValues(m, p, Some(Repeated(v, count))) == Accepted
  {
    var values := Repeated(v, count);
    EachIsAccepted(m, p, values);
    assert PySet(values) <= PySet(p.expectedValues.value);
  }

  // The requirement lists an expected value that its own pattern, if any, lets through.
  predicate ListsSome(m: Matcher, p: Requirement) {
    p.expectedValues.Some? && exists v :: v in p.expectedValues.value && (p.pattern.Some? ==> m(p.pattern.value, v))
  }

  lemma AcceptedMeansListed(m: Matcher, p: Requirement, response: Response)
    requires ValidProfile(p) && p.expectedValues.Some? && CheckResponse(m, p, response) == Accepted
    ensures ListsSome(m, p)
  {
    var values := response.values.value;
    AcceptedExactly(m, p, values);
    assert values[0] in values;
    var e :| e in p.expectedValues.value && PyEqual(values[0], e);
    assert values[0] == e;
  }

  // Where refinement stops: responses also have to use the right field, `values` if there are
  // expected values and `value` if not. Taking that into account, a response that fits the profile
  // requirement fits the category requirement, unless the profile lists expected values where the
  // category has none - which it may for date-times.
  lemma ResponseFitsCategory(m: Matcher, p: Requirement, c: Requirement, response: Response)
    requires ValidProfile(p) && ValidCategory(c) && PatternKept(p, c)
    requires CheckAgainst(p, c) == Accepted && CheckResponse(m, p, response) == Accepted
    requires !(c.expectedValues.None? && ListsSome(m, p))
    ensures CheckResponse(m, c, response) == Accepted
  {
    ProfileRefinesCategory(m, p, c, Given(response));
    if p.expectedValues.Some? && c.expectedValues.None? {
      AcceptedMeansListed(m, p, response);
    }
  }

  // And that exception is exact.
  lemma ResponsesRefineExactly(m: Matcher, p: Requirement, c: Requirement)
    requires ValidProfile(p) && ValidCategory(c) && PatternKept(p, c)
    requires CheckAgainst(p, c) == Accepted
    ensures (forall response :: CheckResponse(m, p, response) == Accepted ==> CheckResponse(m, c, response) == Accepted) <==>
            !(c.expectedValues.None? && ListsSome(m, p))
  {
    if c.expectedValues.None? && ListsSome(m, p) {
      var v :| v in p.expectedValues.value && (p.pattern.Some? ==> m(p.pattern.value, v));
      var count := if p.expectedMinItems.Some? then p.expectedMinItems.value else 1;
      ListIsAccepted(m, p, v, count);
      var response := Response(p.title, None, Some(Repeated(v, count)));
      assert CheckResponse(m, p, response) == Accepted && CheckResponse(m, c, response) == Refused;
    } else {
      forall response | CheckResponse(m, p, response) == Accepted
        ensures CheckResponse(m, c, response) == Accepted
      {
        ResponseFitsCategory(m, p, c, response);
      }
    }
  }

  // Both exceptions together, with no assumption about patterns: whatever patterns mean, all responses
  // that fit the profile requirement fit the category requirement if and only if the patterns agree as
  // above and the profile lists no values where the category does not, or nothing fits the profile.
  lemma ResponsesRefineForAllPatterns(p: Requirement, c: Requirement)
    requires ValidProfile(p) && ValidCategory(c) && CheckAgainst(p, c) == Accepted
    ensures (forall m: Matcher, response ::
              CheckResponse(m, p, response) == Accepted ==> CheckResponse(m, c, response) == Accepted) <==>
            || (PatternKept(p, c) && !(c.expectedValues.None? && p.expectedValues.Some?))
            || (forall response :: CheckResponse(ANYTHING, p, response) != Accepted)
  {
    hide CheckAgainst, ValidProfile, ValidCategory, CheckValues;
    if response :| CheckResponse(ANYTHING, p, response) == Accepted {
      SomeGiven(ANYTHING, p, response);
      var values := Given(response).value;
      if c.expectedValues.None? && p.expectedValues.Some? {
        assert CheckResponse(ANYTHING, c, response) == Refused;
      } else if !PatternKept(p, c) {
        var own: Matcher := (pattern: string, v: Value) => p.pattern == Some(pattern);
        MatcherGrows(ANYTHING, own, p, values);
        PatternRefuses(own, c, values);
        assert CheckResponse(own, p, response) == Accepted && CheckResponse(own, c, response) != Accepted;
      } else {
        forall m: Matcher, response | CheckResponse(m, p, response) == Accepted
          ensures CheckResponse(m, c, response) == Accepted
        {
          ResponseFitsCategory(m, p, c, response);
        }
      }
    } else {
      forall m: Matcher, response
        ensures CheckResponse(m, p, response) != Accepted
      {
        if CheckResponse(m, p, response) == Accepted {
          FitsAnything(m, p, response);
        }
      }
    }
  }

  lemma FitsAnything(m: Matcher, p: Requirement, response: Response)
    requires CheckResponse(m, p, response) == Accepted
    ensures CheckResponse(ANYTHING, p, response) == Accepted
  {
    SomeGiven(m, p, response);
    hide CheckValues;
    MatcherGrows(m, ANYTHING, p, Given(response).value);
  }

  lemma SomeGiven(m: Matcher, p: Requirement, response: Response)
    requires CheckResponse(m, p, response) == Accepted
    ensures Given(response).Some? && CheckValues(m, p, Some(Given(response).value)) == Accepted
  {
  }

  // Such a pair exists: both pass their validators and the check.
  lemma DateTimesNeedNotRefine(m: Matcher)
    ensures var c := Requirement("1", "delivery", DateTime, None, None, None, None, None, None, None, None, None, false);
            var p := c.(expectedValues := Some([VStr("2024")]));
            var response := Response("delivery", None, Some([VStr("2024")]));
            && ValidProfile(p) && ValidCategory(c) && CheckAgainst(p, c) == Accepted
            && CheckResponse(m, p, response) == Accepted && CheckResponse(m, c, response) == Refused
  {
    var c := Requirement("1", "delivery", DateTime, None, None, None, None, None, None, None, None, None, false);
    var p := c.(expectedValues := Some([VStr("2024")]));
    ListIsAccepted(m, p, VStr("2024"), 1);
    assert Repeated(VStr("2024"), 1) == [VStr("2024")];
  }
}
