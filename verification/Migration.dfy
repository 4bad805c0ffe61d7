// The migration that brings stored requirements to a standard form: per data type, constraints that
// do not suit it are turned into expected values or bounds.
module Migration {
  import opened Common
  import opened Requirements

  // What Python's conversions do: str of a value, and int and float, which raise on some strings.
  datatype Conversions = Conversions(text: Value -> string, toInt: Value -> Option<int>, toFloat: Value -> Option<real>)

  // str of a string is the string.
  ghost predicate Faithful(py: Conversions) {
    forall s :: py.text(VStr(s)) == s
  }

  /******* The pieces *******/

  function Texts(py: Conversions, values: seq<Value>): (r: seq<Value>)
    ensures |r| == |values| && forall i :: 0 <= i < |r| ==> r[i] == VStr(py.text(values[i]))
  {
    seq(|values|, i requires 0 <= i < |values| => VStr(py.text(values[i])))
  }

  function WithExpected(r: Requirement, expected: seq<Value>): Requirement {
    r.(dataType := String, expectedValues := Some(expected), expectedMinItems := Some(1))
  }

  function WithoutBounds(r: Requirement): Requirement {
    r.(minValue := None, maxValue := None)
  }

  function WithoutExpectedLists(r: Requirement): Requirement {
    r.(expectedValues := None, expectedMinItems := None, expectedMaxItems := None)
  }

  predicate HasExpected(r: Requirement) {
    r.expectedValues.Some? && r.expectedValues.value != []
  }

  // float(value) of a number; other values stay.
  function Floated(v: Option<Value>): Option<Value> {
    if v.None? || v.value.VStr? then v else Some(Canon(v.value))
  }

  function ExpectedValueAsText(py: Conversions, r: Requirement): Requirement
    requires r.expectedValue.Some?
  {
    WithExpected(r, [VStr(py.text(r.expectedValue.value))]).(expectedValue := None)
  }

  function ExpectedValuesAsText(py: Conversions, r: Requirement): Requirement
    requires r.expectedValues.Some?
  {
    WithExpected(r, Texts(py, r.expectedValues.value))
  }

  function BoundsAsText(py: Conversions, r: Requirement): Requirement
    requires r.maxValue.Some?
  {
    var high := VStr(py.text(r.maxValue.value));
    WithoutBounds(WithExpected(r, if r.minValue.None? then [high] else [VStr(py.text(r.minValue.value)), high]))
  }

  predicate IsBoolOrText(v: Value) {
    v.VBool? || v.VStr?
  }

  function Least(a: Option<Value>, b: Option<Value>): Option<Value> {
    if a.None? || b.None? then None
    else if PyLess(b.value, a.value) == Some(true) then b else a
  }

  function ToType(py: Conversions, t: DataType, v: Value): Option<Value> {
    if t.Integer? then var i := py.toInt(v); if i.None? then None else Some(VInt(i.value))
    else var f := py.toFloat(v); if f.None? then None else Some(VFloat(f.value))
  }

  // The least response, converted to the type; None if a conversion raises.
  function LeastResponse(py: Conversions, t: DataType, responses: seq<Value>): Option<Value>
    requires responses != []
  {
    var first := ToType(py, t, responses[0]);
    if |responses| == 1 then first else Least(first, LeastResponse(py, t, responses[1..]))
  }

  function MinFromResponses(py: Conversions, r: Requirement, t: DataType, responses: seq<Value>): Option<Requirement> {
    var least := if responses == [] then Some(VInt(0)) else LeastResponse(py, t, responses);
    if least.None? then None else Some(WithoutExpectedLists(r.(minValue := least)))
  }

  /******* The rewriting, type by type *******/

  function RewriteInteger(py: Conversions, r: Requirement, responses: seq<Value>): Option<Requirement> {
    if HasExpected(r) then Some(ExpectedValuesAsText(py, r))
    else if r.maxValue.Some? then
      if r.maxValue.value.VFloat? then
        Some(r.(dataType := Number, minValue := if r.minValue.None? then Some(VInt(0)) else Floated(r.minValue)))
      else if r.maxValue.value.VStr? then Some(BoundsAsText(py, r))
      else Some(r.(minValue := if r.minValue.None? then Some(VInt(0)) else r.minValue))
    else if r.minValue.Some? || r.expectedValue.Some? then
      var r := if r.minValue.Some? && r.minValue.value.VFloat? then r.(dataType := Number) else r;
      if r.expectedValue.None? then Some(r)
      else if r.expectedValue.value.VFloat? then Some(r.(dataType := Number))
      else if IsBoolOrText(r.expectedValue.value) then Some(ExpectedValueAsText(py, r))
      else Some(r)
    else MinFromResponses(py, r, Integer, responses)
  }

  function RewriteNumber(py: Conversions, r: Requirement, responses: seq<Value>): Option<Requirement> {
    if HasExpected(r) then Some(ExpectedValuesAsText(py, r))
    else if r.maxValue.Some? then
      if r.maxValue.value.VStr? then Some(BoundsAsText(py, r))
      else Some(r.(maxValue := Floated(r.maxValue), minValue := if r.minValue.None? then Some(VInt(0)) else Floated(r.minValue)))
    else if r.minValue.Some? || r.expectedValue.Some? then
      var r := r.(minValue := Floated(r.minValue));
      if r.expectedValue.None? then Some(r)
      else if IsBoolOrText(r.expectedValue.value) then Some(ExpectedValueAsText(py, r))
      else Some(r.(expectedValue := Floated(r.expectedValue)))
    else MinFromResponses(py, r, Number, responses)
  }

  function RewriteString(py: Conversions, r: Requirement, responses: seq<Value>): Requirement {
    if HasExpected(r) then ExpectedValuesAsText(py, r)
    else if r.expectedValue.Some? then ExpectedValueAsText(py, r)
    else if responses != [] then WithoutBounds(WithExpected(r, Texts(py, responses)))
    else if r.maxValue.Some? then BoundsAsText(py, r)
    else if r.minValue.Some? then WithoutBounds(WithExpected(r, [VStr(py.text(r.minValue.value))]))
    else WithoutExpectedLists(r.(dataType := Boolean))
  }

  // Both truth values, under Python's equality of numbers.
  predicate AllowsBoth(values: seq<Value>) {
    PySet(values) == {VFloat(0.0), VFloat(1.0)}
  }

  function RewriteBoolean(py: Conversions, r: Requirement): Requirement {
    if r.expectedValues.Some? then
      var values := r.expectedValues.value;
      var after :=
        if |values| == 1 then
          if values[0].VBool? then WithoutExpectedLists(r.(expectedValue := Some(values[0]))) else r
        else if AllowsBoth(values) then WithoutExpectedLists(r)
        else r;
      if HasExpected(after) then ExpectedValuesAsText(py, after) else after
    else if r.expectedValue.Some? && !r.expectedValue.value.VBool? then ExpectedValueAsText(py, r)
    else r
  }

  // Expected values win over bounds before anything else.
  function Prepared(r: Requirement): Requirement {
    if r.expectedValue.Some? || r.expectedValues.Some? then WithoutBounds(r) else r
  }

  function ByType(py: Conversions, r: Requirement, responses: seq<Value>): Option<Requirement> {
    match r.dataType
    case Integer => RewriteInteger(py, r, responses)
    case Number => RewriteNumber(py, r, responses)
    case String => Some(RewriteString(py, r, responses))
    case Boolean => Some(RewriteBoolean(py, r))
    case DateTime => Some(r)
  }

  // One requirement, given what products have responded to it; None if a conversion raises.
  function Rewrite(py: Conversions, r: Requirement, responses: seq<Value>): Option<Requirement> {
    var after := ByType(py, Prepared(r), responses);
    if after.Some? && (after.value.dataType.String? || after.value.dataType.Boolean?) then Some(after.value.(unit := None))
    else after
  }

  /******* Normal form *******/

  predicate InNormalForm(r: Requirement) {
    r.dataType.String? ==>
      && HasExpected(r) && (forall v :: v in r.expectedValues.value ==> v.VStr?)
      && r.expectedMinItems == Some(1) && r.unit.None? && r.minValue.None? && r.maxValue.None?
  }

  lemma IntegersTurnNormal(py: Conversions, r: Requirement, responses: seq<Value>)
    requires r.dataType.Integer? && Rewrite(py, r, responses).Some?
    ensures InNormalForm(Rewrite(py, r, responses).value)
  {
    hide LeastResponse;
  }

  lemma NumbersTurnNormal(py: Conversions, r: Requirement, responses: seq<Value>)
    requires r.dataType.Number? && Rewrite(py, r, responses).Some?
    ensures InNormalForm(Rewrite(py, r, responses).value)
  {
    hide LeastResponse;
  }

  // Whatever a requirement was, if it ends up a string it has a non-empty list of strings to choose
  // from, at least one to be chosen, and neither a unit nor bounds.
  lemma StringsAreNormal(py: Conversions, r: Requirement, responses: seq<Value>)
    requires Rewrite(py, r, responses).Some?
    ensures InNormalForm(Rewrite(py, r, responses).value)
  {
    hide RewriteInteger, RewriteNumber;
    if r.dataType.Integer? {
      IntegersTurnNormal(py, r, responses);
    } else if r.dataType.Number? {
      NumbersTurnNormal(py, r, responses);
    } else if r.dataType.String? {
      hide RewriteBoolean;
    } else {
      hide RewriteString;
    }
  }

  /******* Idempotence *******/

  function CanonOption(v: Option<Value>): Option<Value> {
    if v.None? then None else Some(Canon(v.value))
  }

  function CanonList(values: seq<Value>): (r: seq<Value>)
    ensures |r| == |values| && forall i :: 0 <= i < |r| ==> r[i] == Canon(values[i])
  {
    seq(|values|, i requires 0 <= i < |values| => Canon(values[i]))
  }

  // Equality of two requirements as Python dicts: numbers are compared by value.
  predicate SameDict(a: Requirement, b: Requirement) {
    Canonical(a) == Canonical(b)
  }

  function Canonical(r: Requirement): Requirement {
    r.(expectedValue := CanonOption(r.expectedValue), minValue := CanonOption(r.minValue), maxValue := CanonOption(r.maxValue),
       expectedValues := if r.expectedValues.None? then None else Some(CanonList(r.expectedValues.value)))
  }

  // A boolean that expects both truth values and, besides, a value that is none: the first run drops
  // the list, which uncovers the value for the second.
  predicate NeedsTwoRuns(r: Requirement) {
    && r.dataType.Boolean? && r.expectedValues.Some? && |r.expectedValues.value| != 1 && AllowsBoth(r.expectedValues.value)
    && r.expectedValue.Some? && !r.expectedValue.value.VBool?
  }

  lemma TextsOfTexts(py: Conversions, values: seq<Value>)
    requires Faithful(py) && forall v :: v in values ==> v.VStr?
    ensures Texts(py, values) == values
  {
    forall i | 0 <= i < |values|
      ensures Texts(py, values)[i] == values[i]
    {
      assert values[i] in values;
    }
  }

  lemma StringIsStable(py: Conversions, r: Requirement, responses: seq<Value>)
    requires Faithful(py) && r.dataType.String? && InNormalForm(r)
    ensures Rewrite(py, r, responses) == Some(r)
  {
    TextsOfTexts(py, r.expectedValues.value);
  }

  // A number or an integer the migration is done with.
  predicate Settled(r: Requirement) {
    && (r.dataType.Integer? || r.dataType.Number?) && !HasExpected(r)
    && (r.expectedValue.Some? || r.expectedValues.Some? ==> r.minValue.None? && r.maxValue.None?)
    && (r.minValue.Some? || r.expectedValue.Some?)
    && (r.maxValue.Some? ==> r.minValue.Some? && !r.maxValue.value.VStr? && !(r.dataType.Integer? && r.maxValue.value.VFloat?))
    && (r.maxValue.None? && r.minValue.Some? && r.minValue.value.VFloat? ==> r.dataType.Number?)
    && (r.expectedValue.Some? ==> !IsBoolOrText(r.expectedValue.value))
    && (r.expectedValue.Some? && r.expectedValue.value.VFloat? ==> r.dataType.Number?)
  }

  lemma SettledIsStable(py: Conversions, r: Requirement, responses: seq<Value>)
    requires Settled(r)
    ensures Rewrite(py, r, responses).Some? && SameDict(Rewrite(py, r, responses).value, r)
  {
    hide LeastResponse, CanonList;
  }

  lemma {:induction false} LeastIsOfType(py: Conversions, t: DataType, responses: seq<Value>)
    requires responses != [] && LeastResponse(py, t, responses).Some?
    ensures var least := LeastResponse(py, t, responses).value; if t.Integer? then least.VInt? else least.VFloat?
  {
    if |responses| > 1 {
      LeastIsOfType(py, t, responses[1..]);
    }
  }

  lemma MinimumSettles(py: Conversions, r: Requirement, responses: seq<Value>)
    requires r.dataType.Integer? && !HasExpected(r)
    requires r.expectedValue.None? && r.minValue.None? && r.maxValue.None?
    requires MinFromResponses(py, r, Integer, responses).Some?
    ensures Settled(MinFromResponses(py, r, Integer, responses).value)
  {
    if responses != [] {
      LeastIsOfType(py, Integer, responses);
    }
    hide LeastResponse;
  }

  lemma IntegersSettle(py: Conversions, r: Requirement, responses: seq<Value>)
    requires r.dataType.Integer?
    requires Rewrite(py, r, responses).Some? && !Rewrite(py, r, responses).value.dataType.String?
    ensures Settled(Rewrite(py, r, responses).value)
  {
    hide MinFromResponses, RewriteNumber, RewriteString, RewriteBoolean, Texts;
    var before := Prepared(r);
    if before.expectedValue.None? && before.minValue.None? && before.maxValue.None? {
      if !HasExpected(before) {
        MinimumSettles(py, before, responses);
      }
      hide Settled;
    } else if before.maxValue.Some? {
      assert before.expectedValue.None? && before.expectedValues.None?;
    }
  }

  lemma NumbersSettle(py: Conversions, r: Requirement, responses: seq<Value>)
    requires r.dataType.Number?
    requires Rewrite(py, r, responses).Some? && !Rewrite(py, r, responses).value.dataType.String?
    ensures Settled(Rewrite(py, r, responses).value)
  {
    hide LeastResponse, RewriteInteger, RewriteString, RewriteBoolean;
  }

  lemma BooleansAreStable(py: Conversions, r: Requirement, responses: seq<Value>, later: seq<Value>)
    requires r.dataType.Boolean? || r.dataType.String?
    requires !Rewrite(py, r, responses).value.dataType.String?
    ensures var once := Rewrite(py, r, responses).value;
            Rewrite(py, once, later) == Some(once) <==> !NeedsTwoRuns(r)
    ensures NeedsTwoRuns(r) ==> Rewrite(py, Rewrite(py, r, responses).value, later).value.dataType.String?
  {
    hide RewriteInteger, RewriteNumber, Texts;
  }

  // Running the migration a second time changes nothing, whatever products have responded meanwhile,
  // for exactly the requirements that are not booleans of the kind above.
  lemma MigrationIsIdempotent(py: Conversions, r: Requirement, responses: seq<Value>, later: seq<Value>)
    requires Faithful(py) && Rewrite(py, r, responses).Some?
    ensures var once := Rewrite(py, r, responses).value;
            var twice := Rewrite(py, once, later);
            twice.Some? && (SameDict(twice.value, once) <==> !NeedsTwoRuns(r))
  {
    var once := Rewrite(py, r, responses).value;
    StringsAreNormal(py, r, responses);
    if once.dataType.String? {
      StringIsStable(py, once, later);
    } else if r.dataType.Integer? {
      IntegersSettle(py, r, responses);
      SettledIsStable(py, once, later);
    } else if r.dataType.Number? {
      NumbersSettle(py, r, responses);
      SettledIsStable(py, once, later);
    } else if r.dataType.Boolean? || r.dataType.String? {
      BooleansAreStable(py, r, responses, later);
    }
  }

  // The models accept no requirement of that kind, so of what passes their validators today nothing
  // needs a second run.
  lemma ValidRequirementsMigrateOnce(py: Conversions, r: Requirement, responses: seq<Value>, later: seq<Value>)
    requires Faithful(py) && ValidBase(r) && Rewrite(py, r, responses).Some?
    ensures !NeedsTwoRuns(r)
    ensures var once := Rewrite(py, r, responses).value;
            var twice := Rewrite(py, once, later);
            twice.Some? && SameDict(twice.value, once)
  {
    hide Rewrite, SameDict;
    MigrationIsIdempotent(py, r, responses, later);
  }

  // A stored requirement that does: the first run drops the list, the second turns it into a string.
  lemma TwoRunsHappen(py: Conversions, responses: seq<Value>, later: seq<Value>)
    requires Faithful(py)
    ensures var r := Requirement("1", "certified", Boolean, Some(VStr("yes")), Some([VBool(true), VBool(false)]), None, None,
                                 None, None, None, None, None, false);
            var once, twice := r.(expectedValues := None), ExpectedValueAsText(py, r.(expectedValues := None));
            && Rewrite(py, r, responses) == Some(once)
            && Rewrite(py, once, later) == Some(twice) && twice.dataType.String? && twice.expectedValues == Some([VStr("yes")])
            && Rewrite(py, twice, later) == Some(twice)
  {
    var r := Requirement("1", "certified", Boolean, Some(VStr("yes")), Some([VBool(true), VBool(false)]), None, None,
                         None, None, None, None, None, false);
    var values := r.expectedValues.value;
    assert AllowsBoth(values) by {
      assert values[0] in values && values[1] in values;
      assert Canon(values[0]) == VFloat(1.0) && Canon(values[1]) == VFloat(0.0);
    }
    var twice := ExpectedValueAsText(py, r.(expectedValues := None));
    assert Faithful(py) ==> py.text(VStr("yes")) == "yes";
    StringIsStable(py, twice, later);
  }

  lemma TitleStays(py: Conversions, r: Requirement, responses: seq<Value>)
    requires Rewrite(py, r, responses).Some?
    ensures Rewrite(py, r, responses).value.title == r.title
  {
    hide LeastResponse, Texts;
    match r.dataType {
      case Integer => hide RewriteNumber, RewriteString, RewriteBoolean;
      case Number => hide RewriteInteger, RewriteString, RewriteBoolean;
      case String => hide RewriteInteger, RewriteNumber, RewriteBoolean;
      case Boolean => hide RewriteInteger, RewriteNumber, RewriteString;
      case DateTime =>
    }
  }

  // A requirement that one run leaves as it is does not depend on the responses.
  lemma UnchangedByType(py: Conversions, r: Requirement, responses: seq<Value>, later: seq<Value>)
    requires Rewrite(py, r, responses).Some? && SameDict(Rewrite(py, r, responses).value, r)
    ensures Rewrite(py, r, later) == Rewrite(py, r, responses)
  {
    hide LeastResponse, Texts;
  }

  /******* What the rewriting preserves *******/

  // What becomes of the bounds and of the expected value; only the minimum may be new.
  predicate SameConstraints(before: Requirement, after: Requirement) {
    && CanonOption(after.expectedValue) == CanonOption(before.expectedValue)
    && CanonOption(after.maxValue) == CanonOption(before.maxValue)
    && (before.minValue.Some? ==> CanonOption(after.minValue) == CanonOption(before.minValue))
    && (before.minValue.None? && before.maxValue.Some? ==> after.minValue == Some(VInt(0)))
  }

  lemma IntegersKeepConstraints(py: Conversions, r: Requirement, responses: seq<Value>)
    requires RewriteInteger(py, r, responses).Some? && !RewriteInteger(py, r, responses).value.dataType.String?
    ensures SameConstraints(r, RewriteInteger(py, r, responses).value)
  {
    hide LeastResponse, Texts;
  }

  lemma NumbersKeepConstraints(py: Conversions, r: Requirement, responses: seq<Value>)
    requires RewriteNumber(py, r, responses).Some? && !RewriteNumber(py, r, responses).value.dataType.String?
    ensures SameConstraints(r, RewriteNumber(py, r, responses).value)
  {
    hide LeastResponse, Texts;
  }

  lemma SameConstraintsSameRange(before: Requirement, after: Requirement, v: Value)
    requires SameConstraints(before, after) && !v.VStr?
    ensures InRange(after, v) <==>
            InRange(before, v) &&
            (before.minValue.None? && after.minValue.Some? ==> PyLess(v, after.minValue.value) == Some(false))
  {
  }

  // A requirement that stays a number admits the same numbers as before, but for a minimum where it
  // had none: 0 or, without any other constraint, the least response.
  lemma RangeIsKept(py: Conversions, r: Requirement, responses: seq<Value>, v: Value)
    requires (r.dataType.Integer? || r.dataType.Number?) && !v.VStr?
    requires Rewrite(py, r, responses).Some? && !Rewrite(py, r, responses).value.dataType.String?
    ensures var before, after := Prepared(r), Rewrite(py, r, responses).value;
            && (InRange(after, v) <==>
                  InRange(before, v) &&
                  (before.minValue.None? && after.minValue.Some? ==> PyLess(v, after.minValue.value) == Some(false)))
            && (before.minValue.None? && before.maxValue.Some? ==> after.minValue == Some(VInt(0)))
  {
    var before, after := Prepared(r), Rewrite(py, r, responses).value;
    hide RewriteInteger, RewriteNumber, RewriteString, RewriteBoolean, InRange;
    if r.dataType.Integer? {
      IntegersKeepConstraints(py, before, responses);
    } else {
      NumbersKeepConstraints(py, before, responses);
    }
    SameConstraintsSameRange(before, after, v);
  }

  lemma {:induction false} LeastIsLeast(py: Conversions, t: DataType, responses: seq<Value>, i: nat)
    requires i < |responses| && LeastResponse(py, t, responses).Some?
    ensures ToType(py, t, responses[i]).Some?
    ensures PyLess(ToType(py, t, responses[i]).value, LeastResponse(py, t, responses).value) == Some(false)
  {
    if |responses| > 1 {
      LeastIsOfType(py, t, responses[1..]);
      if i > 0 {
        LeastIsLeast(py, t, responses[1..], i - 1);
      }
    }
  }

  // The constraints an unconstrained number is given admit every response products have given,
  // converted to the type.
  lemma ResponsesStillFit(py: Conversions, m: Matcher, r: Requirement, responses: seq<Value>, i: nat)
    requires (r.dataType.Integer? || r.dataType.Number?) && r.pattern.None? && !HasExpected(r)
    requires r.expectedValue.None? && r.minValue.None? && r.maxValue.None?
    requires Rewrite(py, r, responses).Some? && i < |responses|
    ensures var after, v := Rewrite(py, r, responses).value, ToType(py, r.dataType, responses[i]);
            v.Some? && CheckValues(m, after, Some([v.value])) == Accepted
  {
    assert LeastResponse(py, r.dataType, responses).Some?;
    LeastIsLeast(py, r.dataType, responses, i);
    hide LeastResponse, Texts, RewriteString, RewriteBoolean;
    var v := ToType(py, r.dataType, responses[i]).value;
    EachIsAccepted(m, Rewrite(py, r, responses).value, [v]);
  }

  // And so does the list of expected values a text without one is given.
  lemma TextsStillFit(py: Conversions, m: Matcher, r: Requirement, responses: seq<Value>, i: nat)
    requires r.dataType.String? && r.pattern.None? && !HasExpected(r) && r.expectedValue.None?
    requires r.expectedMaxItems.Some? ==> r.expectedMaxItems.value > 0
    requires i < |responses|
    ensures var after, v := Rewrite(py, r, responses), VStr(py.text(responses[i]));
            after.Some? && CheckValues(m, after.value, Some([v])) == Accepted
  {
    var after, v := Rewrite(py, r, responses).value, VStr(py.text(responses[i]));
    assert Texts(py, responses)[i] == v;
    assert PySet([v]) <= PySet(after.expectedValues.value);
    EachIsAccepted(m, after, [v]);
  }

  /******* Rewriting in place *******/

  class Draft {
    var r: Requirement

    constructor (r: Requirement)
      ensures this.r == r
    {
      this.r := r;
    }

    method ConvertExpectedValueToString(py: Conversions)
      requires r.expectedValue.Some?
      modifies this
      ensures r == ExpectedValueAsText(py, old(r))
    {
      var v := r.expectedValue.value;
      r := r.(dataType := String);
      r := r.(expectedValue := None, expectedValues := Some([VStr(py.text(v))]));
      r := r.(expectedMinItems := Some(1));
    }

    method NormalizeExpectedValues(py: Conversions)
      requires r.expectedValues.Some?
      modifies this
      ensures r == ExpectedValuesAsText(py, old(r))
    {
      r := r.(dataType := String);
      r := r.(expectedValues := Some(Texts(py, r.expectedValues.value)));
      r := r.(expectedMinItems := Some(1));
    }

    method ConvertMinMaxValueToString(py: Conversions)
      requires r.maxValue.Some?
      modifies this
      ensures r == BoundsAsText(py, old(r))
    {
      var high := VStr(py.text(r.maxValue.value));
      if r.minValue.None? {
        r := r.(expectedValues := Some([high]));
      } else {
        r := r.(expectedValues := Some([VStr(py.text(r.minValue.value)), high]));
      }
      r := r.(expectedMinItems := Some(1), dataType := String);
      r := r.(maxValue := None, minValue := None);
    }

    method PopExpectedLists()
      modifies this
      ensures r == WithoutExpectedLists(old(r))
    {
      r := r.(expectedValues := None, expectedMinItems := None, expectedMaxItems := None);
    }

    // False if a conversion raises; the document is then not stored.
    method TakeMinFromResponses(py: Conversions, t: DataType, responses: seq<Value>) returns (ok: bool)
      modifies this
      ensures var after := MinFromResponses(py, old(r), t, responses);
              (ok <==> after.Some?) && (ok ==> r == after.value)
    {
      if responses == [] {
        r := r.(minValue := Some(VInt(0)));
      } else {
        var least := LeastResponse(py, t, responses);
        if least.None? {
          return false;
        }
        r := r.(minValue := least);
      }
      PopExpectedLists();
      ok := true;
    }

    method UpdateInteger(py: Conversions, responses: seq<Value>) returns (ok: bool)
      modifies this
      ensures var after := RewriteInteger(py, old(r), responses);
              (ok <==> after.Some?) && (ok ==> r == after.value)
    {
      ok := true;
      if HasExpected(r) {
        NormalizeExpectedValues(py);
      } else if r.maxValue.Some? {
        if r.maxValue.value.VFloat? {
          r := r.(dataType := Number);
          if r.minValue.None? {
            r := r.(minValue := Some(VInt(0)));
          } else if !r.minValue.value.VStr? {
            r := r.(minValue := Some(Canon(r.minValue.value)));
          }
        } else if r.maxValue.value.VStr? {
          ConvertMinMaxValueToString(py);
        } else if r.minValue.None? {
          r := r.(minValue := Some(VInt(0)));
        }
      } else if r.minValue.Some? || r.expectedValue.Some? {
        if r.minValue.Some? && r.minValue.value.VFloat? {
          r := r.(dataType := Number);
        }
        if r.expectedValue.Some? {
          if r.expectedValue.value.VFloat? {
            r := r.(dataType := Number);
          } else if IsBoolOrText(r.expectedValue.value) {
            ConvertExpectedValueToString(py);
          }
        }
      } else {
        ok := TakeMinFromResponses(py, Integer, responses);
      }
    }

    method UpdateNumber(py: Conversions, responses: seq<Value>) returns (ok: bool)
      requires r.dataType.Number?
      modifies this
      ensures var after := RewriteNumber(py, old(r), responses);
              (ok <==> after.Some?) && (ok ==> r == after.value)
    {
      ok := true;
      if HasExpected(r) {
        NormalizeExpectedValues(py);
      } else if r.maxValue.Some? {
        if !r.maxValue.value.VStr? {
          r := r.(maxValue := Some(Canon(r.maxValue.value)), dataType := Number);
          if r.minValue.None? {
            r := r.(minValue := Some(VInt(0)));
          } else if !r.minValue.value.VStr? {
            r := r.(minValue := Some(Canon(r.minValue.value)));
          }
        } else {
          ConvertMinMaxValueToString(py);
        }
      } else if r.minValue.Some? || r.expectedValue.Some? {
        if r.minValue.Some? && !r.minValue.value.VStr? {
          r := r.(minValue := Some(Canon(r.minValue.value)), dataType := Number);
        }
        if r.expectedValue.Some? {
          if IsBoolOrText(r.expectedValue.value) {
            ConvertExpectedValueToString(py);
          } else {
            r := r.(expectedValue := Some(Canon(r.expectedValue.value)), dataType := Number);
          }
        }
      } else {
        ok := TakeMinFromResponses(py, Number, responses);
      }
    }

    method UpdateString(py: Conversions, responses: seq<Value>)
      requires r.dataType.String?
      modifies this
      ensures r == RewriteString(py, old(r), responses)
    {
      if HasExpected(r) {
        NormalizeExpectedValues(py);
      } else if r.expectedValue.Some? {
        ConvertExpectedValueToString(py);
      } else if r.minValue.Some? || r.maxValue.Some? {
        if responses != [] {
          r := r.(expectedValues := Some(Texts(py, responses)));
        } else if r.minValue.Some? && r.maxValue.Some? {
          r := r.(expectedValues := Some([VStr(py.text(r.minValue.value)), VStr(py.text(r.maxValue.value))]));
        } else {
          var bound := if r.minValue.Some? then r.minValue.value else r.maxValue.value;
          r := r.(expectedValues := Some([VStr(py.text(bound))]));
        }
        r := r.(expectedMinItems := Some(1));
        r := r.(maxValue := None, minValue := None);
      } else if responses != [] {
        r := r.(expectedValues := Some(Texts(py, responses)));
        r := r.(expectedMinItems := Some(1));
      } else {
        r := r.(dataType := Boolean);
        PopExpectedLists();
      }
    }

    method UpdateBoolean(py: Conversions)
      modifies this
      ensures r == RewriteBoolean(py, old(r))
    {
      if r.expectedValues.Some? {
        var values := r.expectedValues.value;
        if |values| == 1 {
          if values[0].VBool? {
            r := r.(expectedValue := Some(values[0]));
            PopExpectedLists();
          }
        } else if AllowsBoth(values) {
          PopExpectedLists();
        }
        if HasExpected(r) {
          NormalizeExpectedValues(py);
        }
      } else if r.expectedValue.Some? && !r.expectedValue.value.VBool? {
        ConvertExpectedValueToString(py);
      }
    }

    method Update(py: Conversions, responses: seq<Value>) returns (ok: bool)
      modifies this
      ensures var after := Rewrite(py, old(r), responses);
              (ok <==> after.Some?) && (ok ==> r == after.value)
    {
      hide RewriteInteger, RewriteNumber, RewriteString, RewriteBoolean;
      ok := true;
      if (r.expectedValue.Some? || r.expectedValues.Some?) && (r.minValue.Some? || r.maxValue.Some?) {
        r := r.(maxValue := None, minValue := None);
      }
      if r.dataType.Integer? {
        ok := UpdateInteger(py, responses);
      } else if r.dataType.Number? {
        ok := UpdateNumber(py, responses);
      } else if r.dataType.String? {
        UpdateString(py, responses);
      } else if r.dataType.Boolean? {
        UpdateBoolean(py);
      }
      if r.dataType.String? || r.dataType.Boolean? {
        r := r.(unit := None);
      }
    }
  }
}
