// Requirements and the responses to them: the values as Python compares them, the check of a
// response when a product is written, and the rules the models impose on requirements.
module Requirements {
  import opened Common

  datatype Value = VBool(b: bool) | VInt(i: int) | VFloat(r: real) | VStr(s: string)

  datatype DataType = String | DateTime | Number | Integer | Boolean

  datatype Requirement = Requirement(id: string, title: string, dataType: DataType, expectedValue: Option<Value>,
                                     expectedValues: Option<seq<Value>>, expectedMinItems: Option<nat>,
                                     expectedMaxItems: Option<nat>, minValue: Option<Value>, maxValue: Option<Value>,
                                     pattern: Option<string>, unit: Option<string>, dataSchema: Option<string>,
                                     isArchived: bool)

  datatype Response = Response(requirement: string, value: Option<Value>, values: Option<seq<Value>>)

  // re.match(pattern, str(value))
  type Matcher = (string, Value) -> bool

  /******* Values as Python sees them *******/

  // Equal numbers are equal whatever their type, True and False being 1 and 0; this is also how
  // they hash.
  function Canon(v: Value): Value {
    match v
    case VBool(b) => VFloat(if b then 1.0 else 0.0)
    case VInt(i) => VFloat(i as real)
    case VFloat(_) => v
    case VStr(_) => v
  }

  predicate PyEqual(a: Value, b: Value) {
    Canon(a) == Canon(b)
  }

  // set(values)
  function PySet(values: seq<Value>): set<Value> {
    set v | v in values :: Canon(v)
  }

  predicate StrLess(a: string, b: string) {
    if b == [] then false
    else if a == [] then true
    else if a[0] != b[0] then a[0] < b[0]
    else StrLess(a[1..], b[1..])
  }

  // a < b; None is the TypeError of comparing a string with a number.
  function PyLess(a: Value, b: Value): Option<bool> {
    if a.VStr? && b.VStr? then Some(StrLess(a.s, b.s))
    else if a.VStr? || b.VStr? then None
    else Some(Canon(a).r < Canon(b).r)
  }

  predicate IsInstance(v: Value, t: DataType) {
    match t
    case String => v.VStr?
    case DateTime => v.VStr?
    case Number => !v.VStr?
    case Integer => v.VInt? || v.VBool? // a bool is an int
    case Boolean => v.VBool?
  }

  /******* The check at write time *******/

  function BoundVerdict(beyond: Option<bool>): Verdict {
    if beyond.None? then Crashed else if beyond.value then Refused else Accepted
  }

  function And(first: Verdict, second: Verdict): Verdict {
    if first != Accepted then first else second
  }

  function Require(condition: bool): Verdict {
    if condition then Accepted else Refused
  }

  function CheckValue(m: Matcher, r: Requirement, v: Value): Verdict {
    And(Require(IsInstance(v, r.dataType) && !(r.dataType.Number? && v.VBool?)),
    And(Require(r.expectedValue.Some? ==> PyEqual(v, r.expectedValue.value)),
    And(if r.minValue.None? then Accepted else BoundVerdict(PyLess(v, r.minValue.value)),
    And(if r.maxValue.None? then Accepted else BoundVerdict(PyLess(r.maxValue.value, v)),
        Require(r.pattern.Some? ==> m(r.pattern.value, v))))))
  }

  function CheckEach(m: Matcher, r: Requirement, values: seq<Value>): Verdict {
    if values == [] then Accepted else And(CheckValue(m, r, values[0]), CheckEach(m, r, values[1..]))
  }

  function CheckList(r: Requirement, values: seq<Value>): Verdict {
    And(Require(r.expectedValues.Some? ==> PySet(values) <= PySet(r.expectedValues.value)),
    And(Require(r.expectedMinItems.Some? ==> |values| >= r.expectedMinItems.value),
        Require(r.expectedMaxItems.Some? ==> |values| <= r.expectedMaxItems.value)))
  }

  function CheckValues(m: Matcher, r: Requirement, values: Option<seq<Value>>): Verdict {
    if values.None? || values.value == [] then Refused
    else And(CheckEach(m, r, values.value), CheckList(r, values.value))
  }

  // validate_req_response_values, with its loop.
  method ValidateValues(m: Matcher, r: Requirement, values: Option<seq<Value>>) returns (verdict: Verdict)
    ensures verdict == CheckValues(m, r, values)
  {
    if values.None? || values.value == [] {
      return Refused;
    }
    var vs := values.value;
    for i := 0 to |vs|
      invariant CheckEach(m, r, vs) == CheckEach(m, r, vs[i..])
    {
      var v := vs[i];
      if !IsInstance(v, r.dataType) || (r.dataType.Number? && v.VBool?) {
        return Refused;
      }
      if r.expectedValue.Some? && !PyEqual(v, r.expectedValue.value) {
        return Refused;
      }
      if r.minValue.Some? {
        var below := PyLess(v, r.minValue.value);
        if below != Some(false) {
          return if below.None? then Crashed else Refused;
        }
      }
      if r.maxValue.Some? {
        var above := PyLess(r.maxValue.value, v);
        if above != Some(false) {
          return if above.None? then Crashed else Refused;
        }
      }
      if r.pattern.Some? && !m(r.pattern.value, v) {
        return Refused;
      }
    }
    if r.expectedValues.Some? && !(PySet(vs) <= PySet(r.expectedValues.value)) {
      return Refused;
    }
    if r.expectedMinItems.Some? && |vs| < r.expectedMinItems.value {
      return Refused;
    }
    if r.expectedMaxItems.Some? && |vs| > r.expectedMaxItems.value {
      return Refused;
    }
    verdict := Accepted;
  }

  // Expected values are answered with a list, everything else with a single value.
  function CheckResponse(m: Matcher, r: Requirement, response: Response): Verdict {
    if r.expectedValues.Some? && response.value.Some? then Refused
    else if r.expectedValues.None? && response.values.Some? then Refused
    else CheckValues(m, r, Given(response))
  }

  function Given(response: Response): Option<seq<Value>> {
    if response.value.Some? then Some([response.value.value]) else response.values
  }

  // Every single value is accepted on its own merits.
  lemma {:induction false} EachIsAccepted(m: Matcher, r: Requirement, values: seq<Value>)
    ensures CheckEach(m, r, values) == Accepted <==>
            forall i :: 0 <= i < |values| ==> CheckValue(m, r, values[i]) == Accepted
  {
    if values != [] {
      EachIsAccepted(m, r, values[1..]);
      assert forall i :: 1 <= i < |values| ==> values[i] == values[1..][i - 1];
      if forall i :: 0 <= i < |values| ==> CheckValue(m, r, values[i]) == Accepted {
        assert CheckValue(m, r, values[0]) == Accepted;
        assert forall i :: 0 <= i < |values[1..]| ==> values[1..][i] == values[i + 1];
      }
    }
  }

  predicate InRange(r: Requirement, v: Value) {
    && (r.expectedValue.Some? ==> PyEqual(v, r.expectedValue.value))
    && (r.minValue.Some? ==> PyLess(v, r.minValue.value) == Some(false))
    && (r.maxValue.Some? ==> PyLess(r.maxValue.value, v) == Some(false))
  }

  // What a single value has to satisfy.
  predicate Admits(m: Matcher, r: Requirement, v: Value) {
    && IsInstance(v, r.dataType) && !(r.dataType.Number? && v.VBool?)
    && InRange(r, v) && (r.pattern.Some? ==> m(r.pattern.value, v))
  }

  // Which lists of values the check lets through: those of admitted values, each of them an expected
  // one if there are any, and as many as asked for.
  lemma AcceptedExactly(m: Matcher, r: Requirement, values: seq<Value>)
    ensures CheckValues(m, r, Some(values)) == Accepted <==>
            && values != [] && (forall v :: v in values ==> Admits(m, r, v))
            && (r.expectedValues.Some? ==>
                  forall v :: v in values ==> exists e :: e in r.expectedValues.value && PyEqual(v, e))
            && (r.expectedMinItems.Some? ==> r.expectedMinItems.value <= |values|)
            && (r.expectedMaxItems.Some? ==> |values| <= r.expectedMaxItems.value)
  {
    EachIsAccepted(m, r, values);
    if r.expectedValues.Some? {
      SubsetOfExpected(values, r.expectedValues.value);
    }
    assert forall i :: 0 <= i < |values| ==> (CheckValue(m, r, values[i]) == Accepted <==> Admits(m, r, values[i]));
    assert (forall i :: 0 <= i < |values| ==> Admits(m, r, values[i])) <==> forall v :: v in values ==> Admits(m, r, v);
  }

  lemma SubsetOfExpected(values: seq<Value>, expected: seq<Value>)
    ensures PySet(values) <= PySet(expected) <==>
            forall v :: v in values ==> exists e :: e in expected && PyEqual(v, e)
  {
    if PySet(values) <= PySet(expected) {
      forall v | v in values
        ensures exists e :: e in expected && PyEqual(v, e)
      {
        assert Canon(v) in PySet(values);
      }
    }
  }

  /******* Requirements by title *******/

  // The last requirement with the title, which is what a dict of titles keeps.
  function Titled(requirements: seq<Requirement>, title: string): (r: Option<Requirement>)
    ensures r.Some? ==> r.value in requirements && r.value.title == title
    ensures r.None? ==> forall q :: q in requirements ==> q.title != title
  {
    if requirements == [] then None
    else
      var rest := Titled(requirements[1..], title);
      if rest.Some? then rest
      else if requirements[0].title == title then Some(requirements[0]) else None
  }

  /******* What the models demand of requirements *******/

  // The characters str.strip removes.
  predicate IsSpace(c: char) {
    var n := c as int;
    || 9 <= n <= 13 || 28 <= n <= 32 || n == 0x85 || n == 0xA0 || n == 0x1680 || 0x2000 <= n <= 0x200A
    || n == 0x2028 || n == 0x2029 || n == 0x202F || n == 0x205F || n == 0x3000
  }

  predicate Stripped(s: string) {
    s == [] || (!IsSpace(s[0]) && !IsSpace(s[|s| - 1]))
  }

  predicate Truthy(v: Value) {
    match v
    case VBool(b) => b
    case VInt(i) => i != 0
    case VFloat(r) => r != 0.0
    case VStr(s) => s != []
  }

  predicate OfType(v: Option<Value>, t: DataType) {
    v.Some? ==> IsInstance(v.value, t)
  }

  // The validators shared by profile and category requirements; expected values, being stripped, are
  // strings.
  predicate ValidBase(r: Requirement) {
    && OfType(r.expectedValue, r.dataType) && OfType(r.minValue, r.dataType) && OfType(r.maxValue, r.dataType)
    && (r.expectedValues.Some? ==> forall v :: v in r.expectedValues.value ==>
          IsInstance(v, r.dataType) && v.VStr? && Stripped(v.s))
    && (r.expectedValue.Some? ==> r.minValue.None? && r.maxValue.None? && r.expectedValues.None?)
    && (r.expectedValues.Some? ==> r.minValue.None? && r.maxValue.None? && r.expectedValue.None?)
    && (r.minValue.Some? && r.maxValue.Some? && Truthy(r.minValue.value) && Truthy(r.maxValue.value)
          && !r.minValue.value.VStr? && !r.maxValue.value.VStr? ==>
          PyLess(r.minValue.value, r.maxValue.value) == Some(true))
    && (r.unit.Some? ==> !r.dataType.String? && !r.dataType.Boolean?)
    && (r.unit.None? ==> !r.dataType.Integer? && !r.dataType.Number?)
    && (r.dataSchema.Some? ==> r.dataType.String?)
    // the set of expected values, and positive item counts
    && (r.expectedValues.Some? ==> forall i, j :: 0 <= i < j < |r.expectedValues.value| ==>
          r.expectedValues.value[i] != r.expectedValues.value[j])
    && (r.expectedMinItems.Some? ==> r.expectedMinItems.value > 0)
    && (r.expectedMaxItems.Some? ==> r.expectedMaxItems.value > 0)
  }

  function ExpectedCount(r: Requirement): nat {
    if r.expectedValues.None? then 0 else |r.expectedValues.value|
  }

  predicate ValidProfile(r: Requirement) {
    && ValidBase(r)
    && (r.expectedMinItems.Some? && r.expectedMaxItems.Some? ==> r.expectedMinItems.value <= r.expectedMaxItems.value)
    && (r.expectedMinItems.Some? ==> r.expectedMinItems.value <= ExpectedCount(r))
    && (r.expectedMaxItems.Some? ==> r.expectedMaxItems.value <= ExpectedCount(r))
  }

  predicate IsNumber(v: Value) {
    v.VInt? || v.VFloat?
  }

  predicate ValidCategory(r: Requirement) {
    && ValidBase(r)
    && (r.expectedValue.Some? ==> !r.expectedValue.value.VStr?)
    && (r.minValue.Some? ==> IsNumber(r.minValue.value)) && (r.maxValue.Some? ==> IsNumber(r.maxValue.value))
    && (r.expectedValues.Some? ==>
          && r.expectedMinItems == Some(1) && (r.expectedMaxItems.None? || r.expectedMaxItems == Some(1))
          && |r.expectedValues.value| >= 1)
    && (r.expectedValues.None? ==> r.expectedMinItems.None? && r.expectedMaxItems.None? && !r.dataType.String?)
    && ((r.dataType.Integer? || r.dataType.Number?) && r.expectedValue.None? ==> r.minValue.Some?)
  }
}
