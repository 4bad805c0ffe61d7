// The cron that finds the profiles a product belongs to, with its own, looser check of responses.
module ProfileMatching {
  import opened Common
  import opened Requirements

  // What the cron leaves to libraries: float(text), None if the text is no number, and re.match.
  datatype Library = Library(parse: string -> Option<real>, matches: Matcher)

  function ToFloat(lib: Library, v: Value): Option<real> {
    if v.VStr? then lib.parse(v.s) else Some(Canon(v).r)
  }

  // float(a) <= float(b), false if either does not parse.
  predicate FloatsAscend(lib: Library, a: Value, b: Value) {
    var x, y := ToFloat(lib, a), ToFloat(lib, b);
    x.Some? && y.Some? && x.value <= y.value
  }

  predicate IsValidDataType(r: Requirement, v: Option<Value>) {
    v.Some? && IsInstance(v.value, r.dataType)
  }

  predicate WithinFloats(lib: Library, r: Requirement, v: Value) {
    && (r.minValue.Some? ==> FloatsAscend(lib, r.minValue.value, v))
    && (r.maxValue.Some? ==> FloatsAscend(lib, v, r.maxValue.value))
  }

  predicate IsValidValue(lib: Library, r: Requirement, v: Option<Value>) {
    && IsValidDataType(r, v)
    && (r.expectedValue.Some? ==> PyEqual(v.value, r.expectedValue.value))
    && WithinFloats(lib, r, v.value)
    && (r.pattern.Some? ==> lib.matches(r.pattern.value, v.value))
  }

  predicate IsValidList(r: Requirement, values: Option<seq<Value>>)
    requires r.expectedValues.Some?
  {
    && values.Some? && values.value != []
    && (r.expectedMinItems.Some? ==> |PySet(r.expectedValues.value) * PySet(values.value)| >= r.expectedMinItems.value)
    && (r.expectedMaxItems.Some? ==> |values.value| <= r.expectedMaxItems.value)
  }

  // Which of the three checks applies.
  predicate ChecksValue(r: Requirement) {
    r.expectedValue.Some? || r.minValue.Some? || r.maxValue.Some? || r.pattern.Some?
  }

  predicate ChecksList(r: Requirement) {
    !ChecksValue(r) && r.expectedValues.Some?
  }

  // The first given value; an empty list of values has none, and indexing it raises.
  predicate HasFirst(response: Response) {
    response.value.Some? || response.values.None? || response.values.value != []
  }

  function First(response: Response): Option<Value>
    requires HasFirst(response)
  {
    if response.value.Some? then response.value
    else if response.values.Some? then Some(response.values.value[0]) else None
  }

  // One response against the requirement it names; Crashed is the IndexError.
  function Match(lib: Library, r: Requirement, response: Response): Verdict {
    if ChecksList(r) then Require(IsValidList(r, Given(response)))
    else if !HasFirst(response) then Crashed
    else if ChecksValue(r) then Require(IsValidValue(lib, r, First(response)))
    else Require(IsValidDataType(r, First(response)))
  }

  /******* Strict and loose check compared *******/

  predicate WithoutDuplicates(values: seq<Value>) {
    |PySet(values)| == |values|
  }

  // What a response the strict check accepts still needs to pass the cron's check: bounds that hold
  // between floats too, or - with a list - enough different values.
  predicate AlsoMatches(lib: Library, r: Requirement, values: seq<Value>)
    requires values != []
  {
    if ChecksList(r) then r.expectedMinItems.Some? ==> |PySet(values)| >= r.expectedMinItems.value
    else WithinFloats(lib, r, values[0])
  }

  // Exactly when the cron agrees with the strict check on what the latter accepts.
  lemma StrictAndLooseAgree(lib: Library, r: Requirement, response: Response)
    requires CheckResponse(lib.matches, r, response) == Accepted
    ensures Given(response).Some? && Given(response).value != []
    ensures Match(lib, r, response) == Accepted <==> AlsoMatches(lib, r, Given(response).value)
  {
    var values := Given(response).value;
    EachIsAccepted(lib.matches, r, values);
    assert CheckValue(lib.matches, r, values[0]) == Accepted;
    assert HasFirst(response) && First(response) == Some(values[0]);
    if ChecksList(r) {
      assert PySet(r.expectedValues.value) * PySet(values) == PySet(values);
    }
  }

  predicate NumericBounds(r: Requirement) {
    (r.minValue.Some? ==> !r.minValue.value.VStr?) && (r.maxValue.Some? ==> !r.maxValue.value.VStr?)
  }

  // Completeness: with numeric bounds or none, and no value given twice, whatever the strict check
  // accepts the cron accepts.
  lemma StrictImpliesLoose(lib: Library, r: Requirement, response: Response)
    requires CheckResponse(lib.matches, r, response) == Accepted
    requires NumericBounds(r) && (Given(response).Some? ==> WithoutDuplicates(Given(response).value))
    ensures Match(lib, r, response) == Accepted
  {
    var values := Given(response).value;
    EachIsAccepted(lib.matches, r, values);
    assert CheckValue(lib.matches, r, values[0]) == Accepted;
    StrictAndLooseAgree(lib, r, response);
  }

  // Textual bounds break it, whatever parses as a number: the strict check compares them as text.
  lemma TextualBoundIsLost(lib: Library, date: string)
    requires lib.parse(date).None?
    ensures var r := Requirement("1", "since", DateTime, None, None, None, None, Some(VStr(date)), None, None, None, None, false);
            var response := Response("since", Some(VStr(date)), None);
            && ValidProfile(r) && CheckResponse(lib.matches, r, response) == Accepted
            && Match(lib, r, response) == Refused
  {
    var r := Requirement("1", "since", DateTime, None, None, None, None, Some(VStr(date)), None, None, None, None, false);
    NotLessThanItself(date);
    assert CheckValue(lib.matches, r, VStr(date)) == Accepted;
    EachIsAccepted(lib.matches, r, [VStr(date)]);
  }

  lemma {:induction false} NotLessThanItself(s: string)
    ensures !StrLess(s, s)
  {
    if s != [] {
      NotLessThanItself(s[1..]);
    }
  }

  // And so does a value given twice.
  lemma DuplicateIsLost(lib: Library, r: Requirement, a: Value, b: Value)
    requires ValidProfile(r) && r.pattern.None? && r.expectedValues == Some([a, b]) && r.expectedMinItems == Some(2)
    ensures var response := Response(r.title, None, Some([a, a]));
            CheckResponse(lib.matches, r, response) == Accepted && Match(lib, r, response) == Refused
  {
    var response := Response(r.title, None, Some([a, a]));
    EachIsAccepted(lib.matches, r, [a, a]);
    assert PySet([a, a]) == {Canon(a)};
    assert PySet([a, b]) == {Canon(a), Canon(b)};
    StrictAndLooseAgree(lib, r, response);
  }

  /******* Tightening a requirement *******/

  predicate LowerRaised(lib: Library, from: Option<Value>, to: Option<Value>) {
    from.Some? ==> to.Some? && (to == from || FloatsAscend(lib, from.value, to.value))
  }

  predicate UpperLowered(lib: Library, from: Option<Value>, to: Option<Value>) {
    from.Some? ==> to.Some? && (to == from || FloatsAscend(lib, to.value, from.value))
  }

  // t demands everything r demands, and possibly more.
  predicate Tighter(lib: Library, t: Requirement, r: Requirement) {
    && t.dataType == r.dataType
    && (r.expectedValue.Some? ==> t.expectedValue.Some? && PyEqual(t.expectedValue.value, r.expectedValue.value))
    && LowerRaised(lib, r.minValue, t.minValue) && UpperLowered(lib, r.maxValue, t.maxValue)
    && (r.expectedValues.Some? ==> t.expectedValues.Some? && PySet(t.expectedValues.value) <= PySet(r.expectedValues.value))
    && (r.expectedMinItems.Some? ==> t.expectedMinItems.Some? && t.expectedMinItems.value >= r.expectedMinItems.value)
    && (r.expectedMaxItems.Some? ==> t.expectedMaxItems.Some? && t.expectedMaxItems.value <= r.expectedMaxItems.value)
  }

  // The list check does not look at types, and only counts how many values are expected ones. It lets
  // a foreign value slip in unless all admissible values have to be expected ones.
  predicate AdmitsForeignValues(t: Requirement) {
    t.expectedMaxItems.None? ||
    t.expectedMaxItems.value > (if t.expectedMinItems.Some? then t.expectedMinItems.value else 0)
  }

  function Foreign(t: DataType): Value {
    if t.Number? || t.Integer? then VStr("") else VInt(0)
  }

  lemma SubsetSize<T>(a: set<T>, b: set<T>)
    requires a <= b
    ensures |a| <= |b| && (|a| == |b| ==> a == b)
  {
    assert b == a + (b - a);
  }

  lemma {:induction false} PySetSize(values: seq<Value>)
    ensures |PySet(values)| <= |values|
  {
    if values != [] {
      PySetSize(values[1..]);
      assert PySet(values) == {Canon(values[0])} + PySet(values[1..]);
    }
  }

  lemma {:induction false} DistinctStrings(values: seq<Value>)
    requires forall v :: v in values ==> v.VStr?
    requires forall i, j :: 0 <= i < j < |values| ==> values[i] != values[j]
    ensures |PySet(values)| == |values|
  {
    if values != [] {
      DistinctStrings(values[1..]);
      assert PySet(values) == {Canon(values[0])} + PySet(values[1..]);
      assert Canon(values[0]) !in PySet(values[1..]);
    }
  }

  lemma ForeignListMatches(lib: Library, t: Requirement)
    requires ValidProfile(t) && t.pattern.None? && ChecksList(t) && AdmitsForeignValues(t)
    ensures var expected := t.expectedValues.value;
            var least := if t.expectedMinItems.Some? then t.expectedMinItems.value else 0;
            && least <= |expected|
            && Match(lib, t, Response(t.title, None, Some([Foreign(t.dataType)] + expected[..least]))) == Accepted
  {
    var expected := t.expectedValues.value;
    var least := if t.expectedMinItems.Some? then t.expectedMinItems.value else 0;
    var values := [Foreign(t.dataType)] + expected[..least];
    DistinctStrings(expected[..least]);
    forall v | v in PySet(expected[..least])
      ensures v in PySet(expected) * PySet(values)
    {
      var i :| 0 <= i < least && Canon(expected[i]) == v;
      assert expected[i] in expected && values[i + 1] in values;
    }
    SubsetSize(PySet(expected[..least]), PySet(expected) * PySet(values));
  }

  // Without foreign values, every value of an accepted list is an expected one.
  lemma NoForeignValues(t: Requirement, values: seq<Value>)
    requires ChecksList(t) && !AdmitsForeignValues(t) && IsValidList(t, Some(values))
    ensures PySet(values) <= PySet(t.expectedValues.value)
  {
    PySetSize(values);
    SubsetSize(PySet(t.expectedValues.value) * PySet(values), PySet(values));
  }

  // The cron's check is monotone: of two requirements without patterns the tighter one accepts no
  // more than the other - if and only if it is not the case that expected values were added where
  // there was no constraint, in a way that admits foreign values.
  lemma TighteningShrinks(lib: Library, t: Requirement, r: Requirement)
    requires ValidProfile(t) && ValidProfile(r) && t.pattern.None? && r.pattern.None? && Tighter(lib, t, r)
    ensures (forall response :: Match(lib, t, response) == Accepted ==> Match(lib, r, response) == Accepted) <==>
            !(ChecksList(t) && !ChecksList(r) && AdmitsForeignValues(t))
  {
    if ChecksList(t) && !ChecksList(r) && AdmitsForeignValues(t) {
      ForeignListMatches(lib, t);
      var least := if t.expectedMinItems.Some? then t.expectedMinItems.value else 0;
      var response := Response(t.title, None, Some([Foreign(t.dataType)] + t.expectedValues.value[..least]));
      assert !ChecksValue(r) && First(response) == Some(Foreign(t.dataType));
      ForeignIsForeign(t, r);
      assert Match(lib, r, response) == Refused;
    } else {
      forall response | Match(lib, t, response) == Accepted
        ensures Match(lib, r, response) == Accepted
      {
        TighterMatches(lib, t, r, response);
      }
    }
  }

  lemma ForeignIsForeign(t: Requirement, r: Requirement)
    requires ValidProfile(t) && t.dataType == r.dataType
    ensures !IsInstance(Foreign(t.dataType), r.dataType)
  {
  }

  lemma TighterMatches(lib: Library, t: Requirement, r: Requirement, response: Response)
    requires ValidProfile(t) && ValidProfile(r) && t.pattern.None? && r.pattern.None? && Tighter(lib, t, r)
    requires !(ChecksList(t) && !ChecksList(r) && AdmitsForeignValues(t))
    requires Match(lib, t, response) == Accepted
    ensures Match(lib, r, response) == Accepted
  {
    if ChecksList(t) {
      var values := Given(response).value;
      if ChecksList(r) {
        SubsetSize(PySet(t.expectedValues.value) * PySet(values), PySet(r.expectedValues.value) * PySet(values));
      } else {
        NoForeignValues(t, values);
        assert Canon(values[0]) in PySet(values);
      }
    }
  }
}
