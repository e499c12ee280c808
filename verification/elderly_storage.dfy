/** Loading an elderly record from its JSON form: a fixed, ordered chain of
    checks on the raw `nric`, `age` and `riskLevel` strings, preceded by the
    conversion of the fields every person has. */
module ElderlyStorage {
  import opened Common
  import opened Persons

  /** The raw fields every person has in storage. How they are converted
      is given by `FieldRules.convertBase`. */
  datatype JsonAdaptedPerson = JsonAdaptedPerson(
    name: Option<string>,
    phone: Option<string>,
    email: Option<string>,
    address: Option<string>,
    tagged: seq<string>)

  /** An elderly record as read from storage: every field may be missing. */
  datatype JsonAdaptedElderly = JsonAdaptedElderly(
    base: JsonAdaptedPerson,
    nric: Option<string>,
    age: Option<string>,
    riskLevel: Option<string>)

  /** What the elderly adapter uses from code outside it: the base adapter's
      two directions (including the tag lookup in the address book), the
      field validators `Nric.isValidNric`, `Age.isValidAge` and
      `RiskLevel.isValidRisk`, and the constraint messages of `Nric` and `Age`. */
  datatype FieldRules = FieldRules(
    convertBase: JsonAdaptedPerson -> Result<PersonFields>,
    adaptBase: PersonFields -> JsonAdaptedPerson,
    isValidNric: string -> bool,
    isValidAge: string -> bool,
    isValidRisk: string -> bool,
    nricConstraints: string,
    ageConstraints: string)

  /** `MISSING_FIELD_MESSAGE_FORMAT` filled in with a field's class name. */
  function MissingFieldMessage(field: string): (r: string)
    ensures |r| == |field| + 28
    ensures r[..10] == "Elderly's "
    ensures r[10..10 + |field|] == field
    ensures r[10 + |field|..] == " field is missing!"
  {
    "Elderly's " + field + " field is missing!"
  }

  /** Different field names give different missing-field messages. */
  lemma MissingFieldMessageInjective(a: string, b: string)
    ensures MissingFieldMessage(a) == MissingFieldMessage(b) ==> a == b
  {
  }

  /** `toModelType`: convert the base fields, then check, in this order,
      nric present, nric valid, age present, age valid, risk level present,
      risk level valid; the first failure is thrown. */
  function ToModelType(a: JsonAdaptedElderly, rules: FieldRules): (r: Result<Elderly>)
    ensures rules.convertBase(a.base).Err? ==> r == Err(rules.convertBase(a.base).error)
    ensures r.Ok? <==> rules.convertBase(a.base).Ok? && AllFieldsValid(a, rules)
    ensures r.Ok? ==>
      && r.value.fields == rules.convertBase(a.base).value
      && Some(r.value.nric.value) == a.nric
      && Some(r.value.age.value) == a.age
      && Some(r.value.riskLevel.riskStatus) == a.riskLevel
  {
    match rules.convertBase(a.base)
    case Err(e) => Err(e)
    case Ok(fields) =>
      if a.nric.None? then
        assert Fails(CheckOrder[0], a, rules);
        Err(IllegalValue(MissingFieldMessage("Nric")))
      else if !rules.isValidNric(a.nric.value) then
        assert Fails(CheckOrder[1], a, rules);
        Err(IllegalValue(rules.nricConstraints))
      else if a.age.None? then
        assert Fails(CheckOrder[2], a, rules);
        Err(IllegalValue(MissingFieldMessage("Age")))
      else if !rules.isValidAge(a.age.value) then
        assert Fails(CheckOrder[3], a, rules);
        Err(IllegalValue(rules.ageConstraints))
      else if a.riskLevel.None? then
        assert Fails(CheckOrder[4], a, rules);
        Err(IllegalValue(MissingFieldMessage("RiskLevel")))
      else if !rules.isValidRisk(a.riskLevel.value) then
        assert Fails(CheckOrder[5], a, rules);
        Err(IllegalValue(rules.ageConstraints))
      else
        Ok(Elderly(fields, Nric(a.nric.value), Age(a.age.value), RiskLevel(a.riskLevel.value)))
  }

  /** The checks `toModelType` makes after the base conversion. */
  datatype Check = NricMissing | NricInvalid | AgeMissing | AgeInvalid | RiskMissing | RiskInvalid

  /** The order in which the checks are made. */
  const CheckOrder: seq<Check> := [NricMissing, NricInvalid, AgeMissing, AgeInvalid, RiskMissing, RiskInvalid]

  /** Check `c` rejects the record. */
  predicate Fails(c: Check, a: JsonAdaptedElderly, rules: FieldRules) {
    match c
    case NricMissing => a.nric.None?
    case NricInvalid => a.nric.Some? && !rules.isValidNric(a.nric.value)
    case AgeMissing => a.age.None?
    case AgeInvalid => a.age.Some? && !rules.isValidAge(a.age.value)
    case RiskMissing => a.riskLevel.None?
    case RiskInvalid => a.riskLevel.Some? && !rules.isValidRisk(a.riskLevel.value)
  }

  /** The message reported when check `c` is the first to fail. An invalid
      risk level reports the constraint message of `Age`. */
  function Message(c: Check, rules: FieldRules): string {
    match c
    case NricMissing => MissingFieldMessage("Nric")
    case NricInvalid => rules.nricConstraints
    case AgeMissing => MissingFieldMessage("Age")
    case AgeInvalid => rules.ageConstraints
    case RiskMissing => MissingFieldMessage("RiskLevel")
    case RiskInvalid => rules.ageConstraints
  }

  /** No check rejects the record. */
  ghost predicate AllFieldsValid(a: JsonAdaptedElderly, rules: FieldRules) {
    forall i :: 0 <= i < |CheckOrder| ==> !Fails(CheckOrder[i], a, rules)
  }

  /** Check number `i` is the first one in `CheckOrder` to fail. */
  ghost predicate FirstFailure(i: int, a: JsonAdaptedElderly, rules: FieldRules) {
    && 0 <= i < |CheckOrder|
    && Fails(CheckOrder[i], a, rules)
    && forall j :: 0 <= j < i ==> !Fails(CheckOrder[j], a, rules)
  }

  /** Once the base fields have converted, loading fails exactly when some
      check fails, and the error is the message of the first failing check. */
  lemma FirstFailingCheckDecides(a: JsonAdaptedElderly, rules: FieldRules)
    requires rules.convertBase(a.base).Ok?
    ensures ToModelType(a, rules).Err? <==> exists i :: 0 <= i < |CheckOrder| && Fails(CheckOrder[i], a, rules)
    ensures forall i :: FirstFailure(i, a, rules) ==>
      ToModelType(a, rules) == Err(IllegalValue(Message(CheckOrder[i], rules)))
  {
    forall i | FirstFailure(i, a, rules)
      ensures ToModelType(a, rules) == Err(IllegalValue(Message(CheckOrder[i], rules)))
    {
      if i > 0 { assert !Fails(CheckOrder[0], a, rules); }
      if i > 1 { assert !Fails(CheckOrder[1], a, rules); }
      if i > 2 { assert !Fails(CheckOrder[2], a, rules); }
      if i > 3 { assert !Fails(CheckOrder[3], a, rules); }
      if i > 4 { assert !Fails(CheckOrder[4], a, rules); }
    }
  }

  /** A missing nric is reported by name, whatever the other fields hold. */
  lemma MissingNricReported(a: JsonAdaptedElderly, rules: FieldRules)
    requires rules.convertBase(a.base).Ok?
    requires a.nric.None?
    ensures ToModelType(a, rules) == Err(IllegalValue("Elderly's Nric field is missing!"))
  {
    assert MissingFieldMessage("Nric") == "Elderly's Nric field is missing!";
  }

  /** A missing age behind a valid nric is reported by name. */
  lemma MissingAgeReported(a: JsonAdaptedElderly, rules: FieldRules)
    requires rules.convertBase(a.base).Ok?
    requires a.nric.Some? && rules.isValidNric(a.nric.value)
    requires a.age.None?
    ensures ToModelType(a, rules) == Err(IllegalValue("Elderly's Age field is missing!"))
  {
    assert MissingFieldMessage("Age") == "Elderly's Age field is missing!";
  }

  /** A missing risk level behind a valid nric and age is reported by name. */
  lemma MissingRiskLevelReported(a: JsonAdaptedElderly, rules: FieldRules)
    requires rules.convertBase(a.base).Ok?
    requires a.nric.Some? && rules.isValidNric(a.nric.value)
    requires a.age.Some? && rules.isValidAge(a.age.value)
    requires a.riskLevel.None?
    ensures ToModelType(a, rules) == Err(IllegalValue("Elderly's RiskLevel field is missing!"))
  {
    assert MissingFieldMessage("RiskLevel") == "Elderly's RiskLevel field is missing!";
  }

  /** An invalid risk level behind a valid nric and age is reported with the
      constraint message of `Age`, not one of `RiskLevel`. */
  lemma InvalidRiskReportsAgeConstraints(a: JsonAdaptedElderly, rules: FieldRules)
    requires rules.convertBase(a.base).Ok?
    requires a.nric.Some? && rules.isValidNric(a.nric.value)
    requires a.age.Some? && rules.isValidAge(a.age.value)
    requires a.riskLevel.Some? && !rules.isValidRisk(a.riskLevel.value)
    ensures ToModelType(a, rules) == Err(IllegalValue(rules.ageConstraints))
  {
  }

  /** `JsonAdaptedElderly(Elderly)`: the base fields go through the base
      adapter and the three elderly fields are copied as text. */
  function FromElderly(e: Elderly, rules: FieldRules): (a: JsonAdaptedElderly)
    ensures a.nric == Some(e.nric.value) && a.age == Some(e.age.value)
    ensures a.riskLevel == Some(e.riskLevel.riskStatus)
  {
    JsonAdaptedElderly(rules.adaptBase(e.fields), Some(e.nric.value), Some(e.age.value), Some(e.riskLevel.riskStatus))
  }

  /** Storing and loading again gives back the same elderly record, provided
      the base adapter round-trips and the stored fields are valid. */
  lemma RoundTrip(e: Elderly, rules: FieldRules)
    requires rules.convertBase(rules.adaptBase(e.fields)) == Ok(e.fields)
    requires rules.isValidNric(e.nric.value)
    requires rules.isValidAge(e.age.value)
    requires rules.isValidRisk(e.riskLevel.riskStatus)
    ensures ToModelType(FromElderly(e, rules), rules) == Ok(e)
  {
  }
}
