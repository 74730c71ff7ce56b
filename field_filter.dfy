/** `filterPerformer`: the performer fields a submission form uses, with
    every excluded or falsy field cleared. */
module FieldFilter {
  import opened Wrappers
  import opened Records

  /** The thirteen fields `filterPerformer` keeps. */
  datatype Field =
    | NameField | AliasesField | GenderField | BirthdateField | EthnicityField
    | CountryField | EyeColorField | HeightField | MeasurementsField | FakeTitsField
    | CareerLengthField | TattoosField | PiercingsField

  /** The name the exclusion list uses for a field. */
  function Key(field: Field): (k: string)
    ensures k != ""
  {
    match field
    case NameField => "name"
    case AliasesField => "aliases"
    case GenderField => "gender"
    case BirthdateField => "birthdate"
    case EthnicityField => "ethnicity"
    case CountryField => "country"
    case EyeColorField => "eye_color"
    case HeightField => "height"
    case MeasurementsField => "measurements"
    case FakeTitsField => "fake_tits"
    case CareerLengthField => "career_length"
    case TattoosField => "tattoos"
    case PiercingsField => "piercings"
  }

  /** The object `filterPerformer` returns: those thirteen fields and no others. */
  datatype FilteredPerformer = FilteredPerformer(
    name: Option<string>, aliases: Option<string>, gender: Option<Gender>,
    birthdate: Option<string>, ethnicity: Option<string>, country: Option<string>,
    eyeColor: Option<string>, height: Option<string>, measurements: Option<string>,
    fakeTits: Option<string>, careerLength: Option<string>, tattoos: Option<string>,
    piercings: Option<string>)

  /** The GraphQL enumeration values, as strings. */
  function GenderName(g: Gender): (r: string)
    ensures r != ""
  {
    match g
    case Male => "MALE"
    case Female => "FEMALE"
    case TransgenderMale => "TRANSGENDER_MALE"
    case TransgenderFemale => "TRANSGENDER_FEMALE"
    case Intersex => "INTERSEX"
    case NonBinary => "NON_BINARY"
  }

  /** The value of a field of `f`, as a string. */
  function FieldValue(f: FilteredPerformer, field: Field): Option<string>
  {
    match field
    case NameField => f.name
    case AliasesField => f.aliases
    case GenderField => if f.gender.Some? then Some(GenderName(f.gender.value)) else None
    case BirthdateField => f.birthdate
    case EthnicityField => f.ethnicity
    case CountryField => f.country
    case EyeColorField => f.eyeColor
    case HeightField => f.height
    case MeasurementsField => f.measurements
    case FakeTitsField => f.fakeTits
    case CareerLengthField => f.careerLength
    case TattoosField => f.tattoos
    case PiercingsField => f.piercings
  }

  /** The destructuring `const { name, aliases, ... } = performer`. */
  function Fields(p: Performer): FilteredPerformer
  {
    FilteredPerformer(
      Some(p.name), p.aliases, p.gender, p.birthdate, p.ethnicity, p.country, p.eyeColor,
      p.height, p.measurements, p.fakeTits, p.careerLength, p.tattoos, p.piercings)
  }

  /** `!excludedFields.includes(field) && v ? v : undefined`. */
  function Keep(field: Field, v: Option<string>, excluded: seq<string>): Option<string>
  {
    if Key(field) !in excluded && Truthy(v) then v else None
  }

  /** The same rule for the enumeration-valued gender, whose values are all truthy. */
  function KeepGender(v: Option<Gender>, excluded: seq<string>): Option<Gender>
  {
    if Key(GenderField) !in excluded && v.Some? then v else None
  }

  /** The field-by-field rule applied to the thirteen fields. */
  function Filter(f: FilteredPerformer, excluded: seq<string>): FilteredPerformer
  {
    FilteredPerformer(
      name := Keep(NameField, f.name, excluded),
      aliases := Keep(AliasesField, f.aliases, excluded),
      gender := KeepGender(f.gender, excluded),
      birthdate := Keep(BirthdateField, f.birthdate, excluded),
      ethnicity := Keep(EthnicityField, f.ethnicity, excluded),
      country := Keep(CountryField, f.country, excluded),
      eyeColor := Keep(EyeColorField, f.eyeColor, excluded),
      height := Keep(HeightField, f.height, excluded),
      measurements := Keep(MeasurementsField, f.measurements, excluded),
      fakeTits := Keep(FakeTitsField, f.fakeTits, excluded),
      careerLength := Keep(CareerLengthField, f.careerLength, excluded),
      tattoos := Keep(TattoosField, f.tattoos, excluded),
      piercings := Keep(PiercingsField, f.piercings, excluded))
  }

  /** The rule for one field: `r` holds the value `f` has there exactly when
      the field is not excluded and that value is truthy, and nothing otherwise. */
  predicate Obeys(r: FilteredPerformer, f: FilteredPerformer, excluded: seq<string>, field: Field)
  {
    FieldValue(r, field) ==
      if Key(field) !in excluded && Truthy(FieldValue(f, field)) then FieldValue(f, field) else None
  }

  lemma FilterRule(f: FilteredPerformer, excluded: seq<string>, field: Field)
    ensures Obeys(Filter(f, excluded), f, excluded, field)
  {
    match field
    case GenderField =>
    case _ =>
  }

  lemma FilterRules(f: FilteredPerformer, excluded: seq<string>)
    ensures forall field: Field :: Obeys(Filter(f, excluded), f, excluded, field)
  {
    forall field: Field ensures Obeys(Filter(f, excluded), f, excluded, field) {
      FilterRule(f, excluded, field);
    }
  }

  /** `filterPerformer`: each of the thirteen fields holds the performer's
      value exactly when the field is not excluded and the value is truthy,
      and is absent otherwise. */
  function FilterPerformer(p: Performer, excluded: seq<string>): (r: FilteredPerformer)
    ensures forall field: Field :: Obeys(r, Fields(p), excluded, field)
  {
    FilterRules(Fields(p), excluded);
    Filter(Fields(p), excluded)
  }

  /** Every field the filter leaves present is truthy and not excluded. */
  lemma FilterLeavesOnlyTruthy(f: FilteredPerformer, excluded: seq<string>, field: Field)
    ensures FieldValue(Filter(f, excluded), field).Some? ==>
      Key(field) !in excluded && FieldValue(Filter(f, excluded), field).value != ""
  {
  }

  /** Filtering twice with the same exclusions is filtering once. */
  lemma FilterIdempotent(f: FilteredPerformer, excluded: seq<string>)
    ensures Filter(Filter(f, excluded), excluded) == Filter(f, excluded)
  {
  }

  /** Passing the result of `filterPerformer` through the same filter again
      changes nothing. */
  lemma FilterPerformerIdempotent(p: Performer, excluded: seq<string>)
    ensures Filter(FilterPerformer(p, excluded), excluded) == FilterPerformer(p, excluded)
  {
    FilterIdempotent(Fields(p), excluded);
  }

  /** A named performer, gender excluded, with an empty birth date: only
      the name survives among those three fields. */
  lemma FilterExample(p: Performer)
    requires p.name == "Jane" && p.gender == Some(Female) && p.birthdate == Some("")
    ensures var r := FilterPerformer(p, ["gender"]);
      r.name == Some("Jane") && r.gender == None && r.birthdate == None
  {
  }
}
