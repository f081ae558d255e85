/** The patient data posted to the triage endpoint: its field bounds, the extra
    temperature validator, and the way symptoms and history are written into the
    prompt sent to the language model. */
module Patient {
  import opened Wrappers
  import opened Text

  /** A request body that passed validation. */
  datatype PatientData = PatientData(
    temperature: real,       // degrees Fahrenheit
    durationHours: int,
    symptoms: seq<string>,
    age: int,                // years
    medicalHistory: Option<string>)

  datatype Field = Temperature | DurationHours | Age
  datatype Violation = BelowMinimum | AboveMaximum
  datatype FieldError = FieldError(field: Field, violation: Violation)

  const MinTemperature: real := 95.0
  const MaxTemperature: real := 110.0
  const MinDurationHours: int := 1
  const MaxDurationHours: int := 720
  const MinAge: int := 0
  const MaxAge: int := 120

  /** The request is admitted: every bounded field lies inside its closed interval. */
  predicate Admissible(temperature: real, durationHours: int, age: int) {
    MinTemperature <= temperature <= MaxTemperature
    && MinDurationHours <= durationHours <= MaxDurationHours
    && MinAge <= age <= MaxAge
  }

  /** The `ge=`/`le=` constraint of one real-valued field: at most one error. */
  function CheckReal(field: Field, v: real, lo: real, hi: real): seq<FieldError> {
    if v < lo then [FieldError(field, BelowMinimum)]
    else if v > hi then [FieldError(field, AboveMaximum)]
    else []
  }

  /** The `ge=`/`le=` constraint of one integer field: at most one error. */
  function CheckInt(field: Field, v: int, lo: int, hi: int): seq<FieldError> {
    if v < lo then [FieldError(field, BelowMinimum)]
    else if v > hi then [FieldError(field, AboveMaximum)]
    else []
  }

  /** Building `PatientData` from a request body whose fields already have the right
      types: the errors of all bounded fields, in declaration order, or the data. */
  function Validate(temperature: real, durationHours: int, symptoms: seq<string>, age: int,
                    medicalHistory: Option<string>): (r: Result<PatientData, seq<FieldError>>)
    ensures r.Ok? <==> Admissible(temperature, durationHours, age)
    ensures r.Ok? ==> r.value == PatientData(temperature, durationHours, symptoms, age, medicalHistory)
    ensures r.Err? ==> r.error != [] && |r.error| <= 3
    ensures r.Err? ==> forall e :: e in r.error ==>
      match e.field
      case Temperature => !(MinTemperature <= temperature <= MaxTemperature)
      case DurationHours => !(MinDurationHours <= durationHours <= MaxDurationHours)
      case Age => !(MinAge <= age <= MaxAge)
    ensures r.Err? && temperature > MaxTemperature ==> FieldError(Temperature, AboveMaximum) in r.error
    ensures r.Err? && temperature < MinTemperature ==> FieldError(Temperature, BelowMinimum) in r.error
    ensures r.Err? && age > MaxAge ==> FieldError(Age, AboveMaximum) in r.error
    ensures r.Err? && age < MinAge ==> FieldError(Age, BelowMinimum) in r.error
    ensures r.Err? && durationHours > MaxDurationHours ==> FieldError(DurationHours, AboveMaximum) in r.error
    ensures r.Err? && durationHours < MinDurationHours ==> FieldError(DurationHours, BelowMinimum) in r.error
  {
    var errors := CheckReal(Temperature, temperature, MinTemperature, MaxTemperature)
      + CheckInt(DurationHours, durationHours, MinDurationHours, MaxDurationHours)
      + CheckInt(Age, age, MinAge, MaxAge);
    if errors == [] then Ok(PatientData(temperature, durationHours, symptoms, age, medicalHistory))
    else Err(errors)
  }

  /** The extra `@validator('temperature')`, with its message. */
  function ValidateTemperature(v: real): (r: Result<real, string>)
    ensures r.Err? <==> !(MinTemperature <= v <= MaxTemperature)
    ensures r.Ok? ==> r.value == v
    ensures r.Err? ==> r.error == "Temperature must be between 95.0 and 110.0 Fahrenheit"
  {
    if v < 95.0 || v > 110.0 then Err("Temperature must be between 95.0 and 110.0 Fahrenheit")
    else Ok(v)
  }

  /** On data that passed the field bounds the validator never fires: it returns the
      temperature unchanged. */
  lemma ValidatorAcceptsValidated(temperature: real, durationHours: int, symptoms: seq<string>,
                                  age: int, medicalHistory: Option<string>)
    requires Validate(temperature, durationHours, symptoms, age, medicalHistory).Ok?
    ensures ValidateTemperature(temperature) == Ok(temperature)
  {
  }

  /** The symptom line of the prompt. */
  function FormatSymptoms(symptoms: seq<string>): (r: string)
    ensures symptoms == [] ==> r == "None reported"
  {
    if symptoms != [] then Join(symptoms, ", ") else "None reported"
  }

  /** The symptom line lists the symptoms in order: when no symptom itself contains
      ", ", splitting the line at ", " gives the reported symptoms back. */
  lemma FormatSymptomsRoundTrip(symptoms: seq<string>)
    requires symptoms != []
    requires forall k :: 0 <= k < |symptoms| ==> !Contains(symptoms[k], ", ")
    ensures Split(FormatSymptoms(symptoms), ", ") == symptoms
  {
    SplitJoin(symptoms);
  }

  /** The history line of the prompt: an absent or empty history reads "Not provided". */
  function FormatHistory(history: Option<string>): (r: string)
    ensures r != ""
    ensures history.Some? && history.value != "" ==> r == history.value
    ensures history.None? || history.value == "" ==> r == "Not provided"
  {
    if history.Some? && history.value != "" then history.value else "Not provided"
  }
}
