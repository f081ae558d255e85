/** The assessment returned by the triage endpoint, the rule-based fallback that
    produces one when no language model answers, the safety rules applied to every
    assessment, and the defaults used when the model's JSON reply omits a field. */
module Triage {
  import opened Wrappers
  import opened Text
  import opened Patient

  // ---------------------------------------------------------------------------
  // Severity

  /** The severity string of an assessment. The four documented levels have their own
      constructors; anything else a model replies is kept verbatim in `Other`. */
  datatype Severity = Low | Medium | High | Critical | Other(text: string)

  function SeverityText(s: Severity): string {
    match s
    case Low => "LOW"
    case Medium => "MEDIUM"
    case High => "HIGH"
    case Critical => "CRITICAL"
    case Other(t) => t
  }

  /** `Other` never carries one of the four documented names. */
  predicate WellFormed(s: Severity) {
    s.Other? ==> s.text !in {"LOW", "MEDIUM", "HIGH", "CRITICAL"}
  }

  /** Reading the severity string of a reply. */
  function ParseSeverity(t: string): (s: Severity)
    ensures WellFormed(s)
    ensures SeverityText(s) == t
  {
    if t == "LOW" then Low
    else if t == "MEDIUM" then Medium
    else if t == "HIGH" then High
    else if t == "CRITICAL" then Critical
    else Other(t)
  }

  /** Writing a severity and reading it back gives the same severity. */
  lemma ParseSeverityText(s: Severity)
    requires WellFormed(s)
    ensures ParseSeverity(SeverityText(s)) == s
  {
  }

  predicate Known(s: Severity) {
    !s.Other?
  }

  /** Position in the order LOW < MEDIUM < HIGH < CRITICAL. */
  function Rank(s: Severity): (n: nat)
    requires Known(s)
    ensures n <= 3
  {
    match s
    case Low => 0
    case Medium => 1
    case High => 2
    case Critical => 3
  }

  function OfRank(n: nat): (s: Severity)
    requires n <= 3
    ensures Known(s) && Rank(s) == n
  {
    if n == 0 then Low else if n == 1 then Medium else if n == 2 then High else Critical
  }

  function Max(a: nat, b: nat): nat {
    if a < b then b else a
  }

  // ---------------------------------------------------------------------------
  // The assessment

  datatype TriageResponse = TriageResponse(
    severity: Severity,
    diagnosisSuggestions: seq<string>,
    recommendedAction: string,
    clinicalExplanation: string,
    redFlags: seq<string>,
    confidenceScore: real)

  /** Some element of `wanted` is an element of `present` (`any(s in present for s in wanted)`). */
  predicate AnyIn(wanted: seq<string>, present: seq<string>) {
    exists i :: 0 <= i < |wanted| && wanted[i] in present
  }

  // ---------------------------------------------------------------------------
  // Rule-based fallback

  const FallbackCriticalSymptoms: seq<string> :=
    ["confusion", "stiff neck", "difficulty breathing", "chest pain"]

  /** The condition of each branch of the fallback's decision table. */
  predicate CriticalRule(p: PatientData) {
    AnyIn(FallbackCriticalSymptoms, LowerAll(p.symptoms)) || p.temperature >= 104.0
  }

  predicate HighRule(p: PatientData) {
    p.temperature >= 103.0 || p.age > 65 || "rapid heartbeat" in LowerAll(p.symptoms)
  }

  predicate MediumRule(p: PatientData) {
    p.temperature >= 101.0 || |p.symptoms| > 3
  }

  /** The explanation of a fallback assessment; `temperatureText` is the temperature as
      Python prints a float. */
  function RuleBasedExplanation(temperatureText: string, symptomCount: nat): string {
    "Rule-based assessment: Temperature " + temperatureText + "°F, " + NatText(symptomCount)
    + " symptoms. This is a simplified assessment - please consult healthcare provider for proper evaluation."
  }

  /** The assessment used when no model answers or its reply cannot be used. */
  function Fallback(p: PatientData, temperatureText: string): (r: TriageResponse)
    ensures Known(r.severity)
    ensures r.confidenceScore == 0.6
    ensures r.redFlags != [] <==> r.severity == High || r.severity == Critical
    ensures r.clinicalExplanation == RuleBasedExplanation(temperatureText, |p.symptoms|)
  {
    var symptoms := LowerAll(p.symptoms);
    var explanation := RuleBasedExplanation(temperatureText, |symptoms|);
    if AnyIn(FallbackCriticalSymptoms, symptoms) || p.temperature >= 104.0 then
      TriageResponse(Critical, ["Possible serious infection", "Requires immediate evaluation"],
        "Seek immediate emergency care - call 911", explanation,
        ["High fever", "Concerning symptoms present"], 0.6)
    else if p.temperature >= 103.0 || p.age > 65 || "rapid heartbeat" in symptoms then
      TriageResponse(High, ["Possible bacterial infection", "Flu", "Pneumonia"],
        "See healthcare provider today", explanation,
        ["High fever", "Risk factors present"], 0.6)
    else if p.temperature >= 101.0 || |symptoms| > 3 then
      TriageResponse(Medium, ["Viral infection", "Flu", "Upper respiratory infection"],
        "See healthcare provider within 24-48 hours if no improvement", explanation,
        [], 0.6)
    else
      TriageResponse(Low, ["Viral infection", "Common cold"],
        "Monitor symptoms and rest at home", explanation, [], 0.6)
  }

  /** The fallback's decision table, branch by branch. */
  lemma FallbackDecisionTable(p: PatientData, temperatureText: string)
    ensures var s := Fallback(p, temperatureText).severity;
      (s == Critical <==> CriticalRule(p))
      && (s == High <==> !CriticalRule(p) && HighRule(p))
      && (s == Medium <==> !CriticalRule(p) && !HighRule(p) && MediumRule(p))
      && (s == Low <==> !CriticalRule(p) && !HighRule(p) && !MediumRule(p))
  {
  }

  /** The level each rule asks for on its own: 3, 2 or 1 when it holds, 0 otherwise. */
  function RuleLevel(p: PatientData): (n: nat)
    ensures n <= 3
  {
    Max(if CriticalRule(p) then 3 else 0,
        Max(if HighRule(p) then 2 else 0, if MediumRule(p) then 1 else 0))
  }

  /** The if/elif chain yields the highest level any rule asks for. */
  lemma FallbackIsHighestRule(p: PatientData, temperatureText: string)
    ensures Fallback(p, temperatureText).severity == OfRank(RuleLevel(p))
  {
  }

  /** `q` reports every symptom of `p` and at least as many symptoms. */
  predicate MoreSymptoms(p: PatientData, q: PatientData) {
    |q.symptoms| >= |p.symptoms| && forall s :: s in p.symptoms ==> s in q.symptoms
  }

  /** A hotter, older patient with more symptoms is never rated lower. */
  lemma FallbackMonotone(p: PatientData, q: PatientData, temperatureText: string)
    requires p.temperature <= q.temperature && p.age <= q.age && MoreSymptoms(p, q)
    ensures Rank(Fallback(p, temperatureText).severity) <= Rank(Fallback(q, temperatureText).severity)
  {
    LowerAllGrows(p.symptoms, q.symptoms);
    if AnyIn(FallbackCriticalSymptoms, LowerAll(p.symptoms)) {
      var i :| 0 <= i < |FallbackCriticalSymptoms| && FallbackCriticalSymptoms[i] in LowerAll(p.symptoms);
      assert FallbackCriticalSymptoms[i] in LowerAll(q.symptoms);
    }
    FallbackIsHighestRule(p, temperatureText);
    FallbackIsHighestRule(q, temperatureText);
  }

  /** Raising only the temperature never lowers the fallback severity. */
  lemma FallbackMonotoneInTemperature(p: PatientData, t: real, temperatureText: string, hotterText: string)
    requires p.temperature <= t
    ensures Rank(Fallback(p, temperatureText).severity)
         <= Rank(Fallback(p.(temperature := t), hotterText).severity)
  {
  }

  /** Lower-casing keeps every symptom of a sub-list inside the lower-cased list. */
  lemma LowerAllGrows(xs: seq<string>, ys: seq<string>)
    requires forall s :: s in xs ==> s in ys
    ensures forall s :: s in LowerAll(xs) ==> s in LowerAll(ys)
  {
    forall s | s in LowerAll(xs) ensures s in LowerAll(ys) {
      var x :| x in xs && Lower(x) == s;
      assert x in ys;
    }
  }

  // ---------------------------------------------------------------------------
  // Safety rules applied to every assessment

  const SafetyCriticalSymptoms: seq<string> :=
    ["confusion", "stiff neck", "difficulty breathing", "chest pain", "rapid heartbeat"]

  const HighFeverFlag: string := "Dangerously high fever (≥104°F)"

  /** The temperature rule applies: at least 104°F and not yet HIGH or CRITICAL. */
  predicate FeverUpgrade(r: TriageResponse, p: PatientData) {
    p.temperature >= 104.0 && !(r.severity == High || r.severity == Critical)
  }

  /** The patient reports one of the five concerning symptoms, compared lower-cased. */
  predicate HasCriticalSymptom(p: PatientData) {
    AnyIn(LowerAll(SafetyCriticalSymptoms), LowerAll(p.symptoms))
  }

  /** The assessment after the safety rules. */
  function SafetyChecked(r: TriageResponse, p: PatientData): (out: TriageResponse)
    ensures p.temperature >= 104.0 ==> out.severity == High || out.severity == Critical
    ensures HasCriticalSymptom(p) ==> out.severity != Low
    ensures Known(r.severity) ==> Known(out.severity) && Rank(r.severity) <= Rank(out.severity)
    ensures r.severity.Other? ==> out.severity == r.severity || out.severity == Critical
    ensures r.severity == Low && out.severity == Medium ==> HasCriticalSymptom(p)
    ensures FeverUpgrade(r, p) ==> out.severity == Critical
    ensures !FeverUpgrade(r, p) && r.severity == Low && HasCriticalSymptom(p) ==> out.severity == Medium
    ensures !FeverUpgrade(r, p) && !(r.severity == Low && HasCriticalSymptom(p)) ==> out.severity == r.severity
    ensures out.redFlags == if FeverUpgrade(r, p) then r.redFlags + [HighFeverFlag] else r.redFlags
    ensures out.diagnosisSuggestions == r.diagnosisSuggestions
    ensures out.recommendedAction == r.recommendedAction
    ensures out.clinicalExplanation == r.clinicalExplanation
    ensures out.confidenceScore == r.confidenceScore
  {
    var afterFever :=
      if p.temperature >= 104.0 && !(r.severity == High || r.severity == Critical)
      then r.(severity := Critical, redFlags := r.redFlags + [HighFeverFlag])
      else r;
    if AnyIn(LowerAll(SafetyCriticalSymptoms), LowerAll(p.symptoms)) && afterFever.severity == Low
    then afterFever.(severity := Medium)
    else afterFever
  }

  /** Applying the safety rules a second time changes nothing. */
  lemma SafetyCheckedIdempotent(r: TriageResponse, p: PatientData)
    ensures SafetyChecked(SafetyChecked(r, p), p) == SafetyChecked(r, p)
  {
  }

  /** The symptom names are lower-cased before the comparison; they already are. */
  lemma SafetySymptomsLowerCase()
    ensures LowerAll(SafetyCriticalSymptoms) == SafetyCriticalSymptoms
  {
    forall i | 0 <= i < |SafetyCriticalSymptoms|
      ensures Lower(SafetyCriticalSymptoms[i]) == SafetyCriticalSymptoms[i]
    {
      assert IsLowerCase(SafetyCriticalSymptoms[i]);
    }
  }

  /** The safety rules never change a fallback assessment: it is already CRITICAL at
      104°F, and each of the five concerning symptoms makes it HIGH or CRITICAL. */
  lemma SafetyCheckedKeepsFallback(p: PatientData, temperatureText: string)
    ensures SafetyChecked(Fallback(p, temperatureText), p) == Fallback(p, temperatureText)
  {
    var r := Fallback(p, temperatureText);
    FallbackDecisionTable(p, temperatureText);
    if HasCriticalSymptom(p) {
      SafetySymptomsLowerCase();
      var i :| 0 <= i < |SafetyCriticalSymptoms| && SafetyCriticalSymptoms[i] in LowerAll(p.symptoms);
      if i < 4 {
        assert FallbackCriticalSymptoms[i] == SafetyCriticalSymptoms[i];
        assert CriticalRule(p);
      } else {
        assert HighRule(p);
      }
      assert r.severity != Low;
    }
  }

  // ---------------------------------------------------------------------------
  // A model's JSON reply

  /** The fields of the model's JSON object, each absent or of the expected type. */
  datatype Reply = Reply(
    severity: Option<string>,
    diagnosisSuggestions: Option<seq<string>>,
    recommendedAction: Option<string>,
    clinicalExplanation: Option<string>,
    redFlags: Option<seq<string>>,
    confidenceScore: Option<real>)

  /** The assessment built from a reply, with a default for each missing field; None
      when the confidence lies outside [0, 1] and the response model refuses it. */
  function FromReply(reply: Reply): (r: Option<TriageResponse>)
    ensures r.Some? <==> 0.0 <= reply.confidenceScore.GetOr(0.7) <= 1.0
    ensures r.Some? ==> 0.0 <= r.value.confidenceScore <= 1.0
    ensures r.Some? ==> WellFormed(r.value.severity)
    ensures r.Some? ==> SeverityText(r.value.severity) == reply.severity.GetOr("MEDIUM")
    ensures r.Some? && reply.severity.None? ==> r.value.severity == Medium
    ensures r.Some? ==> r.value.diagnosisSuggestions == reply.diagnosisSuggestions.GetOr(["Unable to determine"])
    ensures r.Some? ==> r.value.recommendedAction == reply.recommendedAction.GetOr("Consult healthcare provider")
    ensures r.Some? ==> r.value.clinicalExplanation == reply.clinicalExplanation.GetOr("Assessment completed")
    ensures r.Some? ==> r.value.redFlags == reply.redFlags.GetOr([])
    ensures r.Some? ==> r.value.confidenceScore == reply.confidenceScore.GetOr(0.7)
  {
    var confidence := reply.confidenceScore.GetOr(0.7);
    if 0.0 <= confidence <= 1.0 then
      Some(TriageResponse(
        ParseSeverity(reply.severity.GetOr("MEDIUM")),
        reply.diagnosisSuggestions.GetOr(["Unable to determine"]),
        reply.recommendedAction.GetOr("Consult healthcare provider"),
        reply.clinicalExplanation.GetOr("Assessment completed"),
        reply.redFlags.GetOr([]),
        confidence))
    else None
  }
}
