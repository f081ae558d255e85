/** The triage endpoint: obtain an assessment (from a model's reply or the rule-based
    fallback), then apply the safety rules to it in place. */
module Endpoint {
  import opened Wrappers
  import opened Text
  import opened Patient
  import opened Triage
  import opened Fence

  /** The assessment before the safety rules. `content` is the reply of the first provider
      call that did not raise, or "" when that reply is empty or every call failed. `loads`
      stands for the JSON decoder together with the field conversions of the code and the
      response model; None means the text is not a JSON object or one of its fields cannot
      be converted. */
  function AiAssessment(p: PatientData, temperatureText: string, content: string,
                        loads: string -> Option<Reply>): (r: TriageResponse)
    ensures 0.0 <= r.confidenceScore <= 1.0
    ensures WellFormed(r.severity)
    ensures content == "" ==> r == Fallback(p, temperatureText)
    ensures content != "" && (loads(ExtractJson(content)).None?
                              || FromReply(loads(ExtractJson(content)).value).None?)
            ==> r == Fallback(p, temperatureText)
    ensures content != "" && loads(ExtractJson(content)).Some?
            && FromReply(loads(ExtractJson(content)).value).Some?
            ==> r == FromReply(loads(ExtractJson(content)).value).value
  {
    if content == "" then Fallback(p, temperatureText)
    else
      match loads(ExtractJson(content))
      case None => Fallback(p, temperatureText)
      case Some(reply) =>
        match FromReply(reply)
        case None => Fallback(p, temperatureText)
        case Some(r) => r
  }

  /** An assessment object, whose severity and red flags the endpoint updates in place. */
  class Assessment {
    var severity: Severity
    var diagnosisSuggestions: seq<string>
    var recommendedAction: string
    var clinicalExplanation: string
    var redFlags: seq<string>
    var confidenceScore: real

    /** The fields as one value. */
    function Value(): TriageResponse
      reads this
    {
      TriageResponse(severity, diagnosisSuggestions, recommendedAction, clinicalExplanation,
                     redFlags, confidenceScore)
    }

    constructor (r: TriageResponse)
      ensures Value() == r
    {
      severity := r.severity;
      diagnosisSuggestions := r.diagnosisSuggestions;
      recommendedAction := r.recommendedAction;
      clinicalExplanation := r.clinicalExplanation;
      redFlags := r.redFlags;
      confidenceScore := r.confidenceScore;
    }

    /** The two safety rules: at 104°F or more a severity other than HIGH or CRITICAL
        becomes CRITICAL and one red flag is appended; a LOW severity becomes MEDIUM when
        the patient reports one of the five concerning symptoms. */
    method ApplySafetyChecks(p: PatientData)
      modifies this`severity, this`redFlags
      ensures Value() == SafetyChecked(old(Value()), p)
      ensures p.temperature >= 104.0 ==> severity == High || severity == Critical
      ensures HasCriticalSymptom(p) ==> severity != Low
      ensures redFlags == old(redFlags) || redFlags == old(redFlags) + [HighFeverFlag]
    {
      if p.temperature >= 104.0 && !(severity == High || severity == Critical) {
        severity := Critical;
        redFlags := redFlags + [HighFeverFlag];
      }
      var symptoms := LowerAll(p.symptoms);
      if AnyIn(LowerAll(SafetyCriticalSymptoms), symptoms) {
        if severity == Low {
          severity := Medium;
        }
      }
    }
  }

  /** The triage endpoint for validated patient data. */
  method TriageAssessment(p: PatientData, temperatureText: string, content: string,
                          loads: string -> Option<Reply>) returns (r: TriageResponse)
    ensures r == SafetyChecked(AiAssessment(p, temperatureText, content, loads), p)
    ensures p.temperature >= 104.0 ==> r.severity == High || r.severity == Critical
    ensures HasCriticalSymptom(p) ==> r.severity != Low
    ensures 0.0 <= r.confidenceScore <= 1.0
  {
    var assessment := new Assessment(AiAssessment(p, temperatureText, content, loads));
    assessment.ApplySafetyChecks(p);
    r := assessment.Value();
  }

  /** With no model reply the endpoint answers with the fallback assessment unchanged. */
  lemma TriageWithoutReply(p: PatientData, temperatureText: string, loads: string -> Option<Reply>)
    ensures SafetyChecked(AiAssessment(p, temperatureText, "", loads), p) == Fallback(p, temperatureText)
  {
    SafetyCheckedKeepsFallback(p, temperatureText);
  }
}
