# Fever triage service: the deterministic core

This project models, in Dafny, the deterministic layer of the fever triage backend
(`fever-backend/main.py`) that surrounds its calls to language models:

- **Patient validation** — the bounds of the `PatientData` request model (temperature
  95.0–110.0 °F, fever duration 1–720 hours, age 0–120 years) and the extra temperature
  validator (`Patient.Validate`, `Patient.ValidateTemperature`).
- **Prompt formatting** — the symptom line (`", "`-joined, or "None reported") and the
  history line ("Not provided" when absent or empty) (`Patient.FormatSymptoms`,
  `Patient.FormatHistory`).
- **Rule-based fallback** — the if/elif decision table used when no model answers or its
  reply cannot be used (`Triage.Fallback`).
- **Reply handling** — stripping the reply and keeping the text of a Markdown code fence
  (`Fence.ExtractJson`), and the defaults applied to missing fields of the decoded JSON
  object (`Triage.FromReply`, `Endpoint.AiAssessment`).
- **Safety rules** — the in-place post-processing of every assessment by the triage
  endpoint: 104 °F or more forces HIGH or CRITICAL (appending one red flag when it
  upgrades), and five concerning symptoms lift LOW to MEDIUM
  (`Endpoint.Assessment.ApplySafetyChecks`, specified by `Triage.SafetyChecked`).

Module layout: `Wrappers` (Option, Result), `Text` (the Python `str` operations the code
uses: ASCII `lower()`, `strip()`, `in`, `split`, `join`, `str(n)`), `Patient`, `Fence`,
`Triage`, `Endpoint`. The severity is a datatype `Low | Medium | High | Critical | Other(text)`:
a model may answer any string, and the service passes it through unchanged.

The temperature is a Dafny `real`: the code only compares it with the thresholds 95.0,
101.0, 103.0, 104.0 and 110.0, all exact in binary floating point, so the comparisons are
modelled exactly.

The request model admits temperatures up to 110.0 °F.

A detail of the fence extraction shown by the proofs: for a reply containing "```json", the
code splits at "```json" first and then at "```". The result is the text after the first
"```json" up to the next "```" exactly when no "```json" starts one or two characters after
that closing fence, in particular whenever no fourth backtick follows it;
`Fence.FourthBacktickReply` exhibits a reply ("```json````json") where the two differ.

## Model

| member | source | states |
|---|---|---|
| `Patient.Validate` | fever-backend/main.py:51-57 | a request is accepted iff 95.0 ≤ temperature ≤ 110.0, 1 ≤ duration ≤ 720 and 0 ≤ age ≤ 120; accepted data keeps every field; each reported error names a violated field and every violated bound is reported |
| `Patient.ValidateTemperature` | fever-backend/main.py:58-62 | the temperature validator rejects exactly the temperatures outside [95.0, 110.0], with its message, and returns an accepted value unchanged |
| `Patient.ValidatorAcceptsValidated` | fever-backend/main.py:52-62 | on data that passed the field bounds the validator never fires and returns the temperature unchanged |
| `Patient.FormatSymptoms` | fever-backend/main.py:110 | an empty symptom list is written "None reported" |
| `Patient.FormatSymptomsRoundTrip` | fever-backend/main.py:110 | a non-empty symptom line lists the symptoms in order: splitting it at ", " gives them back when none contains ", " |
| `Patient.FormatHistory` | fever-backend/main.py:111 | the history line is never empty: the history itself when present and non-empty, otherwise "Not provided" |
| `Text.Lower` | fever-backend/main.py:285 | lower-casing keeps the length, maps each character by itself, leaves no upper-case letter, and leaves an already lower-case text unchanged |
| `Text.LowerAll` | fever-backend/main.py:285 | the lower-cased list has the same length, and a text is a member of it iff it is the lower-casing of some member of the original list, which is what the `in` tests of main.py:295, 302 and 612 rely on |
| `Text.LowerIdempotent` | fever-backend/main.py:612 | lower-casing twice is lower-casing once |
| `Text.Strip` | fever-backend/main.py:390 | the stripped text is the slice of the reply between a leading and a trailing run of whitespace, and it neither starts nor ends with whitespace |
| `Text.Join` | fever-backend/main.py:110 | a non-empty join is as long as all items plus one separator between each two, starts with the first item, and has the separator right after it; with `Text.SplitJoin`, splitting it at ", " gives the items back |
| `Text.IndexOf` | fever-backend/main.py:391-394 | the index returned is an occurrence with none before it, and None exactly when the text does not contain the pattern (Python's `in`) |
| `Text.Split` | fever-backend/main.py:392-394 | `split` yields at least one piece, the first being the text before the first separator; two or more pieces iff the separator occurs; no piece contains the separator |
| `Text.SplitJoin` | fever-backend/main.py:110 | joining with ", " and splitting at ", " is the identity on non-empty lists whose items do not contain ", " |
| `Text.ContainsStripped` | fever-backend/main.py:390-391 | a pattern with non-space ends occurs in the reply iff it occurs in the stripped reply |
| `Text.StripIdempotent` | fever-backend/main.py:390 | stripping a stripped text changes nothing |
| `Text.NatText` | fever-backend/main.py:318 | the symptom count is written as non-empty decimal digits without a leading zero whose value is the count |
| `Fence.ExtractJson` | fever-backend/main.py:390-394 | the text handed to the JSON decoder never contains "```" |
| `Fence.ExtractUnfenced` | fever-backend/main.py:390-394 | a reply without "```" is handed to the decoder stripped and otherwise unchanged |
| `Fence.ExtractPlainFence` | fever-backend/main.py:393-394 | with "```" but no "```json", the decoder gets the text between the first two fences |
| `Fence.ExtractJsonFence` | fever-backend/main.py:391-392 | with "```json", the decoder gets a prefix of the text after the first "```json": all of it when no "```" follows; the text up to the next "```" exactly when no "```json" starts one or two characters after that fence, so whenever no fourth backtick follows it |
| `Fence.FourthBacktickReply` | fever-backend/main.py:391-392 | on "```json````json" the decoder gets "`", not the empty text before the next "```" |
| `Triage.ParseSeverity` | fever-backend/main.py:403 | a model's severity string is kept verbatim: reading it gives a severity whose text is that string, in the canonical form |
| `Triage.ParseSeverityText` | fever-backend/main.py:65 | writing a severity and reading it back gives the same severity |
| `Triage.Fallback` | fever-backend/main.py:278-321 | the fallback always gives a documented severity, confidence 0.6, red flags exactly when HIGH or CRITICAL, and the rule-based explanation with the symptom count |
| `Triage.FallbackDecisionTable` | fever-backend/main.py:293-312 | CRITICAL iff temperature ≥ 104.0 or a lower-cased symptom is one of the four critical ones; else HIGH iff temperature ≥ 103.0, age > 65 or "rapid heartbeat"; else MEDIUM iff temperature ≥ 101.0 or more than 3 symptoms; else LOW |
| `Triage.FallbackIsHighestRule` | fever-backend/main.py:293-312 | the if/elif chain yields the highest level that any single rule asks for |
| `Triage.FallbackMonotone` | fever-backend/main.py:293-312 | a patient at least as hot, at least as old and reporting at least the same symptoms is never rated lower |
| `Triage.FallbackMonotoneInTemperature` | fever-backend/main.py:295-312 | with age and symptoms fixed, raising the temperature never lowers the fallback severity |
| `Triage.SafetyChecked` | fever-backend/main.py:604-615 | when the fever rule fires (≥ 104 °F and not HIGH or CRITICAL) the severity becomes CRITICAL and exactly one red flag is appended; otherwise LOW with a concerning symptom becomes MEDIUM, and every other severity stays as it was; so 104 °F implies HIGH or CRITICAL, a concerning symptom excludes LOW, and a documented severity never goes down; no other field changes |
| `Triage.SafetyCheckedIdempotent` | fever-backend/main.py:604-615 | applying the safety rules twice is applying them once |
| `Triage.SafetySymptomsLowerCase` | fever-backend/main.py:611-612 | lower-casing the five concerning symptom names leaves them unchanged |
| `Triage.SafetyCheckedKeepsFallback` | fever-backend/main.py:604-615 | the safety rules never change a fallback assessment |
| `Triage.FromReply` | fever-backend/main.py:402-409 | a reply is used iff its confidence (default 0.7) lies in [0, 1]; its severity is in canonical form; every field of the assessment is the reply's value when present and otherwise its default: severity MEDIUM, diagnoses ["Unable to determine"], action "Consult healthcare provider", explanation "Assessment completed", red flags [], confidence 0.7 |
| `Endpoint.AiAssessment` | fever-backend/main.py:381-417 | every assessment has a confidence in [0, 1] and a severity in canonical form; with no reply, an undecodable reply or one the response model refuses it is the fallback; with a decodable, admissible reply it is that reply's assessment |
| `Endpoint.Assessment.ApplySafetyChecks` | fever-backend/main.py:604-615 | the object's new state is the safety-checked old state: 104 °F implies HIGH or CRITICAL, a concerning symptom excludes LOW, red flags unchanged or grown by the one fever flag, other fields untouched |
| `Endpoint.TriageAssessment` | fever-backend/main.py:592-617 | the endpoint's answer is the safety-checked assessment, so 104 °F implies HIGH or CRITICAL, a concerning symptom excludes LOW, and the confidence lies in [0, 1] |
| `Endpoint.TriageWithoutReply` | fever-backend/main.py:381-383 | with no model reply the endpoint answers with the fallback assessment unchanged |

## Left out

- Calls to the language models (`call_gemini_api`, `call_ollama_api`, `call_huggingface_api`, `call_openai_api`, both `call_gemini_chat` definitions, `get_chat_response`): network I/O. Their result enters the model as the `content` parameter: the reply of the first call that did not raise, "" when that reply is empty or every call failed.
- The retry loop of `call_gemini_api`, including its wait of `2 ** attempt + 1` seconds (2, 3 and 5 seconds, where its comment says 2, 5 and 9): part of the HTTP I/O.
- The choice of provider and the order of fallback providers (main.py:335-379): orchestration of external calls gated on environment variables.
- `json.loads` and the type coercion of the response model: foreign parsing, modelled as the function parameter `loads`. For every field that the code (`float(...)` on the confidence) or the response model can convert, `loads` returns the converted value: a JSON string "0.85" or `true` as confidence becomes 0.85 or 1.0. It returns None only for what they refuse: a decoding error, a JSON value that is not an object, or a field that cannot be converted. All of these lead to the fallback.
- The catch-all exception handlers (main.py:414-417, 619-624) beyond the failures above: nothing else in the modelled code can raise.
- Python's float repr of the temperature in the fallback explanation: supplied as the parameter `temperatureText`.
- NaN and infinite temperatures: a `real` has neither.
- Text.Lower: lower-cases ASCII letters only; Python's `str.lower()` also maps non-ASCII letters, some to several characters.
- Type coercion of request fields (a string or float posted for an integer field) and missing required fields: done by the validation library before the bounds are checked.
- The prompt texts, logging, FastAPI routes, CORS, the health, provider-test and chat endpoints: web plumbing and constant strings.
- `fever-backend/firebase_admin.py`, `fever-backend/list_models.py`, `fever-backend/test_triage.py`: SDK initialisation, a network listing and an HTTP smoke client.
