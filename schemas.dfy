/**
 * The decision enum and the decision record the agent's last tool returns.
 */
module Schemas {
  import opened Wrappers

  /** `ClaimDecision`: a string enum with exactly three members. */
  datatype ClaimDecision = Uncertain | Approve | Deny

  /** The enum member's string value. */
  function DecisionValue(d: ClaimDecision): string {
    match d
    case Uncertain => "UNCERTAIN"
    case Approve => "APPROVE"
    case Deny => "DENY"
  }

  /** `ClaimDecision(s)`: the member whose value is `s`, if there is one. */
  function ParseDecision(s: string): (r: Option<ClaimDecision>)
    ensures r.Some? ==> DecisionValue(r.value) == s
    ensures r.None? ==> forall d: ClaimDecision :: DecisionValue(d) != s
  {
    if s == "UNCERTAIN" then Some(Uncertain)
    else if s == "APPROVE" then Some(Approve)
    else if s == "DENY" then Some(Deny)
    else None
  }

  /** Parsing inverts taking the value, so distinct members have distinct values. */
  lemma ParseDecisionValue(d: ClaimDecision)
    ensures ParseDecision(DecisionValue(d)) == Some(d)
  {
  }

  /** The labels in the order the confusion matrix lists them. */
  const DecisionLabels: seq<string> := ["APPROVE", "DENY", "UNCERTAIN"]

  /** A string is one of the three labels iff it parses as a member. */
  lemma LabelsAreValues(s: string)
    ensures s in DecisionLabels <==> ParseDecision(s).Some?
  {
  }

  /** `ClaimDecisionResponse`: a decision and an optional explanation. */
  datatype ClaimDecisionResponse = ClaimDecisionResponse(decision: ClaimDecision, explanation: Option<string>)
}
