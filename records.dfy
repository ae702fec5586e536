/**
 * The JSON values and per-case result records the evaluation script passes
 * between its phases.
 */
module Records {
  import opened Wrappers

  /**
   * A JSON scalar as the evaluation code inspects it. Arrays and nested
   * objects never reach a comparison, so they are left out.
   */
  datatype Value = Str(s: string) | Int(i: int) | Bool(b: bool) | Null

  /** Python truthiness of such a value. */
  predicate Truthy(v: Value) {
    match v
    case Str(s) => s != ""
    case Int(i) => i != 0
    case Bool(b) => b
    case Null => false
  }

  /** The number a JSON value stands for in Python arithmetic: `True` is 1, `False` is 0. */
  function AsNumber(v: Value): Option<int> {
    match v
    case Int(i) => Some(i)
    case Bool(b) => Some(if b then 1 else 0)
    case _ => None
  }

  /**
   * Python's `==` on such values: numbers (booleans included) compare by
   * value, so `True == 1` and `False == 0`; anything else compares only with
   * an equal value of its own kind.
   */
  predicate PyEq(a: Value, b: Value) {
    if AsNumber(a).Some? && AsNumber(b).Some? then AsNumber(a) == AsNumber(b) else a == b
  }

  /** Python's `==` on these values is an equivalence that only relates values of equal truthiness. */
  lemma PyEqIsEquivalence(a: Value, b: Value, c: Value)
    ensures PyEq(a, a)
    ensures PyEq(a, b) ==> PyEq(b, a)
    ensures PyEq(a, b) && PyEq(b, c) ==> PyEq(a, c)
    ensures PyEq(a, b) ==> (Truthy(a) <==> Truthy(b))
  {
  }

  /** It differs from structural equality exactly between a boolean and the integer 0 or 1. */
  lemma PyEqDiffers(a: Value, b: Value)
    ensures PyEq(a, b) && a != b <==>
      (a.Bool? && b.Int? && b.i == (if a.b then 1 else 0)) || (a.Int? && b.Bool? && a.i == (if b.b then 1 else 0))
    ensures PyEq(Bool(true), Int(1)) && PyEq(Int(0), Bool(false)) && !PyEq(Bool(true), Int(2))
  {
  }

  /** A decoded JSON object. */
  type JsonObject = map<string, Value>

  /** `obj.get(key, default)`. */
  function Get(obj: JsonObject, key: string, default: Value): Value {
    if key in obj then obj[key] else default
  }

  /**
   * The dictionary `process_claim` returns: either the six scored fields or
   * the three fields of an error record (`is_correct` is then `False`).
   */
  datatype CaseRecord =
    | Scored(claimNum: nat, predicted: Value, predictedExplanation: Value,
             expected: Value, expectedExplanation: Value, isCorrect: bool)
    | Failed(claimNum: nat, error: string)
  {
    /** `r.get('is_correct', False)`. */
    predicate Correct() {
      Scored? && isCorrect
    }
  }

  /** The record as the dictionary the script builds. */
  function RecordDict(r: CaseRecord): JsonObject {
    match r
    case Scored(n, p, pe, e, ee, c) =>
      map["claim_num" := Int(n), "predicted_decision" := p, "predicted_explanation" := pe,
          "expected_decision" := e, "expected_explanation" := ee, "is_correct" := Bool(c)]
    case Failed(n, err) =>
      map["claim_num" := Int(n), "error" := Str(err), "is_correct" := Bool(false)]
  }

  /** Exactly the error records carry an `error` key, and `is_correct` is read back as stored. */
  lemma RecordDictKeys(r: CaseRecord)
    ensures "error" in RecordDict(r) <==> r.Failed?
    ensures "is_correct" in RecordDict(r) && (Get(RecordDict(r), "is_correct", Bool(false)) == Bool(true) <==> r.Correct())
    ensures "claim_num" in RecordDict(r) && RecordDict(r)["claim_num"] == Int(r.claimNum)
  {
  }
}
