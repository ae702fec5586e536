/**
 * The 3x3 confusion matrix over the decision labels, and the overall
 * accuracy printed under it.
 */
module Metrics {
  import opened Wrappers
  import opened Schemas
  import opened Records

  /**
   * `matrix[expected][predicted]`. The source keys it by the label strings;
   * here each label is the decision member whose value it is.
   */
  type Matrix = map<ClaimDecision, map<ClaimDecision, nat>>

  /** A row holds a cell for each of the three decisions. */
  predicate FullRow(row: map<ClaimDecision, nat>) {
    Approve in row && Deny in row && Uncertain in row
  }

  /** Both keys range over all three decisions. */
  predicate WellShaped(m: Matrix) {
    && Approve in m && Deny in m && Uncertain in m
    && FullRow(m[Approve]) && FullRow(m[Deny]) && FullRow(m[Uncertain])
  }

  /** A record is counted: no `error` key, and both decisions are truthy and one of the labels. */
  predicate Counted(r: CaseRecord) {
    && r.Scored?
    && Truthy(r.predicted) && Truthy(r.expected)
    && r.predicted.Str? && r.expected.Str?
    && r.predicted.s in DecisionLabels && r.expected.s in DecisionLabels
  }

  /** The (expected, predicted) cell a record increments, if any. */
  function CellOf(r: CaseRecord): (c: Option<(ClaimDecision, ClaimDecision)>)
    ensures c.Some? <==> Counted(r)
    ensures c.Some? ==> DecisionValue(c.value.0) == r.expected.s && DecisionValue(c.value.1) == r.predicted.s
  {
    if Counted(r) then
      LabelsAreValues(r.expected.s);
      LabelsAreValues(r.predicted.s);
      Some((ParseDecision(r.expected.s).value, ParseDecision(r.predicted.s).value))
    else None
  }

  /** The number of records of `rs` that increment cell `[e][p]`. */
  function CellCount(rs: seq<CaseRecord>, e: ClaimDecision, p: ClaimDecision): nat
    decreases |rs|
  {
    if rs == [] then 0
    else CellCount(rs[..|rs| - 1], e, p) + (if CellOf(rs[|rs| - 1]) == Some((e, p)) then 1 else 0)
  }

  /** The number of counted records. */
  function CountedCount(rs: seq<CaseRecord>): nat
    decreases |rs|
  {
    if rs == [] then 0
    else CountedCount(rs[..|rs| - 1]) + (if Counted(rs[|rs| - 1]) then 1 else 0)
  }

  /** The number of counted records whose expected and predicted labels agree. */
  function DiagonalCount(rs: seq<CaseRecord>): nat
    decreases |rs|
  {
    if rs == [] then 0
    else
      var r := rs[|rs| - 1];
      DiagonalCount(rs[..|rs| - 1]) + (if Counted(r) && r.expected == r.predicted then 1 else 0)
  }

  /** Every cell, keyed by label, set to zero. */
  const ZeroRow: map<ClaimDecision, nat> := map[Approve := 0, Deny := 0, Uncertain := 0]

  /** Adding one record to the end adds one to its own cell and nothing elsewhere. */
  lemma CellCountSnoc(rs: seq<CaseRecord>, i: nat, e: ClaimDecision, p: ClaimDecision)
    requires i < |rs|
    ensures CellCount(rs[..i + 1], e, p) == CellCount(rs[..i], e, p) + (if CellOf(rs[i]) == Some((e, p)) then 1 else 0)
  {
    assert rs[..i + 1][..i] == rs[..i];
  }

  /** `matrix[e][p] += 1` changes that one cell and keeps the shape. */
  lemma IncrementCell(m: Matrix, e: ClaimDecision, p: ClaimDecision)
    requires WellShaped(m)
    ensures e in m && p in m[e]
    ensures WellShaped(m[e := m[e][p := m[e][p] + 1]])
    ensures forall e', p' :: e' in m && p' in m[e'] ==>
      m[e := m[e][p := m[e][p] + 1]][e'][p'] == m[e'][p'] + (if e' == e && p' == p then 1 else 0)
  {
  }

  /** The matrix holds the counts of `rs`. */
  predicate Holds(m: Matrix, rs: seq<CaseRecord>) {
    WellShaped(m) && forall e, p :: e in m && p in m[e] ==> m[e][p] == CellCount(rs, e, p)
  }

  /** A record that increments no cell leaves the counts as they were. */
  lemma SkipRecord(m: Matrix, rs: seq<CaseRecord>, i: nat)
    requires i < |rs| && CellOf(rs[i]).None? && Holds(m, rs[..i])
    ensures Holds(m, rs[..i + 1])
  {
    forall e, p ensures CellCount(rs[..i + 1], e, p) == CellCount(rs[..i], e, p) {
      CellCountSnoc(rs, i, e, p);
    }
  }

  /** Incrementing the record's own cell gives the counts with the record included. */
  lemma CountRecord(m: Matrix, rs: seq<CaseRecord>, i: nat, e: ClaimDecision, p: ClaimDecision)
    requires i < |rs| && CellOf(rs[i]) == Some((e, p)) && Holds(m, rs[..i])
    ensures e in m && p in m[e] && Holds(m[e := m[e][p := m[e][p] + 1]], rs[..i + 1])
  {
    IncrementCell(m, e, p);
    forall e', p' ensures CellCount(rs[..i + 1], e', p') == CellCount(rs[..i], e', p') + (if e' == e && p' == p then 1 else 0) {
      CellCountSnoc(rs, i, e', p');
    }
  }

  /** `calculate_confusion_matrix(results)`. */
  method CalculateConfusionMatrix(results: seq<CaseRecord>) returns (matrix: Matrix)
    ensures WellShaped(matrix)
    ensures forall e, p :: e in matrix && p in matrix[e] ==> matrix[e][p] == CellCount(results, e, p)
  {
    matrix := map[Approve := ZeroRow, Deny := ZeroRow, Uncertain := ZeroRow];
    var i := 0;
    while i < |results|
      invariant 0 <= i <= |results|
      invariant Holds(matrix, results[..i])
    {
      var result := results[i];
      if result.Failed? {
        SkipRecord(matrix, results, i);
        i := i + 1;
        continue;
      }
      var predicted := result.predicted;
      var expected := result.expected;
      if Truthy(predicted) && Truthy(expected) && predicted.Str? && expected.Str?
         && predicted.s in DecisionLabels && expected.s in DecisionLabels {
        LabelsAreValues(expected.s);
        LabelsAreValues(predicted.s);
        var e, p := ParseDecision(expected.s).value, ParseDecision(predicted.s).value;
        CountRecord(matrix, results, i, e, p);
        matrix := matrix[e := matrix[e][p := matrix[e][p] + 1]];
      } else {
        SkipRecord(matrix, results, i);
      }
      i := i + 1;
    }
    assert results[..|results|] == results;
  }

  // ---------------------------------------------------------------------
  // Properties of the counts
  // ---------------------------------------------------------------------

  /** The sum of the nine cells of a count. */
  function CellSum(rs: seq<CaseRecord>): nat {
    RowSum(rs, Approve) + RowSum(rs, Deny) + RowSum(rs, Uncertain)
  }

  function RowSum(rs: seq<CaseRecord>, e: ClaimDecision): nat {
    CellCount(rs, e, Approve) + CellCount(rs, e, Deny) + CellCount(rs, e, Uncertain)
  }

  /** The three diagonal cells of a count. */
  function CellTrace(rs: seq<CaseRecord>): nat {
    CellCount(rs, Approve, Approve) + CellCount(rs, Deny, Deny) + CellCount(rs, Uncertain, Uncertain)
  }

  /** The cells add up to the number of counted records, which is at most the number of records. */
  lemma {:induction false} CellSumIsCounted(rs: seq<CaseRecord>)
    ensures CellSum(rs) == CountedCount(rs) <= |rs|
    decreases |rs|
  {
    if rs != [] {
      CellSumIsCounted(rs[..|rs| - 1]);
    }
  }

  /** The trace counts exactly the counted records on which prediction and expectation agree. */
  lemma {:induction false} TraceIsDiagonal(rs: seq<CaseRecord>)
    ensures CellTrace(rs) == DiagonalCount(rs) <= CountedCount(rs)
    decreases |rs|
  {
    if rs != [] {
      TraceIsDiagonal(rs[..|rs| - 1]);
    }
  }

  lemma {:induction false} CellCountAppend(a: seq<CaseRecord>, b: seq<CaseRecord>, e: ClaimDecision, p: ClaimDecision)
    ensures CellCount(a + b, e, p) == CellCount(a, e, p) + CellCount(b, e, p)
    decreases |b|
  {
    if b == [] {
      assert a + b == a;
    } else {
      assert (a + b)[..|a + b| - 1] == a + b[..|b| - 1];
      CellCountAppend(a, b[..|b| - 1], e, p);
    }
  }

  /** Taking out the record at `k` takes out exactly its own contribution. */
  lemma CellCountRemove(b: seq<CaseRecord>, k: nat, e: ClaimDecision, p: ClaimDecision)
    requires k < |b|
    ensures CellCount(b, e, p) == CellCount(b[..k] + b[k + 1..], e, p) + (if CellOf(b[k]) == Some((e, p)) then 1 else 0)
  {
    var b1, x, b2 := b[..k], b[k], b[k + 1..];
    assert b == (b1 + [x]) + b2;
    CellCountAppend(b1 + [x], b2, e, p);
    CellCountAppend(b1, [x], e, p);
    CellCountAppend(b1, b2, e, p);
    assert [x][..0] == [];
  }

  /** Removing one occurrence of the same element from equal multisets. */
  lemma MultisetRemove(a: seq<CaseRecord>, b: seq<CaseRecord>, k: nat)
    requires |a| > 0 && k < |b| && multiset(a) == multiset(b) && b[k] == a[|a| - 1]
    ensures multiset(a[..|a| - 1]) == multiset(b[..k] + b[k + 1..])
  {
    var x := b[k];
    assert a == a[..|a| - 1] + [x];
    assert b == b[..k] + [x] + b[k + 1..];
    assert multiset(a[..|a| - 1]) == multiset(a) - multiset{x};
    assert multiset(b[..k] + b[k + 1..]) == multiset(b) - multiset{x};
  }

  /** The counts depend only on which records there are, not on their order. */
  lemma {:induction false} CellCountPermutation(a: seq<CaseRecord>, b: seq<CaseRecord>, e: ClaimDecision, p: ClaimDecision)
    requires multiset(a) == multiset(b)
    ensures CellCount(a, e, p) == CellCount(b, e, p)
    decreases |a|
  {
    if a == [] {
      assert |b| == |multiset(b)| == 0;
    } else {
      var x := a[|a| - 1];
      assert x in multiset(b) by {
        assert a == a[..|a| - 1] + [x];
      }
      var k :| 0 <= k < |b| && b[k] == x;
      MultisetRemove(a, b, k);
      CellCountPermutation(a[..|a| - 1], b[..k] + b[k + 1..], e, p);
      CellCountRemove(b, k, e, p);
    }
  }

  // ---------------------------------------------------------------------
  // The accuracy line: trace over total, as a percentage
  // ---------------------------------------------------------------------

  /** `(correct / total * 100) if total > 0 else 0`, as an exact ratio. */
  function Accuracy(correct: nat, total: nat): (a: real)
    requires correct <= total
    ensures 0.0 <= a <= 100.0
    ensures total == 0 ==> a == 0.0
    ensures total > 0 ==> (a == 100.0 <==> correct == total)
    ensures total > 0 ==> (a == 0.0 <==> correct == 0)
  {
    if total > 0 then correct as real / total as real * 100.0 else 0.0
  }

  /** The accuracy printed under the matrix of `results`. */
  function MatrixAccuracy(results: seq<CaseRecord>): (a: real)
    ensures DiagonalCount(results) <= CountedCount(results)
    ensures a == Accuracy(DiagonalCount(results), CountedCount(results))
    ensures 0.0 <= a <= 100.0
    ensures CountedCount(results) == 0 ==> a == 0.0
  {
    CellSumIsCounted(results);
    TraceIsDiagonal(results);
    Accuracy(CellTrace(results), CellSum(results))
  }
}
