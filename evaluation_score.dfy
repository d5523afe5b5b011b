/** The five evaluation grades and the number each stands for. */
module EvaluationScore {

  datatype EvaluationScore = EXCELLENT | VERY_GOOD | GOOD | AVERAGE | NEEDS_IMPROVEMENT

  /** The constants in declaration order (values()). */
  const ALL_SCORES: seq<EvaluationScore> := [EXCELLENT, VERY_GOOD, GOOD, AVERAGE, NEEDS_IMPROVEMENT]

  /** getValue: the constructor argument of each constant. */
  function GetValue(s: EvaluationScore): (v: int)
    ensures 1 <= v <= 5
    ensures s == EXCELLENT ==> v == 5
    ensures s == NEEDS_IMPROVEMENT ==> v == 1
  {
    match s
    case EXCELLENT => 5
    case VERY_GOOD => 4
    case GOOD => 3
    case AVERAGE => 2
    case NEEDS_IMPROVEMENT => 1
  }

  /**
   * values() lists every constant once, no two constants share a value,
   * and the values strictly decrease in declaration order, from 5 down to 1.
   */
  lemma ValuesDistinctAndDecreasing()
    ensures forall s :: s in ALL_SCORES
    ensures forall i, j :: 0 <= i < j < |ALL_SCORES| ==> ALL_SCORES[i] != ALL_SCORES[j]
    ensures forall i, j :: 0 <= i < j < |ALL_SCORES| ==> GetValue(ALL_SCORES[i]) > GetValue(ALL_SCORES[j])
    ensures forall a, b :: GetValue(a) == GetValue(b) ==> a == b
  {
    forall i | 0 <= i < |ALL_SCORES| ensures GetValue(ALL_SCORES[i]) == 5 - i {
    }
    forall s ensures s in ALL_SCORES {
      assert s == ALL_SCORES[5 - GetValue(s)];
    }
    forall a, b | GetValue(a) == GetValue(b) ensures a == b {
      assert a == ALL_SCORES[5 - GetValue(a)] && b == ALL_SCORES[5 - GetValue(b)];
    }
  }
}
