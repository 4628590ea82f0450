/** The one-sided squared penalties that `minimize` and `maximize` criteria add to the
    objective, as integer functions of a group's scaled sum and its scaled target. */
module Penalty {

  function Max(a: int, b: int): int { if a >= b then a else b }

  /** `max(0, groupSum - targetSum)²`: only an overshoot above the target costs. */
  function MinimizePenalty(groupSum: int, targetSum: int): (r: int)
    ensures r >= 0
    ensures r == 0 <==> groupSum <= targetSum
    ensures groupSum > targetSum ==> r >= groupSum - targetSum
  {
    var p := Max(0, groupSum - targetSum);
    p * p
  }

  /** `max(0, targetSum - groupSum)²`: only a shortfall below the target costs. */
  function MaximizePenalty(groupSum: int, targetSum: int): (r: int)
    ensures r >= 0
    ensures r == 0 <==> targetSum <= groupSum
    ensures groupSum < targetSum ==> r >= targetSum - groupSum
  {
    var p := Max(0, targetSum - groupSum);
    p * p
  }

  /** The two penalties mirror each other around the target. */
  lemma PenaltiesMirror(groupSum: int, targetSum: int)
    ensures MaximizePenalty(groupSum, targetSum) == MinimizePenalty(2 * targetSum - groupSum, targetSum)
  {
  }

  /** A larger overshoot never costs less. */
  lemma MinimizePenaltyMonotone(a: int, b: int, targetSum: int)
    requires a <= b
    ensures MinimizePenalty(a, targetSum) <= MinimizePenalty(b, targetSum)
  {
    var pa, pb := Max(0, a - targetSum), Max(0, b - targetSum);
    assert 0 <= pa <= pb;
    assert pa * pa <= pa * pb <= pb * pb;
  }

  /** A larger shortfall never costs less. */
  lemma MaximizePenaltyMonotone(a: int, b: int, targetSum: int)
    requires a <= b
    ensures MaximizePenalty(b, targetSum) <= MaximizePenalty(a, targetSum)
  {
    var pa, pb := Max(0, targetSum - a), Max(0, targetSum - b);
    assert 0 <= pb <= pa;
    assert pb * pb <= pb * pa <= pa * pa;
  }

  /** Why the penalty is squared: one group deviating by d1 + d2 costs at least as much as two
      groups deviating by d1 and d2. */
  lemma SquaredPenaltyPrefersSpread(targetSum: int, d1: nat, d2: nat)
    ensures MinimizePenalty(targetSum + d1, targetSum) + MinimizePenalty(targetSum + d2, targetSum)
            <= MinimizePenalty(targetSum + d1 + d2, targetSum)
  {
    assert Max(0, d1 + d2) == d1 + d2;
    assert (d1 + d2) * (d1 + d2) == d1 * d1 + 2 * d1 * d2 + d2 * d2;
    assert 0 <= d1 * d2;
  }
}
