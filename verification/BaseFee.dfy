/** The base fee adjustment rule and its bounds, for one block and along chains. */
module BaseFee {
  import opened Arithmetic
  import opened Evm

  function GasTarget(gasLimit: nat, elasticity: nat): nat
    requires elasticity >= 1
  {
    gasLimit / elasticity
  }

  /** How far the fee moves for a distance `delta` between gas used and target. */
  function Step(fee: nat, delta: nat, target: nat, denominator: nat): nat
    requires target >= 1 && denominator >= 1
  {
    fee * delta / target / denominator
  }

  /** `None` when the computation raises: negative arguments, or a target or denominator that is not positive. */
  function NextBaseFee(fee: int, used: int, target: int, denominator: int): (r: Option<nat>)
    ensures r.Some? <==> fee >= 0 && used >= 0 && target > 0 && denominator > 0
  {
    if fee < 0 || used < 0 || target <= 0 || denominator <= 0 then None
    else if used == target then Some(fee)
    else if used > target then Some(fee + Max(Step(fee, used - target, target, denominator), 1))
    else Some(Max(fee - Step(fee, target - used, target, denominator), 0))
  }

  // ---------------------------------------------------------------------------------------------
  // Division facts
  // ---------------------------------------------------------------------------------------------

  lemma StepMonotone(fee: nat, d1: nat, d2: nat, target: nat, denominator: nat)
    requires d1 <= d2 && target >= 1 && denominator >= 1
    ensures Step(fee, d1, target, denominator) <= Step(fee, d2, target, denominator)
  {
    MulLe(fee, d1, d2);
    DivMonotone(fee * d1, fee * d2, target);
    DivMonotone(fee * d1 / target, fee * d2 / target, denominator);
  }

  /** Within one target's distance the fee moves by at most one part in `denominator`. */
  lemma StepBound(fee: nat, delta: nat, target: nat, denominator: nat)
    requires delta <= target && target >= 1 && denominator >= 1
    ensures Step(fee, delta, target, denominator) <= fee / denominator <= fee
  {
    StepMonotone(fee, delta, target, target, denominator);
    MulDiv(fee, target);
    DivMonotone(fee, fee * denominator, denominator);
    MulDiv(fee, denominator);
  }

  // ---------------------------------------------------------------------------------------------
  // One block
  // ---------------------------------------------------------------------------------------------

  /** A quotient of a quotient, as the two inequalities that fix it. */
  lemma StepMeaning(fee: nat, delta: nat, target: nat, denominator: nat)
    requires target >= 1 && denominator >= 1
    ensures var q := Step(fee, delta, target, denominator);
      q * (target * denominator) <= fee * delta < (q + 1) * (target * denominator)
  {
    var x := fee * delta;
    QuotientFacts(x, target);
    QuotientFacts(x / target, denominator);
    TwoSteps(x, x / target, x / target / denominator, target, denominator);
  }

  lemma QuotientFacts(x: nat, d: nat)
    requires d >= 1
    ensures x / d >= 0 && x / d * d <= x < (x / d + 1) * d
  {
    assert x == d * (x / d) + x % d;
  }

  lemma TwoSteps(x: nat, p: nat, q: nat, a: nat, b: nat)
    requires p * a <= x < (p + 1) * a && q * b <= p < (q + 1) * b
    ensures q * (a * b) <= x < (q + 1) * (a * b)
  {
    MulLe(a, q * b, p);
    MulLe(a, p + 1, (q + 1) * b);
    Regroup(q, a, b);
    Regroup(q + 1, a, b);
  }

  lemma Regroup(q: nat, a: nat, b: nat)
    ensures q * (a * b) == q * b * a
  {
  }

  /** The move of the fee in full: it rises by the largest n with n parts in `target * denominator` of the fee for every unit
      of gas above the target, though by at least one, and falls by the largest such n for the gas missing to it. */
  lemma FeeExact(fee: nat, used: nat, target: nat, denominator: nat)
    requires target >= 1 && denominator >= 1
    ensures var next := NextBaseFee(fee, used, target, denominator); var part := target * denominator;
      && next.Some? && (used == target ==> next.value == fee)
      && (used > target ==>
            var n := next.value - fee;
            && n >= 1 && fee * (used - target) < (n + 1) * part && (n > 1 ==> n * part <= fee * (used - target)))
      && (used < target ==>
            var n := fee - next.value;
            n >= 0 && n * part <= fee * (target - used) < (n + 1) * part)
  {
    if used > target {
      StepMeaning(fee, used - target, target, denominator);
      MulLe(target * denominator, 1, 2);
    } else if used < target {
      StepMeaning(fee, target - used, target, denominator);
      StepBound(fee, target - used, target, denominator);
    }
  }

  /** More gas used never lowers the next fee. */
  lemma FeeMonotone(fee: int, u1: int, u2: int, target: int, denominator: int)
    requires u1 <= u2 && NextBaseFee(fee, u1, target, denominator).Some?
    ensures NextBaseFee(fee, u2, target, denominator).Some?
    ensures NextBaseFee(fee, u1, target, denominator).value <= NextBaseFee(fee, u2, target, denominator).value
  {
    hide Step;
    if u1 > target {
      StepMonotone(fee, u1 - target, u2 - target, target, denominator);
    } else if u2 < target {
      StepMonotone(fee, target - u2, target - u1, target, denominator);
    }
  }

  /** The fee stands still at the target, rises by at least one above it, and never rises below it. */
  lemma FeeDirection(fee: int, used: int, target: int, denominator: int)
    requires NextBaseFee(fee, used, target, denominator).Some?
    ensures var next := NextBaseFee(fee, used, target, denominator).value;
      && (used == target ==> next == fee) && (used > target ==> next > fee) && (used < target ==> next <= fee)
  {
  }

  /** Up to twice the target, one block changes the fee by at most one part in `denominator`, or by one. */
  lemma FeeBounds(fee: int, used: int, target: int, denominator: int)
    requires NextBaseFee(fee, used, target, denominator).Some? && used <= 2 * target
    ensures var next := NextBaseFee(fee, used, target, denominator).value;
      fee - fee / denominator <= next <= fee + Max(1, fee / denominator)
  {
    hide Step;
    if used != target {
      StepBound(fee, if used > target then used - target else target - used, target, denominator);
    }
  }

  /** The bounds are met: an empty block takes the full share off, twice the target adds it. */
  lemma FeeExtremes(fee: nat, target: nat, denominator: nat)
    requires target >= 1 && denominator >= 1
    ensures NextBaseFee(fee, 0, target, denominator) == Some(fee - fee / denominator)
    ensures NextBaseFee(fee, 2 * target, target, denominator) == Some(fee + Max(1, fee / denominator))
  {
    StepBound(fee, target, target, denominator);
    MulDiv(fee, target);
  }

  /** Whatever the gas used, a fee at or above `denominator - 1` stays there, and a lower one does not fall at all. */
  lemma FeeFloor(fee: int, used: int, target: int, denominator: int)
    requires NextBaseFee(fee, used, target, denominator).Some?
    ensures NextBaseFee(fee, used, target, denominator).value >= (if fee < denominator - 1 then fee else denominator - 1)
  {
    hide Step;
    if used < target {
      StepBound(fee, target - used, target, denominator);
      ShareFloor(fee, denominator);
    }
  }

  lemma ShareFloor(fee: nat, denominator: nat)
    requires denominator >= 1
    ensures fee - fee / denominator >= (if fee < denominator - 1 then fee else denominator - 1)
  {
    var q := fee / denominator;
    assert fee == denominator * q + fee % denominator;
    if q >= 1 {
      ProductAtLeast(denominator - 1, q);
    }
  }

  lemma ProductAtLeast(a: nat, q: nat)
    requires q >= 1
    ensures (a + 1) * q - q >= a
  {
    assert (a + 1) * q - q == a * q;
    MulLe(a, 1, q);
  }
}
