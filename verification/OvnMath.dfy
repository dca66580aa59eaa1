/** contracts/Libraries/OvnMath.sol: adding and removing millionths of an amount. */
module OvnMath {
  import opened Evm
  import opened Arithmetic

  const BASIS_DENOMINATOR: nat := 1_000_000

  function AddBasisPoints(amount: nat, basisPoints: nat): Tx<nat> {
    var factor :- Add(BASIS_DENOMINATOR, basisPoints);
    var product :- Mul(amount, factor);
    Div(product, BASIS_DENOMINATOR)
  }

  function ReverseAddBasisPoints(amount: nat, basisPoints: nat): Tx<nat> {
    var product :- Mul(amount, BASIS_DENOMINATOR);
    var factor :- Add(BASIS_DENOMINATOR, basisPoints);
    Div(product, factor)
  }

  function SubBasisPoints(amount: nat, basisPoints: nat): Tx<nat> {
    var factor :- Sub(BASIS_DENOMINATOR, basisPoints);
    var product :- Mul(amount, factor);
    Div(product, BASIS_DENOMINATOR)
  }

  function ReverseSubBasisPoints(amount: nat, basisPoints: nat): Tx<nat> {
    var product :- Mul(amount, BASIS_DENOMINATOR);
    var factor :- Sub(BASIS_DENOMINATOR, basisPoints);
    Div(product, factor)
  }

  /** Adding gives the largest result within the scaled amount, and goes through exactly when
      nothing overflows; so does its reverse. */
  lemma AddExact(x: nat, b: nat, z: nat)
    ensures var d := BASIS_DENOMINATOR;
            && (AddBasisPoints(x, b).Done? <==> d + b <= UINT_MAX && x * (d + b) <= UINT_MAX)
            && (AddBasisPoints(x, b).Done? ==> (z <= AddBasisPoints(x, b).value <==> z * d <= x * (d + b)))
    ensures var d := BASIS_DENOMINATOR;
            && (ReverseAddBasisPoints(x, b).Done? <==> d + b <= UINT_MAX && x * d <= UINT_MAX)
            && (ReverseAddBasisPoints(x, b).Done? ==>
                  (z <= ReverseAddBasisPoints(x, b).value <==> z * (d + b) <= x * d))
  {
    var d := BASIS_DENOMINATOR;
    var factor := d + b;
    ScaledExact(x, factor, d, z);
    ScaledExact(x, d, factor, z);
  }

  /** Removing does the same below one hundred percent; above, it underflows, and at one hundred
      percent its reverse divides by zero. */
  lemma SubExact(x: nat, b: nat, z: nat)
    ensures var d := BASIS_DENOMINATOR;
            && (SubBasisPoints(x, b).Done? <==> b <= d && x * (d - b) <= UINT_MAX)
            && (SubBasisPoints(x, b).Done? ==> (z <= SubBasisPoints(x, b).value <==> z * d <= x * (d - b)))
    ensures var d := BASIS_DENOMINATOR;
            && (ReverseSubBasisPoints(x, b).Done? <==> b < d && x * d <= UINT_MAX)
            && (ReverseSubBasisPoints(x, b).Done? ==>
                  (z <= ReverseSubBasisPoints(x, b).value <==> z * (d - b) <= x * d))
  {
    var d := BASIS_DENOMINATOR;
    if b <= d {
      var factor := d - b;
      ScaledExact(x, factor, d, z);
      if factor > 0 {
        ScaledExact(x, d, factor, z);
      }
    }
  }

  lemma ScaledExact(x: nat, factor: nat, d: nat, z: nat)
    requires d > 0
    ensures 0 <= x * factor && (z <= x * factor / d <==> z * d <= x * factor)
  {
    MulMono(0, x, factor);
    DivAdjoint(x * factor, d, z);
  }

  lemma MulDivMono(x: nat, y: nat, a: nat, b: nat)
    requires x <= y && b > 0
    ensures x * a <= y * a && x * a / b <= y * a / b
  {
    MulMono(x, y, a);
    DivMono(x * a, y * a, b);
  }

  lemma MulDivShrinks(x: nat, a: nat, b: nat)
    requires a <= b && b > 0
    ensures x * a / b <= x
  {
    MulMono(a, b, x);
    DivUnique(x * b, b, x);
    DivMono(x * a, x * b, b);
  }

  /** Adding q whole divisors does not change a remainder. */
  lemma ModShift(q: nat, n: nat, d: nat)
    requires d > 0
    ensures (q * d + n) % d == n % d
  {
    var k, r := n / d, n % d;
    assert n == k * d + r;
    assert (q + k) * d == q * d + k * d;
    DivExactly(q * d + n, d, q + k);
    assert (q * d + n) / d * d + (q * d + n) % d == q * d + n;
  }

  /** Removing what was added gives the amount back, or one less when a fraction was cut off. */
  lemma ReverseAddUndoesAdd(amount: nat, basisPoints: nat)
    requires AddBasisPoints(amount, basisPoints).Done?
    ensures var back := ReverseAddBasisPoints(AddBasisPoints(amount, basisPoints).value, basisPoints);
            && back.Done?
            && back.value == if amount * basisPoints % BASIS_DENOMINATOR == 0 then amount else amount - 1
  {
    var d := BASIS_DENOMINATOR;
    var a := d + basisPoints;
    RoundTripLoss(amount, a, d);
    assert amount * a % d == amount * basisPoints % d by {
      assert amount * basisPoints >= 0 by { MulMono(0, amount, basisPoints); }
      ModShift(amount, amount * basisPoints, d);
      assert amount * a == amount * d + amount * basisPoints;
    }
    DivUpAdjoint(amount * a % d, a, 0);
    DivUpAdjoint(amount * a % d, a, 1);
  }

  /** When two parts make a multiple of d and one is a multiple, so is the other. */
  lemma MultipleComplement(n: nat, m: nat, k: nat, d: nat)
    requires d > 0 && n + m == k * d && n % d == 0
    ensures m % d == 0
  {
    var q := n / d;
    assert n == q * d;
    assert m == (k - q) * d;
    if k < q {
      MulMono(k + 1, q, d);
    } else {
      ModShift(k - q, 0, d);
    }
  }

  /** amount * (d - b) leaves a remainder exactly when amount * b does. */
  lemma ComplementRemainder(amount: nat, b: nat, d: nat)
    requires 0 < d && b <= d
    ensures amount * (d - b) % d == 0 <==> amount * b % d == 0
  {
    var n, m := amount * (d - b), amount * b;
    assert n + m == amount * d;
    if n % d == 0 {
      MultipleComplement(n, m, amount, d);
    }
    if m % d == 0 {
      MultipleComplement(m, n, amount, d);
    }
  }

  /** Adding back what was removed never gives more than the amount; the loss is the cut
      fraction over the remaining share, rounded up, so at most 10^6 / (10^6 - b) rounded up. */
  lemma ReverseSubUndoesSub(amount: nat, basisPoints: nat)
    requires basisPoints < BASIS_DENOMINATOR && SubBasisPoints(amount, basisPoints).Done?
    ensures var d := BASIS_DENOMINATOR;
            var back := ReverseSubBasisPoints(SubBasisPoints(amount, basisPoints).value, basisPoints);
            && back.Done?
            && back.value == amount - DivUp(amount * (d - basisPoints) % d, d - basisPoints)
            && amount - DivUp(d, d - basisPoints) <= back.value <= amount
            && (back.value == amount <==> amount * basisPoints % d == 0)
  {
    var d := BASIS_DENOMINATOR;
    var a := d - basisPoints;
    RoundTripLoss(amount, a, d);
    ComplementRemainder(amount, basisPoints, d);
    DivMono(d - 1 + a - 1, d + a - 1, a);
  }

  /** At one hundred percent nothing is left and nothing can be restored; above, both revert. */
  lemma SubDomain(amount: nat, basisPoints: nat)
    ensures basisPoints == BASIS_DENOMINATOR ==>
              SubBasisPoints(amount, basisPoints) == Done(0) && ReverseSubBasisPoints(amount, basisPoints).Reverted?
    ensures basisPoints > BASIS_DENOMINATOR ==>
              SubBasisPoints(amount, basisPoints).Reverted? && ReverseSubBasisPoints(amount, basisPoints).Reverted?
    ensures SubBasisPoints(amount, basisPoints).Done? ==> SubBasisPoints(amount, basisPoints).value <= amount
  {
    if basisPoints <= BASIS_DENOMINATOR {
      MulDivShrinks(amount, BASIS_DENOMINATOR - basisPoints, BASIS_DENOMINATOR);
    }
  }

  lemma SubGoesThrough(x: nat, y: nat, b: nat)
    requires x <= y && b <= BASIS_DENOMINATOR && y * BASIS_DENOMINATOR <= UINT_MAX
    ensures SubBasisPoints(x, b).Done?
  {
    MulMono(x, y, BASIS_DENOMINATOR);
    MulMono(BASIS_DENOMINATOR - b, BASIS_DENOMINATOR, x);
  }

  /** Adding basis points and its reverse are monotone in the amount. */
  lemma AddMonotone(x: nat, y: nat, b: nat)
    requires x <= y
    ensures AddBasisPoints(y, b).Done? ==>
              AddBasisPoints(x, b).Done? && AddBasisPoints(x, b).value <= AddBasisPoints(y, b).value
    ensures ReverseAddBasisPoints(y, b).Done? ==>
              ReverseAddBasisPoints(x, b).Done?
              && ReverseAddBasisPoints(x, b).value <= ReverseAddBasisPoints(y, b).value
  {
    MulDivMono(x, y, BASIS_DENOMINATOR + b, BASIS_DENOMINATOR);
    MulDivMono(x, y, BASIS_DENOMINATOR, BASIS_DENOMINATOR + b);
  }

  /** Removing basis points and its reverse are monotone in the amount. */
  lemma SubMonotone(x: nat, y: nat, b: nat)
    requires x <= y
    ensures SubBasisPoints(y, b).Done? ==>
              SubBasisPoints(x, b).Done? && SubBasisPoints(x, b).value <= SubBasisPoints(y, b).value
    ensures ReverseSubBasisPoints(y, b).Done? ==>
              ReverseSubBasisPoints(x, b).Done?
              && ReverseSubBasisPoints(x, b).value <= ReverseSubBasisPoints(y, b).value
  {
    if b < BASIS_DENOMINATOR {
      MulDivMono(x, y, BASIS_DENOMINATOR - b, BASIS_DENOMINATOR);
      MulDivMono(x, y, BASIS_DENOMINATOR, BASIS_DENOMINATOR - b);
    }
  }
}
