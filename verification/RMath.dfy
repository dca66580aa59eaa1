/** contracts/Libraries/RMath.sol: multiplication and division of 27-decimal numbers. */
module RMath {
  import opened Evm
  import opened Arithmetic

  const RAY: nat := 1_000_000_000_000_000_000_000_000_000

  function CheckedMul(x: nat, y: nat): Tx<nat> {
    if y == 0 then Done(0) else Mul(x, y)
  }

  function Rmul(x: nat, y: nat): Tx<nat> {
    var product :- CheckedMul(x, y);
    Done(product / RAY)
  }

  function Rdiv(x: nat, y: nat): Tx<nat> {
    var scaled :- CheckedMul(x, RAY);
    Div(scaled, y)
  }

  function Rdivup(x: nat, y: nat): Tx<nat> {
    var scaled :- CheckedMul(x, RAY);
    var less :- Sub(y, 1);
    var sum :- Add(scaled, less);
    Div(sum, y)
  }

  /** Division reverts only for a zero divisor or an overflow of the scaled dividend; the
      division that rounds up also reverts when adding y - 1 overflows. */
  lemma Domains(x: nat, y: nat)
    ensures Rmul(x, y).Done? <==> x * y <= UINT_MAX
    ensures Rdiv(x, y).Done? <==> y > 0 && x * RAY <= UINT_MAX
    ensures Rdivup(x, y).Done? <==> y > 0 && x * RAY + y - 1 <= UINT_MAX
  {
    assert y == 0 ==> x * y == 0;
  }

  lemma RmulValue(x: nat, y: nat)
    requires Rmul(x, y).Done?
    ensures Rmul(x, y).value == x * y / RAY
  {
    assert y == 0 ==> x * y == 0;
  }

  lemma RdivupValue(x: nat, y: nat)
    requires Rdivup(x, y).Done?
    ensures y > 0 && Rdivup(x, y).value == DivUp(x * RAY, y)
  {
  }

  /** `rdivup` and `rmul` are adjoint: the least multiplier that reaches x. */
  lemma RdivupAdjoint(x: nat, y: nat, z: nat)
    requires Rdivup(x, y).Done? && Rmul(z, y).Done?
    ensures Rdivup(x, y).value <= z <==> x <= Rmul(z, y).value
  {
    RdivupValue(x, y);
    RmulValue(z, y);
    DivUpAdjoint(x * RAY, y, z);
    DivAdjoint(z * y, RAY, x);
  }

  /** `rdiv` is the greatest multiplier that stays within x units of RAY. */
  lemma RdivGreatest(x: nat, y: nat, z: nat)
    requires Rdiv(x, y).Done?
    ensures z <= Rdiv(x, y).value <==> z * y <= x * RAY
  {
    DivAdjoint(x * RAY, y, z);
  }

  /** Rounding up exceeds rounding down by one, or by nothing exactly when y divides x * RAY. */
  lemma RdivupExceedsRdiv(x: nat, y: nat)
    requires Rdivup(x, y).Done?
    ensures Rdiv(x, y).Done?
    ensures Rdivup(x, y).value == Rdiv(x, y).value + if x * RAY % y == 0 then 0 else 1
  {
    RdivupValue(x, y);
    DivUpGap(x * RAY, y);
  }

  /** Dividing and multiplying back never reverts, brackets x, and loses exactly the remainder. */
  lemma DivideThenMultiply(x: nat, y: nat)
    requires Rdivup(x, y).Done?
    ensures var down, up := Rdiv(x, y), Rdivup(x, y);
            && down.Done? && Rmul(down.value, y).Done? && Rmul(up.value, y).Done?
            && DivUp(x * RAY % y, RAY) <= x
            && Rmul(down.value, y).value == x - DivUp(x * RAY % y, RAY)
            && x <= Rmul(up.value, y).value
  {
    RdivupValue(x, y);
    var down, up := Rdiv(x, y).value, Rdivup(x, y).value;
    assert down * y <= x * RAY by { DivAdjoint(x * RAY, y, down); }
    assert up * y <= x * RAY + y - 1 by { DivAdjoint(x * RAY + y - 1, y, up); }
    Domains(down, y);
    Domains(up, y);
    RmulValue(down, y);
    RoundTrip(x, RAY, y);
    RdivupAdjoint(x, y, up);
  }

  /** Multiplying and dividing back, rounding up, never exceeds the start; it is exact when
      the rate is at least one. */
  lemma MultiplyThenDivideUp(z: nat, y: nat)
    requires Rmul(z, y).Done? && Rdivup(Rmul(z, y).value, y).Done?
    ensures Rdivup(Rmul(z, y).value, y).value <= z
    ensures y >= RAY ==> Rdivup(Rmul(z, y).value, y).value == z
  {
    var x := Rmul(z, y).value;
    RdivupAdjoint(x, y, z);
    if y >= RAY && z > 0 {
      RmulValue(z, y);
      RdivupValue(x, y);
      DivBounds(z * y, RAY);
      assert (x + 1) * RAY == x * RAY + RAY;
      assert (z - 1) * y == z * y - y;
      DivUpAdjoint(x * RAY, y, z - 1);
    }
  }
}
