/** The arithmetic of Solidity 0.8: unsigned 256-bit values, and operations that
    revert the whole transaction when they overflow, underflow or divide by zero. */
module Evm {
  type Address = nat

  const ZERO_ADDRESS: Address := 0

  /** The largest value of type uint256, 2^256 - 1. */
  const UINT_MAX: nat := 0xffff_ffff_ffff_ffff_ffff_ffff_ffff_ffff_ffff_ffff_ffff_ffff_ffff_ffff_ffff_ffff

  /** The outcome of a call: a value, or a revert that undoes everything. */
  datatype Tx<+T> = Done(value: T) | Reverted {
    predicate IsFailure() {
      Reverted?
    }

    function PropagateFailure<U>(): Tx<U>
      requires Reverted?
    {
      Reverted
    }

    function Extract(): T
      requires Done?
    {
      value
    }
  }

  function Checked(x: int): (r: Tx<nat>)
    ensures r.Done? <==> 0 <= x <= UINT_MAX
    ensures r.Done? ==> r.value == x
  {
    if 0 <= x <= UINT_MAX then Done(x) else Reverted
  }

  /** A `require`: it lets the transaction go on, or reverts it. */
  function Require(condition: bool): Tx<()> {
    if condition then Done(()) else Reverted
  }

  function Add(x: nat, y: nat): Tx<nat> {
    Checked(x + y)
  }

  function Sub(x: nat, y: nat): Tx<nat> {
    if y <= x then Done(x - y) else Reverted
  }

  function Mul(x: nat, y: nat): Tx<nat> {
    Checked(x * y)
  }

  function Div(x: nat, y: nat): Tx<nat> {
    if y == 0 then Reverted else Done(x / y)
  }

  function Pow10(n: nat): (p: nat)
    ensures p > 0
  {
    if n == 0 then 1 else 10 * Pow10(n - 1)
  }

  lemma PowersOfTen()
    ensures Pow10(6) == 1_000_000 && Pow10(12) == 1_000_000_000_000 && Pow10(18) == 1_000_000_000_000_000_000
  {
    assert Pow10(6) == 1_000_000;
    assert Pow10(12) == 1_000_000 * Pow10(6);
    assert Pow10(18) == 1_000_000 * Pow10(12);
  }

  /** `10 ** n` as the compiler evaluates it, with an overflow check. */
  function Exp10(n: nat): Tx<nat> {
    Checked(Pow10(n))
  }

  function Min(x: nat, y: nat): (m: nat)
    ensures m <= x && m <= y && (m == x || m == y)
  {
    if x < y then x else y
  }
}
