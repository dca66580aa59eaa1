/** contracts/Assets/ERC20Asset.sol: an asset that holds one token and swaps it for USDX with a
    minimum taken from two oracles. */
module ERC20Asset {
  import opened Evm
  import opened Arithmetic
  import Chainlink
  import OvnMath

  /** The constants of a deployed asset and the oracle rounds it reads. */
  datatype Market = Market(usdxDecimals: nat, tokenDecimals: nat, usdx: Chainlink.Feed, token: Chainlink.Feed) {
    function UsdxToToken(usdxAmount: nat): Tx<nat> {
      Chainlink.ConvertTokenToToken(usdxAmount, usdxDecimals, tokenDecimals, usdx, token)
    }

    function TokenToUsdx(tokenAmount: nat): Tx<nat> {
      Chainlink.ConvertTokenToToken(tokenAmount, tokenDecimals, usdxDecimals, token, usdx)
    }
  }

  /** What is handed to the router: how much to sell and the least to accept. */
  datatype Order = Order(amountIn: nat, amountOutMinimum: nat)

  function InvestOrder(m: Market, usdxBalance: nat, usdxAmount: nat, slippage: nat): Tx<Order> {
    var _ :- Require(usdxBalance > 0);
    var amountIn := Min(usdxBalance, usdxAmount);
    var usdxInToken :- m.UsdxToToken(amountIn);
    var least :- OvnMath.SubBasisPoints(usdxInToken, slippage);
    Done(Order(amountIn, least))
  }

  function DivestOrder(m: Market, tokenBalance: nat, usdxAmount: nat, slippage: nat): Tx<Order> {
    var tokenAmount :- m.UsdxToToken(usdxAmount);
    var _ :- Require(tokenBalance > 0);
    var amountIn := Min(tokenBalance, tokenAmount);
    var tokenInUsdx :- m.TokenToUsdx(amountIn);
    var least :- OvnMath.SubBasisPoints(tokenInUsdx, slippage);
    Done(Order(amountIn, least))
  }

  /** The least to accept is the share of the oracles' value that the slippage leaves: the largest
      amount within it. */
  ghost predicate LeastOf(least: nat, value: nat, slippage: nat) {
    && slippage <= OvnMath.BASIS_DENOMINATOR
    && least * OvnMath.BASIS_DENOMINATOR <= value * (OvnMath.BASIS_DENOMINATOR - slippage)
    && value * (OvnMath.BASIS_DENOMINATOR - slippage) < (least + 1) * OvnMath.BASIS_DENOMINATOR
  }

  lemma LeastIsShare(value: nat, slippage: nat)
    requires OvnMath.SubBasisPoints(value, slippage).Done?
    ensures LeastOf(OvnMath.SubBasisPoints(value, slippage).value, value, slippage)
  {
    var least := OvnMath.SubBasisPoints(value, slippage).value;
    OvnMath.SubExact(value, slippage, least);
    OvnMath.SubExact(value, slippage, least + 1);
  }

  /** An investment spends the largest amount within the request and the balance, and insists on
      the value of just that, less the slippage. */
  lemma InvestOrdersExactly(m: Market, usdxBalance: nat, usdxAmount: nat, slippage: nat)
    requires InvestOrder(m, usdxBalance, usdxAmount, slippage).Done?
    ensures var order := InvestOrder(m, usdxBalance, usdxAmount, slippage).value;
            && order.amountIn <= usdxBalance && order.amountIn <= usdxAmount
            && (order.amountIn == usdxBalance || order.amountIn == usdxAmount)
            && m.UsdxToToken(order.amountIn).Done?
            && LeastOf(order.amountOutMinimum, m.UsdxToToken(order.amountIn).value, slippage)
  {
    var amountIn := Min(usdxBalance, usdxAmount);
    LeastIsShare(m.UsdxToToken(amountIn).value, slippage);
  }

  /** A divestment sells the largest amount within the balance that is worth no more than the
      request at the oracles, and insists on the value of just that, less the slippage. */
  lemma DivestOrdersExactly(m: Market, tokenBalance: nat, usdxAmount: nat, slippage: nat, z: nat)
    requires DivestOrder(m, tokenBalance, usdxAmount, slippage).Done?
    ensures Chainlink.GetPrice(m.usdx).Done? && Chainlink.GetPrice(m.token).Done?
    ensures var order := DivestOrder(m, tokenBalance, usdxAmount, slippage).value;
            var a := Chainlink.GetPrice(m.usdx).value * Pow10(m.tokenDecimals);
            var b := Chainlink.GetPrice(m.token).value * Pow10(m.usdxDecimals);
            && (z <= order.amountIn <==> z <= tokenBalance && z * b <= usdxAmount * a)
            && m.TokenToUsdx(order.amountIn).Done?
            && LeastOf(order.amountOutMinimum, m.TokenToUsdx(order.amountIn).value, slippage)
  {
    var amountIn := Min(tokenBalance, m.UsdxToToken(usdxAmount).value);
    Chainlink.TokenWorth(usdxAmount, m.usdxDecimals, m.tokenDecimals, m.usdx, m.token, z);
    LeastIsShare(m.TokenToUsdx(amountIn).value, slippage);
  }

  /** Clamped or not, the minimum protects what is sold: it is within the slippage of its worth at
      the oracles, but for one unit of USDX cut off before the slippage and one after. */
  lemma DivestProtectsSale(m: Market, tokenBalance: nat, usdxAmount: nat, slippage: nat)
    requires DivestOrder(m, tokenBalance, usdxAmount, slippage).Done?
    ensures Chainlink.GetPrice(m.usdx).Done? && Chainlink.GetPrice(m.token).Done?
    ensures var order := DivestOrder(m, tokenBalance, usdxAmount, slippage).value;
            var a := Chainlink.GetPrice(m.usdx).value * Pow10(m.tokenDecimals);
            var b := Chainlink.GetPrice(m.token).value * Pow10(m.usdxDecimals);
            var d := OvnMath.BASIS_DENOMINATOR;
            && a > 0 && slippage <= d
            && (order.amountIn * b / a) * (d - slippage) < (order.amountOutMinimum + 1) * d
  {
    var order := DivestOrder(m, tokenBalance, usdxAmount, slippage).value;
    DivestOrdersExactly(m, tokenBalance, usdxAmount, slippage, 0);
    Chainlink.TokenToTokenValue(order.amountIn, m.tokenDecimals, m.usdxDecimals, m.token, m.usdx,
                                Chainlink.GetPrice(m.token).value, Chainlink.GetPrice(m.usdx).value);
  }

  const EXAMPLE: Market :=
    Market(6, 18, Chainlink.Feed(8, 1, 100_000_000, 1, 1), Chainlink.Feed(8, 1, 200_000_000_000, 1, 1))

  /** One of a token worth 2000 USDX is held; of a request for 100 USDX a twentieth of it is sold. */
  lemma HundredRequested()
    ensures DivestOrder(EXAMPLE, 1_000_000_000_000_000_000, 100_000_000, 0) ==
            Done(Order(50_000_000_000_000_000, 100_000_000))
  {
    PowersOfTen();
    assert EXAMPLE.UsdxToToken(100_000_000) == Done(50_000_000_000_000_000);
    assert EXAMPLE.TokenToUsdx(50_000_000_000_000_000) == Done(100_000_000);
  }

  /** An investment spends no more than is held or asked for, and insists on no more than the
      oracles' value of the request. */
  lemma InvestNeverDemandsMore(m: Market, usdxBalance: nat, usdxAmount: nat, slippage: nat)
    requires InvestOrder(m, usdxBalance, usdxAmount, slippage).Done? && m.UsdxToToken(usdxAmount).Done?
    ensures var order := InvestOrder(m, usdxBalance, usdxAmount, slippage).value;
            && order.amountIn == Min(usdxBalance, usdxAmount)
            && order.amountOutMinimum <= m.UsdxToToken(usdxAmount).value
  {
    var amountIn := Min(usdxBalance, usdxAmount);
    Chainlink.TokenMonotone(amountIn, usdxAmount, m.usdxDecimals, m.tokenDecimals, m.usdx, m.token);
    OvnMath.SubDomain(m.UsdxToToken(amountIn).value, slippage);
  }

  /** For every balance clamp and every slippage, a divestment sells no more than is held and
      never insists on more USDX than was asked for. */
  lemma DivestNeverDemandsMore(m: Market, tokenBalance: nat, usdxAmount: nat, slippage: nat)
    requires DivestOrder(m, tokenBalance, usdxAmount, slippage).Done?
    ensures var order := DivestOrder(m, tokenBalance, usdxAmount, slippage).value;
            && order.amountIn <= tokenBalance
            && order.amountOutMinimum <= usdxAmount
  {
    var tokenAmount := m.UsdxToToken(usdxAmount).value;
    if tokenBalance < tokenAmount {
      PositiveInputs(m, usdxAmount);
      Chainlink.TokenThereAndBack(usdxAmount, m.usdxDecimals, m.tokenDecimals, m.usdx, m.token,
                                  Chainlink.GetPrice(m.usdx).value, Chainlink.GetPrice(m.token).value);
      Chainlink.TokenMonotone(tokenBalance, tokenAmount, m.tokenDecimals, m.usdxDecimals, m.token, m.usdx);
      OvnMath.SubDomain(m.TokenToUsdx(tokenBalance).value, slippage);
    } else {
      Chainlink.TokenNeverGains(usdxAmount, m.usdxDecimals, m.tokenDecimals, m.usdx, m.token);
      OvnMath.SubDomain(m.TokenToUsdx(tokenAmount).value, slippage);
    }
  }

  /** A conversion to a positive amount starts from a positive amount and a positive price. */
  lemma PositiveInputs(m: Market, usdxAmount: nat)
    requires m.UsdxToToken(usdxAmount).Done? && m.UsdxToToken(usdxAmount).value > 0
    ensures usdxAmount > 0 && Chainlink.GetPrice(m.usdx).value > 0
  {
    var price0, price1 := Chainlink.GetPrice(m.usdx).value, Chainlink.GetPrice(m.token).value;
    Chainlink.TokenToTokenValue(usdxAmount, m.usdxDecimals, m.tokenDecimals, m.usdx, m.token, price0, price1);
    var a, b := price0 * Pow10(m.tokenDecimals), price1 * Pow10(m.usdxDecimals);
    assert usdxAmount * a >= b by { DivAdjoint(usdxAmount * a, b, 1); }
  }

  /** While the balance covers the request, the minimum is within the slippage of the request
      less the reciprocal rate: it protects almost everything that was asked for. */
  lemma DivestProtectsRequest(m: Market, tokenBalance: nat, usdxAmount: nat, slippage: nat)
    requires DivestOrder(m, tokenBalance, usdxAmount, slippage).Done?
    requires 0 < m.UsdxToToken(usdxAmount).value <= tokenBalance
    ensures var a := Chainlink.GetPrice(m.usdx).value * Pow10(m.tokenDecimals);
            var b := Chainlink.GetPrice(m.token).value * Pow10(m.usdxDecimals);
            && a > 0 && b > 0 && DivUp(b - 1, a) <= usdxAmount
            && var least := OvnMath.SubBasisPoints(usdxAmount - DivUp(b - 1, a), slippage);
            && least.Done?
            && DivestOrder(m, tokenBalance, usdxAmount, slippage).value.amountOutMinimum >= least.value
  {
    PositiveInputs(m, usdxAmount);
    var price0, price1 := Chainlink.GetPrice(m.usdx).value, Chainlink.GetPrice(m.token).value;
    Chainlink.TokenThereAndBack(usdxAmount, m.usdxDecimals, m.tokenDecimals, m.usdx, m.token, price0, price1);
    var a, b := price0 * Pow10(m.tokenDecimals), price1 * Pow10(m.usdxDecimals);
    assert DivUp(b - 1, a) <= usdxAmount by {
      Chainlink.TokenToTokenValue(usdxAmount, m.usdxDecimals, m.tokenDecimals, m.usdx, m.token, price0, price1);
      DivAdjoint(usdxAmount * a, b, 1);
      DivUpAdjoint(b - 1, a, usdxAmount);
    }
    OvnMath.SubMonotone(usdxAmount - DivUp(b - 1, a), m.TokenToUsdx(m.UsdxToToken(usdxAmount).value).value, slippage);
  }

  /** A convertible request whose millionths fit in 256 bits is refused exactly when nothing is
      held, the slippage is above one hundred percent, or the USDX price is zero or, scaled to the
      token, does not fit. */
  lemma DivestDomain(m: Market, tokenBalance: nat, usdxAmount: nat, slippage: nat)
    requires m.UsdxToToken(usdxAmount).Done? && usdxAmount * OvnMath.BASIS_DENOMINATOR <= UINT_MAX
    ensures DivestOrder(m, tokenBalance, usdxAmount, slippage).Done? <==>
            && tokenBalance > 0 && slippage <= OvnMath.BASIS_DENOMINATOR
            && 0 < Chainlink.GetPrice(m.usdx).value * Pow10(m.tokenDecimals) <= UINT_MAX
  {
    var price0, price1 := Chainlink.GetPrice(m.usdx).value, Chainlink.GetPrice(m.token).value;
    var amountIn := Min(tokenBalance, m.UsdxToToken(usdxAmount).value);
    ConvertsBack(m, usdxAmount, amountIn);
    if m.TokenToUsdx(amountIn).Done? && slippage <= OvnMath.BASIS_DENOMINATOR {
      OvnMath.SubGoesThrough(m.TokenToUsdx(amountIn).value, usdxAmount, slippage);
    }
  }

  /** Up to what a request converts to, a token amount converts back to no more than the request,
      exactly when the divisor of the way back is positive and fits. */
  lemma ConvertsBack(m: Market, usdxAmount: nat, tokenAmount: nat)
    requires m.UsdxToToken(usdxAmount).Done? && tokenAmount <= m.UsdxToToken(usdxAmount).value
    ensures m.TokenToUsdx(tokenAmount).Done? <==>
            0 < Chainlink.GetPrice(m.usdx).value * Pow10(m.tokenDecimals) <= UINT_MAX
    ensures m.TokenToUsdx(tokenAmount).Done? ==> m.TokenToUsdx(tokenAmount).value <= usdxAmount
  {
    var price0, price1 := Chainlink.GetPrice(m.usdx).value, Chainlink.GetPrice(m.token).value;
    var d0, d1 := m.usdxDecimals, m.tokenDecimals;
    var a, b := price0 * Pow10(d1), price1 * Pow10(d0);
    Chainlink.TokenToTokenValue(usdxAmount, d0, d1, m.usdx, m.token, price0, price1);
    assert tokenAmount * b <= usdxAmount * a by {
      DivAdjoint(usdxAmount * a, b, tokenAmount);
    }
    if 0 < a <= UINT_MAX {
      Chainlink.TokenToTokenDone(tokenAmount, d1, d0, m.token, m.usdx, price1, price0);
    }
    if m.TokenToUsdx(tokenAmount).Done? {
      Chainlink.TokenToTokenValue(tokenAmount, d1, d0, m.token, m.usdx, price1, price0);
      BackWithin(tokenAmount * b, usdxAmount, a);
    }
  }

  lemma BackWithin(n: nat, x: nat, a: nat)
    requires a > 0 && n <= x * a
    ensures n / a <= x
  {
    DivMono(n, x * a, a);
    DivUnique(x * a, a, x);
  }

  /** The two balances of a deployed asset. `received` is what the router pays out, once it
      has found that it meets the minimum. */
  class Asset {
    var usdxBalance: nat
    var tokenBalance: nat

    constructor (usdxBalance: nat, tokenBalance: nat)
      ensures this.usdxBalance == usdxBalance && this.tokenBalance == tokenBalance
    {
      this.usdxBalance, this.tokenBalance := usdxBalance, tokenBalance;
    }

    method Invest(m: Market, usdxAmount: nat, slippage: nat, received: nat) returns (r: Tx<nat>)
      modifies this
      ensures var order := InvestOrder(m, old(usdxBalance), usdxAmount, slippage);
              if order.Done? && order.value.amountOutMinimum <= received
              then && r == Done(received)
                   && usdxBalance == old(usdxBalance) - order.value.amountIn
                   && tokenBalance == old(tokenBalance) + received
              else r == Reverted && unchanged(this)
    {
      var amount := usdxAmount;
      if usdxBalance == 0 {
        return Reverted;
      }
      if usdxBalance < amount {
        amount := usdxBalance;
      }
      var usdxInToken :- m.UsdxToToken(amount);
      var least :- OvnMath.SubBasisPoints(usdxInToken, slippage);
      if received < least {
        return Reverted;
      }
      usdxBalance := usdxBalance - amount;
      tokenBalance := tokenBalance + received;
      return Done(received);
    }

    /** Sells the token for USDX; what it accepts is never below the order's minimum. */
    method Divest(m: Market, usdxAmount: nat, slippage: nat, received: nat) returns (r: Tx<nat>)
      modifies this
      ensures var order := DivestOrder(m, old(tokenBalance), usdxAmount, slippage);
              if order.Done? && order.value.amountOutMinimum <= received
              then && r == Done(received)
                   && tokenBalance == old(tokenBalance) - order.value.amountIn
                   && usdxBalance == old(usdxBalance) + received
              else r == Reverted && unchanged(this)
    {
      var tokenAmount :- m.UsdxToToken(usdxAmount);
      if tokenBalance == 0 {
        return Reverted;
      }
      if tokenBalance < tokenAmount {
        tokenAmount := tokenBalance;
      }
      var tokenInUsdx :- m.TokenToUsdx(tokenAmount);
      var least :- OvnMath.SubBasisPoints(tokenInUsdx, slippage);
      if received < least {
        return Reverted;
      }
      tokenBalance := tokenBalance - tokenAmount;
      usdxBalance := usdxBalance + received;
      return Done(received);
    }
  }
}
