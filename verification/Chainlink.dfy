/** contracts/Libraries/Chainlink.sol: conversions between tokens and dollars at oracle prices. */
module Chainlink {
  import opened Evm
  import opened Arithmetic

  const USD_DECIMALS: nat := 6

  /** A signed 256-bit value; 2^255 is UINT_MAX / 2 + 1. */
  type Int256 = x: int | -(UINT_MAX as int) <= 2 * x + 1 <= UINT_MAX

  /** What `latestRoundData` answers, and the decimals of the feed. */
  datatype Feed = Feed(decimals: nat, roundId: nat, answer: Int256, updatedAt: nat, answeredInRound: nat)

  /** The cast from int256 to uint256 wraps a negative answer around. */
  function ToUint256(x: Int256): nat {
    if x < 0 then x + UINT_MAX + 1 else x
  }

  function GetPrice(oracle: Feed): Tx<nat> {
    var _ :- Require(oracle.answeredInRound >= oracle.roundId);
    var _ :- Require(oracle.updatedAt > 0);
    Checked(ToUint256(oracle.answer))
  }

  function ConvertTokenToToken(amount0: nat, token0Decimals: nat, token1Decimals: nat,
                               oracle0: Feed, oracle1: Feed): Tx<nat>
  {
    var price0 :- GetPrice(oracle0);
    var price1 :- GetPrice(oracle1);
    var scale1 :- Exp10(token1Decimals);
    var scale0 :- Exp10(token0Decimals);
    Quotient(amount0, price0, scale1, price1, scale0)
  }

  /** (amount * price0 * scale1) / (price1 * scale0) */
  function Quotient(amount: nat, price0: nat, scale1: nat, price1: nat, scale0: nat): Tx<nat> {
    var valued :- Mul(amount, price0);
    var dividend :- Mul(valued, scale1);
    var divisor :- Mul(price1, scale0);
    Div(dividend, divisor)
  }

  /** The exponent is a sum of two uint8 values, which overflows above 255. */
  function ConvertTokenToUsd(amount: nat, tokenDecimals: nat, oracle: Feed): Tx<nat> {
    var price :- GetPrice(oracle);
    var _ :- Require(oracle.decimals + tokenDecimals <= 255);
    var divisor :- Exp10(oracle.decimals + tokenDecimals);
    var valued :- Mul(amount, price);
    var dividend :- Mul(valued, Pow10(USD_DECIMALS));
    Div(dividend, divisor)
  }

  function ConvertUsdToToken(amountUsd: nat, tokenDecimals: nat, oracle: Feed): Tx<nat> {
    var price :- GetPrice(oracle);
    var scale :- Exp10(oracle.decimals + tokenDecimals);
    var dividend :- Mul(amountUsd, scale);
    var divisor :- Mul(price, Pow10(USD_DECIMALS));
    Div(dividend, divisor)
  }

  /** A price is read whenever its round is answered and complete, whatever the answer: a
      negative one is read as at least 2^255. */
  lemma PriceDomain(oracle: Feed)
    ensures GetPrice(oracle).Done? <==> oracle.answeredInRound >= oracle.roundId && oracle.updatedAt > 0
    ensures GetPrice(oracle).Done? && oracle.answer >= 0 ==> GetPrice(oracle).value == oracle.answer
    ensures GetPrice(oracle).Done? ==> (2 * GetPrice(oracle).value > UINT_MAX <==> oracle.answer < 0)
  {
  }

  /** The overflow checks then refuse what the price check let through: at a negative answer no
      positive amount of a token with decimals is converted, and no dollars at all. */
  lemma NegativeNeverConverts(oracle: Feed, other: Feed, amount: nat, d: nat, otherDecimals: nat)
    requires oracle.answer < 0 && d > 0 && otherDecimals > 0
    ensures ConvertTokenToUsd(amount, d, oracle).Done? ==> amount == 0
    ensures ConvertUsdToToken(amount, d, oracle).Reverted?
    ensures ConvertTokenToToken(amount, d, otherDecimals, oracle, other).Done? ==> amount == 0
    ensures ConvertTokenToToken(amount, otherDecimals, d, other, oracle).Reverted?
  {
    PriceDomain(oracle);
    if GetPrice(oracle).Done? {
      var price := GetPrice(oracle).value;
      TwiceOverflows(price, amount, Pow10(USD_DECIMALS));
      TwiceOverflows(price, amount, Pow10(otherDecimals));
      TwiceOverflows(price, 1, Pow10(otherDecimals));
    }
  }

  lemma TwiceOverflows(price: nat, amount: nat, scale: nat)
    requires 2 * price > UINT_MAX && scale >= 2
    ensures price * scale > UINT_MAX
    ensures amount > 0 ==> amount * price * scale > UINT_MAX
  {
    MulMono(2, scale, price);
    if amount > 0 {
      MulMono(1, amount, price);
      MulMono(2, scale, amount * price);
    }
  }

  lemma QuotientValue(x: nat, price0: nat, scale1: nat, price1: nat, scale0: nat)
    requires Quotient(x, price0, scale1, price1, scale0).Done?
    ensures 0 < price1 * scale0 <= UINT_MAX && x * (price0 * scale1) <= UINT_MAX
    ensures Quotient(x, price0, scale1, price1, scale0).value == x * (price0 * scale1) / (price1 * scale0)
  {
    MulAssoc(x, price0, scale1);
  }

  lemma QuotientDone(x: nat, price0: nat, scale1: nat, price1: nat, scale0: nat)
    requires scale1 > 0 && x * (price0 * scale1) <= UINT_MAX && 0 < price1 * scale0 <= UINT_MAX
    ensures Quotient(x, price0, scale1, price1, scale0).Done?
  {
    var valued := x * price0;
    MulAssoc(x, price0, scale1);
    assert valued <= valued * scale1 by { MulMono(1, scale1, valued); }
  }

  lemma TokenToTokenValue(x: nat, d0: nat, d1: nat, oracle0: Feed, oracle1: Feed, price0: nat, price1: nat)
    requires GetPrice(oracle0) == Done(price0) && GetPrice(oracle1) == Done(price1)
    requires ConvertTokenToToken(x, d0, d1, oracle0, oracle1).Done?
    ensures var a, b := price0 * Pow10(d1), price1 * Pow10(d0);
            b > 0 && x * a <= UINT_MAX && b <= UINT_MAX
            && ConvertTokenToToken(x, d0, d1, oracle0, oracle1).value == x * a / b
  {
    QuotientValue(x, price0, Pow10(d1), price1, Pow10(d0));
  }

  /** The conversion goes through when its dividend and its divisor fit. */
  lemma TokenToTokenDone(x: nat, d0: nat, d1: nat, oracle0: Feed, oracle1: Feed, price0: nat, price1: nat)
    requires GetPrice(oracle0) == Done(price0) && GetPrice(oracle1) == Done(price1)
    requires Pow10(d0) <= UINT_MAX && Pow10(d1) <= UINT_MAX
    requires x * (price0 * Pow10(d1)) <= UINT_MAX && 0 < price1 * Pow10(d0) <= UINT_MAX
    ensures ConvertTokenToToken(x, d0, d1, oracle0, oracle1).Done?
  {
    QuotientDone(x, price0, Pow10(d1), price1, Pow10(d0));
  }

  /** Exactly when a token amount is converted: both prices are read, and nothing overflows or is
      divided by zero. */
  lemma TokenToTokenDomain(x: nat, d0: nat, d1: nat, oracle0: Feed, oracle1: Feed)
    ensures ConvertTokenToToken(x, d0, d1, oracle0, oracle1).Done? <==>
            && GetPrice(oracle0).Done? && GetPrice(oracle1).Done?
            && Pow10(d0) <= UINT_MAX && Pow10(d1) <= UINT_MAX
            && x * (GetPrice(oracle0).value * Pow10(d1)) <= UINT_MAX
            && 0 < GetPrice(oracle1).value * Pow10(d0) <= UINT_MAX
  {
    if GetPrice(oracle0).Done? && GetPrice(oracle1).Done? {
      var price0, price1 := GetPrice(oracle0).value, GetPrice(oracle1).value;
      if ConvertTokenToToken(x, d0, d1, oracle0, oracle1).Done? {
        TokenToTokenValue(x, d0, d1, oracle0, oracle1, price0, price1);
      } else if Pow10(d0) <= UINT_MAX && Pow10(d1) <= UINT_MAX
                && x * (price0 * Pow10(d1)) <= UINT_MAX && 0 < price1 * Pow10(d0) <= UINT_MAX {
        TokenToTokenDone(x, d0, d1, oracle0, oracle1, price0, price1);
      }
    }
  }

  /** A token amount converts to the largest amount of the other token that is worth no more. */
  lemma TokenWorth(x: nat, d0: nat, d1: nat, oracle0: Feed, oracle1: Feed, z: nat)
    requires ConvertTokenToToken(x, d0, d1, oracle0, oracle1).Done?
    ensures GetPrice(oracle0).Done? && GetPrice(oracle1).Done?
    ensures z <= ConvertTokenToToken(x, d0, d1, oracle0, oracle1).value <==>
            z * (GetPrice(oracle1).value * Pow10(d0)) <= x * (GetPrice(oracle0).value * Pow10(d1))
  {
    var price0, price1 := GetPrice(oracle0).value, GetPrice(oracle1).value;
    TokenToTokenValue(x, d0, d1, oracle0, oracle1, price0, price1);
    DivAdjoint(x * (price0 * Pow10(d1)), price1 * Pow10(d0), z);
  }

  /** Token to token and back: the way back goes through, never gains, and falls short of
      the amount by the cut fraction of the first conversion, measured in the first token. */
  lemma TokenThereAndBack(x: nat, d0: nat, d1: nat, oracle0: Feed, oracle1: Feed, price0: nat, price1: nat)
    requires GetPrice(oracle0) == Done(price0) && GetPrice(oracle1) == Done(price1)
    requires x > 0 && price0 > 0
    requires ConvertTokenToToken(x, d0, d1, oracle0, oracle1).Done?
    ensures price1 > 0
    ensures var a, b := price0 * Pow10(d1), price1 * Pow10(d0);
            var y := ConvertTokenToToken(x, d0, d1, oracle0, oracle1).value;
            var back := ConvertTokenToToken(y, d1, d0, oracle1, oracle0);
            && a > 0 && b > 0 && back.Done?
            && back.value == x - DivUp(x * a % b, a)
            && x - DivUp(b - 1, a) <= back.value <= x
  {
    var a, b := price0 * Pow10(d1), price1 * Pow10(d0);
    TokenToTokenValue(x, d0, d1, oracle0, oracle1, price0, price1);
    var y := x * a / b;
    assert a > 0 && a <= x * a by { MulMono(1, x, a); }
    RoundTripLoss(x, a, b);
    TokenToTokenDone(y, d1, d0, oracle1, oracle0, price1, price0);
    TokenToTokenValue(y, d1, d0, oracle1, oracle0, price1, price0);
  }

  /** Any amount converted there and back, by conversions that go through, never gains. */
  lemma TokenNeverGains(x: nat, d0: nat, d1: nat, oracle0: Feed, oracle1: Feed)
    requires ConvertTokenToToken(x, d0, d1, oracle0, oracle1).Done?
    requires var y := ConvertTokenToToken(x, d0, d1, oracle0, oracle1).value;
             ConvertTokenToToken(y, d1, d0, oracle1, oracle0).Done?
    ensures var y := ConvertTokenToToken(x, d0, d1, oracle0, oracle1).value;
            ConvertTokenToToken(y, d1, d0, oracle1, oracle0).value <= x
  {
    var price0, price1 := GetPrice(oracle0).value, GetPrice(oracle1).value;
    var y := ConvertTokenToToken(x, d0, d1, oracle0, oracle1).value;
    TokenToTokenValue(x, d0, d1, oracle0, oracle1, price0, price1);
    TokenToTokenValue(y, d1, d0, oracle1, oracle0, price1, price0);
    RoundTripLoss(x, price0 * Pow10(d1), price1 * Pow10(d0));
  }

  /** A larger amount never converts to less. */
  lemma TokenMonotone(x: nat, y: nat, d0: nat, d1: nat, oracle0: Feed, oracle1: Feed)
    requires x <= y && ConvertTokenToToken(y, d0, d1, oracle0, oracle1).Done?
    ensures ConvertTokenToToken(x, d0, d1, oracle0, oracle1).Done?
    ensures ConvertTokenToToken(x, d0, d1, oracle0, oracle1).value <=
            ConvertTokenToToken(y, d0, d1, oracle0, oracle1).value
  {
    var price0, price1 := GetPrice(oracle0).value, GetPrice(oracle1).value;
    var a, b := price0 * Pow10(d1), price1 * Pow10(d0);
    TokenToTokenValue(y, d0, d1, oracle0, oracle1, price0, price1);
    MulMono(x, y, a);
    TokenToTokenDone(x, d0, d1, oracle0, oracle1, price0, price1);
    TokenToTokenValue(x, d0, d1, oracle0, oracle1, price0, price1);
    DivMono(x * a, y * a, b);
  }

  lemma TokenToUsdValue(x: nat, tokenDecimals: nat, oracle: Feed)
    requires ConvertTokenToUsd(x, tokenDecimals, oracle).Done?
    ensures GetPrice(oracle).Done?
    ensures var a, b := GetPrice(oracle).value * Pow10(USD_DECIMALS), Pow10(oracle.decimals + tokenDecimals);
            && b <= UINT_MAX && x * a <= UINT_MAX
            && ConvertTokenToUsd(x, tokenDecimals, oracle).value == x * a / b
  {
    var price := GetPrice(oracle).value;
    MulAssoc(x, price, Pow10(USD_DECIMALS));
  }

  /** Exactly when a token amount is converted to dollars, and dollars to a token. */
  lemma UsdDomain(x: nat, tokenDecimals: nat, oracle: Feed)
    ensures ConvertTokenToUsd(x, tokenDecimals, oracle).Done? <==>
            && GetPrice(oracle).Done? && oracle.decimals + tokenDecimals <= 255
            && Pow10(oracle.decimals + tokenDecimals) <= UINT_MAX
            && x * (GetPrice(oracle).value * Pow10(USD_DECIMALS)) <= UINT_MAX
    ensures ConvertUsdToToken(x, tokenDecimals, oracle).Done? <==>
            && GetPrice(oracle).Done? && Pow10(oracle.decimals + tokenDecimals) <= UINT_MAX
            && x * Pow10(oracle.decimals + tokenDecimals) <= UINT_MAX
            && 0 < GetPrice(oracle).value * Pow10(USD_DECIMALS) <= UINT_MAX
  {
    if GetPrice(oracle).Done? {
      var price, scale := GetPrice(oracle).value, Pow10(USD_DECIMALS);
      MulAssoc(x, price, scale);
      MulMono(1, scale, x * price);
    }
  }

  /** A token amount converts to the most dollars it is worth, and dollars to the most tokens they
      are worth. */
  lemma UsdWorth(x: nat, tokenDecimals: nat, oracle: Feed, z: nat)
    ensures ConvertTokenToUsd(x, tokenDecimals, oracle).Done? ==>
              && GetPrice(oracle).Done?
              && (z <= ConvertTokenToUsd(x, tokenDecimals, oracle).value <==>
                    z * Pow10(oracle.decimals + tokenDecimals) <= x * (GetPrice(oracle).value * Pow10(USD_DECIMALS)))
    ensures ConvertUsdToToken(x, tokenDecimals, oracle).Done? ==>
              && GetPrice(oracle).Done?
              && (z <= ConvertUsdToToken(x, tokenDecimals, oracle).value <==>
                    z * (GetPrice(oracle).value * Pow10(USD_DECIMALS)) <= x * Pow10(oracle.decimals + tokenDecimals))
  {
    if GetPrice(oracle).Done? {
      var a, b := GetPrice(oracle).value * Pow10(USD_DECIMALS), Pow10(oracle.decimals + tokenDecimals);
      if ConvertTokenToUsd(x, tokenDecimals, oracle).Done? {
        TokenToUsdValue(x, tokenDecimals, oracle);
        DivAdjoint(x * a, b, z);
      }
      if ConvertUsdToToken(x, tokenDecimals, oracle).Done? {
        DivAdjoint(x * b, a, z);
      }
    }
  }

  /** Token to dollars and back: the way back goes through, never gains, and falls short by
      the cut fraction of a micro-dollar, measured in the token. */
  lemma UsdThereAndBack(x: nat, tokenDecimals: nat, oracle: Feed)
    requires x > 0 && ConvertTokenToUsd(x, tokenDecimals, oracle).Done?
    requires GetPrice(oracle).Done? ==> GetPrice(oracle).value > 0
    ensures GetPrice(oracle).Done?
    ensures var a, b := GetPrice(oracle).value * Pow10(USD_DECIMALS), Pow10(oracle.decimals + tokenDecimals);
            var usd := ConvertTokenToUsd(x, tokenDecimals, oracle).value;
            var back := ConvertUsdToToken(usd, tokenDecimals, oracle);
            && a > 0 && back.Done?
            && back.value == x - DivUp(x * a % b, a)
            && x - DivUp(b - 1, a) <= back.value <= x
  {
    TokenToUsdValue(x, tokenDecimals, oracle);
    var a, b := GetPrice(oracle).value * Pow10(USD_DECIMALS), Pow10(oracle.decimals + tokenDecimals);
    assert a > 0 && a <= x * a by { MulMono(1, x, a); }
    RoundTripLoss(x, a, b);
  }

  /** Dollars to token and back never gain either. */
  lemma UsdNeverGains(usd: nat, tokenDecimals: nat, oracle: Feed)
    requires ConvertUsdToToken(usd, tokenDecimals, oracle).Done?
    requires ConvertTokenToUsd(ConvertUsdToToken(usd, tokenDecimals, oracle).value, tokenDecimals, oracle).Done?
    ensures var x := ConvertUsdToToken(usd, tokenDecimals, oracle).value;
            var a, b := Pow10(oracle.decimals + tokenDecimals), GetPrice(oracle).value * Pow10(USD_DECIMALS);
            && b > 0
            && usd - DivUp(b - 1, a) <= ConvertTokenToUsd(x, tokenDecimals, oracle).value <= usd
  {
    var x := ConvertUsdToToken(usd, tokenDecimals, oracle).value;
    TokenToUsdValue(x, tokenDecimals, oracle);
    RoundTripLoss(usd, Pow10(oracle.decimals + tokenDecimals), GetPrice(oracle).value * Pow10(USD_DECIMALS));
  }
}
