/** contracts/Assets/DsrAsset.sol: USDX kept as shares of a DAI savings vault, and brought back
    through the peg stability module (PSM), which takes a fee in DAI.

    Assumed of the two outside contracts: a share is worth `chi` / RAY of a DAI; the vault rounds
    the value of shares down and the shares burnt by a withdrawal up; the PSM charges the USDX
    it sells, scaled to DAI, plus a `tout` fraction of that rounded down. */
module DsrAsset {
  import opened Evm
  import opened Arithmetic
  import OvnMath
  import RMath

  const WAD: nat := 1_000_000_000_000_000_000

  /** Decimals of the two tokens, and the rates quoted by the vault and by the PSM. */
  datatype Terms = Terms(usdxDecimals: nat, daiDecimals: nat, chi: nat, tout: nat) {
    function DaiToUsdx(daiAmount: nat): Tx<nat> {
      var up :- Exp10(usdxDecimals);
      var product :- Mul(daiAmount, up);
      var down :- Exp10(daiDecimals);
      Div(product, down)
    }

    function UsdxToDai(usdxAmount: nat): Tx<nat> {
      var up :- Exp10(daiDecimals);
      var product :- Mul(usdxAmount, up);
      var down :- Exp10(usdxDecimals);
      Div(product, down)
    }

    /** The DAI the PSM takes for a quantity of USDX. */
    function BuyGemCost(usdxAmount: nat): Tx<nat> {
      var scaled :- UsdxToDai(usdxAmount);
      var product :- Mul(scaled, tout);
      Add(scaled, product / WAD)
    }

    /** The USDX to ask the PSM for, so that its price plus its fee fits in `daiBalance`. */
    function Affordable(daiBalance: nat): Tx<nat> {
      var scaled :- Mul(daiBalance, WAD);
      var divisor :- Add(WAD, tout);
      var reduced :- Div(scaled, divisor);
      DaiToUsdx(reduced)
    }

    /** The shares to redeem: the request, or the whole balance when that is more. */
    function SharesToRedeem(shares: nat, usdxAmount: nat): Tx<nat> {
      var sharesAmount :- RMath.Rdiv(usdxAmount, chi);
      Done(if shares > sharesAmount then shares else sharesAmount)
    }
  }

  datatype Holdings = Holdings(usdx: nat, dai: nat, shares: nat)

  function Withdrawn(t: Terms, h: Holdings, usdxAmount: nat): Tx<(nat, nat)> {
    var _ :- Require(h.shares > 0);
    var sharesAmount :- t.SharesToRedeem(h.shares, usdxAmount);
    var assets :- RMath.Rmul(sharesAmount, t.chi);
    var burnt :- RMath.Rdivup(assets, t.chi);
    var _ :- Require(burnt <= h.shares);
    Done((assets, burnt))
  }

  function Divested(t: Terms, h: Holdings, usdxAmount: nat, slippage: nat): Tx<Holdings> {
    var (daiBalance, burnt) :- Withdrawn(t, h, usdxAmount);
    var (bought, cost) :- Exchanged(t, daiBalance, slippage);
    Done(Holdings(h.usdx + bought, h.dai + daiBalance - cost, h.shares - burnt))
  }

  /** The USDX bought with a quantity of DAI, and the DAI it costs. */
  function Exchanged(t: Terms, daiBalance: nat, slippage: nat): (r: Tx<(nat, nat)>)
    ensures r.Done? ==> r.value.1 <= daiBalance
  {
    var _ :- Require(daiBalance > 0);
    var kept :- OvnMath.SubBasisPoints(daiBalance, slippage);
    var least :- t.DaiToUsdx(kept);
    var bought :- t.Affordable(daiBalance);
    var cost :- t.BuyGemCost(bought);
    var _ :- Require(cost <= daiBalance);
    var _ :- Require(bought >= least);
    Done((bought, cost))
  }

  /** Each scaling gives the largest amount within the scaled one, and goes through exactly when
      both powers of ten and the product fit. */
  lemma ScalingExact(t: Terms, x: nat, z: nat)
    ensures var a, b := Pow10(t.usdxDecimals), Pow10(t.daiDecimals);
            && (t.DaiToUsdx(x).Done? <==> a <= UINT_MAX && b <= UINT_MAX && x * a <= UINT_MAX)
            && (t.DaiToUsdx(x).Done? ==> (z <= t.DaiToUsdx(x).value <==> z * b <= x * a))
            && (t.UsdxToDai(x).Done? <==> a <= UINT_MAX && b <= UINT_MAX && x * b <= UINT_MAX)
            && (t.UsdxToDai(x).Done? ==> (z <= t.UsdxToDai(x).value <==> z * a <= x * b))
  {
    var a, b := Pow10(t.usdxDecimals), Pow10(t.daiDecimals);
    OvnMath.ScaledExact(x, a, b, z);
    OvnMath.ScaledExact(x, b, a, z);
  }

  /** The PSM's price for USDX: its worth in DAI, and a fee on that, rounded down. */
  lemma GemCostExact(t: Terms, usdxAmount: nat, z: nat)
    requires t.BuyGemCost(usdxAmount).Done?
    ensures t.UsdxToDai(usdxAmount).Done? && t.UsdxToDai(usdxAmount).value <= t.BuyGemCost(usdxAmount).value
    ensures var scaled := t.UsdxToDai(usdxAmount).value;
            z <= t.BuyGemCost(usdxAmount).value - scaled <==> z * WAD <= scaled * t.tout
  {
    OvnMath.ScaledExact(t.UsdxToDai(usdxAmount).value, t.tout, WAD, z);
  }

  /** Scaling to USDX and back to DAI never gains, and never reverts. */
  lemma ScaleThereAndBack(t: Terms, daiAmount: nat)
    requires t.DaiToUsdx(daiAmount).Done?
    ensures var back := t.UsdxToDai(t.DaiToUsdx(daiAmount).value);
            back.Done? && back.value <= daiAmount
  {
    var a, b := Pow10(t.usdxDecimals), Pow10(t.daiDecimals);
    RoundTripLoss(daiAmount, a, b);
  }

  lemma Pow10Sum(m: nat, n: nat)
    ensures Pow10(m + n) == Pow10(m) * Pow10(n)
  {
    if m > 0 {
      Pow10Sum(m - 1, n);
      assert m + n - 1 == m - 1 + n;
      MulAssoc(10, Pow10(m - 1), Pow10(n));
    }
  }

  /** The fraction of a whole number of USDX cannot be kept when USDX is the finer token. */
  lemma OneUnitOfUsdx(t: Terms)
    requires t.usdxDecimals > t.daiDecimals
    ensures 1 * Pow10(t.daiDecimals) / Pow10(t.usdxDecimals) == 0
  {
    Pow10Sum(t.usdxDecimals - t.daiDecimals, t.daiDecimals);
    var k := Pow10(t.usdxDecimals - t.daiDecimals);
    assert k > 1;
    MulMono(2, k, Pow10(t.daiDecimals));
    DivUnique(Pow10(t.daiDecimals), Pow10(t.usdxDecimals), 0);
  }

  /** USDX to DAI and back gives every amount back exactly when DAI has at least as many decimals. */
  lemma UsdxThereAndBack(t: Terms)
    requires Pow10(t.daiDecimals) <= UINT_MAX && Pow10(t.usdxDecimals) <= UINT_MAX
    ensures t.daiDecimals >= t.usdxDecimals <==>
            forall x: nat | t.UsdxToDai(x).Done? :: t.DaiToUsdx(t.UsdxToDai(x).value) == Done(x)
  {
    if t.daiDecimals >= t.usdxDecimals {
      forall x: nat | t.UsdxToDai(x).Done?
        ensures t.DaiToUsdx(t.UsdxToDai(x).value) == Done(x)
      {
        UsdxKept(t, x);
      }
    } else {
      OneUnitOfUsdx(t);
      assert t.UsdxToDai(1) == Done(0);
      DivUnique(0, Pow10(t.daiDecimals), 0);
      assert t.DaiToUsdx(0) == Done(0);
    }
  }

  lemma UsdxKept(t: Terms, x: nat)
    requires t.daiDecimals >= t.usdxDecimals && t.UsdxToDai(x).Done?
    ensures t.DaiToUsdx(t.UsdxToDai(x).value) == Done(x)
  {
    var a, b := Pow10(t.daiDecimals), Pow10(t.usdxDecimals);
    UsdxScaled(t, x);
    var y := t.UsdxToDai(x).value;
    assert y * b == x * a;
    DivUnique(x * a, a, x);
  }

  /** With the finer DAI the conversion is exact. */
  lemma UsdxScaled(t: Terms, x: nat)
    requires t.daiDecimals >= t.usdxDecimals && t.UsdxToDai(x).Done?
    ensures t.UsdxToDai(x).value * Pow10(t.usdxDecimals) == x * Pow10(t.daiDecimals)
    ensures x <= t.UsdxToDai(x).value
  {
    var b, k := Pow10(t.usdxDecimals), Pow10(t.daiDecimals - t.usdxDecimals);
    Pow10Sum(t.daiDecimals - t.usdxDecimals, t.usdxDecimals);
    ExactQuotient(x, k, b);
    MulMono(1, k, x);
  }

  lemma ExactQuotient(x: nat, k: nat, b: nat)
    requires b > 0
    ensures x * (k * b) / b == x * k && x * (k * b) == x * k * b
  {
    MulAssoc(x, k, b);
    DivUnique(x * k * b, b, x * k);
  }

  /** The fee-reduced purchase never overspends: whatever the fee, the scaled USDX plus the fee
      on it fits in the DAI it was computed from, and computing it does not revert. */
  lemma NeverOverspends(t: Terms, daiBalance: nat)
    requires t.Affordable(daiBalance).Done?
    ensures var cost := t.BuyGemCost(t.Affordable(daiBalance).value);
            cost.Done? && cost.value <= daiBalance
  {
    AffordableScaled(t, daiBalance);
    var bought := t.Affordable(daiBalance).value;
    var scaled := t.UsdxToDai(bought).value;
    FeeFits(daiBalance, scaled, t.tout);
    CostOf(t, bought, scaled);
  }

  lemma CostOf(t: Terms, bought: nat, scaled: nat)
    requires t.UsdxToDai(bought) == Done(scaled)
    requires scaled * t.tout <= UINT_MAX && scaled + scaled * t.tout / WAD <= UINT_MAX
    ensures t.BuyGemCost(bought) == Done(scaled + scaled * t.tout / WAD)
  {
  }

  /** The purchase is as large as it can be, up to one unit: a unit more would cost all the DAI
      or more, when DAI is at least as fine as USDX. */
  lemma OneMoreCostsEverything(t: Terms, daiBalance: nat)
    requires t.daiDecimals >= t.usdxDecimals && t.Affordable(daiBalance).Done?
    requires t.BuyGemCost(t.Affordable(daiBalance).value + 1).Done?
    ensures t.BuyGemCost(t.Affordable(daiBalance).value + 1).value >= daiBalance
  {
    var fee := WAD + t.tout;
    var reduced := daiBalance * WAD / fee;
    assert t.Affordable(daiBalance) == t.DaiToUsdx(reduced);
    var more := t.DaiToUsdx(reduced).value + 1;
    var scaled := t.UsdxToDai(more).value;
    UsdxKept(t, more);
    assert scaled > reduced by {
      if scaled <= reduced {
        OvnMath.MulDivMono(scaled, reduced, Pow10(t.usdxDecimals), Pow10(t.daiDecimals));
      }
    }
    CeilingCost(daiBalance, scaled, t.tout);
  }

  lemma CeilingCost(daiBalance: nat, scaled: nat, tout: nat)
    requires scaled > daiBalance * WAD / (WAD + tout)
    ensures scaled + scaled * tout / WAD >= daiBalance
  {
    assert scaled * WAD + scaled * tout > daiBalance * WAD by {
      DivAdjoint(daiBalance * WAD, WAD + tout, scaled);
    }
    var fee := scaled * tout / WAD;
    assert scaled * tout < (fee + 1) * WAD by { DivBounds(scaled * tout, WAD); }
  }

  lemma AffordableScaled(t: Terms, daiBalance: nat)
    requires t.Affordable(daiBalance).Done?
    ensures daiBalance <= daiBalance * WAD <= UINT_MAX
    ensures var scaled := t.UsdxToDai(t.Affordable(daiBalance).value);
            scaled.Done? && scaled.value <= daiBalance * WAD / (WAD + t.tout)
  {
    var reduced := daiBalance * WAD / (WAD + t.tout);
    assert t.Affordable(daiBalance) == t.DaiToUsdx(reduced);
    ScaleThereAndBack(t, reduced);
  }

  lemma FeeFits(daiBalance: nat, scaled: nat, tout: nat)
    requires scaled <= daiBalance * WAD / (WAD + tout)
    ensures scaled + scaled * tout / WAD <= daiBalance
    ensures scaled * tout <= daiBalance * WAD
  {
    assert scaled * WAD + scaled * tout <= daiBalance * WAD by {
      DivAdjoint(daiBalance * WAD, WAD + tout, scaled);
    }
    var fee := scaled * tout / WAD;
    assert fee * WAD <= scaled * tout by { DivBounds(scaled * tout, WAD); }
  }

  /** What an exchange yields: the USDX the DAI pays for without the fee, at the PSM's price with the
      fee, which the DAI covers; a unit more would cost all the DAI or more, when DAI is at least as
      fine as USDX. It is what the slippage leaves, or more. */
  lemma ExchangeYields(t: Terms, daiBalance: nat, slippage: nat, z: nat)
    requires Exchanged(t, daiBalance, slippage).Done?
    ensures var (bought, cost) := Exchanged(t, daiBalance, slippage).value;
            && t.BuyGemCost(bought) == Done(cost) && cost <= daiBalance
            && (z <= bought <==>
                  z * Pow10(t.daiDecimals) <= daiBalance * WAD / (WAD + t.tout) * Pow10(t.usdxDecimals))
            && (t.daiDecimals >= t.usdxDecimals && t.BuyGemCost(bought + 1).Done? ==>
                  t.BuyGemCost(bought + 1).value >= daiBalance)
            && OvnMath.SubBasisPoints(daiBalance, slippage).Done?
            && t.DaiToUsdx(OvnMath.SubBasisPoints(daiBalance, slippage).value).Done?
            && t.DaiToUsdx(OvnMath.SubBasisPoints(daiBalance, slippage).value).value <= bought
  {
    ScalingExact(t, daiBalance * WAD / (WAD + t.tout), z);
    if t.daiDecimals >= t.usdxDecimals && t.BuyGemCost(t.Affordable(daiBalance).value + 1).Done? {
      OneMoreCostsEverything(t, daiBalance);
    }
  }

  /** So the exchange is decided by the slippage alone: the PSM never takes too much. */
  lemma ExchangeDecidedBySlippage(t: Terms, daiBalance: nat, slippage: nat)
    requires t.Affordable(daiBalance).Done? && OvnMath.SubBasisPoints(daiBalance, slippage).Done?
    requires t.DaiToUsdx(OvnMath.SubBasisPoints(daiBalance, slippage).value).Done?
    ensures var least := t.DaiToUsdx(OvnMath.SubBasisPoints(daiBalance, slippage).value).value;
            Exchanged(t, daiBalance, slippage).Done? <==> daiBalance > 0 && t.Affordable(daiBalance).value >= least
  {
    NeverOverspends(t, daiBalance);
  }

  /** With shares worth at least one DAI, the withdrawal goes through exactly when the request,
      its USDX units read as DAI units, is within the balance and the value of the balance can be
      computed; and then it burns every share held, whatever was requested. */
  lemma WithdrawalBurnsEverything(t: Terms, h: Holdings, usdxAmount: nat)
    requires t.chi >= RMath.RAY && RMath.Rdiv(usdxAmount, t.chi).Done?
    ensures Withdrawn(t, h, usdxAmount).Done? <==>
            && h.shares > 0 && RMath.Rdiv(usdxAmount, t.chi).value <= h.shares
            && h.shares * t.chi <= UINT_MAX
            && h.shares * t.chi / RMath.RAY * RMath.RAY + t.chi - 1 <= UINT_MAX
    ensures Withdrawn(t, h, usdxAmount).Done? ==>
              Withdrawn(t, h, usdxAmount).value == (h.shares * t.chi / RMath.RAY, h.shares)
  {
    var s := t.SharesToRedeem(h.shares, usdxAmount).value;
    RedeemedShares(s, t.chi);
  }

  /** What the vault takes for the value of s shares is s shares again. */
  lemma RedeemedShares(s: nat, chi: nat)
    requires chi >= RMath.RAY
    ensures RMath.Rmul(s, chi).Done? <==> s * chi <= UINT_MAX
    ensures RMath.Rmul(s, chi).Done? ==>
              var assets := RMath.Rmul(s, chi).value;
              && assets == s * chi / RMath.RAY
              && (RMath.Rdivup(assets, chi).Done? <==> assets * RMath.RAY + chi - 1 <= UINT_MAX)
              && (RMath.Rdivup(assets, chi).Done? ==> RMath.Rdivup(assets, chi).value == s)
  {
    RMath.Domains(s, chi);
    if RMath.Rmul(s, chi).Done? {
      RMath.RmulValue(s, chi);
      RMath.Domains(RMath.Rmul(s, chi).value, chi);
      if RMath.Rdivup(RMath.Rmul(s, chi).value, chi).Done? {
        RMath.MultiplyThenDivideUp(s, chi);
      }
    }
  }

  /** What the request is worth in shares, had the USDX been converted to DAI first. */
  function SharesAsked(t: Terms, usdxAmount: nat): Tx<nat> {
    var daiAmount :- t.UsdxToDai(usdxAmount);
    RMath.Rdiv(daiAmount, t.chi)
  }

  /** A withdrawal was to burn the smaller of what is asked for and the balance. One that goes
      through does exactly when the request is worth the whole balance or more. */
  lemma WithdrawalMeetsRequest(t: Terms, h: Holdings, usdxAmount: nat)
    requires t.chi >= RMath.RAY && Withdrawn(t, h, usdxAmount).Done?
    ensures var asked := SharesAsked(t, usdxAmount);
            asked.Done? ==>
              (Withdrawn(t, h, usdxAmount).value.1 == Min(asked.value, h.shares) <==> h.shares <= asked.value)
  {
    WithdrawalBurnsEverything(t, h, usdxAmount);
  }

  /** The units of USDX are taken for units of DAI, so a request counts for no more than it is
      worth: one that the balance is worth is within the balance as read. */
  lemma RequestReadAsDai(t: Terms, usdxAmount: nat)
    requires t.daiDecimals >= t.usdxDecimals && SharesAsked(t, usdxAmount).Done?
    ensures RMath.Rdiv(usdxAmount, t.chi).Done?
    ensures RMath.Rdiv(usdxAmount, t.chi).value <= SharesAsked(t, usdxAmount).value
  {
    UsdxScaled(t, usdxAmount);
    OvnMath.MulDivMono(usdxAmount, t.UsdxToDai(usdxAmount).value, RMath.RAY, t.chi);
  }

  /** USDC, and shares worth a DAI each. */
  const USDC_TERMS: Terms := Terms(6, 18, RMath.RAY, 0)

  const FIVE_SHARES: Holdings := Holdings(0, 0, 5_000_000_000_000_000_000)

  /** A request for one USDC burns all five shares, and so does one for six, which is one more
      than they are worth. */
  lemma OneAndSixRequested()
    ensures Withdrawn(USDC_TERMS, FIVE_SHARES, 1_000_000) == Done((FIVE_SHARES.shares, FIVE_SHARES.shares))
    ensures SharesAsked(USDC_TERMS, 1_000_000) == Done(1_000_000_000_000_000_000)
    ensures Withdrawn(USDC_TERMS, FIVE_SHARES, 6_000_000) == Done((FIVE_SHARES.shares, FIVE_SHARES.shares))
    ensures SharesAsked(USDC_TERMS, 6_000_000) == Done(6_000_000_000_000_000_000)
  {
    WithdrawalBurnsEverything(USDC_TERMS, FIVE_SHARES, 1_000_000);
    WithdrawalBurnsEverything(USDC_TERMS, FIVE_SHARES, 6_000_000);
    PowersOfTen();
    assert USDC_TERMS.UsdxToDai(1_000_000) == Done(1_000_000_000_000_000_000);
    assert USDC_TERMS.UsdxToDai(6_000_000) == Done(6_000_000_000_000_000_000);
  }

  /** A divestment leaves no share behind and never touches the DAI that was there before. */
  lemma DivestEmptiesThePosition(t: Terms, h: Holdings, usdxAmount: nat, slippage: nat)
    requires t.chi >= RMath.RAY && Divested(t, h, usdxAmount, slippage).Done?
    ensures var after := Divested(t, h, usdxAmount, slippage).value;
            && after.shares == 0
            && after.dai >= h.dai
            && after.usdx >= h.usdx
            && RMath.Rdiv(usdxAmount, t.chi).Done? && RMath.Rdiv(usdxAmount, t.chi).value <= h.shares
  {
    WithdrawalBurnsEverything(t, h, usdxAmount);
  }

  /** What a divestment adds to the USDX and leaves in DAI: the whole position is sold for DAI, all
      the USDX that pays for is bought, and what is left over is less than a unit more would cost. */
  lemma DivestYields(t: Terms, h: Holdings, usdxAmount: nat, slippage: nat, z: nat)
    requires t.chi >= RMath.RAY && Divested(t, h, usdxAmount, slippage).Done?
    ensures var after := Divested(t, h, usdxAmount, slippage).value;
            var sold, bought, left := h.shares * t.chi / RMath.RAY, after.usdx - h.usdx, after.dai - h.dai;
            && 0 <= bought && 0 <= left <= sold && after.shares == 0
            && t.BuyGemCost(bought) == Done(sold - left)
            && (z <= bought <==> z * Pow10(t.daiDecimals) <= sold * WAD / (WAD + t.tout) * Pow10(t.usdxDecimals))
            && (t.daiDecimals >= t.usdxDecimals && t.BuyGemCost(bought + 1).Done? ==>
                  left <= t.BuyGemCost(bought + 1).value - t.BuyGemCost(bought).value)
  {
    WithdrawalBurnsEverything(t, h, usdxAmount);
    ExchangeYields(t, h.shares * t.chi / RMath.RAY, slippage, z);
  }

  /** Five shares at half a percent of slippage and no fee yield five USDC, and no DAI is left. */
  lemma FiveSharesYieldFive()
    ensures Divested(USDC_TERMS, FIVE_SHARES, 1_000_000, 5_000) == Done(Holdings(5_000_000, 0, 0))
  {
    OneAndSixRequested();
    PowersOfTen();
    assert USDC_TERMS.Affordable(5_000_000_000_000_000_000) == Done(5_000_000);
    assert USDC_TERMS.BuyGemCost(5_000_000) == Done(5_000_000_000_000_000_000);
  }

  /** The final check compares what is bought with the balance less the slippage. It holds for
      every balance exactly when the slippage covers the fee. When it does not, every balance is
      refused of which the PSM buys less than the check wants by one unit of USDX or more, and
      there is one without any rounding. */
  lemma SlippageCoversFee(t: Terms, daiBalance: nat, slippage: nat)
    requires slippage <= OvnMath.BASIS_DENOMINATOR
    requires t.Affordable(daiBalance).Done? && OvnMath.SubBasisPoints(daiBalance, slippage).Done?
    requires t.DaiToUsdx(OvnMath.SubBasisPoints(daiBalance, slippage).value).Done?
    ensures var d, fee := OvnMath.BASIS_DENOMINATOR, WAD + t.tout;
            var wanted := OvnMath.SubBasisPoints(daiBalance, slippage).value;
            var bought, least := t.Affordable(daiBalance).value, t.DaiToUsdx(wanted).value;
            if (d - slippage) * fee <= WAD * d
            then bought >= least
            else
              && (daiBalance * WAD / fee + DivUp(Pow10(t.daiDecimals), Pow10(t.usdxDecimals)) <= wanted ==>
                    bought < least)
              && (daiBalance == d * fee * Pow10(t.daiDecimals) ==> bought < least)
  {
    var d := OvnMath.BASIS_DENOMINATOR;
    var a, b := Pow10(t.usdxDecimals), Pow10(t.daiDecimals);
    var fee := WAD + t.tout;
    assert t.Affordable(daiBalance).value == daiBalance * WAD / fee * a / b;
    OneUnitShort(daiBalance * WAD / fee, OvnMath.SubBasisPoints(daiBalance, slippage).value, a, b);
    if (d - slippage) * fee <= WAD * d {
      Covered(daiBalance, fee, d - slippage, d, a, b);
    } else if daiBalance == d * fee * b {
      Uncovered(fee, d - slippage, d, a, b);
    }
  }

  lemma OneUnitShort(x: nat, y: nat, a: nat, b: nat)
    requires a > 0 && b > 0
    ensures x + DivUp(b, a) <= y ==> x * a / b < y * a / b
  {
    if x + DivUp(b, a) <= y {
      var unit := DivUp(b, a);
      assert b <= unit * a by { DivUpAdjoint(b, a, unit); }
      assert (x + unit) * a == x * a + unit * a;
      MulMono(x + unit, y, a);
      MoreQuotient(x * a, y * a, b);
    }
  }

  lemma MoreQuotient(m: nat, n: nat, d: nat)
    requires d > 0 && m + d <= n
    ensures m / d < n / d
  {
    var q := m / d;
    DivBounds(m, d);
    assert (q + 1) * d == q * d + d;
    DivAdjoint(n, d, q + 1);
  }

  /** At a fee of a tenth of a percent and no slippage, 1001 DAI buy 1000 USDC, and are refused. */
  lemma FeeIsRefused()
    ensures var t := USDC_TERMS.(tout := 1_000_000_000_000_000);
            var daiBalance := 1_001_000_000_000_000_000_000;
            && t.Affordable(daiBalance) == Done(1_000_000_000)
            && t.BuyGemCost(1_000_000_000) == Done(daiBalance)
            && Exchanged(t, daiBalance, 0).Reverted?
  {
    PowersOfTen();
  }

  lemma Covered(x: nat, fee: nat, share: nat, d: nat, a: nat, b: nat)
    requires fee > 0 && d > 0 && b > 0 && share * fee <= WAD * d
    ensures x * share / d * a / b <= x * WAD / fee * a / b
  {
    RateMono(x, WAD, fee, share, d);
    OvnMath.MulDivMono(x * share / d, x * WAD / fee, a, b);
  }

  lemma Uncovered(fee: nat, share: nat, d: nat, a: nat, b: nat)
    requires fee > 0 && d > 0 && a > 0 && b > 0 && share * fee > WAD * d
    ensures var x := d * fee * b; x * WAD / fee * a / b < x * share / d * a / b
  {
    var x := d * fee * b;
    ExactShare(x, d, fee, share, b, a);
    ExactShare(x, fee, d, WAD, b, a);
    var less, more := d * WAD, fee * share;
    assert less < more;
    MulMono(less + 1, more, a);
    assert (less + 1) * a == less * a + a;
  }

  /** No rounding occurs on a balance that is a multiple of every divisor. */
  lemma ExactShare(x: nat, d: nat, m: nat, share: nat, b: nat, a: nat)
    requires d > 0 && b > 0 && x == d * m * b
    ensures x * share / d * a / b == m * share * a
  {
    var q := m * share * b;
    assert x * share == q * d;
    DivUnique(x * share, d, q);
    assert q * a == m * share * a * b;
    DivUnique(q * a, b, m * share * a);
  }

  class Asset {
    const terms: Terms
    var usdx: nat
    var dai: nat
    var shares: nat

    constructor (terms: Terms, usdx: nat, dai: nat, shares: nat)
      ensures this.terms == terms && State() == Holdings(usdx, dai, shares)
    {
      this.terms := terms;
      this.usdx, this.dai, this.shares := usdx, dai, shares;
    }

    function State(): Holdings
      reads this
    {
      Holdings(usdx, dai, shares)
    }

    method Divest(usdxAmount: nat, slippage: nat) returns (r: Tx<nat>)
      modifies this
      ensures match Divested(terms, old(State()), usdxAmount, slippage)
              case Done(after) => State() == after && r == Done(usdx - old(usdx))
              case Reverted => r.Reverted? && unchanged(this)
    {
      var before := State();
      if shares == 0 {
        return Reverted;
      }
      var sharesAmount :- RMath.Rdiv(usdxAmount, terms.chi);
      if shares > sharesAmount {
        sharesAmount := shares;
      }
      var withdrawAmount :- RMath.Rmul(sharesAmount, terms.chi);
      var burnt :- RMath.Rdivup(withdrawAmount, terms.chi);
      if burnt > shares {
        return Reverted;
      }
      shares, dai := shares - burnt, dai + withdrawAmount;
      var daiBalance := dai - before.dai;
      r := BuyUsdx(daiBalance, slippage);
      if r.Reverted? {
        usdx, dai, shares := before.usdx, before.dai, before.shares;
      }
    }

    /** Exchanges DAI for USDX through the PSM, less the fee. */
    method BuyUsdx(received: nat, slippage: nat) returns (r: Tx<nat>)
      requires received <= dai
      modifies this`usdx, this`dai
      ensures match Exchanged(terms, received, slippage)
              case Done((bought, cost)) => r == Done(bought) && usdx == old(usdx) + bought && dai == old(dai) - cost
              case Reverted => r.Reverted? && usdx == old(usdx) && dai == old(dai)
    {
      var daiBalance := received;
      if daiBalance == 0 {
        return Reverted;
      }
      var kept :- OvnMath.SubBasisPoints(daiBalance, slippage);
      var withdrawAmount :- terms.DaiToUsdx(kept);
      var scaled :- Mul(daiBalance, WAD);
      var divisor :- Add(WAD, terms.tout);
      daiBalance :- Div(scaled, divisor);
      var daiInUsdx :- terms.DaiToUsdx(daiBalance);
      var cost :- terms.BuyGemCost(daiInUsdx);
      if cost > received || daiInUsdx < withdrawAmount {
        return Reverted;
      }
      usdx, dai := usdx + daiInUsdx, dai - cost;
      return Done(daiInUsdx);
    }
  }
}
