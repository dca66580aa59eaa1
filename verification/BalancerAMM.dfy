/** contracts/AMM/BalancerAMM.sol: buying SWEEP with USDX, from the market maker while its
    price is below the pool's, and from the pool otherwise.

    Assumed of the Balancer vault: a swap takes exactly the USDX approved and pays the SWEEP it
    reports to the buyer, or reverts. The AMM's base token is the maker's USDX. */
module BalancerAMM {
  import opened Evm
  import opened Arithmetic
  import opened Erc20
  import opened MarketMaker
  import ActionQueue
  import Chainlink

  function RouteTaken(hasMaker: bool, q: Quotes): Tx<bool> {
    if !hasMaker then Done(false)
    else
      var buyPrice :- q.GetBuyPrice();
      Done(buyPrice < q.price)
  }

  /** Between 0.6 and 1.6 USDX per SWEEP at the minimum the buyer accepts. */
  function CheckRate(usdxAmount: nat, amountOutMin: nat, usdxDecimals: nat): Tx<()> {
    var _ :- Require(usdxAmount > 0 && amountOutMin > 0);
    var tokenFactor :- Exp10(usdxDecimals);
    var scaled :- Mul(usdxAmount, Pow10(SWEEP_DECIMALS));
    var dividend :- Mul(scaled, 1_000_000);
    var divisor :- Mul(tokenFactor, amountOutMin);
    var rate :- Div(dividend, divisor);
    Require(600_000 <= rate <= 1_600_000)
  }

  /** The AMM takes the buyer's USDX, and approves the maker for it. */
  function TakeUsdx(d: Desk, buyer: Address, usdxAmount: nat, p: Parties): Tx<Desk> {
    var paidIn :- d.usdx.TransferFrom(p.amm, buyer, p.amm, usdxAmount);
    var approved :- paidIn.Approve(p.amm, p.maker, usdxAmount);
    Done(d.(usdx := approved))
  }

  /** The AMM takes the USDX, lets the maker take it on, and passes the SWEEP on to the buyer. */
  function ThroughMaker(d: Desk, buyer: Address, usdxAmount: nat, p: Parties, q: Quotes): Tx<(Desk, nat)> {
    var paidIn :- TakeUsdx(d, buyer, usdxAmount, p);
    BuyAndPassOn(paidIn, buyer, usdxAmount, p, q)
  }

  function BuyAndPassOn(d: Desk, buyer: Address, usdxAmount: nat, p: Parties, q: Quotes): Tx<(Desk, nat)> {
    var (bought, sweepAmount) :- d.BuySweep(p.amm, usdxAmount, p, q);
    var paidOut :- PassOn(bought, buyer, sweepAmount, p);
    Done((paidOut, sweepAmount))
  }

  function PassOn(d: Desk, buyer: Address, sweepAmount: nat, p: Parties): Tx<Desk> {
    var paidOut :- d.sweep.Transfer(p.amm, buyer, sweepAmount);
    Done(d.(sweep := paidOut))
  }

  /** The pool pays `swapped` SWEEP, which must reach the buyer's minimum. */
  function ThroughPool(d: Desk, buyer: Address, usdxAmount: nat, amountOutMin: nat,
                       p: Parties, q: Quotes, swapped: nat): Tx<(Desk, nat)>
  {
    var _ :- CheckRate(usdxAmount, amountOutMin, q.usdxDecimals);
    var paidIn :- d.usdx.TransferFrom(p.amm, buyer, p.amm, usdxAmount);
    var approved :- paidIn.Approve(p.amm, p.vault, usdxAmount);
    var pulled :- approved.TransferFrom(p.vault, p.amm, p.vault, usdxAmount);
    var _ :- Require(swapped >= amountOutMin && !d.paused && q.approved);
    var paidOut :- d.sweep.Transfer(p.vault, buyer, swapped);
    Done((d.(usdx := pulled, sweep := paidOut), swapped))
  }

  function Purchase(d: Desk, hasMaker: bool, buyer: Address, usdxAmount: nat, amountOutMin: nat,
                    p: Parties, q: Quotes, swapped: nat): Tx<(Desk, nat)>
  {
    var throughMaker :- RouteTaken(hasMaker, q);
    if throughMaker then ThroughMaker(d, buyer, usdxAmount, p, q)
    else ThroughPool(d, buyer, usdxAmount, amountOutMin, p, q, swapped)
  }

  /** The maker's price is the balancer's upper band. So when the coin's average price is the
      AMM's price, the maker's route is taken exactly in the mode that invests. */
  lemma RouteIsInvestMode(q: Quotes, twaPrice: nat)
    requires twaPrice == q.price
    requires ActionQueue.GetMode(twaPrice, q.targetPrice, q.arbSpread).Done?
    ensures RouteTaken(true, q).Done? && RouteTaken(false, q) == Done(false)
    ensures RouteTaken(true, q).value <==>
            ActionQueue.GetMode(twaPrice, q.targetPrice, q.arbSpread).value == ActionQueue.INVEST
  {
  }

  /** On the maker's route the coin's own guard never stands in the way of the loan: above the
      upper band, minting is allowed. */
  lemma RouteAllowsMinting(q: Quotes)
    requires q.ammPrice == q.price && q.arbSpread <= PRECISION && q.targetPrice * PRECISION <= UINT_MAX
    requires RouteTaken(true, q) == Done(true)
    ensures q.IsMintingAllowed() == Done(true)
  {
    var factor := PRECISION - q.arbSpread;
    var scaled := q.targetPrice * PRECISION;
    assert factor * q.targetPrice <= scaled by { MulMono(factor, PRECISION, q.targetPrice); }
    DivUnique(scaled, PRECISION, q.targetPrice);
    DivMono(factor * q.targetPrice, scaled, PRECISION);
  }

  /** Outside the mode that calls, at a spread of at most one hundred percent, the coin may be
      minted. */
  lemma MintingUnlessCalling(q: Quotes)
    requires q.arbSpread <= PRECISION && q.targetPrice * PRECISION <= UINT_MAX
    ensures ActionQueue.GetMode(q.ammPrice, q.targetPrice, q.arbSpread).Done? && q.IsMintingAllowed().Done?
    ensures ActionQueue.GetMode(q.ammPrice, q.targetPrice, q.arbSpread).value != ActionQueue.CALL ==>
              q.IsMintingAllowed().value
  {
    ActionQueue.ModeDomain(q.ammPrice, q.targetPrice, q.arbSpread);
    MintingAllowedExactly(q);
    ShareOfTarget(q.arbSpread, q.targetPrice);
  }

  lemma ShareOfTarget(share: nat, whole: nat)
    requires share <= PRECISION
    ensures (PRECISION - share) * whole == whole * PRECISION - share * whole <= whole * PRECISION
    ensures share * whole / PRECISION * PRECISION <= share * whole
  {
    MulMono(0, share, whole);
    DivBounds(share * whole, PRECISION);
  }

  lemma TakeUsdxMoves(d: Desk, buyer: Address, usdxAmount: nat, p: Parties, account: Address)
    requires TakeUsdx(d, buyer, usdxAmount, p).Done?
    ensures var after := TakeUsdx(d, buyer, usdxAmount, p).value;
            && after.usdx.BalanceOf(account) ==
               d.usdx.BalanceOf(account) - At(account, buyer, usdxAmount) + At(account, p.amm, usdxAmount)
            && after == d.(usdx := after.usdx) && after.usdx.supply == d.usdx.supply
  {
    TransferFromMoves(d.usdx, p.amm, buyer, p.amm, usdxAmount, account);
  }

  lemma PassOnMoves(d: Desk, buyer: Address, sweepAmount: nat, p: Parties, account: Address)
    requires PassOn(d, buyer, sweepAmount, p).Done?
    ensures var after := PassOn(d, buyer, sweepAmount, p).value;
            && after.sweep.BalanceOf(account) ==
               d.sweep.BalanceOf(account) - At(account, p.amm, sweepAmount) + At(account, buyer, sweepAmount)
            && after == d.(sweep := after.sweep) && after.sweep.supply == d.sweep.supply
  {
    TransferMoves(d.sweep, p.amm, buyer, sweepAmount, account);
  }

  lemma BuyAndPassOnMoves(d: Desk, buyer: Address, usdxAmount: nat, p: Parties, q: Quotes, account: Address)
    requires Distinct(d.indices) && BuyAndPassOn(d, buyer, usdxAmount, p, q).Done?
    ensures d.AccruedFee(q.now).Done?
    ensures var (after, s) := BuyAndPassOn(d, buyer, usdxAmount, p, q).value;
            && q.SweepFor(usdxAmount) == Done(s)
            && Sold(d, after, p.amm, buyer, usdxAmount, s, d.AccruedFee(q.now).value, p, account)
  {
    BuySweepMoves(d, p.amm, usdxAmount, p, q, account);
    var (bought, s) := d.BuySweep(p.amm, usdxAmount, p, q).value;
    PassOnMoves(bought, buyer, s, p, account);
  }

  /** The whole effect of a purchase through the maker on every account, whichever parties
      coincide: the buyer pays the USDX and gets s SWEEP, the vault gains the USDX and s SWEEP,
      the fee accrued on the maker's debt goes from the maker to the treasury, and SWEEP in
      circulation and the maker's debt both rise by 2 s. */
  lemma ThroughMakerMoves(d: Desk, buyer: Address, usdxAmount: nat, p: Parties, q: Quotes, account: Address)
    requires Distinct(d.indices) && ThroughMaker(d, buyer, usdxAmount, p, q).Done?
    ensures d.AccruedFee(q.now).Done?
    ensures var (after, s) := ThroughMaker(d, buyer, usdxAmount, p, q).value;
            && q.SweepFor(usdxAmount) == Done(s)
            && Sold(d, after, buyer, buyer, usdxAmount, s, d.AccruedFee(q.now).value, p, account)
  {
    var d1 := TakeUsdx(d, buyer, usdxAmount, p).value;
    TakeUsdxMoves(d, buyer, usdxAmount, p, account);
    SameFee(d, d1, q.now);
    BuyAndPassOnMoves(d1, buyer, usdxAmount, p, q, account);
  }

  /** A purchase spends the buyer's approval by what was paid, and leaves no approval behind along
      the way, from the AMM to the maker or from the maker to the vault, but for an unlimited one. No
      other approval changes. */
  lemma ThroughMakerAllows(d: Desk, buyer: Address, usdxAmount: nat, p: Parties, q: Quotes, o: Address, a: Address)
    requires Distinct(d.indices) && ThroughMaker(d, buyer, usdxAmount, p, q).Done?
    requires (p.amm, p.maker) != (p.maker, p.vault)
    ensures var (after, s) := ThroughMaker(d, buyer, usdxAmount, p, q).value;
            if (o, a) == (p.maker, p.vault)
            then after.usdx.Allowance(o, a) == Leftover(usdxAmount) && after.sweep.Allowance(o, a) == Leftover(s)
            else
              && after.sweep.Allowance(o, a) == d.sweep.Allowance(o, a)
              && after.usdx.Allowance(o, a) ==
                 if (o, a) == (p.amm, p.maker) then Leftover(usdxAmount)
                 else AllowanceLeft(d.usdx, p.amm, buyer, usdxAmount, o, a)
  {
    var d1 := TakeUsdx(d, buyer, usdxAmount, p).value;
    TakeUsdxAllows(d, buyer, usdxAmount, p, o, a);
    BuyAndPassOnAllows(d1, buyer, usdxAmount, p, q, o, a);
  }

  lemma BuyAndPassOnAllows(d: Desk, buyer: Address, usdxAmount: nat, p: Parties, q: Quotes, o: Address, a: Address)
    requires Distinct(d.indices) && BuyAndPassOn(d, buyer, usdxAmount, p, q).Done?
    ensures var (after, s) := BuyAndPassOn(d, buyer, usdxAmount, p, q).value;
            if (o, a) == (p.maker, p.vault)
            then after.usdx.Allowance(o, a) == Leftover(usdxAmount) && after.sweep.Allowance(o, a) == Leftover(s)
            else after.usdx.Allowance(o, a) == AllowanceLeft(d.usdx, p.maker, p.amm, usdxAmount, o, a)
                 && after.sweep.Allowance(o, a) == d.sweep.Allowance(o, a)
  {
    BuySweepAllows(d, p.amm, usdxAmount, p, q, o, a);
    var (bought, s) := d.BuySweep(p.amm, usdxAmount, p, q).value;
    TransferMoves(bought.sweep, p.amm, buyer, s, 0);
  }

  lemma TakeUsdxAllows(d: Desk, buyer: Address, usdxAmount: nat, p: Parties, o: Address, a: Address)
    requires TakeUsdx(d, buyer, usdxAmount, p).Done?
    ensures var after := TakeUsdx(d, buyer, usdxAmount, p).value;
            && after == d.(usdx := after.usdx)
            && after.usdx.Allowance(o, a) ==
               if (o, a) == (p.amm, p.maker) then usdxAmount
               else AllowanceLeft(d.usdx, p.amm, buyer, usdxAmount, o, a)
  {
    AllowanceMoves(d.usdx, p.amm, buyer, p.amm, usdxAmount, o, a);
  }

  lemma SameFee(d: Desk, d': Desk, now: nat)
    requires d' == d.(usdx := d'.usdx)
    ensures d'.AccruedFee(now) == d.AccruedFee(now)
  {
  }

  /** Between different parties the AMM and the maker keep nothing of a purchase: their USDX
      and the AMM's SWEEP are as before, and the maker's SWEEP falls by the fee accrued on its
      old debt, which it must therefore hold beforehand. Its balance is unchanged exactly when
      no fee is due. */
  lemma MakerPaysTheFee(d: Desk, buyer: Address, usdxAmount: nat, p: Parties, q: Quotes)
    requires Distinct(d.indices) && ThroughMaker(d, buyer, usdxAmount, p, q).Done?
    requires p.amm !in {buyer, p.vault, p.treasury, p.maker} && p.maker !in {buyer, p.vault, p.treasury}
    ensures d.AccruedFee(q.now).Done?
    ensures var after, fee := ThroughMaker(d, buyer, usdxAmount, p, q).value.0, d.AccruedFee(q.now).value;
            && after.usdx.BalanceOf(p.amm) == d.usdx.BalanceOf(p.amm)
            && after.usdx.BalanceOf(p.maker) == d.usdx.BalanceOf(p.maker)
            && after.sweep.BalanceOf(p.amm) == d.sweep.BalanceOf(p.amm)
            && fee <= d.sweep.BalanceOf(p.maker)
            && after.sweep.BalanceOf(p.maker) == d.sweep.BalanceOf(p.maker) - fee
            && (after.sweep.BalanceOf(p.maker) == d.sweep.BalanceOf(p.maker) <==> fee == 0)
  {
    ThroughMakerMoves(d, buyer, usdxAmount, p, q, p.amm);
    ThroughMakerMoves(d, buyer, usdxAmount, p, q, p.maker);
  }

  /** Exactly when a purchase through the maker goes through: the buyer lets the AMM take the
      USDX, and the maker may sell. Nothing the AMM does in between can fail, and the buyer's
      minimum does not come into it. */
  lemma ThroughMakerDomain(d: Desk, buyer: Address, usdxAmount: nat, p: Parties, q: Quotes)
    requires Distinct(d.indices) && ZERO_ADDRESS !in {p.amm, p.maker, p.vault}
    requires p.maker !in {p.amm, p.vault, p.treasury}
    ensures ThroughMaker(d, buyer, usdxAmount, p, q).Done? <==>
            MayTake(d.usdx, p.amm, buyer, usdxAmount) && MaySell(d, usdxAmount, p, q)
  {
    TransferFromDomain(d.usdx, p.amm, buyer, p.amm, usdxAmount);
    if TakeUsdx(d, buyer, usdxAmount, p).Done? {
      var d1 := TakeUsdx(d, buyer, usdxAmount, p).value;
      TakenMayBePassed(d, buyer, usdxAmount, p, q);
      BuySweepDomain(d1, p.amm, usdxAmount, p, q);
      if d1.BuySweep(p.amm, usdxAmount, p, q).Done? {
        BoughtMayBePassed(d1, buyer, usdxAmount, p, q);
      }
    }
  }

  /** What the AMM has taken the maker may take from it, and it changes nothing else. */
  lemma TakenMayBePassed(d: Desk, buyer: Address, usdxAmount: nat, p: Parties, q: Quotes)
    requires TakeUsdx(d, buyer, usdxAmount, p).Done? && p.amm != ZERO_ADDRESS
    ensures var after := TakeUsdx(d, buyer, usdxAmount, p).value;
            && MayTake(after.usdx, p.maker, p.amm, usdxAmount)
            && (MaySell(after, usdxAmount, p, q) <==> MaySell(d, usdxAmount, p, q))
  {
    TakeUsdxMoves(d, buyer, usdxAmount, p, p.amm);
    SameMaySell(d, TakeUsdx(d, buyer, usdxAmount, p).value, usdxAmount, p, q);
  }

  lemma SameMaySell(d: Desk, d': Desk, usdxAmount: nat, p: Parties, q: Quotes)
    requires d' == d.(usdx := d'.usdx)
    ensures MaySell(d', usdxAmount, p, q) <==> MaySell(d, usdxAmount, p, q)
  {
    SameFee(d, d', q.now);
  }

  lemma BoughtMayBePassed(d: Desk, buyer: Address, usdxAmount: nat, p: Parties, q: Quotes)
    requires Distinct(d.indices) && d.BuySweep(p.amm, usdxAmount, p, q).Done?
    requires ZERO_ADDRESS !in {p.amm, buyer} && p.amm != p.maker
    ensures var (bought, s) := d.BuySweep(p.amm, usdxAmount, p, q).value;
            PassOn(bought, buyer, s, p).Done?
  {
    BuySweepMoves(d, p.amm, usdxAmount, p, q, p.amm);
  }

  /** The minimum is not checked on this route. What is handed over meets it exactly when the
      minimum is no dearer, at the buy price, than what was paid. */
  lemma MinimumMet(d: Desk, buyer: Address, usdxAmount: nat, amountOutMin: nat, p: Parties, q: Quotes)
    requires ThroughMaker(d, buyer, usdxAmount, p, q).Done?
    ensures q.GetBuyPrice().Done? && q.ToUsd(usdxAmount).Done?
    ensures var usd := q.ToUsd(usdxAmount).value;
            amountOutMin <= ThroughMaker(d, buyer, usdxAmount, p, q).value.1 <==>
            amountOutMin * q.GetBuyPrice().value <= usd * Pow10(SWEEP_DECIMALS)
  {
    var usd := q.ToUsd(usdxAmount).value;
    DivAdjoint(usd * Pow10(SWEEP_DECIMALS), q.GetBuyPrice().value, amountOutMin);
  }

  const EXAMPLE_PARTIES: Parties := Parties(1, 2, 3, 4)
  const EXAMPLE_BUYER: Address := 5

  /** USDX of six decimals at a dollar, a target price and a buy price of a dollar, and a pool price
      of two. */
  const EXAMPLE_QUOTES: Quotes :=
    Quotes(1_000_000, 0, 2_000_000, 2_000_000, 6, Chainlink.Feed(0, 1, 1, 1, 1), 365 * DAY_SECONDS,
           1_000_000_000_000_000_000, 1_000_000_000_000_000_000, (_, _, _) => true, true, true)

  /** A maker with a debt of one SWEEP and the SWEEP to pay the fee of one percent on it, a year on. */
  const EXAMPLE_DESK: Desk :=
    Desk(Ledger(map[EXAMPLE_BUYER := 1_000_000], map[(EXAMPLE_BUYER, 1) := 1_000_000], 1_000_000),
         Ledger(map[2 := 10_000_000_000_000_000, 6 := 990_000_000_000_000_000], map[], 1_000_000_000_000_000_000),
         false,
         Minter(10_000_000_000_000_000_000, 1_000_000_000_000_000_000, true, true),
         1_000_000_000_000_000_000, 10_000_000_000_000_000_000, 0, 10_000, Indices(0, 1, 2), 5_000)

  /** There a purchase for one USDX goes through although the buyer wants more than it yields, and
      a fee of a hundredth of a SWEEP is due for it. */
  lemma FeePaidAndMinimumMissed()
    ensures EXAMPLE_DESK.AccruedFee(EXAMPLE_QUOTES.now) == Done(10_000_000_000_000_000)
    ensures var amountOutMin := 1_000_000_000_000_000_001;
            var r := Purchase(EXAMPLE_DESK, true, EXAMPLE_BUYER, 1_000_000, amountOutMin,
                              EXAMPLE_PARTIES, EXAMPLE_QUOTES, 0);
            && RouteTaken(true, EXAMPLE_QUOTES) == Done(true)
            && r.Done? && r.value.1 == 1_000_000_000_000_000_000 < amountOutMin
  {
    ExampleMaySell();
    ThroughMakerDomain(EXAMPLE_DESK, EXAMPLE_BUYER, 1_000_000, EXAMPLE_PARTIES, EXAMPLE_QUOTES);
    ThroughMakerMoves(EXAMPLE_DESK, EXAMPLE_BUYER, 1_000_000, EXAMPLE_PARTIES, EXAMPLE_QUOTES, 0);
  }

  lemma ExampleMaySell()
    ensures EXAMPLE_DESK.AccruedFee(EXAMPLE_QUOTES.now) == Done(10_000_000_000_000_000)
    ensures EXAMPLE_QUOTES.SweepFor(1_000_000) == Done(1_000_000_000_000_000_000)
    ensures MaySell(EXAMPLE_DESK, 1_000_000, EXAMPLE_PARTIES, EXAMPLE_QUOTES)
  {
    ExamplePrices();
    ExampleFee();
    ExampleShares();
    assert MayBorrow(EXAMPLE_DESK, 2_000_000_000_000_000_000, EXAMPLE_PARTIES, EXAMPLE_QUOTES);
  }

  lemma ExamplePrices()
    ensures EXAMPLE_QUOTES.GetBuyPrice() == Done(1_000_000) && EXAMPLE_QUOTES.IsMintingAllowed() == Done(true)
    ensures EXAMPLE_QUOTES.SweepFor(1_000_000) == Done(1_000_000_000_000_000_000)
  {
    PowersOfTen();
    assert EXAMPLE_QUOTES.ToUsd(1_000_000) == Done(1_000_000);
  }

  lemma ExampleFee()
    ensures EXAMPLE_DESK.AccruedFee(EXAMPLE_QUOTES.now) == Done(10_000_000_000_000_000)
  {
    assert EXAMPLE_QUOTES.now / DAY_SECONDS == 365;
  }

  lemma ExampleShares()
    ensures EXAMPLE_QUOTES.Joins(EXAMPLE_DESK.indices, 1_000_000, 1_000_000_000_000_000_000, 5_000)
    ensures EXAMPLE_QUOTES.LeastShares(1_000_000, 1_000_000_000_000_000_000, 5_000) == Done(1_990_000_000_000_000_000)
  {
    PowersOfTen();
    assert EXAMPLE_QUOTES.ShareWorth(1_000_000, 1_000_000_000_000_000_000) == Done(2_000_000_000_000_000_000);
  }

  lemma ThroughPoolMoves(d: Desk, buyer: Address, usdxAmount: nat, amountOutMin: nat, p: Parties, q: Quotes,
                         swapped: nat, account: Address)
    requires ThroughPool(d, buyer, usdxAmount, amountOutMin, p, q, swapped).Done?
    ensures var (after, s) := ThroughPool(d, buyer, usdxAmount, amountOutMin, p, q, swapped).value;
            && s == swapped >= amountOutMin
            && after.usdx.BalanceOf(account) ==
               d.usdx.BalanceOf(account) - At(account, buyer, usdxAmount) + At(account, p.vault, usdxAmount)
            && after.sweep.BalanceOf(account) ==
               d.sweep.BalanceOf(account) - At(account, p.vault, s) + At(account, buyer, s)
            && after == d.(usdx := after.usdx, sweep := after.sweep)
            && after.sweep.supply == d.sweep.supply && after.usdx.supply == d.usdx.supply
  {
    var paidIn := d.usdx.TransferFrom(p.amm, buyer, p.amm, usdxAmount).value;
    TransferFromMoves(d.usdx, p.amm, buyer, p.amm, usdxAmount, account);
    TransferFromMoves(paidIn.Approve(p.amm, p.vault, usdxAmount).value, p.vault, p.amm, p.vault, usdxAmount, account);
    TransferMoves(d.sweep, p.vault, buyer, swapped, account);
  }

  /** Exactly when a swap in the pool goes through. */
  lemma ThroughPoolDomain(d: Desk, buyer: Address, usdxAmount: nat, amountOutMin: nat, p: Parties, q: Quotes,
                          swapped: nat)
    requires ZERO_ADDRESS !in {p.amm, p.vault}
    ensures ThroughPool(d, buyer, usdxAmount, amountOutMin, p, q, swapped).Done? <==>
            && CheckRate(usdxAmount, amountOutMin, q.usdxDecimals).Done?
            && MayTake(d.usdx, p.amm, buyer, usdxAmount)
            && amountOutMin <= swapped <= d.sweep.BalanceOf(p.vault) && !d.paused && q.approved
  {
    TransferFromDomain(d.usdx, p.amm, buyer, p.amm, usdxAmount);
    if d.usdx.TransferFrom(p.amm, buyer, p.amm, usdxAmount).Done? {
      var paidIn := d.usdx.TransferFrom(p.amm, buyer, p.amm, usdxAmount).value;
      TransferFromMoves(d.usdx, p.amm, buyer, p.amm, usdxAmount, p.amm);
      TransferFromDomain(paidIn.Approve(p.amm, p.vault, usdxAmount).value, p.vault, p.amm, p.vault, usdxAmount);
    }
  }

  /** Exactly when a purchase goes through: on the maker's route while the upper band is below the
      pool's price, and in the pool otherwise; without a maker the band does not matter. */
  lemma PurchaseDomain(d: Desk, hasMaker: bool, buyer: Address, usdxAmount: nat, amountOutMin: nat,
                       p: Parties, q: Quotes, swapped: nat)
    requires Distinct(d.indices) && ZERO_ADDRESS !in {p.amm, p.maker, p.vault}
    requires p.maker !in {p.amm, p.vault, p.treasury}
    ensures Purchase(d, hasMaker, buyer, usdxAmount, amountOutMin, p, q, swapped).Done? <==>
            && MayTake(d.usdx, p.amm, buyer, usdxAmount)
            && (hasMaker ==> q.GetBuyPrice().Done?)
            && if hasMaker && q.GetBuyPrice().value < q.price then MaySell(d, usdxAmount, p, q)
               else
                 && CheckRate(usdxAmount, amountOutMin, q.usdxDecimals).Done?
                 && amountOutMin <= swapped <= d.sweep.BalanceOf(p.vault) && !d.paused && q.approved
  {
    if hasMaker && q.GetBuyPrice().Done? && q.GetBuyPrice().value < q.price {
      ThroughMakerDomain(d, buyer, usdxAmount, p, q);
    } else {
      ThroughPoolDomain(d, buyer, usdxAmount, amountOutMin, p, q, swapped);
    }
  }

  lemma QuotientBetween(n: nat, d: nat, low: nat, high: nat)
    requires d > 0
    ensures low <= n / d < high <==> low * d <= n < high * d
  {
    DivAdjoint(n, d, low);
    DivAdjoint(n, d, high);
  }

  /** The rate check passes exactly when neither amount is zero, nothing overflows, and the buyer
      pays between 0.6 and 1.6 USDX (both decimals included) for each SWEEP of the minimum. */
  lemma CheckRateDomain(usdxAmount: nat, amountOutMin: nat, usdxDecimals: nat)
    ensures var paid, bought := usdxAmount * Pow10(SWEEP_DECIMALS) * 1_000_000, Pow10(usdxDecimals) * amountOutMin;
            CheckRate(usdxAmount, amountOutMin, usdxDecimals).Done? <==>
            && usdxAmount > 0 && amountOutMin > 0
            && Pow10(usdxDecimals) <= UINT_MAX && paid <= UINT_MAX && bought <= UINT_MAX
            && 600_000 * bought <= paid < 1_600_001 * bought
  {
    var scaled, bought := usdxAmount * Pow10(SWEEP_DECIMALS), Pow10(usdxDecimals) * amountOutMin;
    if amountOutMin > 0 {
      MulMono(1, Pow10(usdxDecimals), amountOutMin);
      QuotientBetween(scaled * 1_000_000, bought, 600_000, 1_600_001);
      CheckedRate(usdxAmount, amountOutMin, usdxDecimals, scaled, bought);
    }
  }

  lemma CheckedRate(usdxAmount: nat, amountOutMin: nat, usdxDecimals: nat, scaled: nat, bought: nat)
    requires scaled == usdxAmount * Pow10(SWEEP_DECIMALS) && bought == Pow10(usdxDecimals) * amountOutMin && bought > 0
    ensures CheckRate(usdxAmount, amountOutMin, usdxDecimals).Done? <==>
            && usdxAmount > 0 && amountOutMin > 0
            && Pow10(usdxDecimals) <= UINT_MAX && scaled * 1_000_000 <= UINT_MAX && bought <= UINT_MAX
            && 600_000 <= scaled * 1_000_000 / bought < 1_600_001
  {
  }

  /** On either route the AMM passes on everything it takes, and the buyer pays the whole price
      and gets the whole amount returned; with the maker, the buyer gets no less than at the
      pool's price, and in the pool no less than the minimum. */
  lemma PurchaseIsPassedOn(d: Desk, hasMaker: bool, buyer: Address, usdxAmount: nat, amountOutMin: nat,
                           p: Parties, q: Quotes, swapped: nat)
    requires Distinct(d.indices) && Purchase(d, hasMaker, buyer, usdxAmount, amountOutMin, p, q, swapped).Done?
    requires p.amm !in {buyer, p.vault, p.treasury, p.maker} && buyer !in {p.vault, p.maker, p.treasury}
    ensures var (after, s) := Purchase(d, hasMaker, buyer, usdxAmount, amountOutMin, p, q, swapped).value;
            && after.usdx.BalanceOf(p.amm) == d.usdx.BalanceOf(p.amm)
            && after.sweep.BalanceOf(p.amm) == d.sweep.BalanceOf(p.amm)
            && after.usdx.BalanceOf(buyer) == d.usdx.BalanceOf(buyer) - usdxAmount
            && after.sweep.BalanceOf(buyer) == d.sweep.BalanceOf(buyer) + s
            && (if RouteTaken(hasMaker, q) == Done(true)
                then q.price > 0 && q.ToUsd(usdxAmount).Done?
                     && q.ToUsd(usdxAmount).value * Pow10(SWEEP_DECIMALS) / q.price <= s
                else s >= amountOutMin)
  {
    if RouteTaken(hasMaker, q).value {
      ThroughMakerMoves(d, buyer, usdxAmount, p, q, p.amm);
      ThroughMakerMoves(d, buyer, usdxAmount, p, q, buyer);
      SweepForIsFair(q, usdxAmount);
    } else {
      ThroughPoolMoves(d, buyer, usdxAmount, amountOutMin, p, q, swapped, p.amm);
      ThroughPoolMoves(d, buyer, usdxAmount, amountOutMin, p, q, swapped, buyer);
    }
  }

  /** One buyer's order, with what the contracts read when it is served. */
  datatype Order = Order(buyer: Address, usdxAmount: nat, quotes: Quotes)

  /** SWEEP sold, USD taken for it and number of purchases. */
  datatype Totals = Totals(sold: nat, usd: nat, purchases: nat)

  /** Serves the orders in turn; one that reverts changes nothing. */
  function Serve(d: Desk, t: Totals, p: Parties, orders: seq<Order>): (Desk, Totals)
    decreases |orders|
  {
    if orders == [] then (d, t)
    else
      var (d1, t1) := ServeOne(d, t, p, orders[0]);
      Serve(d1, t1, p, orders[1..])
  }

  function ServeOne(d: Desk, t: Totals, p: Parties, o: Order): (Desk, Totals) {
    Recorded(d, t, ThroughMaker(d, o.buyer, o.usdxAmount, p, o.quotes),
             o.quotes.ToUsd(o.usdxAmount))
  }

  function Recorded(d: Desk, t: Totals, bought: Tx<(Desk, nat)>, usd: Tx<nat>): (Desk, Totals) {
    if bought.Done? && usd.Done?
    then (bought.value.0, Totals(t.sold + bought.value.1, t.usd + usd.value, t.purchases + 1))
    else (d, t)
  }

  /** The buyer may pay and the maker may sell. */
  ghost predicate MayServe(d: Desk, p: Parties, o: Order) {
    MayTake(d.usdx, p.amm, o.buyer, o.usdxAmount) && MaySell(d, o.usdxAmount, p, o.quotes)
  }

  /** An order that may be served counts with what it bought and what it was worth; any other
      changes nothing. */
  lemma OrderServed(d: Desk, t: Totals, p: Parties, o: Order)
    requires Distinct(d.indices) && ZERO_ADDRESS !in {p.amm, p.maker, p.vault}
    requires p.maker !in {p.amm, p.vault, p.treasury}
    ensures MayServe(d, p, o) ==> o.quotes.ToUsd(o.usdxAmount).Done? && o.quotes.SweepFor(o.usdxAmount).Done?
    ensures var (after, totals) := ServeOne(d, t, p, o);
            if MayServe(d, p, o)
            then totals == Totals(t.sold + o.quotes.SweepFor(o.usdxAmount).value,
                                  t.usd + o.quotes.ToUsd(o.usdxAmount).value, t.purchases + 1)
            else (after, totals) == (d, t)
  {
    MayServeExactly(d, p, o);
    RecordedExact(d, t, ThroughMaker(d, o.buyer, o.usdxAmount, p, o.quotes), o.quotes.ToUsd(o.usdxAmount));
  }

  lemma MayServeExactly(d: Desk, p: Parties, o: Order)
    requires Distinct(d.indices) && ZERO_ADDRESS !in {p.amm, p.maker, p.vault}
    requires p.maker !in {p.amm, p.vault, p.treasury}
    ensures var bought := ThroughMaker(d, o.buyer, o.usdxAmount, p, o.quotes);
            && (bought.Done? <==> MayServe(d, p, o))
            && (bought.Done? ==>
                  o.quotes.ToUsd(o.usdxAmount).Done? && o.quotes.SweepFor(o.usdxAmount) == Done(bought.value.1))
  {
    ThroughMakerDomain(d, o.buyer, o.usdxAmount, p, o.quotes);
    if ThroughMaker(d, o.buyer, o.usdxAmount, p, o.quotes).Done? {
      ThroughMakerMoves(d, o.buyer, o.usdxAmount, p, o.quotes, 0);
      SweepForIsFair(o.quotes, o.usdxAmount);
    }
  }

  lemma RecordedExact(d: Desk, t: Totals, bought: Tx<(Desk, nat)>, usd: Tx<nat>)
    ensures var (after, totals) := Recorded(d, t, bought, usd);
            if bought.Done? && usd.Done?
            then (after, totals) ==
                 (bought.value.0, Totals(t.sold + bought.value.1, t.usd + usd.value, t.purchases + 1))
            else (after, totals) == (d, t)
  {
  }

  /** The maker's debt and the supply grew by twice what was sold, and the USD taken is worth
      what was sold at the buy price, to within one unit of SWEEP a purchase. */
  ghost predicate Collateralised(start: Desk, now: Desk, t: Totals, buyPrice: nat) {
    && now.sweepBorrowed == start.sweepBorrowed + 2 * t.sold
    && now.sweep.supply == start.sweep.supply + 2 * t.sold
    && now.indices == start.indices
    && t.sold * buyPrice <= t.usd * Pow10(SWEEP_DECIMALS) <= (t.sold + t.purchases) * buyPrice
  }

  /** One purchase sells the quotient, and raises the debt and the supply by twice that. */
  lemma PurchaseTotals(d: Desk, p: Parties, o: Order, buyPrice: nat)
    requires Distinct(d.indices) && o.quotes.GetBuyPrice() == Done(buyPrice)
    requires ThroughMaker(d, o.buyer, o.usdxAmount, p, o.quotes).Done?
    ensures o.quotes.ToUsd(o.usdxAmount).Done?
    ensures var usd := o.quotes.ToUsd(o.usdxAmount).value;
            var (after, s) := ThroughMaker(d, o.buyer, o.usdxAmount, p, o.quotes).value;
            SoldAt(d, after, s, usd, buyPrice)
  {
    ThroughMakerMoves(d, o.buyer, o.usdxAmount, p, o.quotes, 0);
    SweepForIsFair(o.quotes, o.usdxAmount);
  }

  /** What PurchaseTotals says of one purchase. */
  ghost predicate SoldAt(d: Desk, after: Desk, s: nat, usd: nat, buyPrice: nat) {
    && buyPrice > 0 && s == usd * Pow10(SWEEP_DECIMALS) / buyPrice
    && after.sweepBorrowed == d.sweepBorrowed + 2 * s && after.sweep.supply == d.sweep.supply + 2 * s
    && after.indices == d.indices
  }

  lemma RecordedCollateralised(start: Desk, d: Desk, t: Totals, bought: Tx<(Desk, nat)>, usd: Tx<nat>, buyPrice: nat)
    requires Collateralised(start, d, t, buyPrice)
    requires bought.Done? && usd.Done? ==> SoldAt(d, bought.value.0, bought.value.1, usd.value, buyPrice)
    ensures var next := Recorded(d, t, bought, usd); Collateralised(start, next.0, next.1, buyPrice)
  {
    if bought.Done? && usd.Done? {
      PurchaseAddsUp(t.sold, t.usd, t.purchases, buyPrice, Pow10(SWEEP_DECIMALS), usd.value);
    }
  }

  lemma ServeOneCollateralised(start: Desk, d: Desk, t: Totals, p: Parties, o: Order, buyPrice: nat)
    requires Distinct(start.indices) && Collateralised(start, d, t, buyPrice)
    requires o.quotes.GetBuyPrice() == Done(buyPrice)
    ensures var next := ServeOne(d, t, p, o); Collateralised(start, next.0, next.1, buyPrice)
  {
    var bought := ThroughMaker(d, o.buyer, o.usdxAmount, p, o.quotes);
    if bought.Done? {
      PurchaseTotals(d, p, o, buyPrice);
    }
    RecordedCollateralised(start, d, t, bought,
                           o.quotes.ToUsd(o.usdxAmount), buyPrice);
  }

  lemma {:induction false} ServeCollateralised(start: Desk, d: Desk, t: Totals, p: Parties,
                                              orders: seq<Order>, buyPrice: nat)
    requires Distinct(start.indices) && Collateralised(start, d, t, buyPrice)
    requires forall o :: o in orders ==> o.quotes.GetBuyPrice() == Done(buyPrice)
    ensures var end := Serve(d, t, p, orders); Collateralised(start, end.0, end.1, buyPrice)
    decreases |orders|
  {
    if orders == [] {
    } else {
      ServeOneCollateralised(start, d, t, p, orders[0], buyPrice);
      var next := ServeOne(d, t, p, orders[0]);
      ServeCollateralised(start, next.0, next.1, p, orders[1..], buyPrice);
    }
  }

  /** The new debt is twice what was sold; at the buy price, the USD taken and the SWEEP added to
      the pool cover it, and what was sold covers the USD but for one unit a purchase. */
  ghost predicate DebtCovered(start: Desk, now: Desk, t: Totals, buyPrice: nat) {
    var debt := now.sweepBorrowed - start.sweepBorrowed;
    && debt == 2 * t.sold == now.sweep.supply - start.sweep.supply
    && debt * buyPrice <= t.usd * Pow10(SWEEP_DECIMALS) + t.sold * buyPrice
    && t.usd * Pow10(SWEEP_DECIMALS) <= (t.sold + t.purchases) * buyPrice
  }

  lemma DebtAtPrice(start: Desk, now: Desk, t: Totals, buyPrice: nat)
    requires Collateralised(start, now, t, buyPrice)
    ensures DebtCovered(start, now, t, buyPrice)
  {
    var worth := t.sold * buyPrice;
    MulAssoc(2, t.sold, buyPrice);
    assert 2 * t.sold * buyPrice == 2 * worth;
  }

  /** Over any run of orders at one buy price, served or refused, whoever the buyers are, the
      debt the maker comes to owe is covered. */
  lemma NewDebtIsCovered(d: Desk, p: Parties, orders: seq<Order>, buyPrice: nat)
    requires Distinct(d.indices)
    requires forall o :: o in orders ==> o.quotes.GetBuyPrice() == Done(buyPrice)
    ensures var end := Serve(d, Totals(0, 0, 0), p, orders); DebtCovered(d, end.0, end.1, buyPrice)
  {
    ServeCollateralised(d, d, Totals(0, 0, 0), p, orders, buyPrice);
    var end := Serve(d, Totals(0, 0, 0), p, orders);
    DebtAtPrice(d, end.0, end.1, buyPrice);
  }

  class BalancerAMM {
    const tokens: Tokens
    var marketMaker: BalancerMarketMaker?

    constructor (tokens: Tokens)
      ensures this.tokens == tokens && marketMaker == null && Valid()
    {
      this.tokens, marketMaker := tokens, null;
    }

    predicate Valid()
      reads this
    {
      marketMaker != null ==> marketMaker.tokens == tokens
    }

    /** The ledgers, with the maker's storage when there is a maker. */
    function State(): Desk
      reads this, tokens, marketMaker
      requires Valid()
    {
      if marketMaker != null then marketMaker.State()
      else Desk(tokens.usdx, tokens.sweep, tokens.paused, Minter(0, 0, false, false), 0, 0, 0, 0, Indices(0, 0, 0), 0)
    }

    method SetMarketMaker(maker: BalancerMarketMaker?)
      requires maker != null ==> maker.tokens == tokens
      modifies this
      ensures marketMaker == maker && Valid()
    {
      marketMaker := maker;
    }

    method BuySweep(buyer: Address, usdxAmount: nat, amountOutMin: nat, p: Parties, q: Quotes, swapped: nat)
      returns (r: Tx<nat>)
      requires Valid()
      modifies tokens, marketMaker
      ensures Valid() && marketMaker == old(marketMaker)
      ensures match Purchase(old(State()), marketMaker != null, buyer, usdxAmount, amountOutMin, p, q, swapped)
              case Done((next, sweepAmount)) => r == Done(sweepAmount) && State() == next
              case Reverted => r.Reverted? && State() == old(State())
    {
      if marketMaker != null {
        var buyPrice :- q.GetBuyPrice();
        if buyPrice < q.price {
          r := BuyFromMaker(marketMaker, buyer, usdxAmount, p, q);
          return;
        }
      }
      r := Swap(buyer, usdxAmount, amountOutMin, p, q, swapped);
    }

    method BuyFromMaker(maker: BalancerMarketMaker, buyer: Address, usdxAmount: nat, p: Parties, q: Quotes)
      returns (r: Tx<nat>)
      requires maker.tokens == tokens
      modifies tokens, maker
      ensures match ThroughMaker(old(maker.State()), buyer, usdxAmount, p, q)
              case Done((next, sweepAmount)) => r == Done(sweepAmount) && maker.State() == next
              case Reverted => r.Reverted? && maker.State() == old(maker.State())
    {
      var before := maker.State();
      var paidIn :- tokens.usdx.TransferFrom(p.amm, buyer, p.amm, usdxAmount);
      var approved :- paidIn.Approve(p.amm, p.maker, usdxAmount);
      tokens.usdx := approved;
      r := maker.BuySweep(p.amm, usdxAmount, p, q);
      if r.Done? {
        var paidOut := tokens.sweep.Transfer(p.amm, buyer, r.value);
        if paidOut.Done? {
          tokens.sweep := paidOut.value;
          return;
        }
        maker.minter, maker.sweepBorrowed, maker.spreadDate := before.minter, before.sweepBorrowed, before.spreadDate;
        tokens.sweep := before.sweep;
      }
      tokens.usdx := before.usdx;
      return Reverted;
    }

    method Swap(buyer: Address, usdxAmount: nat, amountOutMin: nat, p: Parties, q: Quotes, swapped: nat)
      returns (r: Tx<nat>)
      requires Valid()
      modifies tokens
      ensures match ThroughPool(old(State()), buyer, usdxAmount, amountOutMin, p, q, swapped)
              case Done((next, sweepAmount)) => r == Done(sweepAmount) && State() == next
              case Reverted => r.Reverted? && State() == old(State())
    {
      var _ :- CheckRate(usdxAmount, amountOutMin, q.usdxDecimals);
      var usdx :- tokens.usdx.TransferFrom(p.amm, buyer, p.amm, usdxAmount);
      usdx :- usdx.Approve(p.amm, p.vault, usdxAmount);
      usdx :- usdx.TransferFrom(p.vault, p.amm, p.vault, usdxAmount);
      if swapped < amountOutMin || tokens.paused || !q.approved {
        return Reverted;
      }
      var sweep :- tokens.sweep.Transfer(p.vault, buyer, swapped);
      tokens.usdx, tokens.sweep := usdx, sweep;
      return Done(swapped);
    }
  }
}
