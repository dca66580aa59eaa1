/** contracts/MarketMaker/BalancerMarketMaker.sol: a stabilizer that sells newly minted SWEEP
    above the target price and puts as much again, with the USDX received, into the pool.

    Assumed of the Balancer vault: joining a pool pulls exactly the requested amounts, within
    the allowances given, or reverts. */
module MarketMaker {
  import opened Evm
  import opened Arithmetic
  import opened Erc20
  import Chainlink

  const SWEEP_DECIMALS: nat := 18
  const DAY_SECONDS: nat := 86_400
  const DAYS_ONE_YEAR: nat := 365

  /** Who takes part. Any of them may be the same account. */
  datatype Parties = Parties(amm: Address, maker: Address, vault: Address, treasury: Address)

  /** What the contracts read from outside in one transaction: the stablecoin's target price and
      spread, the pool price of this AMM and of the one the stablecoin uses, the USDX oracle,
      the time, the pool's rates of the two tokens, and the verdicts of the vault (on the amounts
      of a join request and on the amounts and least shares in its user data), of the equity
      check and of the transfer approver. */
  datatype Quotes = Quotes(targetPrice: nat, arbSpread: nat, price: nat, ammPrice: nat,
                           usdxDecimals: nat, oracleUsdx: Chainlink.Feed, now: nat,
                           usdxRate: nat, sweepRate: nat, joins: (seq<nat>, seq<nat>, nat) -> bool,
                           ratioKept: bool, approved: bool)
  {
    function GetBuyPrice(): Tx<nat> {
      var product :- Mul(arbSpread, targetPrice);
      Add(targetPrice, product / PRECISION)
    }

    /** The stablecoin is minted only while its price is not below the lower band. */
    function IsMintingAllowed(): Tx<bool> {
      var factor :- Sub(PRECISION, arbSpread);
      var product :- Mul(factor, targetPrice);
      Done(ammPrice >= product / PRECISION)
    }

    function ToUsd(usdxAmount: nat): Tx<nat> {
      Chainlink.ConvertTokenToUsd(usdxAmount, usdxDecimals, oracleUsdx)
    }

    /** SWEEP for USDX at the buy price. */
    function SweepFor(usdxAmount: nat): Tx<nat> {
      var usd :- ToUsd(usdxAmount);
      var scaled :- Mul(usd, Pow10(SWEEP_DECIMALS));
      var buyPrice :- GetBuyPrice();
      Div(scaled, buyPrice)
    }

    /** The worth of both amounts in pool shares, at the pool's rates. */
    function ShareWorth(usdxAmount: nat, sweepAmount: nat): Tx<nat> {
      var usdxScaled :- Mul(usdxAmount, usdxRate);
      var usdxUnit :- Exp10(usdxDecimals);
      var sweepScaled :- Mul(sweepAmount, sweepRate);
      Add(usdxScaled / usdxUnit, sweepScaled / Pow10(SWEEP_DECIMALS))
    }

    /** The least shares to accept for a join. */
    function LeastShares(usdxAmount: nat, sweepAmount: nat, slippage: nat): Tx<nat> {
      var worth :- ShareWorth(usdxAmount, sweepAmount);
      var kept :- Sub(PRECISION, slippage);
      var product :- Mul(worth, kept);
      Done(product / PRECISION)
    }

    /** The vault takes the join request of both amounts with its least shares. */
    predicate Joins(i: Indices, usdxAmount: nat, sweepAmount: nat, slippage: nat) {
      var least := LeastShares(usdxAmount, sweepAmount, slippage);
      && least.Done?
      && joins(JoinAmounts(i, usdxAmount, sweepAmount), UserDataAmounts(i, usdxAmount, sweepAmount), least.value)
    }
  }

  /** The maker's entry in the stablecoin's list of minters. */
  datatype Minter = Minter(maxAmount: nat, mintedAmount: nat, isListed: bool, isEnabled: bool)

  /** Positions of the three pool assets. */
  datatype Indices = Indices(sweep: nat, usdx: nat, bpt: nat)

  ghost predicate Distinct(i: Indices) {
    i.sweep < 3 && i.usdx < 3 && i.bpt < 3 && i.sweep != i.usdx && i.usdx != i.bpt && i.bpt != i.sweep
  }

  /** The token ledgers and the maker's storage. */
  datatype Desk = Desk(usdx: Ledger, sweep: Ledger, paused: bool, minter: Minter,
                       sweepBorrowed: nat, loanLimit: nat, spreadDate: nat, protocolFee: nat,
                       indices: Indices, slippage: nat)
  {
    function AccruedFee(now: nat): Tx<nat> {
      if sweepBorrowed == 0 then Done(0)
      else
        var elapsed :- Sub(now, spreadDate);
        var charged :- Mul(sweepBorrowed, protocolFee);
        var product :- Mul(charged, elapsed / DAY_SECONDS);
        Done(product / (DAYS_ONE_YEAR * PRECISION))
    }

    function MintSweep(to: Address, amount: nat, q: Quotes): Tx<Desk> {
      var _ :- Require(minter.isListed && !paused);
      var allowed :- q.IsMintingAllowed();
      var _ :- Require(allowed && minter.isEnabled && q.approved);
      var minted :- Add(minter.mintedAmount, amount);
      var _ :- Require(minted <= minter.maxAmount);
      var ledger :- sweep.Mint(to, amount, UINT_MAX);
      Done(this.(sweep := ledger, minter := minter.(mintedAmount := minted)))
    }

    /** Mints against the loan limit, and pays the fee accrued so far from the maker's balance. */
    function Borrow(amount: nat, p: Parties, q: Quotes): Tx<Desk> {
      var _ :- Require(minter.isListed && minter.maxAmount > 0);
      var available :- Sub(loanLimit, sweepBorrowed);
      var _ :- Require(available >= amount);
      var fee :- AccruedFee(q.now);
      var minted :- MintSweep(p.maker, amount, q);
      var borrowed := minted.(sweepBorrowed := sweepBorrowed + amount, spreadDate := q.now);
      if fee > 0 then
        var paid :- borrowed.sweep.Transfer(p.maker, p.treasury, fee);
        Done(borrowed.(sweep := paid))
      else Done(borrowed)
    }

    /** Approves the vault for both amounts, and joins the pool with them. */
    function AddLiquidity(usdxAmount: nat, sweepAmount: nat, p: Parties, q: Quotes): Tx<Desk> {
      var usdx1 :- usdx.Approve(p.maker, p.vault, usdxAmount);
      var sweep1 :- sweep.Approve(p.maker, p.vault, sweepAmount);
      var amounts := JoinAmounts(indices, usdxAmount, sweepAmount);
      var _ :- Require(indices.usdx < 3 && indices.sweep < 3 && q.Joins(indices, usdxAmount, sweepAmount, slippage));
      var usdx2 :- usdx1.TransferFrom(p.vault, p.maker, p.vault, amounts[indices.usdx]);
      var sweep2 :- sweep1.TransferFrom(p.vault, p.maker, p.vault, amounts[indices.sweep]);
      Done(this.(usdx := usdx2, sweep := sweep2))
    }

    /** Takes the payment, and borrows as much as is sold and as is added to the pool. */
    function Funded(payer: Address, usdxAmount: nat, sweepAmount: nat, p: Parties, q: Quotes): Tx<Desk> {
      var paidIn :- usdx.TransferFrom(p.maker, payer, p.maker, usdxAmount);
      var loan :- Mul(sweepAmount, 2);
      this.(usdx := paidIn).Borrow(loan, p, q)
    }

    /** Adds both amounts to the pool, and hands over what was sold. */
    function Settled(payer: Address, usdxAmount: nat, sweepAmount: nat, p: Parties, q: Quotes): Tx<Desk> {
      var joined :- AddLiquidity(usdxAmount, sweepAmount, p, q);
      var paidOut :- joined.sweep.Transfer(p.maker, payer, sweepAmount);
      var _ :- Require(q.ratioKept);
      Done(joined.(sweep := paidOut))
    }

    function BuySweep(payer: Address, usdxAmount: nat, p: Parties, q: Quotes): Tx<(Desk, nat)> {
      var sweepAmount :- q.SweepFor(usdxAmount);
      var funded :- Funded(payer, usdxAmount, sweepAmount, p, q);
      var settled :- funded.Settled(payer, usdxAmount, sweepAmount, p, q);
      Done((settled, sweepAmount))
    }
  }

  /** The amounts of a join request, one per pool asset; the pool token itself gets none. */
  function JoinAmounts(i: Indices, usdxAmount: nat, sweepAmount: nat): (amounts: seq<nat>)
    ensures |amounts| == 3
  {
    var empty := [0, 0, 0];
    var withUsdx := if i.usdx < 3 then empty[i.usdx := usdxAmount] else empty;
    if i.sweep < 3 then withUsdx[i.sweep := sweepAmount] else withUsdx
  }

  /** The amounts again, as the pool wants them in its user data. */
  function UserDataAmounts(i: Indices, usdxAmount: nat, sweepAmount: nat): seq<nat> {
    [if i.sweep > i.usdx then usdxAmount else sweepAmount, if i.sweep > i.usdx then sweepAmount else usdxAmount]
  }

  /** The user data is the request without the pool token, in every arrangement of the assets. */
  lemma UserDataDropsPoolToken(i: Indices, usdxAmount: nat, sweepAmount: nat)
    requires Distinct(i)
    ensures var amounts := JoinAmounts(i, usdxAmount, sweepAmount);
            && amounts[i.usdx] == usdxAmount && amounts[i.sweep] == sweepAmount && amounts[i.bpt] == 0
            && UserDataAmounts(i, usdxAmount, sweepAmount) == amounts[..i.bpt] + amounts[i.bpt + 1..]
  {
  }

  /** The price a buyer pays is the upper band, to within the last unit of SWEEP. */
  lemma SweepForIsFair(q: Quotes, usdxAmount: nat)
    requires q.SweepFor(usdxAmount).Done?
    ensures q.GetBuyPrice().Done? && q.GetBuyPrice().value > 0
    ensures q.ToUsd(usdxAmount).Done?
    ensures var usd := q.ToUsd(usdxAmount).value;
            var s, buyPrice := q.SweepFor(usdxAmount).value, q.GetBuyPrice().value;
            && s * buyPrice <= usd * Pow10(SWEEP_DECIMALS) < (s + 1) * buyPrice
            && (buyPrice < q.price ==> usd * Pow10(SWEEP_DECIMALS) / q.price <= s)
  {
    var usd := q.ToUsd(usdxAmount).value;
    var scaled := usd * Pow10(SWEEP_DECIMALS);
    DivBounds(scaled, q.GetBuyPrice().value);
    if q.GetBuyPrice().value < q.price {
      DivAntitone(scaled, q.GetBuyPrice().value, q.price);
    }
  }

  /** The worth is that of the USDX plus that of the SWEEP, each at its rate and rounded down; the
      least shares are that less the slippage, rounded down: all of it without slippage, never more,
      none at all at one hundred percent; above, joining reverts. */
  lemma LeastSharesWithinWorth(q: Quotes, usdxAmount: nat, sweepAmount: nat, slippage: nat)
    returns (usdxWorth: nat, sweepWorth: nat)
    requires q.LeastShares(usdxAmount, sweepAmount, slippage).Done?
    ensures var a, b := Pow10(q.usdxDecimals), Pow10(SWEEP_DECIMALS);
            && usdxWorth * a <= usdxAmount * q.usdxRate < (usdxWorth + 1) * a
            && sweepWorth * b <= sweepAmount * q.sweepRate < (sweepWorth + 1) * b
    ensures slippage <= PRECISION
    ensures var worth, least := usdxWorth + sweepWorth, q.LeastShares(usdxAmount, sweepAmount, slippage).value;
            && q.ShareWorth(usdxAmount, sweepAmount) == Done(worth)
            && least <= worth
            && least * PRECISION <= worth * (PRECISION - slippage) < (least + 1) * PRECISION
            && (slippage == 0 ==> least == worth) && (slippage == PRECISION ==> least == 0)
  {
    usdxWorth, sweepWorth := ShareWorthExact(q, usdxAmount, sweepAmount);
    WithinWhole(usdxWorth + sweepWorth, PRECISION - slippage);
  }

  lemma ShareWorthExact(q: Quotes, usdxAmount: nat, sweepAmount: nat) returns (usdxWorth: nat, sweepWorth: nat)
    requires q.ShareWorth(usdxAmount, sweepAmount).Done?
    ensures var a, b := Pow10(q.usdxDecimals), Pow10(SWEEP_DECIMALS);
            && usdxWorth * a <= usdxAmount * q.usdxRate < (usdxWorth + 1) * a
            && sweepWorth * b <= sweepAmount * q.sweepRate < (sweepWorth + 1) * b
    ensures q.ShareWorth(usdxAmount, sweepAmount) == Done(usdxWorth + sweepWorth)
  {
    usdxWorth := RatedWorth(usdxAmount, q.usdxRate, Pow10(q.usdxDecimals));
    sweepWorth := RatedWorth(sweepAmount, q.sweepRate, Pow10(SWEEP_DECIMALS));
  }

  lemma RatedWorth(amount: nat, rate: nat, unit: nat) returns (worth: nat)
    requires unit > 0
    ensures worth == amount * rate / unit
    ensures worth * unit <= amount * rate < (worth + 1) * unit
  {
    var scaled := amount * rate;
    worth := scaled / unit;
    DivBounds(scaled, unit);
  }

  lemma WithinWhole(worth: nat, kept: nat)
    requires kept <= PRECISION
    ensures var least := worth * kept / PRECISION;
            && least <= worth && least * PRECISION <= worth * kept < (least + 1) * PRECISION
            && (kept == PRECISION ==> least == worth) && (kept == 0 ==> least == 0)
  {
    MulMono(kept, PRECISION, worth);
    DivUnique(worth * PRECISION, PRECISION, worth);
    DivMono(worth * kept, worth * PRECISION, PRECISION);
    DivBounds(worth * kept, PRECISION);
  }

  /** The coin may be minted exactly while its price is not below the target price less the spread,
      that rounded down; a spread above one hundred percent reverts. */
  lemma MintingAllowedExactly(q: Quotes)
    ensures q.IsMintingAllowed().Done? <==>
            q.arbSpread <= PRECISION && (PRECISION - q.arbSpread) * q.targetPrice <= UINT_MAX
    ensures q.IsMintingAllowed().Done? ==>
              (q.IsMintingAllowed().value <==>
                 (PRECISION - q.arbSpread) * q.targetPrice < (q.ammPrice + 1) * PRECISION)
  {
    if q.arbSpread <= PRECISION {
      var factor := PRECISION - q.arbSpread;
      var product := factor * q.targetPrice;
      assert product >= 0 by { MulMono(0, factor, q.targetPrice); }
      DivAdjoint(product, PRECISION, q.ammPrice + 1);
    }
  }

  /** The fee is one on the debt for every whole day since the last loan, rounded down once. */
  lemma FeeExactly(d: Desk, now: nat) returns (days: nat)
    requires d.AccruedFee(now).Done?
    ensures d.sweepBorrowed == 0 ==> d.AccruedFee(now).value == 0
    ensures d.sweepBorrowed > 0 ==>
              var fee, year := d.AccruedFee(now).value, DAYS_ONE_YEAR * PRECISION;
              && d.spreadDate + days * DAY_SECONDS <= now < d.spreadDate + (days + 1) * DAY_SECONDS
              && fee * year <= d.sweepBorrowed * d.protocolFee * days < (fee + 1) * year
  {
    days := 0;
    if d.sweepBorrowed > 0 {
      var elapsed := now - d.spreadDate;
      days := elapsed / DAY_SECONDS;
      FeeAfter(d, now);
      DivBounds(elapsed, DAY_SECONDS);
      DivBounds(d.sweepBorrowed * d.protocolFee * days, DAYS_ONE_YEAR * PRECISION);
    }
  }

  /** What borrowing does to any account. */
  lemma BorrowMoves(d: Desk, amount: nat, p: Parties, q: Quotes, account: Address)
    requires d.Borrow(amount, p, q).Done?
    ensures d.AccruedFee(q.now).Done?
    ensures var after, fee := d.Borrow(amount, p, q).value, d.AccruedFee(q.now).value;
            && after.sweep.BalanceOf(account) ==
               d.sweep.BalanceOf(account) + At(account, p.maker, amount - fee) + At(account, p.treasury, fee)
            && after.sweep.supply == d.sweep.supply + amount
            && after.sweepBorrowed == d.sweepBorrowed + amount <= d.loanLimit
            && after.usdx == d.usdx && after.indices == d.indices && after.slippage == d.slippage
            && after.spreadDate == q.now && after.loanLimit == d.loanLimit
            && after.minter.mintedAmount == d.minter.mintedAmount + amount <= d.minter.maxAmount
            && after == d.(sweep := after.sweep, minter := d.minter.(mintedAmount := after.minter.mintedAmount),
                           sweepBorrowed := after.sweepBorrowed, spreadDate := after.spreadDate)
            && after.sweep.allowances == d.sweep.allowances
  {
    var minted := d.MintSweep(p.maker, amount, q).value;
    var fee := d.AccruedFee(q.now).value;
    if fee > 0 {
      TransferMoves(minted.sweep, p.maker, p.treasury, fee, account);
    }
  }

  /** An enabled minter within its cap and its loan limit, a coin that is not paused and may be
      minted, and SWEEP enough, with the loan, for the fee accrued so far; and a treasury to pay
      it to, if there is one to pay. */
  ghost predicate MayBorrow(d: Desk, amount: nat, p: Parties, q: Quotes) {
    && d.minter.isListed && d.minter.isEnabled && !d.paused && q.approved
    && d.minter.maxAmount > 0 && d.minter.mintedAmount + amount <= Min(d.minter.maxAmount, UINT_MAX)
    && d.sweepBorrowed + amount <= d.loanLimit
    && d.sweep.supply + amount <= UINT_MAX
    && q.IsMintingAllowed() == Done(true)
    && d.AccruedFee(q.now).Done? && d.AccruedFee(q.now).value <= d.sweep.BalanceOf(p.maker) + amount
    && (d.AccruedFee(q.now).value > 0 ==> p.treasury != ZERO_ADDRESS)
  }

  lemma BorrowDomain(d: Desk, amount: nat, p: Parties, q: Quotes)
    requires p.maker != ZERO_ADDRESS
    ensures d.Borrow(amount, p, q).Done? <==> MayBorrow(d, amount, p, q)
  {
    if d.MintSweep(p.maker, amount, q).Done? {
      var minted := d.MintSweep(p.maker, amount, q).value;
      assert minted.sweep.BalanceOf(p.maker) == d.sweep.BalanceOf(p.maker) + amount;
    }
  }

  /** The fee counts whole days since the last loan: none is due within a day of it, and it
      never falls as time goes on. */
  lemma FeeAccruesDaily(d: Desk, now: nat, later: nat)
    requires d.spreadDate <= now <= later && d.AccruedFee(later).Done?
    ensures now < d.spreadDate + DAY_SECONDS ==> d.AccruedFee(now) == Done(0)
    ensures d.AccruedFee(now).Done? && d.AccruedFee(now).value <= d.AccruedFee(later).value
  {
    if d.sweepBorrowed > 0 {
      FeeAfter(d, now);
      FeeAfter(d, later);
      FeeGrows(d.sweepBorrowed * d.protocolFee, now - d.spreadDate, later - d.spreadDate);
    }
  }

  lemma FeeAfter(d: Desk, now: nat)
    requires d.sweepBorrowed > 0 && d.spreadDate <= now
    ensures var charged := d.sweepBorrowed * d.protocolFee;
            var product := charged * ((now - d.spreadDate) / DAY_SECONDS);
            d.AccruedFee(now) == if charged <= UINT_MAX && product <= UINT_MAX
                                 then Done(product / (DAYS_ONE_YEAR * PRECISION)) else Reverted
  {
  }

  lemma FeeGrows(charged: nat, elapsed: nat, more: nat)
    requires elapsed <= more
    ensures elapsed < DAY_SECONDS ==> charged * (elapsed / DAY_SECONDS) == 0
    ensures charged * (elapsed / DAY_SECONDS) <= charged * (more / DAY_SECONDS)
    ensures charged * (elapsed / DAY_SECONDS) / (DAYS_ONE_YEAR * PRECISION) <=
            charged * (more / DAY_SECONDS) / (DAYS_ONE_YEAR * PRECISION)
  {
    var days, moreDays := elapsed / DAY_SECONDS, more / DAY_SECONDS;
    DivMono(elapsed, more, DAY_SECONDS);
    MulMono(days, moreDays, charged);
    assert charged * days == days * charged && charged * moreDays == moreDays * charged;
    DivMono(charged * days, charged * moreDays, DAYS_ONE_YEAR * PRECISION);
  }

  lemma AddLiquidityMoves(d: Desk, usdxAmount: nat, sweepAmount: nat, p: Parties, q: Quotes, account: Address)
    requires Distinct(d.indices) && d.AddLiquidity(usdxAmount, sweepAmount, p, q).Done?
    ensures var after := d.AddLiquidity(usdxAmount, sweepAmount, p, q).value;
            && after.usdx.BalanceOf(account) ==
               d.usdx.BalanceOf(account) - At(account, p.maker, usdxAmount) + At(account, p.vault, usdxAmount)
            && after.sweep.BalanceOf(account) ==
               d.sweep.BalanceOf(account) - At(account, p.maker, sweepAmount) + At(account, p.vault, sweepAmount)
            && after == d.(usdx := after.usdx, sweep := after.sweep)
            && after.usdx.supply == d.usdx.supply && after.sweep.supply == d.sweep.supply
  {
    UserDataDropsPoolToken(d.indices, usdxAmount, sweepAmount);
    var usdx := d.usdx.Approve(p.maker, p.vault, usdxAmount).value;
    var sweep := d.sweep.Approve(p.maker, p.vault, sweepAmount).value;
    TransferFromMoves(usdx, p.vault, p.maker, p.vault, usdxAmount, account);
    TransferFromMoves(sweep, p.vault, p.maker, p.vault, sweepAmount, account);
  }

  /** What is left of an approval for just the amount withdrawn: nothing, unless it was unlimited. */
  function Leftover(amount: nat): nat {
    if amount == UINT_MAX then UINT_MAX else 0
  }

  /** What payment, loan, join and delivery do to any one allowance. */
  lemma FundedAllows(d: Desk, payer: Address, usdxAmount: nat, s: nat, p: Parties, q: Quotes, o: Address, a: Address)
    requires d.Funded(payer, usdxAmount, s, p, q).Done?
    ensures var after := d.Funded(payer, usdxAmount, s, p, q).value;
            && after.usdx.Allowance(o, a) == AllowanceLeft(d.usdx, p.maker, payer, usdxAmount, o, a)
            && after.sweep.allowances == d.sweep.allowances
  {
    AllowanceMoves(d.usdx, p.maker, payer, p.maker, usdxAmount, o, a);
    BorrowMoves(d.(usdx := d.usdx.TransferFrom(p.maker, payer, p.maker, usdxAmount).value), s * 2, p, q, 0);
  }

  lemma SettledAllows(d: Desk, payer: Address, usdxAmount: nat, s: nat, p: Parties, q: Quotes, o: Address, a: Address)
    requires Distinct(d.indices) && d.Settled(payer, usdxAmount, s, p, q).Done?
    ensures var after := d.Settled(payer, usdxAmount, s, p, q).value;
            if (o, a) == (p.maker, p.vault)
            then after.usdx.Allowance(o, a) == Leftover(usdxAmount) && after.sweep.Allowance(o, a) == Leftover(s)
            else after.usdx.Allowance(o, a) == d.usdx.Allowance(o, a)
                 && after.sweep.Allowance(o, a) == d.sweep.Allowance(o, a)
  {
    UserDataDropsPoolToken(d.indices, usdxAmount, s);
    ApprovedAndTaken(d.usdx, p, usdxAmount, o, a);
    ApprovedAndTaken(d.sweep, p, s, o, a);
  }

  lemma ApprovedAndTaken(l: Ledger, p: Parties, amount: nat, o: Address, a: Address)
    ensures l.Approve(p.maker, p.vault, amount).Done? ==>
              var approved := l.Approve(p.maker, p.vault, amount).value;
              approved.TransferFrom(p.vault, p.maker, p.vault, amount).Done? ==>
                approved.TransferFrom(p.vault, p.maker, p.vault, amount).value.Allowance(o, a) ==
                if (o, a) == (p.maker, p.vault) then Leftover(amount) else l.Allowance(o, a)
  {
  }

  lemma BuySweepAllows(d: Desk, payer: Address, usdxAmount: nat, p: Parties, q: Quotes, o: Address, a: Address)
    requires Distinct(d.indices) && d.BuySweep(payer, usdxAmount, p, q).Done?
    ensures var (after, s) := d.BuySweep(payer, usdxAmount, p, q).value;
            if (o, a) == (p.maker, p.vault)
            then after.usdx.Allowance(o, a) == Leftover(usdxAmount) && after.sweep.Allowance(o, a) == Leftover(s)
            else after.usdx.Allowance(o, a) == AllowanceLeft(d.usdx, p.maker, payer, usdxAmount, o, a)
                 && after.sweep.Allowance(o, a) == d.sweep.Allowance(o, a)
  {
    var s := d.BuySweep(payer, usdxAmount, p, q).value.1;
    FundedAllows(d, payer, usdxAmount, s, p, q, o, a);
    FundedMoves(d, payer, usdxAmount, s, p, q, 0);
    SettledAllows(d.Funded(payer, usdxAmount, s, p, q).value, payer, usdxAmount, s, p, q, o, a);
  }

  /** What joining hands to the vault: a request that gives each token its amount and the pool token
      none, the same without the pool token as user data, and the least shares. It goes through
      exactly when the maker holds both amounts and the vault takes just that. */
  lemma AddLiquidityHandsOver(d: Desk, usdxAmount: nat, s: nat, p: Parties, q: Quotes,
                              request: seq<nat>, userData: seq<nat>, least: nat)
    requires Distinct(d.indices) && ZERO_ADDRESS !in {p.maker, p.vault}
    requires |request| == 3
    requires request[d.indices.usdx] == usdxAmount && request[d.indices.sweep] == s && request[d.indices.bpt] == 0
    requires userData == request[..d.indices.bpt] + request[d.indices.bpt + 1..]
    requires q.LeastShares(usdxAmount, s, d.slippage) == Done(least)
    ensures d.AddLiquidity(usdxAmount, s, p, q).Done? <==>
            && usdxAmount <= d.usdx.BalanceOf(p.maker) && s <= d.sweep.BalanceOf(p.maker)
            && q.joins(request, userData, least)
  {
    AddLiquidityDomain(d, usdxAmount, s, p, q);
    UserDataDropsPoolToken(d.indices, usdxAmount, s);
    assert request == JoinAmounts(d.indices, usdxAmount, s);
  }

  /** The effect of the payment and the loan on one account, and on the rest. */
  ghost predicate PaidAndLent(d: Desk, after: Desk, payer: Address, usdxAmount: nat, s: nat, fee: nat,
                              p: Parties, account: Address)
  {
    && after.usdx.BalanceOf(account) ==
       d.usdx.BalanceOf(account) - At(account, payer, usdxAmount) + At(account, p.maker, usdxAmount)
    && after.sweep.BalanceOf(account) ==
       d.sweep.BalanceOf(account) + At(account, p.maker, 2 * s - fee) + At(account, p.treasury, fee)
    && after.sweep.supply == d.sweep.supply + 2 * s && after.usdx.supply == d.usdx.supply
    && after.sweepBorrowed == d.sweepBorrowed + 2 * s <= d.loanLimit
    && after.minter.mintedAmount == d.minter.mintedAmount + 2 * s
    && after.indices == d.indices && after.slippage == d.slippage
  }

  lemma FundedMoves(d: Desk, payer: Address, usdxAmount: nat, s: nat, p: Parties, q: Quotes, account: Address)
    requires d.Funded(payer, usdxAmount, s, p, q).Done?
    ensures d.AccruedFee(q.now).Done?
    ensures var after := d.Funded(payer, usdxAmount, s, p, q).value;
            && after.spreadDate == q.now
            && PaidAndLent(d, after, payer, usdxAmount, s, d.AccruedFee(q.now).value, p, account)
  {
    var d0 := d.(usdx := d.usdx.TransferFrom(p.maker, payer, p.maker, usdxAmount).value);
    assert d0.AccruedFee(q.now) == d.AccruedFee(q.now);
    TransferFromMoves(d.usdx, p.maker, payer, p.maker, usdxAmount, account);
    BorrowMoves(d0, s * 2, p, q, account);
  }

  /** The effect of the join and the delivery on one account, and on the rest. */
  ghost predicate JoinedAndDelivered(d: Desk, after: Desk, payer: Address, usdxAmount: nat, s: nat,
                                     p: Parties, account: Address)
  {
    && after.usdx.BalanceOf(account) ==
       d.usdx.BalanceOf(account) - At(account, p.maker, usdxAmount) + At(account, p.vault, usdxAmount)
    && after.sweep.BalanceOf(account) ==
       d.sweep.BalanceOf(account) - At(account, p.maker, 2 * s)
       + At(account, p.vault, s) + At(account, payer, s)
    && after == d.(usdx := after.usdx, sweep := after.sweep)
    && after.usdx.supply == d.usdx.supply && after.sweep.supply == d.sweep.supply
  }

  lemma SettledMoves(d: Desk, payer: Address, usdxAmount: nat, s: nat, p: Parties, q: Quotes, account: Address)
    requires Distinct(d.indices) && d.Settled(payer, usdxAmount, s, p, q).Done?
    ensures JoinedAndDelivered(d, d.Settled(payer, usdxAmount, s, p, q).value, payer, usdxAmount, s, p, account)
  {
    AddLiquidityMoves(d, usdxAmount, s, p, q, account);
    TransferMoves(d.AddLiquidity(usdxAmount, s, p, q).value.sweep, p.maker, payer, s, account);
  }

  /** The effect of a purchase on one account: the payer's USDX and as much SWEEP as the receiver
      gets end in the vault, and the fee accrued on the maker's debt goes from the maker to the
      treasury; and on the rest: SWEEP in circulation and the maker's debt rise by 2 s. */
  ghost predicate Sold(d: Desk, after: Desk, payer: Address, receiver: Address, usdxAmount: nat, s: nat, fee: nat,
                       p: Parties, account: Address)
  {
    && after.usdx.BalanceOf(account) ==
       d.usdx.BalanceOf(account) - At(account, payer, usdxAmount) + At(account, p.vault, usdxAmount)
    && after.sweep.BalanceOf(account) ==
       d.sweep.BalanceOf(account) + At(account, receiver, s) + At(account, p.vault, s)
       - At(account, p.maker, fee) + At(account, p.treasury, fee)
    && after.sweep.supply == d.sweep.supply + 2 * s && after.usdx.supply == d.usdx.supply
    && after.sweepBorrowed == d.sweepBorrowed + 2 * s <= d.loanLimit
    && after.minter.mintedAmount == d.minter.mintedAmount + 2 * s
    && after.indices == d.indices && after.slippage == d.slippage
  }

  lemma StepsSell(d: Desk, funded: Desk, after: Desk, payer: Address, usdxAmount: nat, s: nat, fee: nat,
                  p: Parties, account: Address)
    requires PaidAndLent(d, funded, payer, usdxAmount, s, fee, p, account)
    requires JoinedAndDelivered(funded, after, payer, usdxAmount, s, p, account)
    ensures Sold(d, after, payer, payer, usdxAmount, s, fee, p, account)
  {
  }

  /** A direct purchase from the maker: this is the whole effect on every account, whichever
      parties coincide. */
  lemma BuySweepMoves(d: Desk, payer: Address, usdxAmount: nat, p: Parties, q: Quotes, account: Address)
    requires Distinct(d.indices) && d.BuySweep(payer, usdxAmount, p, q).Done?
    ensures d.AccruedFee(q.now).Done?
    ensures var (after, s) := d.BuySweep(payer, usdxAmount, p, q).value;
            && q.SweepFor(usdxAmount) == Done(s) && after.spreadDate == q.now
            && Sold(d, after, payer, payer, usdxAmount, s, d.AccruedFee(q.now).value, p, account)
  {
    var (after, s) := d.BuySweep(payer, usdxAmount, p, q).value;
    var funded := d.Funded(payer, usdxAmount, s, p, q).value;
    FundedMoves(d, payer, usdxAmount, s, p, q, account);
    SettledMoves(funded, payer, usdxAmount, s, p, q, account);
    StepsSell(d, funded, after, payer, usdxAmount, s, d.AccruedFee(q.now).value, p, account);
  }

  /** What `spender` may take from `owner`. */
  ghost predicate MayTake(l: Ledger, spender: Address, owner: Address, amount: nat) {
    && owner != ZERO_ADDRESS && amount <= l.BalanceOf(owner)
    && (l.Allowance(owner, spender) == UINT_MAX || amount <= l.Allowance(owner, spender))
  }

  lemma TransferFromDomain(l: Ledger, spender: Address, from: Address, to: Address, amount: nat)
    requires spender != ZERO_ADDRESS && to != ZERO_ADDRESS
    ensures l.TransferFrom(spender, from, to, amount).Done? <==> MayTake(l, spender, from, amount)
  {
  }

  lemma FundedDomain(d: Desk, payer: Address, usdxAmount: nat, s: nat, p: Parties, q: Quotes)
    requires p.maker != ZERO_ADDRESS
    ensures d.Funded(payer, usdxAmount, s, p, q).Done? <==>
            MayTake(d.usdx, p.maker, payer, usdxAmount) && MayBorrow(d, 2 * s, p, q)
  {
    TransferFromDomain(d.usdx, p.maker, payer, p.maker, usdxAmount);
    if MayTake(d.usdx, p.maker, payer, usdxAmount) {
      var d0 := d.(usdx := d.usdx.TransferFrom(p.maker, payer, p.maker, usdxAmount).value);
      assert d0.AccruedFee(q.now) == d.AccruedFee(q.now);
      BorrowDomain(d0, s * 2, p, q);
    }
  }

  lemma AddLiquidityDomain(d: Desk, usdxAmount: nat, s: nat, p: Parties, q: Quotes)
    requires Distinct(d.indices) && ZERO_ADDRESS !in {p.maker, p.vault}
    ensures d.AddLiquidity(usdxAmount, s, p, q).Done? <==>
            && usdxAmount <= d.usdx.BalanceOf(p.maker) && s <= d.sweep.BalanceOf(p.maker)
            && q.Joins(d.indices, usdxAmount, s, d.slippage)
  {
    UserDataDropsPoolToken(d.indices, usdxAmount, s);
    TransferFromDomain(d.usdx.Approve(p.maker, p.vault, usdxAmount).value, p.vault, p.maker, p.vault, usdxAmount);
    TransferFromDomain(d.sweep.Approve(p.maker, p.vault, s).value, p.vault, p.maker, p.vault, s);
  }

  lemma SettledDomain(d: Desk, payer: Address, usdxAmount: nat, s: nat, p: Parties, q: Quotes)
    requires Distinct(d.indices) && ZERO_ADDRESS !in {p.maker, p.vault, payer} && p.maker != p.vault
    ensures d.Settled(payer, usdxAmount, s, p, q).Done? <==>
            && usdxAmount <= d.usdx.BalanceOf(p.maker) && 2 * s <= d.sweep.BalanceOf(p.maker) && q.ratioKept
            && q.Joins(d.indices, usdxAmount, s, d.slippage)
  {
    AddLiquidityDomain(d, usdxAmount, s, p, q);
    if d.AddLiquidity(usdxAmount, s, p, q).Done? {
      AddLiquidityMoves(d, usdxAmount, s, p, q, p.maker);
    }
  }

  /** What a purchase from the maker needs beside the payment: the price of the oracle, a loan
      of twice what is sold, the fee accrued so far in the maker's own SWEEP, and the consent of
      the pool and of the equity check. */
  ghost predicate MaySell(d: Desk, usdxAmount: nat, p: Parties, q: Quotes) {
    && q.SweepFor(usdxAmount).Done?
    && var s := q.SweepFor(usdxAmount).value;
    && MayBorrow(d, 2 * s, p, q) && d.AccruedFee(q.now).value <= d.sweep.BalanceOf(p.maker)
    && q.Joins(d.indices, usdxAmount, s, d.slippage) && q.ratioKept
  }

  lemma BuySweepDomain(d: Desk, payer: Address, usdxAmount: nat, p: Parties, q: Quotes)
    requires Distinct(d.indices) && ZERO_ADDRESS !in {p.maker, p.vault}
    requires p.maker !in {p.vault, p.treasury}
    ensures d.BuySweep(payer, usdxAmount, p, q).Done? <==>
            MayTake(d.usdx, p.maker, payer, usdxAmount) && MaySell(d, usdxAmount, p, q)
  {
    if q.SweepFor(usdxAmount).Done? {
      var s := q.SweepFor(usdxAmount).value;
      FundedDomain(d, payer, usdxAmount, s, p, q);
      if d.Funded(payer, usdxAmount, s, p, q).Done? {
        FundedMoves(d, payer, usdxAmount, s, p, q, p.maker);
        SettledDomain(d.Funded(payer, usdxAmount, s, p, q).value, payer, usdxAmount, s, p, q);
      }
    }
  }

  /** The two token contracts: the ledgers that all parties share. */
  class Tokens {
    var usdx: Ledger
    var sweep: Ledger
    var paused: bool

    constructor (usdx: Ledger, sweep: Ledger)
      ensures this.usdx == usdx && this.sweep == sweep && !paused
    {
      this.usdx, this.sweep, paused := usdx, sweep, false;
    }
  }

  class BalancerMarketMaker {
    const tokens: Tokens
    var minter: Minter
    var sweepBorrowed: nat
    var loanLimit: nat
    var spreadDate: nat
    var protocolFee: nat
    var indices: Indices
    var slippage: nat

    constructor (tokens: Tokens, indices: Indices)
      ensures this.tokens == tokens && sweepBorrowed == 0 && loanLimit == 0 && this.indices == indices
      ensures slippage == 5_000
    {
      this.tokens := tokens;
      minter, this.indices := Minter(0, 0, false, false), indices;
      sweepBorrowed, loanLimit, spreadDate, protocolFee, slippage := 0, 0, 0, 0, 5_000;
    }

    function State(): Desk
      reads this, tokens
    {
      Desk(tokens.usdx, tokens.sweep, tokens.paused, minter,
           sweepBorrowed, loanLimit, spreadDate, protocolFee, indices, slippage)
    }

    method Borrow(sweepAmount: nat, p: Parties, q: Quotes) returns (r: Tx<()>)
      modifies this`minter, this`sweepBorrowed, this`spreadDate, tokens`sweep
      ensures match old(State()).Borrow(sweepAmount, p, q)
              case Done(next) => r.Done? && State() == next
              case Reverted => r.Reverted? && State() == old(State())
    {
      if !minter.isListed || minter.maxAmount == 0 {
        return Reverted;
      }
      var sweepAvailable :- Sub(loanLimit, sweepBorrowed);
      if sweepAvailable < sweepAmount {
        return Reverted;
      }
      var spreadAmount :- State().AccruedFee(q.now);
      var minted :- State().MintSweep(p.maker, sweepAmount, q);
      var ledger := minted.sweep;
      if spreadAmount > 0 {
        ledger :- ledger.Transfer(p.maker, p.treasury, spreadAmount);
      }
      tokens.sweep, minter := ledger, minted.minter;
      sweepBorrowed, spreadDate := sweepBorrowed + sweepAmount, q.now;
      return Done(());
    }

    /** Fills the request and its user data position by position. */
    static method FillRequest(i: Indices, usdxAmount: nat, sweepAmount: nat)
      returns (request: seq<nat>, userData: seq<nat>)
      requires i.usdx < 3 && i.sweep < 3
      ensures request == JoinAmounts(i, usdxAmount, sweepAmount)
      ensures userData == UserDataAmounts(i, usdxAmount, sweepAmount)
    {
      var amounts := new nat[3](_ => 0);
      amounts[i.usdx] := usdxAmount;
      amounts[i.sweep] := sweepAmount;
      var userDataAmounts := new nat[2](_ => 0);
      userDataAmounts[0] := if i.sweep > i.usdx then usdxAmount else sweepAmount;
      userDataAmounts[1] := if i.sweep > i.usdx then sweepAmount else usdxAmount;
      return amounts[..], userDataAmounts[..];
    }

    /** Approves the vault for both amounts, and joins the pool with them. */
    method AddLiquidity(usdxAmount: nat, sweepAmount: nat, p: Parties, q: Quotes) returns (r: Tx<()>)
      modifies tokens`usdx, tokens`sweep
      ensures match old(State()).AddLiquidity(usdxAmount, sweepAmount, p, q)
              case Done(next) => r.Done? && State() == next
              case Reverted => r.Reverted? && State() == old(State())
    {
      var usdx :- tokens.usdx.Approve(p.maker, p.vault, usdxAmount);
      var sweep :- tokens.sweep.Approve(p.maker, p.vault, sweepAmount);
      if indices.usdx >= 3 || indices.sweep >= 3 {
        return Reverted;
      }
      var amounts, userDataAmounts := FillRequest(indices, usdxAmount, sweepAmount);
      var least :- q.LeastShares(usdxAmount, sweepAmount, slippage);
      if !q.joins(amounts, userDataAmounts, least) {
        return Reverted;
      }
      usdx :- usdx.TransferFrom(p.vault, p.maker, p.vault, amounts[indices.usdx]);
      sweep :- sweep.TransferFrom(p.vault, p.maker, p.vault, amounts[indices.sweep]);
      tokens.usdx, tokens.sweep := usdx, sweep;
      return Done(());
    }

    method Fund(payer: Address, usdxAmount: nat, sweepAmount: nat, p: Parties, q: Quotes) returns (r: Tx<()>)
      modifies this`minter, this`sweepBorrowed, this`spreadDate, tokens`usdx, tokens`sweep
      ensures match old(State()).Funded(payer, usdxAmount, sweepAmount, p, q)
              case Done(next) => r.Done? && State() == next
              case Reverted => r.Reverted? && State() == old(State())
    {
      var usdx := tokens.usdx;
      var paidIn :- usdx.TransferFrom(p.maker, payer, p.maker, usdxAmount);
      var loan :- Mul(sweepAmount, 2);
      tokens.usdx := paidIn;
      r := Borrow(loan, p, q);
      if r.Reverted? {
        tokens.usdx := usdx;
      }
    }

    method Settle(payer: Address, usdxAmount: nat, sweepAmount: nat, p: Parties, q: Quotes) returns (r: Tx<()>)
      modifies tokens`usdx, tokens`sweep
      ensures match old(State()).Settled(payer, usdxAmount, sweepAmount, p, q)
              case Done(next) => r.Done? && State() == next
              case Reverted => r.Reverted? && State() == old(State())
    {
      var usdx, sweep := tokens.usdx, tokens.sweep;
      r := AddLiquidity(usdxAmount, sweepAmount, p, q);
      if r.Reverted? {
        return Reverted;
      }
      var paidOut := tokens.sweep.Transfer(p.maker, payer, sweepAmount);
      if paidOut.Reverted? || !q.ratioKept {
        tokens.usdx, tokens.sweep := usdx, sweep;
        return Reverted;
      }
      tokens.sweep := paidOut.value;
    }

    method BuySweep(payer: Address, usdxAmount: nat, p: Parties, q: Quotes) returns (r: Tx<nat>)
      modifies this`minter, this`sweepBorrowed, this`spreadDate, tokens`usdx, tokens`sweep
      ensures match old(State()).BuySweep(payer, usdxAmount, p, q)
              case Done((next, sweepAmount)) => r == Done(sweepAmount) && State() == next
              case Reverted => r.Reverted? && State() == old(State())
    {
      var before := State();
      var sweepAmount :- q.SweepFor(usdxAmount);
      var funded := Fund(payer, usdxAmount, sweepAmount, p, q);
      if funded.Reverted? {
        return Reverted;
      }
      var settled := Settle(payer, usdxAmount, sweepAmount, p, q);
      if settled.Reverted? {
        tokens.usdx, tokens.sweep, minter := before.usdx, before.sweep, before.minter;
        sweepBorrowed, spreadDate := before.sweepBorrowed, before.spreadDate;
        return Reverted;
      }
      return Done(sweepAmount);
    }

    /** The position of a pool asset: the first one that matches. */
    static method FindAssetIndex(asset: Address, assets: seq<Address>) returns (r: Tx<nat>)
      ensures r.Done? <==> asset in assets[..Min(|assets|, 256)]
      ensures r.Done? ==> r.value < |assets| && assets[r.value] == asset && asset !in assets[..r.value]
    {
      var i := 0;
      while i < |assets| && i < 256
        invariant 0 <= i <= Min(|assets|, 256)
        invariant asset !in assets[..i]
      {
        if assets[i] == asset {
          return Done(i);
        }
        i := i + 1;
      }
      return Reverted;
    }

    /** Reads the positions of the three assets from the pool; three different assets of a pool
        of three get three different positions. */
    method UpdatePool(assets: seq<Address>, sweep: Address, usdx: Address, bpt: Address) returns (r: Tx<()>)
      modifies this`indices
      ensures r.Reverted? ==> indices == old(indices)
      ensures |assets| == 3 && sweep != usdx && usdx != bpt && bpt != sweep ==>
                (r.Done? <==> sweep in assets && usdx in assets && bpt in assets) && (r.Done? ==> Distinct(indices))
      ensures r.Done? ==> indices.sweep < |assets| && indices.usdx < |assets| && indices.bpt < |assets|
                          && assets[indices.sweep] == sweep && assets[indices.usdx] == usdx
                          && assets[indices.bpt] == bpt
    {
      assert |assets| == 3 ==> assets[..Min(|assets|, 256)] == assets;
      var sweepIndex := FindAssetIndex(sweep, assets);
      var usdxIndex := FindAssetIndex(usdx, assets);
      var bptIndex := FindAssetIndex(bpt, assets);
      if sweepIndex.Reverted? || usdxIndex.Reverted? || bptIndex.Reverted? {
        return Reverted;
      }
      indices := Indices(sweepIndex.value, usdxIndex.value, bptIndex.value);
      return Done(());
    }
  }
}
