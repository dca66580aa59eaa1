/** The interest rate and the target price of the stablecoin on one chain
    (contracts/Sweep/Sweep.sol), as the balancer refreshes them. */
module SweepRates {
  import opened Evm
  import opened Arithmetic

  const INTEREST_PRECISION: nat := 10_000_000_000
  const DAY: nat := 86_400

  /** A daily rate to apply from `periodStart` on. */
  datatype Update = Update(rate: int, periodStart: nat)

  /** A direct write to one chain's coin, past the broadcast. */
  datatype Setting =
    | InterestRates(currentRate: int, nextRate: int)
    | PeriodStarts(currentStart: nat, nextStart: nat)
    | TargetPrices(currentPrice: nat, nextPrice: nat)

  datatype Rates = Rates(currentInterestRate: int, nextInterestRate: int,
                         currentPeriodStart: nat, nextPeriodStart: nat,
                         currentTargetPrice: nat, nextTargetPrice: nat)
  {
    function InterestRate(now: nat): int {
      if now < nextPeriodStart then currentInterestRate else nextInterestRate
    }

    function DaysInterest(now: nat): Tx<nat> {
      var elapsed :- Sub(now, if now < nextPeriodStart then currentPeriodStart else nextPeriodStart);
      Done(elapsed / DAY)
    }

    /** The price of the period, with simple interest for every whole day of it. */
    function TargetPrice(now: nat): Tx<nat> {
      var days :- DaysInterest(now);
      var accumulated :- Accumulated(InterestRate(now), days, 1);
      var product :- Mul(if now < nextPeriodStart then currentTargetPrice else nextTargetPrice, accumulated);
      Done(product / INTEREST_PRECISION)
    }

    /** The period that has begun becomes the current one. */
    function Rolled(now: nat): Rates {
      if now >= nextPeriodStart
      then this.(currentInterestRate := nextInterestRate, currentTargetPrice := nextTargetPrice,
                 currentPeriodStart := nextPeriodStart)
      else this
    }

    function Set(s: Setting): Tx<Rates> {
      match s
      case InterestRates(current, next) => Done(this.(currentInterestRate := current, nextInterestRate := next))
      case PeriodStarts(current, next) =>
        var _ :- Require(current <= next);
        Done(this.(currentPeriodStart := current, nextPeriodStart := next))
      case TargetPrices(current, next) =>
        var _ :- Require(current > 0 && next > 0);
        var least :- Mul(currentTargetPrice, PRECISION - PRICE_LIMIT);
        var most :- Mul(currentTargetPrice, PRECISION + PRICE_LIMIT);
        var _ :- Require(least / PRECISION <= current <= most / PRECISION);
        Done(this.(currentTargetPrice := current, nextTargetPrice := next))
    }

    function Refresh(u: Update, now: nat): Tx<Rates> {
      var _ :- Require(now <= u.periodStart);
      var _ :- Require(-1_000_000 <= u.rate < 10_000_000);
      var r := Rolled(now);
      var duration :- Sub(u.periodStart, r.currentPeriodStart);
      var interestTime :- Mul(INTEREST_PRECISION, duration);
      var accumulated :- Accumulated(r.currentInterestRate, interestTime, DAY * INTEREST_PRECISION);
      var product :- Mul(r.currentTargetPrice, accumulated);
      Done(r.(nextInterestRate := u.rate, nextPeriodStart := u.periodStart,
              nextTargetPrice := product / INTEREST_PRECISION))
    }
  }

  /** How far a target price may be set from the present one. */
  const PRICE_LIMIT: nat := 10_000

  /** One plus (rate * time / unit), in units of INTEREST_PRECISION. */
  function Accumulated(rate: int, time: nat, unit: nat): Tx<nat>
    requires unit > 0
  {
    if rate >= 0 then
      var interest :- Mul(rate, time);
      Add(INTEREST_PRECISION, interest / unit)
    else
      var interest :- Mul(-rate, time);
      Sub(INTEREST_PRECISION, interest / unit)
  }

  /** The rate, start and price in force. */
  ghost predicate InForce(p: Rates, r: Rates, now: nat) {
    if now < r.nextPeriodStart
    then (p.currentInterestRate, p.currentPeriodStart, p.currentTargetPrice) ==
         (r.currentInterestRate, r.currentPeriodStart, r.currentTargetPrice)
    else (p.currentInterestRate, p.currentPeriodStart, p.currentTargetPrice) ==
         (r.nextInterestRate, r.nextPeriodStart, r.nextTargetPrice)
  }

  /** A refresh makes what is in force current, and announces the update. It goes through exactly
      when the update is not for the past and starts no earlier than the period in force, its rate
      is at least -0.01% and less than 0.1% a day, and the price it announces can be computed. */
  lemma RefreshExact(r: Rates, u: Update, now: nat)
    ensures var p := r.Rolled(now);
            InForce(p, r, now)
            && (r.Refresh(u, now).Done? <==>
                  && now <= u.periodStart && p.currentPeriodStart <= u.periodStart
                  && -1_000_000 <= u.rate < 10_000_000
                  && PriceFits(p, u.periodStart - p.currentPeriodStart))
    ensures r.Refresh(u, now).Done? ==>
              var after := r.Refresh(u, now).value;
              InForce(after, r, now) && after.nextInterestRate == u.rate && after.nextPeriodStart == u.periodStart
  {
    var p := r.Rolled(now);
    if p.currentPeriodStart <= u.periodStart {
      AnnouncementFits(p, u.periodStart - p.currentPeriodStart);
    }
  }

  /** Nothing overflows in the price after so many seconds, and a falling price does not fall below
      zero. */
  ghost predicate PriceFits(p: Rates, elapsed: nat) {
    var magnitude := Magnitude(p.currentInterestRate);
    var interest := magnitude * elapsed / DAY;
    && magnitude * (INTEREST_PRECISION * elapsed) <= UINT_MAX && INTEREST_PRECISION * elapsed <= UINT_MAX
    && (if p.currentInterestRate >= 0
        then INTEREST_PRECISION + interest <= UINT_MAX
             && p.currentTargetPrice * (INTEREST_PRECISION + interest) <= UINT_MAX
        else interest <= INTEREST_PRECISION
             && p.currentTargetPrice * (INTEREST_PRECISION - interest) <= UINT_MAX)
  }

  lemma AnnouncementFits(p: Rates, elapsed: nat)
    ensures PriceFits(p, elapsed) <==>
            && Mul(INTEREST_PRECISION, elapsed).Done?
            && var a := Accumulated(p.currentInterestRate, INTEREST_PRECISION * elapsed, DAY * INTEREST_PRECISION);
            a.Done? && Mul(p.currentTargetPrice, a.value).Done?
  {
    InterestToTheSecond(Magnitude(p.currentInterestRate), elapsed);
  }

  /** What a direct write does: the rates are written as they are; the starts only in order; the
      prices only when positive and the present one moves by at most a hundredth. Nothing else
      changes. */
  lemma SetExact(r: Rates, current: int, next: int, start: nat, end: nat, price: nat, later: nat)
    ensures r.Set(InterestRates(current, next)) ==
            Done(r.(currentInterestRate := current, nextInterestRate := next))
    ensures r.Set(PeriodStarts(start, end)).Done? <==> start <= end
    ensures start <= end ==>
              r.Set(PeriodStarts(start, end)) == Done(r.(currentPeriodStart := start, nextPeriodStart := end))
    ensures r.Set(TargetPrices(price, later)).Done? <==>
            && price > 0 && later > 0 && r.currentTargetPrice * 1_010_000 <= UINT_MAX
            && r.currentTargetPrice * 990_000 < (price + 1) * 1_000_000
            && price * 1_000_000 <= r.currentTargetPrice * 1_010_000
    ensures r.Set(TargetPrices(price, later)).Done? ==>
              r.Set(TargetPrices(price, later)) ==
              Done(r.(currentTargetPrice := price, nextTargetPrice := later))
  {
    DivAdjoint(r.currentTargetPrice * 990_000, 1_000_000, price + 1);
    DivAdjoint(r.currentTargetPrice * 1_010_000, 1_000_000, price);
  }

  /** A refresh announces the next period and leaves the present one alone: as long as the new
      period starts later than now, the target price does not move. */
  lemma RefreshKeepsPrice(r: Rates, u: Update, now: nat)
    requires r.Refresh(u, now).Done? && now < u.periodStart
    ensures r.Refresh(u, now).value.TargetPrice(now) == r.TargetPrice(now)
    ensures r.Refresh(u, now).value.InterestRate(now) == r.InterestRate(now)
  {
  }

  function Magnitude(rate: int): nat {
    if rate >= 0 then rate else -rate
  }

  /** Interest to the second less interest for whole days. */
  function Extra(magnitude: nat, elapsed: nat): int {
    magnitude * elapsed / DAY - magnitude * (elapsed / DAY)
  }

  /** One plus the interest for the whole days elapsed. */
  function WholeDays(rate: int, elapsed: nat): int {
    if rate >= 0 then INTEREST_PRECISION + Magnitude(rate) * (elapsed / DAY)
    else INTEREST_PRECISION - Magnitude(rate) * (elapsed / DAY)
  }

  /** n is q whole divisors and a remainder r. Adding keeps the quotient as long as it fits in
      the remainder, and taking away as long as the remainder covers it. */
  lemma QuotientKept(q: nat, r: nat, d: nat, change: nat)
    requires r < d
    ensures (q * d + r + change) / d == q <==> r + change < d
    ensures change <= q * d + r ==> ((q * d + r - change) / d == q <==> change <= r)
  {
    DivExactly(q * d + r + change, d, q);
    if change <= q * d + r {
      DivExactly(q * d + r - change, d, q);
    }
  }

  lemma SameQuotient(n: nat, change: nat, d: nat)
    requires d > 0
    ensures (n + change) / d == n / d <==> n % d + change < d
    ensures change <= n ==> ((n - change) / d == n / d <==> change <= n % d)
  {
    var q, r := n / d, n % d;
    assert q * d + r == n;
    QuotientKept(q, r, d, change);
  }

  lemma MovedQuotient(price: nat, whole: nat, extra: nat, d: nat)
    requires d > 0
    ensures price * (whole + extra) / d == price * whole / d <==> price * whole % d + price * extra < d
    ensures extra <= whole ==>
              (price * (whole - extra) / d == price * whole / d <==> price * extra <= price * whole % d)
  {
    assert price * (whole + extra) == price * whole + price * extra;
    SameQuotient(price * whole, price * extra, d);
    if extra <= whole {
      MulMono(extra, whole, price);
      assert price * (whole - extra) == price * whole - price * extra;
    }
  }

  /** Scaling the time by the precision, and dividing by it again, is no change. */
  lemma InterestToTheSecond(magnitude: nat, elapsed: nat)
    ensures magnitude * (INTEREST_PRECISION * elapsed) / (DAY * INTEREST_PRECISION) == magnitude * elapsed / DAY
    ensures magnitude * (elapsed / DAY) <= magnitude * elapsed / DAY
  {
    var n, q := magnitude * elapsed, magnitude * elapsed / DAY;
    assert magnitude * (INTEREST_PRECISION * elapsed) == n * INTEREST_PRECISION;
    assert q * DAY <= n < (q + 1) * DAY by { DivBounds(n, DAY); }
    DivUnique(n * INTEREST_PRECISION, DAY * INTEREST_PRECISION, q);
    var days := elapsed / DAY;
    assert days * DAY <= elapsed by { DivBounds(elapsed, DAY); }
    MulMono(days * DAY, elapsed, magnitude);
    assert magnitude * days * DAY == days * DAY * magnitude;
    DivAdjoint(n, DAY, magnitude * days);
  }

  /** The price announced for a period: simple interest to the second on the present price. */
  lemma AnnouncedPrice(r: Rates, u: Update, now: nat)
    requires r.Refresh(u, now).Done?
    ensures u.periodStart >= r.Rolled(now).currentPeriodStart
    ensures var p, after := r.Rolled(now), r.Refresh(u, now).value;
            var elapsed := u.periodStart - p.currentPeriodStart;
            var interest := Magnitude(p.currentInterestRate) * elapsed / DAY;
            var accumulated := INTEREST_PRECISION + if p.currentInterestRate >= 0 then interest else -interest;
            && 0 <= accumulated
            && after.nextTargetPrice == p.currentTargetPrice * accumulated / INTEREST_PRECISION
            && after.TargetPrice(u.periodStart) == Done(after.nextTargetPrice)
  {
    var p := r.Rolled(now);
    InterestToTheSecond(Magnitude(p.currentInterestRate), u.periodStart - p.currentPeriodStart);
    StartingPrice(r.Refresh(u, now).value);
  }

  /** A period starts at its announced price. */
  lemma StartingPrice(r: Rates)
    requires r.nextTargetPrice * INTEREST_PRECISION <= UINT_MAX
    ensures r.TargetPrice(r.nextPeriodStart) == Done(r.nextTargetPrice)
  {
    DivUnique(r.nextTargetPrice * INTEREST_PRECISION, INTEREST_PRECISION, r.nextTargetPrice);
    DivUnique(0, DAY, 0);
  }

  lemma PresentPrice(r: Rates, now: nat)
    requires now >= r.Rolled(now).currentPeriodStart
    requires 0 <= WholeDays(r.Rolled(now).currentInterestRate, now - r.Rolled(now).currentPeriodStart) <= UINT_MAX
    ensures var p := r.Rolled(now);
            var product := p.currentTargetPrice * WholeDays(p.currentInterestRate, now - p.currentPeriodStart);
            r.TargetPrice(now) == if product <= UINT_MAX then Done(product / INTEREST_PRECISION) else Reverted
  {
    var p := r.Rolled(now);
    var days := (now - p.currentPeriodStart) / DAY;
    assert r.DaysInterest(now) == Done(days);
    AccumulatedDays(p.currentInterestRate, days);
  }

  lemma AccumulatedDays(rate: int, days: nat)
    requires 0 <= WholeDays(rate, days * DAY) <= UINT_MAX
    ensures Accumulated(rate, days, 1) == Done(WholeDays(rate, days * DAY))
  {
    assert days * DAY / DAY == days;
    assert Magnitude(rate) * days / 1 == Magnitude(rate) * days;
  }

  lemma PriceAtOnce(r: Rates, u: Update, now: nat)
    requires r.Refresh(u, now).Done? && u.periodStart == now
    ensures now >= r.Rolled(now).currentPeriodStart
    ensures var p, after := r.Rolled(now), r.Refresh(u, now).value;
            var elapsed := now - p.currentPeriodStart;
            var whole := WholeDays(p.currentInterestRate, elapsed);
            var extra := Extra(Magnitude(p.currentInterestRate), elapsed);
            && 0 <= whole <= UINT_MAX && 0 <= extra && (p.currentInterestRate < 0 ==> extra <= whole)
            && var accumulated := if p.currentInterestRate >= 0 then whole + extra else whole - extra;
            after.TargetPrice(now) == Done(p.currentTargetPrice * accumulated / INTEREST_PRECISION)
  {
    AnnouncedPrice(r, u, now);
    var p := r.Rolled(now);
    InterestToTheSecond(Magnitude(p.currentInterestRate), now - p.currentPeriodStart);
    MulMono(0, Magnitude(p.currentInterestRate), (now - p.currentPeriodStart) / DAY);
  }

  /** A period that starts at once ends the present one, often before a whole day of it has
      passed: the seconds since its last whole day then count, where only whole days counted
      before. The price stays where it was exactly when computing it did not overflow and the
      interest for those seconds falls within the fraction cut off. */
  lemma RefreshAtOnceKeepsPrice(r: Rates, u: Update, now: nat)
    requires r.Refresh(u, now).Done? && u.periodStart == now
    ensures var p, after := r.Rolled(now), r.Refresh(u, now).value;
            && now >= p.currentPeriodStart
            && var elapsed := now - p.currentPeriodStart;
            var product := p.currentTargetPrice * WholeDays(p.currentInterestRate, elapsed);
            var cut := product % INTEREST_PRECISION;
            var extra := p.currentTargetPrice * Extra(Magnitude(p.currentInterestRate), elapsed);
            && after.TargetPrice(now).Done?
            && (after.TargetPrice(now) == r.TargetPrice(now) <==>
                  && product <= UINT_MAX
                  && if p.currentInterestRate >= 0 then cut + extra < INTEREST_PRECISION else extra <= cut)
  {
    PriceAtOnce(r, u, now);
    PresentPrice(r, now);
    var p := r.Rolled(now);
    var elapsed := now - p.currentPeriodStart;
    MovedQuotient(p.currentTargetPrice, WholeDays(p.currentInterestRate, elapsed),
                  Extra(Magnitude(p.currentInterestRate), elapsed), INTEREST_PRECISION);
  }

  /** For one, at a rate of one hundredth of a percent a day and half-way through the first day,
      the price moves at once. */
  lemma RefreshAtOnceMovesPrice()
    ensures var r := Rates(1_000_000, 1_000_000, 0, 2 * DAY, 1_000_000, 1_000_000);
            var now := DAY / 2;
            var after := r.Refresh(Update(0, now), now);
            && r.TargetPrice(now) == Done(1_000_000)
            && after.Done? && after.value.TargetPrice(now) == Done(1_000_050)
  {
  }

  /** When the new period begins after a whole number of days, its price is the present
      period's price with simple interest for those days: nothing is lost at the change. */
  lemma RolloverContinues(r: Rates, u: Update, now: nat, days: nat)
    requires r.Refresh(u, now).Done?
    requires u.periodStart == r.Rolled(now).currentPeriodStart + days * DAY
    ensures var p, after := r.Rolled(now), r.Refresh(u, now).value;
            && Accumulated(p.currentInterestRate, days, 1).Done?
            && after.TargetPrice(u.periodStart) ==
               Done(p.currentTargetPrice * Accumulated(p.currentInterestRate, days, 1).value / INTEREST_PRECISION)
  {
    var p := r.Rolled(now);
    AnnouncedPrice(r, u, now);
    WholeInterest(Magnitude(p.currentInterestRate), days);
    AccumulatedDays(p.currentInterestRate, days);
  }

  lemma WholeInterest(magnitude: nat, days: nat)
    ensures days * DAY / DAY == days && magnitude * (days * DAY) / DAY == magnitude * days
  {
    DivUnique(days * DAY, DAY, days);
    assert magnitude * (days * DAY) == magnitude * days * DAY;
    DivUnique(magnitude * days * DAY, DAY, magnitude * days);
  }
}
