/** The search of scripts/sweep/binary_search.js for the amount of a swap that brings the price
    into a band. The pool is a partial function from the whole amount probed to the price after
    it, undefined where the swap reverts: the script resets the network before every attempt, and
    a swap that reverts ends it. */
module BinarySearch {
  import opened Arithmetic
  import opened Evm
  import ActionQueue
  import MarketMaker
  import BalancerAMM

  const MAX_ROUNDS: nat := 15

  datatype Band = Band(minPrice: int, maxPrice: int) {
    predicate Contains(price: nat) {
      minPrice <= price <= maxPrice
    }
  }

  /** The band around the target price. A spread of zero is replaced by one tenth of a percent. */
  function TargetBand(targetPrice: nat, arbSpread: nat): Band {
    var spread := targetPrice * (if arbSpread == 0 then 1_000 else arbSpread) / 1_000_000;
    Band(targetPrice - spread, targetPrice + spread)
  }

  /** The distance of a price from the target price, in millionths of the target price, exceeds the
      spread; one tenth of a percent when that is zero. */
  ghost predicate Beyond(distance: int, targetPrice: nat, arbSpread: nat) {
    distance * 1_000_000 > targetPrice * (if arbSpread == 0 then 1_000 else arbSpread)
  }

  /** The band is everything within the spread of the target price, on either side. */
  lemma BandIsSpread(targetPrice: nat, arbSpread: nat, price: nat)
    ensures var band := TargetBand(targetPrice, arbSpread);
            && (price > band.maxPrice <==> Beyond(price - targetPrice, targetPrice, arbSpread))
            && (price < band.minPrice <==> Beyond(targetPrice - price, targetPrice, arbSpread))
            && (band.Contains(price) <==>
                  && !Beyond(price - targetPrice, targetPrice, arbSpread)
                  && !Beyond(targetPrice - price, targetPrice, arbSpread))
  {
    var product := targetPrice * (if arbSpread == 0 then 1_000 else arbSpread);
    assert product >= 0;
    if price >= targetPrice {
      DivAdjoint(product, 1_000_000, price - targetPrice);
    }
    if price <= targetPrice {
      DivAdjoint(product, 1_000_000, targetPrice - price);
    }
  }

  /** For a spread that is set, the band is that of the balancer's mode: the script sells where it
      invests, and buys where it calls. */
  lemma BandIsMode(targetPrice: nat, arbSpread: nat, price: nat)
    requires arbSpread > 0 && ActionQueue.GetMode(price, targetPrice, arbSpread).Done?
    ensures var band := TargetBand(targetPrice, arbSpread);
            var mode := ActionQueue.GetMode(price, targetPrice, arbSpread).value;
            && (price > band.maxPrice <==> mode == ActionQueue.INVEST)
            && (price < band.minPrice <==> mode == ActionQueue.CALL)
            && (band.Contains(price) <==> mode == ActionQueue.IDLE)
  {
    assert targetPrice * arbSpread == arbSpread * targetPrice;
  }

  datatype Option<+T> = None | Some(value: T)

  type Curve = nat -> Option<nat>

  /** The search names an amount, uses up its rounds, or ends on a swap that reverts. */
  datatype Outcome = Found(amount: nat) | Missed | Failed

  /** The search takes the end `min` for the one where the price is low, and `max` for the one
      where it is high, whichever of the two is the larger number. */
  function Search(price: Curve, band: Band, min: nat, max: nat, rounds: nat): Outcome
    decreases rounds
  {
    if rounds == 0 then Missed
    else
      var x := (min + max) / 2;
      match price(x)
      case None => Failed
      case Some(p) =>
        if p > band.maxPrice then Search(price, band, min, x, rounds - 1)
        else if p < band.minPrice then Search(price, band, x, max, rounds - 1)
        else Found(x)
  }

  function Low(min: nat, max: nat): nat {
    if min <= max then min else max
  }

  function High(min: nat, max: nat): nat {
    if min <= max then max else min
  }

  /** Strictly between the ends every swap goes through, and the price does not fall on the way
      from `min` to `max`. */
  ghost predicate Monotone(price: Curve, min: nat, max: nat) {
    && (forall x: nat :: Low(min, max) < x < High(min, max) ==> price(x).Some?)
    && (forall x: nat, y: nat :: Low(min, max) < x <= y < High(min, max) ==>
          if min <= max then price(x).value <= price(y).value else price(y).value <= price(x).value)
  }

  /** The swap goes through and brings the price into the band. */
  ghost predicate Hits(price: Curve, band: Band, x: nat) {
    price(x).Some? && band.Contains(price(x).value)
  }

  /** An amount strictly between the ends that brings the price into the band. */
  ghost predicate InBand(price: Curve, band: Band, min: nat, max: nat, x: nat) {
    Low(min, max) < x < High(min, max) && Hits(price, band, x)
  }

  ghost predicate AllInBand(price: Curve, band: Band, min: nat, max: nat, candidates: set<nat>) {
    forall y :: y in candidates ==> InBand(price, band, min, max, y)
  }

  function Pow2(n: nat): (p: nat)
    ensures p > 0
  {
    if n == 0 then 1 else 2 * Pow2(n - 1)
  }

  function Width(min: nat, max: nat): nat {
    High(min, max) - Low(min, max)
  }

  /** Halving after dividing by 2^k is dividing by 2^(k + 1). */
  lemma HalveUp(w: nat, v: nat, k: nat)
    requires 2 * v <= w + 1
    ensures DivUp(v, Pow2(k)) <= DivUp(w, Pow2(k + 1))
  {
    var d := Pow2(k);
    var q := DivUp(w, 2 * d);
    DivUpAdjoint(w, 2 * d, q);
    assert q * (2 * d) == 2 * (q * d);
    DivUpAdjoint(v, d, q);
  }

  /** Each round probes the middle, rounded down, and ends there or goes on in the half where the
      price turns: the one towards `min` when it is too high, towards `max` when it is too low. */
  lemma SearchStep(price: Curve, band: Band, min: nat, max: nat, rounds: nat, x: nat)
    requires 2 * x <= min + max < 2 * x + 2
    ensures Search(price, band, min, max, 0) == Missed
    ensures var found := Search(price, band, min, max, rounds + 1);
            && (price(x).None? ==> found == Failed)
            && (Hits(price, band, x) ==> found == Found(x))
            && (price(x).Some? && price(x).value > band.maxPrice ==> found == Search(price, band, min, x, rounds))
            && (price(x).Some? && price(x).value < band.minPrice && !(price(x).value > band.maxPrice) ==>
                  found == Search(price, band, x, max, rounds))
  {
  }

  /** Whatever the curve, anything returned is in the band, and lies between the ends. */
  lemma {:induction false} FoundIsInBand(price: Curve, band: Band, min: nat, max: nat, rounds: nat)
    ensures var found := Search(price, band, min, max, rounds);
            found.Found? ==> Hits(price, band, found.amount) && Low(min, max) <= found.amount <= High(min, max)
    decreases rounds
  {
    if rounds == 0 {
    } else {
      var x := (min + max) / 2;
      FoundIsInBand(price, band, min, x, rounds - 1);
      FoundIsInBand(price, band, x, max, rounds - 1);
    }
  }

  /** The ends after one probe that missed. */
  function Narrowed(price: Curve, band: Band, min: nat, max: nat): (nat, nat) {
    var x := (min + max) / 2;
    if price(x).Some? && price(x).value > band.maxPrice then (min, x) else (x, max)
  }

  /** While there is an in-band amount strictly inside, the probe is strictly inside too, so it
      goes through; and a miss keeps the amount strictly inside the next bracket, on which the
      curve is monotone again. */
  lemma MissKeepsCandidate(price: Curve, band: Band, min: nat, max: nat, y: nat)
    requires Monotone(price, min, max) && InBand(price, band, min, max, y)
    ensures price((min + max) / 2).Some?
    ensures !Hits(price, band, (min + max) / 2) ==>
              var next := Narrowed(price, band, min, max);
              Monotone(price, next.0, next.1) && InBand(price, band, next.0, next.1, y)
  {
    var x := (min + max) / 2;
    assert Low(min, max) < x < High(min, max);
    assert price(x).Some? && price(y).Some?;
  }

  /** There are at most high - low - 1 whole amounts strictly between two others. */
  lemma {:induction false} Between(low: nat, high: nat, s: set<nat>)
    requires forall y :: y in s ==> low < y < high
    ensures |s| <= if low < high then high - low - 1 else 0
    decreases high
  {
    if low + 1 < high {
      Between(low, high - 1, s - {high - 1});
    } else {
      assert s == {};
    }
  }

  /** The ends after k probes that all missed. */
  function Bracket(price: Curve, band: Band, min: nat, max: nat, k: nat): (nat, nat)
    decreases k
  {
    if k == 0 then (min, max)
    else
      var next := Narrowed(price, band, min, max);
      Bracket(price, band, next.0, next.1, k - 1)
  }

  lemma {:induction false} BracketNarrows(price: Curve, band: Band, min: nat, max: nat, k: nat)
    ensures var ends := Bracket(price, band, min, max, k);
            Width(ends.0, ends.1) <= DivUp(Width(min, max), Pow2(k))
    decreases k
  {
    if k == 0 {
    } else {
      var next := Narrowed(price, band, min, max);
      BracketNarrows(price, band, next.0, next.1, k - 1);
      HalveUp(Width(min, max), Width(next.0, next.1), k - 1);
    }
  }

  /** A miss goes on with the next bracket. */
  lemma SearchNarrows(price: Curve, band: Band, min: nat, max: nat, rounds: nat)
    requires rounds > 0 && price((min + max) / 2).Some? && !Hits(price, band, (min + max) / 2)
    ensures var next := Narrowed(price, band, min, max);
            && Search(price, band, min, max, rounds) == Search(price, band, next.0, next.1, rounds - 1)
            && Bracket(price, band, min, max, rounds) == Bracket(price, band, next.0, next.1, rounds - 1)
  {
  }

  lemma MissContinues(price: Curve, band: Band, min: nat, max: nat, k: nat, y: nat)
    requires Monotone(price, min, max) && InBand(price, band, min, max, y)
    requires k > 0 && !Search(price, band, min, max, k).Found?
    ensures var next := Narrowed(price, band, min, max);
            && Monotone(price, next.0, next.1) && InBand(price, band, next.0, next.1, y)
            && Search(price, band, min, max, k) == Search(price, band, next.0, next.1, k - 1)
            && Bracket(price, band, min, max, k) == Bracket(price, band, next.0, next.1, k - 1)
  {
    MissKeepsCandidate(price, band, min, max, y);
    SearchNarrows(price, band, min, max, k);
  }

  lemma {:induction false} BracketKeeps(price: Curve, band: Band, min: nat, max: nat, k: nat, y: nat)
    requires Monotone(price, min, max) && InBand(price, band, min, max, y)
    requires !Search(price, band, min, max, k).Found?
    ensures Search(price, band, min, max, k) == Missed
    ensures var ends := Bracket(price, band, min, max, k); InBand(price, band, ends.0, ends.1, y)
    decreases k
  {
    if k == 0 {
    } else {
      MissContinues(price, band, min, max, k, y);
      var next := Narrowed(price, band, min, max);
      BracketKeeps(price, band, next.0, next.1, k - 1, y);
    }
  }

  /** After k probes without a hit the bracket is at most the width over 2^k, rounded up, and
      every in-band amount that was strictly inside the first bracket is strictly inside it
      still; when there is one, no probe reverted. */
  lemma BracketInvariant(price: Curve, band: Band, min: nat, max: nat, k: nat)
    requires Monotone(price, min, max) && !Search(price, band, min, max, k).Found?
    ensures var ends := Bracket(price, band, min, max, k);
            && Width(ends.0, ends.1) <= DivUp(Width(min, max), Pow2(k))
            && forall y: nat :: InBand(price, band, min, max, y) ==>
                 InBand(price, band, ends.0, ends.1, y) && Search(price, band, min, max, k) == Missed
  {
    BracketNarrows(price, band, min, max, k);
    var ends := Bracket(price, band, min, max, k);
    forall y: nat | InBand(price, band, min, max, y)
      ensures InBand(price, band, ends.0, ends.1, y) && Search(price, band, min, max, k) == Missed
    {
      BracketKeeps(price, band, min, max, k, y);
    }
  }

  /** So a search that finds nothing had fewer candidates than the width over 2^rounds, rounded
      up, and none at all when a swap reverted. */
  lemma FailureLeavesFewCandidates(price: Curve, band: Band, min: nat, max: nat, rounds: nat, candidates: set<nat>)
    requires Monotone(price, min, max) && AllInBand(price, band, min, max, candidates)
    requires !Search(price, band, min, max, rounds).Found?
    ensures candidates != {} ==> Search(price, band, min, max, rounds) == Missed
    ensures candidates != {} ==> |candidates| < DivUp(Width(min, max), Pow2(rounds))
  {
    BracketInvariant(price, band, min, max, rounds);
    if candidates != {} {
      var y :| y in candidates;
      var ends := Bracket(price, band, min, max, rounds);
      assert AllInBand(price, band, ends.0, ends.1, candidates);
      Between(Low(ends.0, ends.1), High(ends.0, ends.1), candidates);
    }
  }

  /** The amount probed after k misses. */
  function Probe(price: Curve, band: Band, min: nat, max: nat, k: nat): nat {
    var ends := Bracket(price, band, min, max, k);
    (ends.0 + ends.1) / 2
  }

  /** The swap goes through and leaves the price outside the band. */
  ghost predicate Misses(price: Curve, band: Band, x: nat) {
    price(x).Some? && !band.Contains(price(x).value)
  }

  /** All rounds are used up exactly when every probe misses. */
  lemma {:induction false} MissedIsMisses(price: Curve, band: Band, min: nat, max: nat, rounds: nat)
    ensures Search(price, band, min, max, rounds) == Missed <==>
            forall j: nat :: j < rounds ==> Misses(price, band, Probe(price, band, min, max, j))
    decreases rounds
  {
    var x := (min + max) / 2;
    assert x == Probe(price, band, min, max, 0);
    if rounds > 0 && Misses(price, band, x) {
      var next := Narrowed(price, band, min, max);
      SearchNarrows(price, band, min, max, rounds);
      MissedIsMisses(price, band, next.0, next.1, rounds - 1);
      ShiftedProbes(price, band, min, max, rounds);
    }
  }

  lemma ShiftedProbes(price: Curve, band: Band, min: nat, max: nat, rounds: nat)
    requires rounds > 0 && Misses(price, band, (min + max) / 2)
    ensures var next := Narrowed(price, band, min, max);
            (forall j: nat :: j < rounds ==> Misses(price, band, Probe(price, band, min, max, j))) <==>
            (forall j: nat :: j < rounds - 1 ==> Misses(price, band, Probe(price, band, next.0, next.1, j)))
  {
    var next := Narrowed(price, band, min, max);
    forall j: nat ensures Probe(price, band, min, max, j + 1) == Probe(price, band, next.0, next.1, j) {
      SearchNarrows(price, band, min, max, j + 1);
    }
    if forall j: nat :: j < rounds - 1 ==> Misses(price, band, Probe(price, band, next.0, next.1, j)) {
      forall j: nat | j < rounds ensures Misses(price, band, Probe(price, band, min, max, j)) {
        if j > 0 {
          assert Misses(price, band, Probe(price, band, next.0, next.1, j - 1));
          assert Probe(price, band, min, max, j - 1 + 1) == Probe(price, band, next.0, next.1, j - 1);
        }
      }
    }
    if forall j: nat :: j < rounds ==> Misses(price, band, Probe(price, band, min, max, j)) {
      forall j: nat | j < rounds - 1 ensures Misses(price, band, Probe(price, band, next.0, next.1, j)) {
        assert Misses(price, band, Probe(price, band, min, max, j + 1));
      }
    }
  }

  /** Probe k reverts, and every probe before it goes through and misses. */
  ghost predicate RevertsAt(price: Curve, band: Band, min: nat, max: nat, k: nat) {
    && price(Probe(price, band, min, max, k)).None?
    && forall j: nat :: j < k ==> Misses(price, band, Probe(price, band, min, max, j))
  }

  /** The search ends on a revert exactly when one of its probes reverts after misses only. */
  lemma FailsOnRevert(price: Curve, band: Band, min: nat, max: nat, rounds: nat)
    ensures Search(price, band, min, max, rounds) == Failed <==>
            exists k: nat :: k < rounds && RevertsAt(price, band, min, max, k)
  {
    FailsAfterMisses(price, band, min, max, rounds);
    forall k: nat ensures RevertsAfter(price, band, min, max, k) <==> RevertsAt(price, band, min, max, k) {
      MissedIsMisses(price, band, min, max, k);
    }
    if k: nat :| k < rounds && RevertsAfter(price, band, min, max, k) {
      assert RevertsAt(price, band, min, max, k);
    }
    if k: nat :| k < rounds && RevertsAt(price, band, min, max, k) {
      assert RevertsAfter(price, band, min, max, k);
    }
  }

  ghost predicate RevertsAfter(price: Curve, band: Band, min: nat, max: nat, k: nat) {
    Search(price, band, min, max, k) == Missed && price(Probe(price, band, min, max, k)).None?
  }

  lemma {:induction false} FailsAfterMisses(price: Curve, band: Band, min: nat, max: nat, rounds: nat)
    ensures Search(price, band, min, max, rounds) == Failed <==>
            exists k: nat :: k < rounds && RevertsAfter(price, band, min, max, k)
    decreases rounds
  {
    var x := (min + max) / 2;
    if rounds == 0 {
    } else if price(x).None? {
      assert RevertsAfter(price, band, min, max, 0);
    } else if !Hits(price, band, x) {
      var next := Narrowed(price, band, min, max);
      FailsAfterMisses(price, band, next.0, next.1, rounds - 1);
      SearchNarrows(price, band, min, max, rounds);
      RevertsLater(price, band, min, max, rounds);
    }
  }

  lemma RevertsLater(price: Curve, band: Band, min: nat, max: nat, rounds: nat)
    requires rounds > 0 && price((min + max) / 2).Some? && !Hits(price, band, (min + max) / 2)
    ensures var next := Narrowed(price, band, min, max);
            (exists k: nat :: k < rounds && RevertsAfter(price, band, min, max, k)) <==>
            (exists k: nat :: k < rounds - 1 && RevertsAfter(price, band, next.0, next.1, k))
  {
    var next := Narrowed(price, band, min, max);
    if k: nat :| k < rounds && RevertsAfter(price, band, min, max, k) {
      if k > 0 {
        SearchNarrows(price, band, min, max, k);
      }
      assert k > 0 && RevertsAfter(price, band, next.0, next.1, k - 1);
    }
    if k: nat :| k < rounds - 1 && RevertsAfter(price, band, next.0, next.1, k) {
      SearchNarrows(price, band, min, max, k + 1);
      assert RevertsAfter(price, band, min, max, k + 1);
    }
  }

  /** The script asks for a minimum of zero. Where a sale goes through the rate check, which sets
      the minimum against the SWEEP sold, it never gets past the first probe. */
  lemma ZeroMinimumStopsSales(price: Curve, band: Band, min: nat, max: nat, rounds: nat, usdxDecimals: nat)
    requires rounds > 0
    requires forall x: nat :: price(x).Some? ==>
               BalancerAMM.CheckRate(0, x * Pow10(MarketMaker.SWEEP_DECIMALS), usdxDecimals).Done?
    ensures Search(price, band, min, max, rounds) == Failed && RevertsAt(price, band, min, max, 0)
  {
    BalancerAMM.CheckRateDomain(0, (min + max) / 2 * Pow10(MarketMaker.SWEEP_DECIMALS), usdxDecimals);
  }

  /** Nor does a purchase, where it is not served by a market maker. */
  lemma ZeroMinimumStopsPurchases(price: Curve, band: Band, min: nat, max: nat, rounds: nat, usdxDecimals: nat)
    requires rounds > 0
    requires forall x: nat :: price(x).Some? ==>
               BalancerAMM.CheckRate(x * Pow10(usdxDecimals), 0, usdxDecimals).Done?
    ensures Search(price, band, min, max, rounds) == Failed && RevertsAt(price, band, min, max, 0)
  {
    BalancerAMM.CheckRateDomain((min + max) / 2 * Pow10(usdxDecimals), 0, usdxDecimals);
  }

  /** Every monotone curve with at least n in-band amounts between the ends is solved. */
  ghost predicate Guaranteed(min: nat, max: nat, rounds: nat, n: nat) {
    forall price: Curve, band: Band, candidates: set<nat> ::
      Monotone(price, min, max) && AllInBand(price, band, min, max, candidates) && |candidates| >= n ==>
        Search(price, band, min, max, rounds).Found?
  }

  lemma HalveDown(w: nat, v: nat, k: nat)
    requires w <= 2 * v
    ensures DivUp(w, Pow2(k + 1)) <= DivUp(v, Pow2(k)) <= v
  {
    var d := Pow2(k);
    var q := DivUp(v, d);
    DivUpAdjoint(v, d, q);
    assert q * (2 * d) == 2 * (q * d);
    DivUpAdjoint(w, 2 * d, q);
    MulMono(1, d, v);
    DivUpAdjoint(v, d, v);
  }

  /** A curve whose n in-band amounts are the last ones before the larger end. */
  function Steep(high: nat, n: nat, rising: bool): Curve {
    x => Some(if x + n < high then (if rising then 0 else 2) else if x < high then 1 else if rising then 2 else 0)
  }

  const ONE: Band := Band(1, 1)

  /** Every probe of a steep curve falls short of its in-band amounts, when they are fewer than
      the width over 2^rounds, rounded up. */
  lemma {:induction false} SteepEscapes(low: nat, high: nat, n: nat, rounds: nat)
    requires low <= high && n < DivUp(high - low, Pow2(rounds))
    ensures Search(Steep(high, n, true), ONE, low, high, rounds) == Missed
    ensures Search(Steep(high, n, false), ONE, high, low, rounds) == Missed
    decreases rounds
  {
    if rounds == 0 {
    } else {
      var x := (low + high) / 2;
      HalveDown(high - low, high - x, rounds - 1);
      SteepEscapes(x, high, n, rounds - 1);
      assert (high + low) / 2 == x;
    }
  }

  /** n consecutive amounts. */
  ghost function Range(low: nat, n: nat): (s: set<nat>)
    ensures |s| == n
    ensures forall x: nat :: x in s <==> low <= x < low + n
  {
    if n == 0 then {} else Range(low, n - 1) + {low + n - 1}
  }

  /** The exact guarantee of the search, for either orientation of the ends: n in-band amounts
      are enough for every monotone curve exactly when n is at least the width over 2^rounds,
      rounded up. */
  lemma GuaranteeIsExact(min: nat, max: nat, rounds: nat, n: nat)
    requires n > 0
    ensures Guaranteed(min, max, rounds, n) <==> n >= DivUp(Width(min, max), Pow2(rounds))
  {
    if n >= DivUp(Width(min, max), Pow2(rounds)) {
      EnoughAreFound(min, max, rounds, n);
    } else {
      FewerEscape(min, max, rounds, n);
    }
  }

  lemma EnoughAreFound(min: nat, max: nat, rounds: nat, n: nat)
    requires n > 0 && n >= DivUp(Width(min, max), Pow2(rounds))
    ensures Guaranteed(min, max, rounds, n)
  {
    forall price: Curve, band: Band, candidates: set<nat> |
      Monotone(price, min, max) && AllInBand(price, band, min, max, candidates) && |candidates| >= n
      ensures Search(price, band, min, max, rounds).Found?
    {
      if !Search(price, band, min, max, rounds).Found? {
        FailureLeavesFewCandidates(price, band, min, max, rounds, candidates);
      }
    }
  }

  lemma FewerEscape(min: nat, max: nat, rounds: nat, n: nat)
    requires n < DivUp(Width(min, max), Pow2(rounds))
    ensures !Guaranteed(min, max, rounds, n)
  {
    var high := High(min, max);
    var price := Steep(high, n, min <= max);
    SmallerQuotient(Width(min, max), rounds);
    SteepEscapes(Low(min, max), high, n, rounds);
    assert !Search(price, ONE, min, max, rounds).Found?;
    SteepHits(min, max, n, Range(high - n, n));
  }

  lemma SteepHits(min: nat, max: nat, n: nat, candidates: set<nat>)
    requires n < Width(min, max) && forall x: nat :: x in candidates ==> High(min, max) - n <= x < High(min, max)
    ensures var price := Steep(High(min, max), n, min <= max);
            Monotone(price, min, max) && AllInBand(price, ONE, min, max, candidates)
  {
  }

  lemma SmallerQuotient(w: nat, k: nat)
    ensures DivUp(w, Pow2(k)) <= w
  {
    MulMono(1, Pow2(k), w);
    DivUpAdjoint(w, Pow2(k), w);
  }

  /** With fifteen rounds a single in-band amount is enough exactly up to a bound of 2^15. */
  lemma FifteenRounds(bound: nat)
    ensures Guaranteed(0, bound, MAX_ROUNDS, 1) <==> bound <= 32_768
    ensures Guaranteed(bound, 0, MAX_ROUNDS, 1) <==> bound <= 32_768
  {
    assert Pow2(5) == 32;
    assert Pow2(10) == 1_024;
    assert Pow2(15) == 32_768;
    GuaranteeIsExact(0, bound, MAX_ROUNDS, 1);
    GuaranteeIsExact(bound, 0, MAX_ROUNDS, 1);
    DivUpAdjoint(bound, 32_768, 1);
  }

  /** The loop of the script: at most `rounds` probes, each a swap against a fresh network. */
  method Simulate(price: Curve, band: Band, low: nat, high: nat, rounds: nat) returns (outcome: Outcome)
    ensures outcome == Search(price, band, low, high, rounds)
  {
    var min, max := low, high;
    var x := (min + max) / 2;
    for i := 0 to rounds
      invariant x == (min + max) / 2
      invariant Search(price, band, min, max, rounds - i) == Search(price, band, low, high, rounds)
    {
      var swapped := price(x);
      if swapped.None? {
        return Failed;
      }
      var ammPrice := swapped.value;
      if ammPrice > band.maxPrice {
        max := x;
        x := (x + min) / 2;
      } else if ammPrice < band.minPrice {
        min := x;
        x := (x + max) / 2;
      } else {
        return Found(x);
      }
    }
    return Missed;
  }

  datatype Advice = Sell(outcome: Outcome) | Buy(outcome: Outcome) | NothingToDo

  /** A monotone curve with enough in-band amounts between the ends. */
  ghost predicate Solvable(price: Curve, band: Band, min: nat, max: nat, rounds: nat) {
    && Monotone(price, min, max)
    && exists candidates ::
         && AllInBand(price, band, min, max, candidates)
         && candidates != {} && |candidates| >= DivUp(Width(min, max), Pow2(rounds))
  }

  lemma SolvableIsFound(price: Curve, band: Band, min: nat, max: nat, rounds: nat)
    requires Solvable(price, band, min, max, rounds)
    ensures var found := Search(price, band, min, max, rounds);
            found.Found? && Hits(price, band, found.amount)
  {
    var candidates :| AllInBand(price, band, min, max, candidates)
                      && candidates != {} && |candidates| >= DivUp(Width(min, max), Pow2(rounds));
    FoundIsInBand(price, band, min, max, rounds);
    if !Search(price, band, min, max, rounds).Found? {
      FailureLeavesFewCandidates(price, band, min, max, rounds, candidates);
    }
  }

  /** The outcome of the script's search: an amount it names lies between the ends and brings the
      price into the band, and it names one on every solvable curve. */
  ghost predicate Advised(outcome: Outcome, price: Curve, band: Band, min: nat, max: nat, rounds: nat) {
    && outcome == Search(price, band, min, max, rounds)
    && (outcome.Found? ==>
          Low(min, max) <= outcome.amount <= High(min, max) && Hits(price, band, outcome.amount))
    && (Solvable(price, band, min, max, rounds) ==> outcome.Found?)
  }

  method SearchAdvice(price: Curve, band: Band, min: nat, max: nat, rounds: nat) returns (outcome: Outcome)
    ensures Advised(outcome, price, band, min, max, rounds)
  {
    outcome := Simulate(price, band, min, max, rounds);
    FoundIsInBand(price, band, min, max, rounds);
    if Solvable(price, band, min, max, rounds) {
      SolvableIsFound(price, band, min, max, rounds);
    }
  }

  /** Selling lowers the price and buying raises it: the ends of the search are swapped. The script
      sells beyond the spread above the target price, buys beyond it below, and otherwise has
      nothing to do. It searches for MAX_ROUNDS rounds. */
  method Advise(targetPrice: nat, arbSpread: nat, ammPrice: nat, bound: nat, rounds: nat,
                afterSale: Curve, afterPurchase: Curve) returns (advice: Advice)
    ensures advice.Sell? <==> Beyond(ammPrice - targetPrice, targetPrice, arbSpread)
    ensures advice.Buy? <==> Beyond(targetPrice - ammPrice, targetPrice, arbSpread)
    ensures var band := TargetBand(targetPrice, arbSpread);
            && (advice.Sell? <==> ammPrice > band.maxPrice)
            && (advice.NothingToDo? <==> band.Contains(ammPrice))
            && (advice.Sell? ==> Advised(advice.outcome, afterSale, band, bound, 0, rounds))
            && (advice.Buy? ==> Advised(advice.outcome, afterPurchase, band, 0, bound, rounds))
  {
    var band := TargetBand(targetPrice, arbSpread);
    BandIsSpread(targetPrice, arbSpread, ammPrice);
    if ammPrice > band.maxPrice {
      var outcome := SearchAdvice(afterSale, band, bound, 0, rounds);
      return Sell(outcome);
    }
    if ammPrice < band.minPrice {
      var outcome := SearchAdvice(afterPurchase, band, 0, bound, rounds);
      return Buy(outcome);
    }
    return NothingToDo;
  }
}
