/** contracts/Governance/TokenDistributor.sol: the sale of a fixed quantity of SWEEPR to one
    buyer, at a price rounded in favour of the sale. */
module TokenDistributor {
  import opened Evm
  import opened Arithmetic
  import opened Erc20
  import opened Sums
  import Sweepr

  const ONE_SWEEPR: nat := 1_000_000_000_000_000_000

  /** The addresses of the distributor, of the treasury and of the SWEEPR token. */
  datatype Parties = Parties(self: Address, treasury: Address, sweepr: Address)

  /** Whether the approver of SWEEPR allows the payment, when it is in SWEEPR, and the delivery. */
  datatype Verdicts = Verdicts(payment: bool, delivery: bool)

  /** The distributor's storage, the SWEEPR coin and the other token ledgers by address. */
  datatype Sale = Sale(saleAmount: nat, salePrice: nat, sellTo: Address, payToken: Address,
                       coin: Sweepr.Coin, tokens: map<Address, Ledger>)
  {
    /** SWEEPR for a payment, rounded down. */
    function Quote(tokenAmount: nat): Tx<nat> {
      var scaled :- Mul(tokenAmount, ONE_SWEEPR);
      Div(scaled, salePrice)
    }

    /** What an account holds of a token; the payment token may be SWEEPR itself. */
    function Held(p: Parties, token: Address, account: Address): nat {
      if token == p.sweepr then coin.ledger.BalanceOf(account)
      else if token in tokens then tokens[token].BalanceOf(account) else 0
    }

    function TakePayment(p: Parties, sender: Address, tokenAmount: nat, approved: bool): Tx<Sale> {
      if payToken == p.sweepr then
        var paid :- coin.TransferFrom(p.self, sender, p.treasury, tokenAmount, approved);
        Done(this.(coin := paid))
      else
        var _ :- Require(payToken in tokens);
        var paid :- tokens[payToken].TransferFrom(p.self, sender, p.treasury, tokenAmount);
        Done(this.(tokens := tokens[payToken := paid]))
    }

    function Buy(p: Parties, sender: Address, tokenAmount: nat, v: Verdicts): Tx<(Sale, nat)> {
      var sweeprAmount :- Quote(tokenAmount);
      var _ :- Require(sender == sellTo && sweeprAmount <= saleAmount && sweeprAmount <= coin.ledger.BalanceOf(p.self));
      var paid :- this.(saleAmount := saleAmount - sweeprAmount).TakePayment(p, sender, tokenAmount, v.payment);
      var delivered :- paid.coin.Transfer(p.self, sender, sweeprAmount, v.delivery);
      Done((paid.(coin := delivered), sweeprAmount))
    }

    function AllowSale(amount: nat, buyer: Address, price: nat, token: Address): Tx<Sale> {
      var _ :- Require(buyer != ZERO_ADDRESS && token != ZERO_ADDRESS && amount > 0 && price > 0);
      Done(this.(saleAmount := amount, sellTo := buyer, salePrice := price, payToken := token))
    }

    function RevokeSale(): Sale {
      this.(saleAmount := 0)
    }

    /** Burns all SWEEPR the distributor holds. */
    function Burn(p: Parties, approved: bool): Tx<Sale> {
      var burnt :- coin.Burn(p.self, coin.ledger.BalanceOf(p.self), approved);
      Done(this.(coin := burnt))
    }
  }

  /** The whole effect of a purchase on every account and every token, whichever accounts and
      tokens coincide. */
  lemma BuyMoves(s: Sale, p: Parties, sender: Address, tokenAmount: nat, v: Verdicts, token: Address, account: Address)
    requires s.Buy(p, sender, tokenAmount, v).Done?
    ensures var (after, x) := s.Buy(p, sender, tokenAmount, v).value;
            && after.Held(p, token, account) == s.Held(p, token, account)
               + (if token == s.payToken
                  then At(account, p.treasury, tokenAmount) - At(account, sender, tokenAmount) else 0)
               + (if token == p.sweepr then At(account, sender, x) - At(account, p.self, x) else 0)
            && after.saleAmount == s.saleAmount - x
            && after.salePrice == s.salePrice && after.sellTo == s.sellTo == sender && after.payToken == s.payToken
            && after.coin.totalMinted == s.coin.totalMinted && after.coin.ledger.supply == s.coin.ledger.supply
  {
    var x := s.Quote(tokenAmount).value;
    var s1 := s.(saleAmount := s.saleAmount - x);
    if s.payToken == p.sweepr {
      TransferFromMoves(s.coin.ledger, p.self, sender, p.treasury, tokenAmount, account);
    } else {
      TransferFromMoves(s.tokens[s.payToken], p.self, sender, p.treasury, tokenAmount, account);
    }
    var paid := s1.TakePayment(p, sender, tokenAmount, v.payment).value;
    TransferMoves(paid.coin.ledger, p.self, sender, x, account);
  }

  /** The ledger the payment is made on. */
  function PaymentLedger(s: Sale, p: Parties): Ledger {
    if s.payToken == p.sweepr then s.coin.ledger else if s.payToken in s.tokens then s.tokens[s.payToken] else EMPTY
  }

  /** A purchase goes through exactly when the sale has a price, the sender is the buyer, the
      allowance and the stock cover the quantity, and the buyer's balance and approval cover the
      payment, whether it is made in SWEEPR or in another token. Only a distributor that buys
      from itself in SWEEPR needs stock for both. */
  lemma BuyDomain(s: Sale, p: Parties, sender: Address, tokenAmount: nat, v: Verdicts)
    ensures var payment, inSweepr := PaymentLedger(s, p), s.payToken == p.sweepr;
            s.Buy(p, sender, tokenAmount, v).Done? <==>
            && s.salePrice > 0 && tokenAmount * ONE_SWEEPR <= UINT_MAX
            && sender == s.sellTo && v.delivery && (if inSweepr then v.payment else s.payToken in s.tokens)
            && ZERO_ADDRESS !in {p.self, p.treasury, sender}
            && var quantity, stock := tokenAmount * ONE_SWEEPR / s.salePrice, s.coin.ledger.BalanceOf(p.self);
            && quantity <= s.saleAmount && quantity <= stock
            && tokenAmount <= payment.BalanceOf(sender)
            && (tokenAmount <= payment.Allowance(sender, p.self) || payment.Allowance(sender, p.self) == UINT_MAX)
            && (inSweepr && sender == p.self && sender != p.treasury ==> quantity + tokenAmount <= stock)
  {
    if s.payToken == p.sweepr && s.coin.ledger.TransferFrom(p.self, sender, p.treasury, tokenAmount).Done? {
      TransferFromMoves(s.coin.ledger, p.self, sender, p.treasury, tokenAmount, p.self);
    }
  }

  /** A sale is allowed exactly when neither address and neither number is zero, and then has just
      the terms given; what was left of an earlier one is gone, and no token moves. */
  lemma AllowSaleExact(s: Sale, amount: nat, buyer: Address, price: nat, token: Address)
    ensures s.AllowSale(amount, buyer, price, token).Done? <==>
            ZERO_ADDRESS !in {buyer, token} && amount > 0 && price > 0
    ensures s.AllowSale(amount, buyer, price, token).Done? ==>
              var after := s.AllowSale(amount, buyer, price, token).value;
              && (after.saleAmount, after.sellTo, after.salePrice, after.payToken) == (amount, buyer, price, token)
              && (after.coin, after.tokens) == (s.coin, s.tokens)
  {
  }

  /** The payment lowers the buyer's approval by just what was paid, unless it is unlimited, and
      touches no other. */
  lemma BuySpendsApproval(s: Sale, p: Parties, sender: Address, tokenAmount: nat, v: Verdicts, o: Address, a: Address)
    requires s.Buy(p, sender, tokenAmount, v).Done?
    ensures PaymentLedger(s.Buy(p, sender, tokenAmount, v).value.0, p).Allowance(o, a) ==
            AllowanceLeft(PaymentLedger(s, p), p.self, sender, tokenAmount, o, a)
  {
    AllowanceMoves(PaymentLedger(s, p), p.self, sender, p.treasury, tokenAmount, o, a);
  }

  /** The stock can be burnt exactly on a governance chain whose count of minted tokens covers it,
      and then it is taken whole, out of the supply and out of the count, from no one else. */
  lemma BurnTakesTheStock(s: Sale, p: Parties, approved: bool, account: Address)
    requires s.coin.ledger.Balanced()
    ensures var stock := s.coin.ledger.BalanceOf(p.self);
            && (s.Burn(p, approved).Done? <==>
                  s.coin.isGovernanceChain && approved && p.self != ZERO_ADDRESS && stock <= s.coin.totalMinted)
            && (s.Burn(p, approved).Done? ==>
                  var after := s.Burn(p, approved).value;
                  && after == s.(coin := after.coin)
                  && after.coin.ledger.BalanceOf(account) ==
                     (if account == p.self then 0 else s.coin.ledger.BalanceOf(account))
                  && after.coin.ledger.supply == s.coin.ledger.supply - stock
                  && after.coin.totalMinted == s.coin.totalMinted - stock)
  {
    Erc20.BurnDomain(s.coin.ledger, p.self, s.coin.ledger.BalanceOf(p.self));
    if s.Burn(p, approved).Done? {
      BurnMoves(s.coin.ledger, p.self, s.coin.ledger.BalanceOf(p.self), account);
    }
  }

  /** Paying in two parts never yields more than paying at once, and at most one unit less. */
  lemma SplittingNeverGains(s: Sale, a: nat, b: nat)
    requires s.Quote(a + b).Done?
    ensures s.Quote(a).Done? && s.Quote(b).Done?
    ensures s.Quote(a).value + s.Quote(b).value <= s.Quote(a + b).value <= s.Quote(a).value + s.Quote(b).value + 1
  {
    assert (a + b) * ONE_SWEEPR == a * ONE_SWEEPR + b * ONE_SWEEPR;
    DivSplit(a * ONE_SWEEPR, b * ONE_SWEEPR, s.salePrice);
  }

  function Quoted(s: Sale, payments: seq<nat>): nat {
    if payments == [] then 0
    else
      var last := s.Quote(payments[|payments| - 1]);
      Quoted(s, payments[..|payments| - 1]) + if last.Done? then last.value else 0
  }

  /** Any number of payments yields no more than their sum would, and falls short of it by less
      than one unit a payment. */
  lemma {:induction false} ManyPaymentsNeverGain(s: Sale, payments: seq<nat>)
    requires payments != [] && s.Quote(Total(payments)).Done?
    ensures Quoted(s, payments) <= s.Quote(Total(payments)).value < Quoted(s, payments) + |payments|
  {
    var n := |payments| - 1;
    assert payments == payments[..n] + [payments[n]] && [payments[n]][1..] == [];
    TotalAppend(payments[..n], [payments[n]]);
    SplittingNeverGains(s, Total(payments[..n]), payments[n]);
    if n > 0 {
      ManyPaymentsNeverGain(s, payments[..n]);
    } else {
      DivUnique(0, s.salePrice, 0);
    }
  }

  /** What can happen: the distributor's own calls, and anything else that moves tokens. */
  datatype Event =
    | Allow(amount: nat, buyer: Address, price: nat, token: Address)
    | Bought(sender: Address, tokenAmount: nat, verdicts: Verdicts)
    | Revoked
    | Burnt(approved: bool)
    | Elsewhere(coin: Sweepr.Coin, tokens: map<Address, Ledger>)

  /** The terms and totals of the sale in progress: what is authorised, to whom and at which
      price, what was sold and paid, in how many purchases. Revoking leaves authorised only
      what was already sold. */
  datatype Tally = Tally(authorised: nat, buyer: Address, price: nat, token: Address,
                         sold: nat, paid: nat, purchases: nat)

  const NO_SALE: Tally := Tally(0, ZERO_ADDRESS, 0, ZERO_ADDRESS, 0, 0, 0)

  function Step(s: Sale, t: Tally, p: Parties, e: Event): (Sale, Tally) {
    match e
    case Allow(amount, buyer, price, token) =>
      var after := s.AllowSale(amount, buyer, price, token);
      if after.Done? then (after.value, Tally(amount, buyer, price, token, 0, 0, 0)) else (s, t)
    case Bought(sender, tokenAmount, v) =>
      var after := s.Buy(p, sender, tokenAmount, v);
      if after.Done?
      then (after.value.0,
            t.(sold := t.sold + after.value.1, paid := t.paid + tokenAmount, purchases := t.purchases + 1))
      else (s, t)
    case Revoked => (s.RevokeSale(), t.(authorised := t.sold))
    case Burnt(approved) =>
      var after := s.Burn(p, approved);
      if after.Done? then (after.value, t) else (s, t)
    case Elsewhere(coin, tokens) => (s.(coin := coin, tokens := tokens), t)
  }

  function Run(s: Sale, t: Tally, p: Parties, events: seq<Event>): (Sale, Tally)
    decreases |events|
  {
    if events == [] then (s, t)
    else
      var (s1, t1) := Step(s, t, p, events[0]);
      Run(s1, t1, p, events[1..])
  }

  /** What was sold and what may still be sold are what is authorised; the buyer paid at least
      the price of what was sold, and less than that of one unit more a purchase. */
  ghost predicate Honoured(s: Sale, t: Tally) {
    && t.sold + s.saleAmount == t.authorised
    && (s.sellTo, s.salePrice, s.payToken) == (t.buyer, t.price, t.token)
    && t.sold * t.price <= t.paid * ONE_SWEEPR
    && (t.purchases == 0 ==> t.sold == 0 && t.paid == 0)
    && (t.purchases > 0 ==> t.paid * ONE_SWEEPR < (t.sold + t.purchases) * t.price)
  }

  lemma BuyHonoured(s: Sale, t: Tally, p: Parties, sender: Address, tokenAmount: nat, v: Verdicts)
    requires Honoured(s, t)
    ensures var (after, tally) := Step(s, t, p, Bought(sender, tokenAmount, v)); Honoured(after, tally)
  {
    var r := s.Buy(p, sender, tokenAmount, v);
    if r.Done? {
      BuyMoves(s, p, sender, tokenAmount, v, 0, 0);
      PurchaseAddsUp(t.sold, t.paid, t.purchases, s.salePrice, ONE_SWEEPR, tokenAmount);
    }
  }

  lemma StepHonoured(s: Sale, t: Tally, p: Parties, e: Event)
    requires Honoured(s, t)
    ensures var (after, tally) := Step(s, t, p, e); Honoured(after, tally)
  {
    match e {
      case Bought(sender, tokenAmount, v) => BuyHonoured(s, t, p, sender, tokenAmount, v);
      case _ =>
    }
  }

  /** In every run, whatever else moves the tokens in between, the sale in progress sells
      exactly what is authorised, at its price, rounded in favour of the sale by less than one
      unit a purchase. */
  lemma {:induction false} RunHonoured(s: Sale, t: Tally, p: Parties, events: seq<Event>)
    requires Honoured(s, t)
    ensures var (after, tally) := Run(s, t, p, events); Honoured(after, tally)
    decreases |events|
  {
    if events == [] {
    } else {
      StepHonoured(s, t, p, events[0]);
      var (s1, t1) := Step(s, t, p, events[0]);
      RunHonoured(s1, t1, p, events[1..]);
    }
  }

  /** So, from a new distributor on, a buyer never gets more than was authorised, nor more than
      was paid for. */
  lemma NeverOversold(s: Sale, p: Parties, events: seq<Event>)
    requires s.saleAmount == 0 && s.salePrice == 0 && s.sellTo == ZERO_ADDRESS && s.payToken == ZERO_ADDRESS
    ensures var (after, tally) := Run(s, NO_SALE, p, events);
            && Honoured(after, tally)
            && tally.sold <= tally.authorised
            && (tally.price > 0 ==> tally.sold <= tally.paid * ONE_SWEEPR / tally.price)
  {
    RunHonoured(s, NO_SALE, p, events);
    var (after, tally) := Run(s, NO_SALE, p, events);
    if tally.price > 0 {
      DivAdjoint(tally.paid * ONE_SWEEPR, tally.price, tally.sold);
    }
  }

  /** The token contracts of the chain, other than SWEEPR. */
  class Ledgers {
    var ledgers: map<Address, Ledger>

    constructor (ledgers: map<Address, Ledger>)
      ensures this.ledgers == ledgers
    {
      this.ledgers := ledgers;
    }
  }

  class Distributor {
    const parties: Parties
    const sweepr: Sweepr.SweeprCoin
    const others: Ledgers
    var saleAmount: nat
    var salePrice: nat
    var sellTo: Address
    var payToken: Address

    constructor (parties: Parties, sweepr: Sweepr.SweeprCoin, others: Ledgers)
      ensures this.parties == parties && this.sweepr == sweepr && this.others == others
      ensures saleAmount == 0 && salePrice == 0 && sellTo == ZERO_ADDRESS && payToken == ZERO_ADDRESS
    {
      this.parties, this.sweepr, this.others := parties, sweepr, others;
      saleAmount, salePrice, sellTo, payToken := 0, 0, ZERO_ADDRESS, ZERO_ADDRESS;
    }

    function State(): Sale
      reads this, sweepr, others
    {
      Sale(saleAmount, salePrice, sellTo, payToken, sweepr.State(), others.ledgers)
    }

    method Buy(sender: Address, tokenAmount: nat, v: Verdicts) returns (r: Tx<nat>)
      modifies this`saleAmount, sweepr`ledger, others
      ensures match old(State()).Buy(parties, sender, tokenAmount, v)
              case Done((next, sweeprAmount)) => r == Done(sweeprAmount) && State() == next
              case Reverted => r.Reverted? && State() == old(State())
    {
      var saleAmount0, ledger0, ledgers0 := saleAmount, sweepr.ledger, others.ledgers;
      var scaled :- Mul(tokenAmount, ONE_SWEEPR);
      var sweeprAmount :- Div(scaled, salePrice);
      if sender != sellTo || sweeprAmount > saleAmount || sweeprAmount > sweepr.ledger.BalanceOf(parties.self) {
        return Reverted;
      }
      saleAmount := saleAmount - sweeprAmount;
      var paid := TakePayment(sender, tokenAmount, v.payment);
      if paid.Done? {
        var delivered := sweepr.Transfer(parties.self, sender, sweeprAmount, v.delivery);
        if delivered.Done? {
          return Done(sweeprAmount);
        }
      }
      saleAmount, sweepr.ledger, others.ledgers := saleAmount0, ledger0, ledgers0;
      return Reverted;
    }

    method TakePayment(sender: Address, tokenAmount: nat, approved: bool) returns (r: Tx<()>)
      modifies sweepr`ledger, others
      ensures match old(State()).TakePayment(parties, sender, tokenAmount, approved)
              case Done(next) => r.Done? && State() == next
              case Reverted => r.Reverted? && State() == old(State())
    {
      if payToken == parties.sweepr {
        r := sweepr.TransferFrom(parties.self, sender, parties.treasury, tokenAmount, approved);
      } else if payToken in others.ledgers {
        var paid :- others.ledgers[payToken].TransferFrom(parties.self, sender, parties.treasury, tokenAmount);
        others.ledgers := others.ledgers[payToken := paid];
        return Done(());
      } else {
        return Reverted;
      }
    }

    method AllowSale(amount: nat, buyer: Address, price: nat, token: Address) returns (r: Tx<()>)
      modifies this
      ensures match old(State()).AllowSale(amount, buyer, price, token)
              case Done(next) => r.Done? && State() == next
              case Reverted => r.Reverted? && State() == old(State())
    {
      if buyer == ZERO_ADDRESS || token == ZERO_ADDRESS || amount == 0 || price == 0 {
        return Reverted;
      }
      saleAmount, sellTo, salePrice, payToken := amount, buyer, price, token;
      return Done(());
    }

    method RevokeSale()
      modifies this`saleAmount
      ensures State() == old(State()).RevokeSale()
    {
      saleAmount := 0;
    }

    method Burn(approved: bool) returns (r: Tx<nat>)
      modifies sweepr`ledger, sweepr`totalMinted
      ensures match old(State()).Burn(parties, approved)
              case Done(next) => State() == next && r == Done(old(sweepr.ledger.BalanceOf(parties.self)))
              case Reverted => r.Reverted? && State() == old(State())
    {
      var sweeprBalance := sweepr.ledger.BalanceOf(parties.self);
      var burnt := sweepr.Burn(parties.self, sweeprBalance, approved);
      return if burnt.Done? then Done(sweeprBalance) else Reverted;
    }
  }
}
