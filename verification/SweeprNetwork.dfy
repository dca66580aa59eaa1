/** SWEEPR on many chains at once: a transition system over the coins of all chains and the
    transfers in flight between them. Bridging burns at the source and mints at the
    destination, and touches neither chain's count of minted tokens. */
module SweeprNetwork {
  import opened Evm
  import opened Erc20
  import opened Sums
  import opened Sweepr
  import ChainRegistry

  type ChainId = ChainRegistry.ChainId

  datatype Message = Message(destination: ChainId, to: Address, amount: nat)

  datatype Network = Network(chains: map<ChainId, Coin>, inFlight: seq<Message>)

  datatype Action =
    | Mint(chain: ChainId, receiver: Address, amount: nat)
    | Burn(chain: ChainId, sender: Address, amount: nat)
    | BurnFrom(chain: ChainId, sender: Address, account: Address, amount: nat)
    | Transfer(chain: ChainId, from: Address, to: Address, amount: nat)
    | TransferFrom(chain: ChainId, spender: Address, from: Address, to: Address, amount: nat)
    | Approve(chain: ChainId, owner: Address, spender: Address, amount: nat)
    | Send(chain: ChainId, destination: ChainId, sender: Address, from: Address, to: Address, amount: nat)
    | Receive(index: nat)
    | SetGovernanceChain(chain: ChainId, isGovernance: bool)

  /** An attempted action, and whether the transfer approver allows the movement. */
  datatype Attempt = Attempt(action: Action, approved: bool)

  function Update(n: Network, c: ChainId, coin: Coin): Network {
    n.(chains := n.chains[c := coin])
  }

  /** Messages may be delivered in any order; a delivery that reverts stays in flight. */
  function Step(n: Network, t: Attempt): Tx<Network> {
    match t.action
    case Mint(c, receiver, amount) =>
      var _ :- Require(c in n.chains);
      var coin :- n.chains[c].Mint(receiver, amount, t.approved);
      Done(Update(n, c, coin))
    case Burn(c, sender, amount) =>
      var _ :- Require(c in n.chains);
      var coin :- n.chains[c].Burn(sender, amount, t.approved);
      Done(Update(n, c, coin))
    case BurnFrom(c, sender, account, amount) =>
      var _ :- Require(c in n.chains);
      var coin :- n.chains[c].BurnFrom(sender, account, amount, t.approved);
      Done(Update(n, c, coin))
    case Transfer(c, from, to, amount) =>
      var _ :- Require(c in n.chains);
      var coin :- n.chains[c].Transfer(from, to, amount, t.approved);
      Done(Update(n, c, coin))
    case TransferFrom(c, spender, from, to, amount) =>
      var _ :- Require(c in n.chains);
      var coin :- n.chains[c].TransferFrom(spender, from, to, amount, t.approved);
      Done(Update(n, c, coin))
    case Approve(c, owner, spender, amount) =>
      var _ :- Require(c in n.chains);
      var coin :- n.chains[c].Approve(owner, spender, amount);
      Done(Update(n, c, coin))
    case Send(c, destination, sender, from, to, amount) =>
      var _ :- Require(c in n.chains && destination in n.chains);
      var coin :- n.chains[c].DebitFrom(sender, from, amount, t.approved);
      Done(Update(n, c, coin).(inFlight := n.inFlight + [Message(destination, to, amount)]))
    case Receive(index) =>
      var _ :- Require(index < |n.inFlight| && n.inFlight[index].destination in n.chains);
      var m := n.inFlight[index];
      var coin :- n.chains[m.destination].CreditTo(m.to, m.amount, t.approved);
      Done(Update(n, m.destination, coin).(inFlight := n.inFlight[..index] + n.inFlight[index + 1..]))
    case SetGovernanceChain(c, isGovernance) =>
      var _ :- Require(c in n.chains);
      Done(Update(n, c, n.chains[c].(isGovernanceChain := isGovernance)))
  }

  function Next(n: Network, t: Attempt): Network {
    var after := Step(n, t);
    if after.Done? then after.value else n
  }

  function Run(n: Network, attempts: seq<Attempt>): Network
    decreases |attempts|
  {
    if attempts == [] then n else Run(Next(n, attempts[0]), attempts[1..])
  }

  function Counts(n: Network): map<ChainId, nat> {
    map c | c in n.chains :: n.chains[c].totalMinted
  }

  function Supplies(n: Network): map<ChainId, nat> {
    map c | c in n.chains :: n.chains[c].ledger.supply
  }

  ghost function Minted(n: Network): nat {
    Sum(Counts(n))
  }

  ghost function Supply(n: Network): nat {
    Sum(Supplies(n))
  }

  function Amounts(messages: seq<Message>): seq<nat> {
    seq(|messages|, i requires 0 <= i < |messages| => messages[i].amount)
  }

  function InFlight(n: Network): nat {
    Total(Amounts(n.inFlight))
  }

  /** All tokens there are: held on some chain, or on the way to one. */
  ghost function Circulating(n: Network): nat {
    Supply(n) + InFlight(n)
  }

  /** Everything minted and not burnt is somewhere, and on each chain the balances add up. */
  ghost predicate Accounted(n: Network) {
    && Minted(n) == Circulating(n)
    && forall c :: c in n.chains ==> n.chains[c].ledger.Balanced()
  }

  /** What replacing one chain's coin does to the totals. */
  lemma UpdateTotals(n: Network, c: ChainId, coin: Coin)
    requires c in n.chains
    ensures Minted(Update(n, c, coin)) == Minted(n) - n.chains[c].totalMinted + coin.totalMinted
    ensures Supply(Update(n, c, coin)) == Supply(n) - n.chains[c].ledger.supply + coin.ledger.supply
  {
    var after := Update(n, c, coin);
    assert Counts(after) == Counts(n)[c := coin.totalMinted];
    assert Supplies(after) == Supplies(n)[c := coin.ledger.supply];
    SumUpdate(Counts(n), c, coin.totalMinted);
    SumUpdate(Supplies(n), c, coin.ledger.supply);
  }

  /** What one coin's operation does to the difference between its count and its supply. */
  ghost predicate Keeps(before: Coin, after: Coin, burntAway: int) {
    && (before.ledger.Balanced() ==> after.ledger.Balanced())
    && after.totalMinted - after.ledger.supply == before.totalMinted - before.ledger.supply + burntAway
  }

  lemma MintKeeps(coin: Coin, receiver: Address, amount: nat, approved: bool)
    requires coin.Mint(receiver, amount, approved).Done?
    ensures Keeps(coin, coin.Mint(receiver, amount, approved).value, 0)
  {
    if coin.ledger.Balanced() {
      MintBalanced(coin.ledger, receiver, amount, VOTES_CAP);
    }
  }

  lemma BurnKeeps(coin: Coin, sender: Address, amount: nat, approved: bool)
    requires coin.Burn(sender, amount, approved).Done?
    ensures Keeps(coin, coin.Burn(sender, amount, approved).value, 0)
  {
    if coin.ledger.Balanced() {
      BurnBalanced(coin.ledger, sender, amount);
    }
  }

  lemma BurnFromKeeps(coin: Coin, sender: Address, account: Address, amount: nat, approved: bool)
    requires coin.BurnFrom(sender, account, amount, approved).Done?
    ensures Keeps(coin, coin.BurnFrom(sender, account, amount, approved).value, 0)
  {
    if coin.ledger.Balanced() {
      BurnBalanced(coin.ledger.SpendAllowance(account, sender, amount).value, account, amount);
    }
  }

  lemma TransferKeeps(coin: Coin, from: Address, to: Address, amount: nat, approved: bool)
    requires coin.Transfer(from, to, amount, approved).Done?
    ensures Keeps(coin, coin.Transfer(from, to, amount, approved).value, 0)
  {
    if coin.ledger.Balanced() {
      TransferBalanced(coin.ledger, from, to, amount);
    }
  }

  lemma TransferFromKeeps(coin: Coin, spender: Address, from: Address, to: Address, amount: nat, approved: bool)
    requires coin.TransferFrom(spender, from, to, amount, approved).Done?
    ensures Keeps(coin, coin.TransferFrom(spender, from, to, amount, approved).value, 0)
  {
    var spent := coin.ledger.SpendAllowance(from, spender, amount).value;
    if coin.ledger.Balanced() {
      TransferBalanced(spent, from, to, amount);
    }
  }

  lemma DebitKeeps(coin: Coin, sender: Address, from: Address, amount: nat, approved: bool)
    requires coin.DebitFrom(sender, from, amount, approved).Done?
    ensures Keeps(coin, coin.DebitFrom(sender, from, amount, approved).value, amount)
    ensures coin.DebitFrom(sender, from, amount, approved).value.totalMinted == coin.totalMinted
  {
    if coin.ledger.Balanced() {
      var spent := if sender == from then coin.ledger else coin.ledger.SpendAllowance(from, sender, amount).value;
      BurnBalanced(spent, from, amount);
    }
  }

  lemma CreditKeeps(coin: Coin, to: Address, amount: nat, approved: bool)
    requires coin.CreditTo(to, amount, approved).Done?
    ensures Keeps(coin, coin.CreditTo(to, amount, approved).value, 0 - amount)
    ensures coin.CreditTo(to, amount, approved).value.totalMinted == coin.totalMinted
  {
    if coin.ledger.Balanced() {
      MintBalanced(coin.ledger, to, amount, VOTES_CAP);
    }
  }

  lemma InFlightAppend(messages: seq<Message>, m: Message)
    ensures Total(Amounts(messages + [m])) == Total(Amounts(messages)) + m.amount
  {
    assert Amounts(messages + [m]) == Amounts(messages) + [m.amount];
    TotalAppend(Amounts(messages), [m.amount]);
    assert [m.amount][1..] == [];
  }

  lemma InFlightRemove(messages: seq<Message>, index: nat)
    requires index < |messages|
    ensures Total(Amounts(messages[..index] + messages[index + 1..])) ==
            Total(Amounts(messages)) - messages[index].amount
  {
    var front, back := messages[..index], messages[index + 1..];
    assert messages == front + [messages[index]] + back;
    assert Amounts(messages) == Amounts(front + [messages[index]]) + Amounts(back);
    assert Amounts(front + back) == Amounts(front) + Amounts(back);
    InFlightAppend(front, messages[index]);
    TotalAppend(Amounts(front + [messages[index]]), Amounts(back));
    TotalAppend(Amounts(front), Amounts(back));
  }

  /** The coin an attempt works on, when it does not revert. */
  function Touched(n: Network, a: Action): ChainId {
    match a
    case Receive(index) => if index < |n.inFlight| then n.inFlight[index].destination else 0
    case _ => a.chain
  }

  /** Every step that does not revert changes one coin and keeps its count in line with its
      supply, but for what leaves for, or arrives from, another chain. */
  lemma StepKeeps(n: Network, t: Attempt)
    requires Step(n, t).Done?
    ensures var after, c := Step(n, t).value, Touched(n, t.action);
            && c in n.chains && after.chains.Keys == n.chains.Keys
            && after.chains == n.chains[c := after.chains[c]]
            && Keeps(n.chains[c], after.chains[c], InFlight(after) - InFlight(n))
  {
    match t.action {
      case Mint(c, receiver, amount) => MintKeeps(n.chains[c], receiver, amount, t.approved);
      case Burn(c, sender, amount) => BurnKeeps(n.chains[c], sender, amount, t.approved);
      case BurnFrom(c, sender, account, amount) => BurnFromKeeps(n.chains[c], sender, account, amount, t.approved);
      case Transfer(c, from, to, amount) => TransferKeeps(n.chains[c], from, to, amount, t.approved);
      case TransferFrom(c, spender, from, to, amount) =>
        TransferFromKeeps(n.chains[c], spender, from, to, amount, t.approved);
      case Approve(c, owner, spender, amount) =>
      case Send(c, destination, sender, from, to, amount) =>
        DebitKeeps(n.chains[c], sender, from, amount, t.approved);
        InFlightAppend(n.inFlight, Message(destination, to, amount));
      case Receive(index) =>
        var m := n.inFlight[index];
        CreditKeeps(n.chains[m.destination], m.to, m.amount, t.approved);
        InFlightRemove(n.inFlight, index);
      case SetGovernanceChain(c, isGovernance) =>
    }
  }

  lemma StepAccounted(n: Network, t: Attempt)
    requires Accounted(n)
    ensures Accounted(Next(n, t))
  {
    if Step(n, t).Done? {
      var after, c := Step(n, t).value, Touched(n, t.action);
      StepKeeps(n, t);
      UpdateTotals(n, c, after.chains[c]);
      assert Minted(after) == Minted(Update(n, c, after.chains[c]));
      assert Supply(after) == Supply(Update(n, c, after.chains[c]));
    }
  }

  /** In every reachable state, what was minted and not burnt is the supply of all chains plus
      what is in flight, and on each chain the balances add up to the supply. */
  lemma {:induction false} RunAccounted(n: Network, attempts: seq<Attempt>)
    requires Accounted(n)
    ensures Accounted(Run(n, attempts))
    decreases |attempts|
  {
    if attempts == [] {
    } else {
      StepAccounted(n, attempts[0]);
      RunAccounted(Next(n, attempts[0]), attempts[1..]);
    }
  }

  /** A network as it is deployed: nothing minted, nothing held, nothing in flight. */
  ghost predicate Deployed(n: Network) {
    && n.inFlight == []
    && forall c :: c in n.chains ==> n.chains[c].totalMinted == 0 && n.chains[c].ledger == EMPTY
  }

  lemma DeployedAccounted(n: Network)
    requires Deployed(n)
    ensures Accounted(n)
  {
    SumZero(Counts(n));
    SumZero(Supplies(n));
  }

  /** Only chain g may mint and burn, and nothing was ever minted elsewhere. */
  ghost predicate GovernedBy(n: Network, g: ChainId) {
    && g in n.chains
    && forall c :: c in n.chains && c != g ==> !n.chains[c].isGovernanceChain && n.chains[c].totalMinted == 0
  }

  /** The attempts never raise the governance flag on a chain other than g. */
  ghost predicate OnlyGoverns(attempts: seq<Attempt>, g: ChainId) {
    forall i :: 0 <= i < |attempts| ==>
      var a := attempts[i].action;
      a.SetGovernanceChain? && a.isGovernance ==> a.chain == g
  }

  lemma StepGovernedBy(n: Network, t: Attempt, g: ChainId)
    requires GovernedBy(n, g) && OnlyGoverns([t], g)
    ensures GovernedBy(Next(n, t), g)
  {
    if Step(n, t).Done? {
      var after, c := Step(n, t).value, Touched(n, t.action);
      StepKeeps(n, t);
      var a := [t][0].action;
      assert c != g ==> !after.chains[c].isGovernanceChain && after.chains[c].totalMinted == 0;
    }
  }

  lemma {:induction false} RunGovernedBy(n: Network, attempts: seq<Attempt>, g: ChainId)
    requires GovernedBy(n, g) && OnlyGoverns(attempts, g)
    ensures GovernedBy(Run(n, attempts), g)
    decreases |attempts|
  {
    if attempts == [] {
    } else {
      assert attempts[0].action == attempts[0].action;
      StepGovernedBy(n, attempts[0], g);
      RunGovernedBy(Next(n, attempts[0]), attempts[1..], g);
    }
  }

  lemma SoleCount(n: Network, g: ChainId)
    requires Accounted(n) && GovernedBy(n, g)
    ensures n.chains[g].totalMinted == Circulating(n)
  {
    SumRemove(Counts(n), g);
    SumZero(Counts(n) - {g});
  }

  /** In every run with one governance chain, its count of minted tokens is everything there is
      anywhere, and every other chain's count is zero. */
  lemma CountIsGlobalSupply(n: Network, attempts: seq<Attempt>, g: ChainId)
    requires Accounted(n) && GovernedBy(n, g) && OnlyGoverns(attempts, g)
    ensures var after := Run(n, attempts);
            && Accounted(after) && GovernedBy(after, g)
            && after.chains[g].totalMinted == Circulating(after)
            && forall c :: c in after.chains && c != g ==> after.chains[c].totalMinted == 0
  {
    RunAccounted(n, attempts);
    RunGovernedBy(n, attempts, g);
    SoleCount(Run(n, attempts), g);
  }

  /** A burn takes the holder's balance and the chain's count: both must cover it. */
  lemma BurnDomain(n: Network, c: ChainId, sender: Address, amount: nat, approved: bool)
    requires Accounted(n) && c in n.chains
    ensures var coin := n.chains[c];
            Step(n, Attempt(Burn(c, sender, amount), approved)).Done? <==>
            && coin.isGovernanceChain && approved && sender != ZERO_ADDRESS
            && amount <= coin.ledger.BalanceOf(sender) && amount <= coin.totalMinted
  {
    Erc20.BurnDomain(n.chains[c].ledger, sender, amount);
  }

  /** A burn on behalf of a holder needs the allowance too. */
  lemma BurnFromDomain(n: Network, c: ChainId, sender: Address, account: Address, amount: nat, approved: bool)
    requires Accounted(n) && c in n.chains && sender != ZERO_ADDRESS
    ensures var coin := n.chains[c];
            Step(n, Attempt(BurnFrom(c, sender, account, amount), approved)).Done? <==>
            && coin.isGovernanceChain && approved && account != ZERO_ADDRESS
            && amount <= coin.ledger.BalanceOf(account) && amount <= coin.totalMinted
            && (amount <= coin.ledger.Allowance(account, sender)
                || coin.ledger.Allowance(account, sender) == UINT_MAX)
  {
    BalanceWithinCirculation(n, c, account);
    SpendAndBurnDomain(n.chains[c].ledger, sender, account, amount);
  }

  /** No holder on any chain has more than circulates. */
  lemma BalanceWithinCirculation(n: Network, c: ChainId, holder: Address)
    requires Accounted(n) && c in n.chains
    ensures n.chains[c].ledger.BalanceOf(holder) <= n.chains[c].ledger.supply <= Circulating(n)
  {
    SumUpdate(n.chains[c].ledger.balances, holder, 0);
    SumUpdate(Supplies(n), c, 0);
  }

  /** With one governance chain the count always covers the balance, so in every run a burn
      needs the flag, the approver and the balance, and never underflows. */
  lemma BurnNeverUnderflows(n: Network, attempts: seq<Attempt>, g: ChainId, sender: Address,
                            amount: nat, approved: bool)
    requires Accounted(n) && GovernedBy(n, g) && OnlyGoverns(attempts, g)
    ensures var after := Run(n, attempts);
            && g in after.chains
            && var coin := after.chains[g];
            Step(after, Attempt(Burn(g, sender, amount), approved)).Done? <==>
            && coin.isGovernanceChain && approved && sender != ZERO_ADDRESS
            && amount <= coin.ledger.BalanceOf(sender)
  {
    CountIsGlobalSupply(n, attempts, g);
    var after := Run(n, attempts);
    BalanceWithinCirculation(after, g, sender);
    BurnDomain(after, g, sender, amount, approved);
  }

  /** The same for a burn on behalf of a holder, which needs an allowance too. */
  lemma BurnFromNeverUnderflows(n: Network, attempts: seq<Attempt>, g: ChainId, sender: Address, account: Address,
                                amount: nat, approved: bool)
    requires Accounted(n) && GovernedBy(n, g) && OnlyGoverns(attempts, g)
    requires sender != ZERO_ADDRESS
    ensures var after := Run(n, attempts);
            && g in after.chains
            && var coin := after.chains[g];
            Step(after, Attempt(BurnFrom(g, sender, account, amount), approved)).Done? <==>
            && coin.isGovernanceChain && approved && account != ZERO_ADDRESS
            && amount <= coin.ledger.BalanceOf(account)
            && (amount <= coin.ledger.Allowance(account, sender) || coin.ledger.Allowance(account, sender) == UINT_MAX)
  {
    CountIsGlobalSupply(n, attempts, g);
    var after := Run(n, attempts);
    BalanceWithinCirculation(after, g, account);
    BurnFromDomain(after, g, sender, account, amount, approved);
  }

  /** The cap is checked against the supply of one chain. Among all chains together the
      maximum holds after a mint exactly when the count of minted tokens would respect it. */
  lemma MintKeepsGlobalMaximum(n: Network, g: ChainId, receiver: Address, amount: nat, approved: bool)
    requires Accounted(n) && GovernedBy(n, g)
    requires Step(n, Attempt(Mint(g, receiver, amount), approved)).Done?
    ensures var after := Step(n, Attempt(Mint(g, receiver, amount), approved)).value;
            Circulating(after) <= MAX_SUPPLY <==> n.chains[g].totalMinted + amount <= MAX_SUPPLY
  {
    var t := Attempt(Mint(g, receiver, amount), approved);
    assert [t][0] == t;
    StepAccounted(n, t);
    StepGovernedBy(n, t, g);
    SoleCount(Next(n, t), g);
  }

  /** Only a mint looks at the maximum. A chain within it is above it after a step exactly when
      the step is a receipt there of more than there was room for. */
  lemma ReceiptExceedsMaximum(n: Network, t: Attempt, c: ChainId)
    requires Accounted(n) && c in n.chains && n.chains[c].ledger.supply <= MAX_SUPPLY
    requires Step(n, t).Done?
    ensures var after := Step(n, t).value;
            && c in after.chains
            && (after.chains[c].ledger.supply > MAX_SUPPLY <==>
                  && t.action.Receive? && n.inFlight[t.action.index].destination == c
                  && n.chains[c].ledger.supply + n.inFlight[t.action.index].amount > MAX_SUPPLY)
  {
    StepMoves(n, t, c, ZERO_ADDRESS);
    if t.action.Mint? {
      MintWithinMaximum(n.chains[t.action.chain], t.action.receiver, t.action.amount, t.approved);
    }
  }

  lemma MintWithinMaximum(coin: Coin, receiver: Address, amount: nat, approved: bool)
    requires coin.Mint(receiver, amount, approved).Done?
    ensures coin.ledger.supply + amount <= MAX_SUPPLY
  {
  }

  /** In every run with one governance chain, no chain is above the maximum as long as the count
      of minted tokens is not. */
  lemma CountBoundsEveryChain(n: Network, attempts: seq<Attempt>, g: ChainId, c: ChainId)
    requires Accounted(n) && GovernedBy(n, g) && OnlyGoverns(attempts, g)
    ensures var after := Run(n, attempts);
            && g in after.chains
            && (c in after.chains && after.chains[g].totalMinted <= MAX_SUPPLY ==>
                  after.chains[c].ledger.supply <= MAX_SUPPLY)
  {
    CountIsGlobalSupply(n, attempts, g);
    if c in Run(n, attempts).chains {
      BalanceWithinCirculation(Run(n, attempts), c, ZERO_ADDRESS);
    }
  }

  /** How much an action that goes through adds to an account on a chain. */
  function Change(n: Network, a: Action, c: ChainId, account: Address): int {
    match a
    case Mint(chain, receiver, amount) => if c == chain then At(account, receiver, amount) else 0
    case Burn(chain, sender, amount) => if c == chain then -At(account, sender, amount) else 0
    case BurnFrom(chain, _, holder, amount) => if c == chain then -At(account, holder, amount) else 0
    case Transfer(chain, from, to, amount) =>
      if c == chain then At(account, to, amount) - At(account, from, amount) else 0
    case TransferFrom(chain, _, from, to, amount) =>
      if c == chain then At(account, to, amount) - At(account, from, amount) else 0
    case Approve(_, _, _, _) => 0
    case Send(chain, _, _, from, _, amount) => if c == chain then -At(account, from, amount) else 0
    case Receive(index) =>
      if index < |n.inFlight| && c == n.inFlight[index].destination
      then At(account, n.inFlight[index].to, n.inFlight[index].amount) else 0
    case SetGovernanceChain(_, _) => 0
  }

  /** How much an action that goes through adds to the supply of a chain. */
  function SupplyChange(n: Network, a: Action, c: ChainId): int {
    match a
    case Mint(chain, _, amount) => if c == chain then amount else 0
    case Burn(chain, _, amount) => if c == chain then 0 - amount else 0
    case BurnFrom(chain, _, _, amount) => if c == chain then 0 - amount else 0
    case Send(chain, _, _, _, _, amount) => if c == chain then 0 - amount else 0
    case Receive(index) =>
      if index < |n.inFlight| && c == n.inFlight[index].destination then n.inFlight[index].amount else 0
    case _ => 0
  }

  /** The effect of every action on every account and on the supply of every chain. */
  lemma StepMoves(n: Network, t: Attempt, c: ChainId, account: Address)
    requires Step(n, t).Done? && c in n.chains
    ensures var after := Step(n, t).value;
            && c in after.chains
            && after.chains[c].ledger.BalanceOf(account) ==
               n.chains[c].ledger.BalanceOf(account) + Change(n, t.action, c, account)
            && after.chains[c].ledger.supply == n.chains[c].ledger.supply + SupplyChange(n, t.action, c)
  {
    if c == Touched(n, t.action) {
      CoinMoves(n, t, account);
    }
  }

  lemma CoinMoves(n: Network, t: Attempt, account: Address)
    requires Step(n, t).Done?
    ensures var after, c := Step(n, t).value, Touched(n, t.action);
            && c in n.chains && c in after.chains
            && after.chains[c].ledger.BalanceOf(account) ==
               n.chains[c].ledger.BalanceOf(account) + Change(n, t.action, c, account)
            && after.chains[c].ledger.supply == n.chains[c].ledger.supply + SupplyChange(n, t.action, c)
  {
    match t.action {
      case Mint(c, receiver, amount) => MintMoves(n.chains[c].ledger, receiver, amount, VOTES_CAP, account);
      case Burn(c, sender, amount) => BurnMoves(n.chains[c].ledger, sender, amount, account);
      case BurnFrom(c, sender, holder, amount) =>
        SpendAndBurnMoves(n.chains[c].ledger, sender, holder, amount, account);
      case Transfer(c, from, to, amount) => TransferMoves(n.chains[c].ledger, from, to, amount, account);
      case TransferFrom(c, spender, from, to, amount) =>
        TransferFromMoves(n.chains[c].ledger, spender, from, to, amount, account);
      case Approve(c, owner, spender, amount) =>
      case Send(c, destination, sender, from, to, amount) =>
        if sender == from {
          BurnMoves(n.chains[c].ledger, from, amount, account);
        } else {
          SpendAndBurnMoves(n.chains[c].ledger, sender, from, amount, account);
        }
      case Receive(index) =>
        var m := n.inFlight[index];
        MintMoves(n.chains[m.destination].ledger, m.to, m.amount, VOTES_CAP, account);
      case SetGovernanceChain(c, isGovernance) =>
    }
  }

  lemma SpendAndBurnMoves(l: Ledger, spender: Address, holder: Address, amount: nat, account: Address)
    requires l.BurnFrom(spender, holder, amount).Done?
    ensures l.BurnFrom(spender, holder, amount).value.BalanceOf(account) ==
            l.BalanceOf(account) - At(account, holder, amount)
    ensures l.BurnFrom(spender, holder, amount).value.supply == l.supply - amount
  {
    BurnMoves(l.SpendAllowance(holder, spender, amount).value, holder, amount, account);
  }

  /** Exactly when a transfer and an approval go through. */
  lemma TransferDomains(n: Network, c: ChainId, spender: Address, from: Address, to: Address,
                        amount: nat, approved: bool)
    requires c in n.chains
    ensures var ledger := n.chains[c].ledger;
            && (Step(n, Attempt(Transfer(c, from, to, amount), approved)).Done? <==>
                  approved && ZERO_ADDRESS !in {from, to} && amount <= ledger.BalanceOf(from))
            && (Step(n, Attempt(TransferFrom(c, spender, from, to, amount), approved)).Done? <==>
                  && approved && ZERO_ADDRESS !in {from, to} && amount <= ledger.BalanceOf(from)
                  && MayWithdraw(ledger, spender, from, amount))
            && (Step(n, Attempt(Approve(c, from, spender, amount), approved)).Done? <==>
                  ZERO_ADDRESS !in {from, spender})
  {
    Erc20.Domains(n.chains[c].ledger, spender, from, to, amount, VOTES_CAP);
  }

  /** What an action leaves of an allowance on the chain it works on. */
  function AllowanceAfter(l: Ledger, a: Action, o: Address, s: Address): int {
    match a
    case BurnFrom(_, sender, account, amount) => AllowanceLeft(l, sender, account, amount, o, s)
    case TransferFrom(_, spender, from, _, amount) => AllowanceLeft(l, spender, from, amount, o, s)
    case Approve(_, owner, spender, amount) => if (o, s) == (owner, spender) then amount else l.Allowance(o, s)
    case Send(_, _, sender, from, _, amount) =>
      if sender == from then l.Allowance(o, s) else AllowanceLeft(l, sender, from, amount, o, s)
    case _ => l.Allowance(o, s)
  }

  /** The effect of every action on every allowance and every governance flag. */
  lemma StepLeaves(n: Network, t: Attempt, o: Address, s: Address)
    requires Step(n, t).Done?
    ensures var after, c := Step(n, t).value, Touched(n, t.action);
            && c in n.chains && after.chains.Keys == n.chains.Keys
            && (forall other :: other in n.chains && other != c ==> after.chains[other] == n.chains[other])
            && after.chains[c].ledger.Allowance(o, s) == AllowanceAfter(n.chains[c].ledger, t.action, o, s)
            && after.chains[c].isGovernanceChain ==
               (if t.action.SetGovernanceChain? then t.action.isGovernance else n.chains[c].isGovernanceChain)
  {
    StepKeeps(n, t);
    CoinLeaves(n, t, o, s);
  }

  /** The effect of every action on the messages in flight: a send adds one, a receipt takes out the
      one it delivers, and nothing else touches them. */
  lemma StepMessages(n: Network, t: Attempt)
    requires Step(n, t).Done?
    ensures multiset(Step(n, t).value.inFlight) ==
            match t.action
            case Send(_, destination, _, _, to, amount) =>
              multiset(n.inFlight) + multiset{Message(destination, to, amount)}
            case Receive(index) => multiset(n.inFlight) - multiset{n.inFlight[index]}
            case _ => multiset(n.inFlight)
  {
    if t.action.Receive? {
      WithoutOne(n.inFlight, t.action.index);
    }
  }

  lemma WithoutOne(messages: seq<Message>, i: nat)
    requires i < |messages|
    ensures multiset(messages[..i] + messages[i + 1..]) == multiset(messages) - multiset{messages[i]}
  {
    assert messages == messages[..i] + [messages[i]] + messages[i + 1..];
  }

  lemma CoinLeaves(n: Network, t: Attempt, o: Address, s: Address)
    requires Step(n, t).Done?
    ensures var after, c := Step(n, t).value, Touched(n, t.action);
            && c in n.chains && c in after.chains
            && after.chains[c].ledger.Allowance(o, s) == AllowanceAfter(n.chains[c].ledger, t.action, o, s)
            && after.chains[c].isGovernanceChain ==
               (if t.action.SetGovernanceChain? then t.action.isGovernance else n.chains[c].isGovernanceChain)
  {
    match t.action {
      case BurnFrom(c, sender, account, amount) =>
        AllowanceMoves(n.chains[c].ledger, sender, account, account, amount, o, s);
      case TransferFrom(c, spender, from, to, amount) =>
        AllowanceMoves(n.chains[c].ledger, spender, from, to, amount, o, s);
      case Approve(c, owner, spender, amount) =>
        AllowanceMoves(n.chains[c].ledger, spender, owner, owner, amount, o, s);
      case Send(c, _, sender, from, _, amount) =>
        AllowanceMoves(n.chains[c].ledger, sender, from, from, amount, o, s);
      case _ =>
    }
  }

  /** Sending tokens and receiving them moves the amount from one account on the source to one
      on the destination; no other account, no count and no message is affected. */
  lemma BridgeMoves(n: Network, t: Attempt, r: Attempt, c: ChainId, account: Address)
    requires t.action.Send? && Step(n, t).Done? && c in n.chains
    requires r.action == Receive(|n.inFlight|) && Step(Step(n, t).value, r).Done?
    ensures var sent := t.action;
            var after := Step(Step(n, t).value, r).value;
            && after.inFlight == n.inFlight && after.chains.Keys == n.chains.Keys
            && after.chains[c].totalMinted == n.chains[c].totalMinted
            && after.chains[c].isGovernanceChain == n.chains[c].isGovernanceChain
            && after.chains[c].ledger.BalanceOf(account) ==
               n.chains[c].ledger.BalanceOf(account)
               - (if c == sent.chain then At(account, sent.from, sent.amount) else 0)
               + (if c == sent.destination then At(account, sent.to, sent.amount) else 0)
  {
    var middle := Step(n, t).value;
    assert middle.inFlight[..|n.inFlight|] + middle.inFlight[|n.inFlight| + 1..] == n.inFlight;
    StepMoves(n, t, c, account);
    StepMoves(middle, r, c, account);
  }

  /** Exactly when a mint goes through. */
  lemma MintDomain(n: Network, c: ChainId, to: Address, amount: nat, approved: bool)
    requires c in n.chains
    ensures var coin := n.chains[c];
            Step(n, Attempt(Mint(c, to, amount), approved)).Done? <==>
            && coin.isGovernanceChain && approved && to != ZERO_ADDRESS
            && coin.ledger.supply + amount <= MAX_SUPPLY && coin.totalMinted + amount <= UINT_MAX
  {
  }

  /** Exactly when a transfer out goes through: with the holder's balance the supply is covered. */
  lemma SendDomain(n: Network, c: ChainId, destination: ChainId, sender: Address, from: Address, to: Address,
                   amount: nat, approved: bool)
    requires Accounted(n) && c in n.chains && sender != ZERO_ADDRESS
    ensures var ledger := n.chains[c].ledger;
            Step(n, Attempt(Send(c, destination, sender, from, to, amount), approved)).Done? <==>
            && destination in n.chains && approved && from != ZERO_ADDRESS && amount <= ledger.BalanceOf(from)
            && (sender == from || amount <= ledger.Allowance(from, sender)
                || ledger.Allowance(from, sender) == UINT_MAX)
  {
    BalanceWithinCirculation(n, c, from);
    SpendAndBurnDomain(n.chains[c].ledger, sender, from, amount);
  }

  lemma SpendAndBurnDomain(l: Ledger, spender: Address, holder: Address, amount: nat)
    requires spender != ZERO_ADDRESS && l.BalanceOf(holder) <= l.supply
    ensures l.BurnFrom(spender, holder, amount).Done? <==>
            && holder != ZERO_ADDRESS && amount <= l.BalanceOf(holder)
            && (amount <= l.Allowance(holder, spender) || l.Allowance(holder, spender) == UINT_MAX)
  {
  }

  /** Exactly when a delivery goes through. One that does not stays in flight, so it may be
      tried again. */
  lemma ReceiptDomain(n: Network, index: nat, approved: bool)
    requires index < |n.inFlight|
    ensures var m := n.inFlight[index];
            Step(n, Attempt(Receive(index), approved)).Done? <==>
            && m.destination in n.chains && approved && m.to != ZERO_ADDRESS
            && n.chains[m.destination].ledger.supply + m.amount <= VOTES_CAP
  {
  }

  lemma RunOne(n: Network, t: Attempt, rest: seq<Attempt>)
    ensures Run(n, [t] + rest) == Run(Next(n, t), rest)
  {
    assert ([t] + rest)[1..] == rest;
  }

  /** Minting on g and bridging everything to another chain empties g and delivers the tokens. */
  lemma MintAndBridge(n: Network, g: ChainId, other: ChainId, holder: Address, amount: nat)
    requires g in n.chains && other in n.chains && g != other && n.inFlight == []
    requires n.chains[g].isGovernanceChain
    requires n.chains[g].ledger.supply == 0 && n.chains[g].ledger.BalanceOf(holder) == 0
    requires holder != ZERO_ADDRESS && amount <= MAX_SUPPLY
    requires n.chains[g].totalMinted <= MAX_SUPPLY && n.chains[other].ledger.supply <= MAX_SUPPLY
    ensures var after := Run(n, Bridging(g, other, holder, amount));
            && after.chains.Keys == n.chains.Keys && after.inFlight == []
            && after.chains[g].isGovernanceChain && after.chains[g].ledger.supply == 0
            && after.chains[g].ledger.BalanceOf(holder) == 0
            && after.chains[g].totalMinted == n.chains[g].totalMinted + amount
            && after.chains[other].totalMinted == n.chains[other].totalMinted
            && after.chains[other].ledger.supply == n.chains[other].ledger.supply + amount
            && after.chains[other].ledger.BalanceOf(holder) == n.chains[other].ledger.BalanceOf(holder) + amount
  {
    var plan := Bridging(g, other, holder, amount);
    RunThree(n, plan[0], plan[1], plan[2]);
    MintedFirst(n, g, holder, amount);
    var n1 := Next(n, plan[0]);
    SentAll(n1, g, other, holder, amount);
    var n2 := Next(n1, plan[1]);
    ReceivedOnly(n2, other, holder, amount);
  }

  lemma RunThree(n: Network, t1: Attempt, t2: Attempt, t3: Attempt)
    ensures Run(n, [t1, t2, t3]) == Next(Next(Next(n, t1), t2), t3)
  {
    RunOne(n, t1, [t2, t3]);
    RunOne(Next(n, t1), t2, [t3]);
    RunOne(Next(Next(n, t1), t2), t3, []);
    assert [t1, t2, t3] == [t1] + [t2, t3] && [t2, t3] == [t2] + [t3] && [t3] == [t3] + [];
  }

  lemma MintedFirst(n: Network, g: ChainId, holder: Address, amount: nat)
    requires g in n.chains && n.chains[g].isGovernanceChain && n.chains[g].ledger.supply == 0
    requires holder != ZERO_ADDRESS && amount <= MAX_SUPPLY && n.chains[g].totalMinted <= MAX_SUPPLY
    ensures var coin := n.chains[g];
            var balances := coin.ledger.balances[holder := coin.ledger.BalanceOf(holder) + amount];
            var minted := coin.(totalMinted := coin.totalMinted + amount,
                                ledger := coin.ledger.(balances := balances, supply := amount));
            Step(n, Attempt(Mint(g, holder, amount), true)) == Done(Update(n, g, minted))
  {
  }

  lemma SentAll(n: Network, g: ChainId, other: ChainId, holder: Address, amount: nat)
    requires g in n.chains && other in n.chains && holder != ZERO_ADDRESS
    requires n.chains[g].ledger.supply == amount == n.chains[g].ledger.BalanceOf(holder)
    ensures var coin := n.chains[g];
            var sent := coin.(ledger := coin.ledger.(balances := coin.ledger.balances[holder := 0], supply := 0));
            Step(n, Attempt(Send(g, other, holder, holder, holder, amount), true)) ==
            Done(Network(n.chains[g := sent], n.inFlight + [Message(other, holder, amount)]))
  {
  }

  lemma ReceivedOnly(n: Network, other: ChainId, holder: Address, amount: nat)
    requires other in n.chains && holder != ZERO_ADDRESS && n.inFlight == [Message(other, holder, amount)]
    requires n.chains[other].ledger.supply + amount <= VOTES_CAP
    ensures var coin := n.chains[other];
            var balances := coin.ledger.balances[holder := coin.ledger.BalanceOf(holder) + amount];
            var received := coin.(ledger := coin.ledger.(balances := balances, supply := coin.ledger.supply + amount));
            Step(n, Attempt(Receive(0), true)) == Done(Network(n.chains[other := received], []))
  {
    assert n.inFlight[..0] + n.inFlight[1..] == [];
  }

  function Bridging(g: ChainId, other: ChainId, holder: Address, amount: nat): seq<Attempt> {
    [Attempt(Mint(g, holder, amount), true),
     Attempt(Send(g, other, holder, holder, holder, amount), true),
     Attempt(Receive(0), true)]
  }

  lemma {:induction false} RunConcat(n: Network, first: seq<Attempt>, second: seq<Attempt>)
    ensures Run(n, first + second) == Run(Run(n, first), second)
    decreases |first|
  {
    if first == [] {
      assert first + second == second;
    } else {
      assert (first + second)[1..] == first[1..] + second;
      RunConcat(Next(n, first[0]), first[1..], second);
    }
  }

  /** The maximum bounds neither all chains together nor any one of them: minting it, bridging
      it away, minting it again and bridging that away too is allowed, with a single governance
      chain throughout, and leaves twice the maximum on the destination. */
  lemma MaximumExceeded(n: Network, g: ChainId, other: ChainId, holder: Address)
    requires Deployed(n) && GovernedBy(n, g) && n.chains[g].isGovernanceChain
    requires other in n.chains && other != g && holder != ZERO_ADDRESS
    ensures var plan := Bridging(g, other, holder, MAX_SUPPLY);
            var after := Run(n, plan + plan);
            && OnlyGoverns(plan + plan, g)
            && Circulating(after) == 2 * MAX_SUPPLY
            && other in after.chains && after.chains[other].ledger.supply == 2 * MAX_SUPPLY
  {
    var plan := Bridging(g, other, holder, MAX_SUPPLY);
    RunConcat(n, plan, plan);
    MintAndBridge(n, g, other, holder, MAX_SUPPLY);
    MintAndBridge(Run(n, plan), g, other, holder, MAX_SUPPLY);
    DeployedAccounted(n);
    CountIsGlobalSupply(n, plan + plan, g);
  }

  /** Were the flag handed to a second chain, a holder there could not burn bridged tokens: the
      balance covers the burn, the count of that chain does not. */
  lemma MovedFlagBlocksBurn(n: Network, g: ChainId, other: ChainId, holder: Address, amount: nat)
    requires Deployed(n) && GovernedBy(n, g) && n.chains[g].isGovernanceChain
    requires other in n.chains && other != g && holder != ZERO_ADDRESS && 0 < amount <= MAX_SUPPLY
    ensures var after := Run(n, Bridging(g, other, holder, amount) + [Attempt(SetGovernanceChain(other, true), true)]);
            && other in after.chains && after.chains[other].isGovernanceChain
            && after.chains[other].ledger.BalanceOf(holder) == amount
            && Step(after, Attempt(Burn(other, holder, amount), true)).Reverted?
  {
    var flag := Attempt(SetGovernanceChain(other, true), true);
    var middle := Run(n, Bridging(g, other, holder, amount));
    RunConcat(n, Bridging(g, other, holder, amount), [flag]);
    MintAndBridge(n, g, other, holder, amount);
    RunOne(middle, flag, []);
    assert [flag] + [] == [flag];
  }
}
