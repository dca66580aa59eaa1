/** contracts/Governance/Sweepr.sol: the governance token of one chain, with its own count of
    what was minted there and its list of destination chains. */
module Sweepr {
  import opened Evm
  import opened Erc20
  import Registry = ChainRegistry

  const MAX_SUPPLY: nat := 10_000_000 * 1_000_000_000_000_000_000

  /** The largest supply the inherited voting ledger accepts, 2^224 - 1. */
  const VOTES_CAP: nat := 0xffff_ffff_ffff_ffff_ffff_ffff_ffff_ffff_ffff_ffff_ffff_ffff_ffff_ffff

  /** The token state of one chain. In every operation `approved` is the verdict of the
      transfer approver, which may refuse any movement. */
  datatype Coin = Coin(isGovernanceChain: bool, totalMinted: nat, ledger: Ledger) {

    function Mint(receiver: Address, amount: nat, approved: bool): Tx<Coin> {
      var _ :- Require(isGovernanceChain);
      var total :- Add(ledger.supply, amount);
      var _ :- Require(total <= MAX_SUPPLY && approved);
      var minted :- ledger.Mint(receiver, amount, VOTES_CAP);
      var count :- Add(totalMinted, amount);
      Done(this.(ledger := minted, totalMinted := count))
    }

    function Burn(sender: Address, amount: nat, approved: bool): Tx<Coin> {
      var _ :- Require(isGovernanceChain && approved);
      var burnt :- ledger.Burn(sender, amount);
      var count :- Sub(totalMinted, amount);
      Done(this.(ledger := burnt, totalMinted := count))
    }

    function BurnFrom(sender: Address, account: Address, amount: nat, approved: bool): Tx<Coin> {
      var _ :- Require(isGovernanceChain && approved);
      var burnt :- ledger.BurnFrom(sender, account, amount);
      var count :- Sub(totalMinted, amount);
      Done(this.(ledger := burnt, totalMinted := count))
    }

    function Transfer(from: Address, to: Address, amount: nat, approved: bool): Tx<Coin> {
      var _ :- Require(approved);
      var moved :- ledger.Transfer(from, to, amount);
      Done(this.(ledger := moved))
    }

    function TransferFrom(spender: Address, from: Address, to: Address, amount: nat, approved: bool): Tx<Coin> {
      var _ :- Require(approved);
      var moved :- ledger.TransferFrom(spender, from, to, amount);
      Done(this.(ledger := moved))
    }

    function Approve(owner: Address, spender: Address, amount: nat): Tx<Coin> {
      var next :- ledger.Approve(owner, spender, amount);
      Done(this.(ledger := next))
    }

    /** Bridging out burns at the source; a spender other than the holder needs an allowance. */
    function DebitFrom(sender: Address, from: Address, amount: nat, approved: bool): Tx<Coin> {
      var _ :- Require(approved);
      var burnt :- if sender == from then ledger.Burn(from, amount) else ledger.BurnFrom(sender, from, amount);
      Done(this.(ledger := burnt))
    }

    /** Bridging in mints at the destination. */
    function CreditTo(to: Address, amount: nat, approved: bool): Tx<Coin> {
      var _ :- Require(approved);
      var minted :- ledger.Mint(to, amount, VOTES_CAP);
      Done(this.(ledger := minted))
    }
  }

  class SweeprCoin {
    var isGovernanceChain: bool
    var totalMinted: nat
    var ledger: Ledger
    var chainIds: seq<Registry.ChainId>
    var chains: map<Registry.ChainId, Address>

    constructor (isGovernance: bool)
      ensures State() == Coin(isGovernance, 0, EMPTY)
      ensures Listed() == Registry.EMPTY
    {
      isGovernanceChain, totalMinted, ledger := isGovernance, 0, EMPTY;
      chainIds, chains := [], map[];
    }

    function State(): Coin
      reads this
    {
      Coin(isGovernanceChain, totalMinted, ledger)
    }

    function Listed(): Registry.Registry
      reads this
    {
      Registry.Registry(chainIds, chains)
    }

    method Mint(receiver: Address, amount: nat, approved: bool) returns (r: Tx<()>)
      modifies this`ledger, this`totalMinted
      ensures match old(State()).Mint(receiver, amount, approved)
              case Done(next) => r.Done? && State() == next
              case Reverted => r.Reverted? && State() == old(State())
    {
      if !isGovernanceChain {
        return Reverted;
      }
      var total :- Add(ledger.supply, amount);
      if total > MAX_SUPPLY || !approved {
        return Reverted;
      }
      var minted :- ledger.Mint(receiver, amount, VOTES_CAP);
      var count :- Add(totalMinted, amount);
      ledger, totalMinted := minted, count;
      return Done(());
    }

    method SetGovernanceChain(isGovernance: bool)
      modifies this`isGovernanceChain
      ensures State() == old(State()).(isGovernanceChain := isGovernance)
    {
      isGovernanceChain := isGovernance;
    }

    method Burn(sender: Address, amount: nat, approved: bool) returns (r: Tx<()>)
      modifies this`ledger, this`totalMinted
      ensures match old(State()).Burn(sender, amount, approved)
              case Done(next) => r.Done? && State() == next
              case Reverted => r.Reverted? && State() == old(State())
    {
      if !isGovernanceChain || !approved {
        return Reverted;
      }
      var burnt :- ledger.Burn(sender, amount);
      var count :- Sub(totalMinted, amount);
      ledger, totalMinted := burnt, count;
      return Done(());
    }

    method BurnFrom(sender: Address, account: Address, amount: nat, approved: bool) returns (r: Tx<()>)
      modifies this`ledger, this`totalMinted
      ensures match old(State()).BurnFrom(sender, account, amount, approved)
              case Done(next) => r.Done? && State() == next
              case Reverted => r.Reverted? && State() == old(State())
    {
      if !isGovernanceChain || !approved {
        return Reverted;
      }
      var burnt :- ledger.BurnFrom(sender, account, amount);
      var count :- Sub(totalMinted, amount);
      ledger, totalMinted := burnt, count;
      return Done(());
    }

    method TransferFrom(spender: Address, from: Address, to: Address, amount: nat, approved: bool) returns (r: Tx<()>)
      modifies this`ledger
      ensures match old(State()).TransferFrom(spender, from, to, amount, approved)
              case Done(next) => r.Done? && State() == next
              case Reverted => r.Reverted? && State() == old(State())
    {
      if !approved {
        return Reverted;
      }
      var moved :- ledger.TransferFrom(spender, from, to, amount);
      ledger := moved;
      return Done(());
    }

    method Transfer(from: Address, to: Address, amount: nat, approved: bool) returns (r: Tx<()>)
      modifies this`ledger
      ensures match old(State()).Transfer(from, to, amount, approved)
              case Done(next) => r.Done? && State() == next
              case Reverted => r.Reverted? && State() == old(State())
    {
      if !approved {
        return Reverted;
      }
      var moved :- ledger.Transfer(from, to, amount);
      ledger := moved;
      return Done(());
    }

    /** The first half of a bridge transfer: it burns, and leaves the count alone. */
    method DebitFrom(sender: Address, from: Address, amount: nat, approved: bool) returns (r: Tx<()>)
      modifies this`ledger
      ensures match old(State()).DebitFrom(sender, from, amount, approved)
              case Done(next) => r.Done? && State() == next
              case Reverted => r.Reverted? && State() == old(State())
    {
      if !approved {
        return Reverted;
      }
      var spent := ledger;
      if sender != from {
        spent :- spent.SpendAllowance(from, sender, amount);
      }
      var burnt :- spent.Burn(from, amount);
      ledger := burnt;
      return Done(());
    }

    /** The second half: it mints, and leaves the count alone. */
    method CreditTo(to: Address, amount: nat, approved: bool) returns (r: Tx<()>)
      modifies this`ledger
      ensures match old(State()).CreditTo(to, amount, approved)
              case Done(next) => r.Done? && State() == next
              case Reverted => r.Reverted? && State() == old(State())
    {
      if !approved {
        return Reverted;
      }
      var minted :- ledger.Mint(to, amount, VOTES_CAP);
      ledger := minted;
      return Done(());
    }

    function ChainCount(): nat
      reads this
    {
      |chainIds|
    }

    function GetChainId(index: nat): Tx<Registry.ChainId>
      reads this
    {
      if index < |chainIds| then Done(chainIds[index]) else Reverted
    }

    function GetBalancerWithChainId(chainId: Registry.ChainId): Address
      reads this
    {
      Listed().BalancerOf(chainId)
    }

    method AddChain(dstChainId: Registry.ChainId, balancer: Address)
      modifies this`chainIds, this`chains
      ensures Listed() == old(Listed()).AddChain(dstChainId, balancer)
    {
      chainIds := chainIds + [dstChainId];
      chains := chains[dstChainId := balancer];
    }

    /** The last entry takes the place of the removed one. */
    method RemoveChain(itemIndex: nat) returns (r: Tx<()>)
      modifies this`chainIds, this`chains
      ensures match old(Listed()).RemoveChain(itemIndex)
              case Done(next) => r.Done? && Listed() == next
              case Reverted => r.Reverted? && Listed() == old(Listed())
    {
      if itemIndex >= |chainIds| {
        return Reverted;
      }
      var removedChainId := chainIds[itemIndex];
      chains := chains - {removedChainId};
      chainIds := chainIds[itemIndex := chainIds[|chainIds| - 1]];
      chainIds := chainIds[..|chainIds| - 1];
      return Done(());
    }
  }
}
