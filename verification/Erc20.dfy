/** The ledger of an ERC-20 token (EIP-20, "Methods") with the internal mint and burn of its
    implementation. Every operation reverts or returns the next ledger. */
module Erc20 {
  import opened Evm
  import opened Sums

  datatype Ledger = Ledger(balances: map<Address, nat>, allowances: map<(Address, Address), nat>, supply: nat) {

    function BalanceOf(a: Address): nat {
      Get(balances, a)
    }

    function Allowance(owner: Address, spender: Address): nat {
      Get(allowances, (owner, spender))
    }

    /** The balances add up to the total supply. */
    ghost predicate Balanced() {
      Sum(balances) == supply
    }

    function Transfer(from: Address, to: Address, amount: nat): Tx<Ledger> {
      var _ :- Require(from != ZERO_ADDRESS && to != ZERO_ADDRESS);
      var less :- Sub(BalanceOf(from), amount);
      var debited := balances[from := less];
      Done(this.(balances := debited[to := Get(debited, to) + amount]))
    }

    function Mint(to: Address, amount: nat, cap: nat): Tx<Ledger> {
      var _ :- Require(to != ZERO_ADDRESS && supply + amount <= cap);
      Done(this.(supply := supply + amount, balances := balances[to := BalanceOf(to) + amount]))
    }

    function Burn(from: Address, amount: nat): Tx<Ledger> {
      var _ :- Require(from != ZERO_ADDRESS && amount <= BalanceOf(from) && amount <= supply);
      Done(this.(balances := balances[from := BalanceOf(from) - amount], supply := supply - amount))
    }

    function Approve(owner: Address, spender: Address, amount: nat): Tx<Ledger> {
      var _ :- Require(owner != ZERO_ADDRESS && spender != ZERO_ADDRESS);
      Done(this.(allowances := allowances[(owner, spender) := amount]))
    }

    /** An allowance of UINT_MAX is unlimited and is not reduced. */
    function SpendAllowance(owner: Address, spender: Address, amount: nat): Tx<Ledger> {
      if Allowance(owner, spender) == UINT_MAX then Done(this)
      else
        var left :- Sub(Allowance(owner, spender), amount);
        Approve(owner, spender, left)
    }

    function TransferFrom(spender: Address, from: Address, to: Address, amount: nat): Tx<Ledger> {
      var spent :- SpendAllowance(from, spender, amount);
      spent.Transfer(from, to, amount)
    }

    function BurnFrom(spender: Address, from: Address, amount: nat): Tx<Ledger> {
      var spent :- SpendAllowance(from, spender, amount);
      spent.Burn(from, amount)
    }
  }

  const EMPTY: Ledger := Ledger(map[], map[], 0)

  /** `amount` when the account is the one named, else nothing. */
  function At(account: Address, named: Address, amount: int): int {
    if account == named then amount else 0
  }

  /** Exactly when the operations go through. An unlimited allowance is not written, so it needs no
      check of the spender. */
  lemma Domains(l: Ledger, spender: Address, from: Address, to: Address, amount: nat, cap: nat)
    ensures l.Transfer(from, to, amount).Done? <==> ZERO_ADDRESS !in {from, to} && amount <= l.BalanceOf(from)
    ensures l.Mint(to, amount, cap).Done? <==> to != ZERO_ADDRESS && l.supply + amount <= cap
    ensures l.Approve(from, spender, amount).Done? <==> ZERO_ADDRESS !in {from, spender}
    ensures l.TransferFrom(spender, from, to, amount).Done? <==>
            ZERO_ADDRESS !in {from, to} && amount <= l.BalanceOf(from) && MayWithdraw(l, spender, from, amount)
    ensures l.BurnFrom(spender, from, amount).Done? <==>
            && from != ZERO_ADDRESS && amount <= l.BalanceOf(from) && amount <= l.supply
            && MayWithdraw(l, spender, from, amount)
  {
  }

  ghost predicate MayWithdraw(l: Ledger, spender: Address, owner: Address, amount: nat) {
    l.Allowance(owner, spender) == UINT_MAX || (spender != ZERO_ADDRESS && amount <= l.Allowance(owner, spender))
  }

  /** What the operations do to any one allowance. */
  lemma AllowanceMoves(l: Ledger, spender: Address, from: Address, to: Address, amount: nat, o: Address, s: Address)
    ensures l.Approve(from, spender, amount).Done? ==>
              var after := l.Approve(from, spender, amount).value;
              && after.Allowance(o, s) == (if (o, s) == (from, spender) then amount else l.Allowance(o, s))
              && after.balances == l.balances && after.supply == l.supply
    ensures l.TransferFrom(spender, from, to, amount).Done? ==>
              l.TransferFrom(spender, from, to, amount).value.Allowance(o, s) ==
              AllowanceLeft(l, spender, from, amount, o, s)
    ensures l.BurnFrom(spender, from, amount).Done? ==>
              l.BurnFrom(spender, from, amount).value.Allowance(o, s) ==
              AllowanceLeft(l, spender, from, amount, o, s)
  {
  }

  /** What a withdrawal leaves of an allowance: an unlimited one stays as it is. */
  function AllowanceLeft(l: Ledger, spender: Address, from: Address, amount: nat, o: Address, s: Address): int {
    if (o, s) == (from, spender) && l.Allowance(o, s) != UINT_MAX then l.Allowance(o, s) - amount else l.Allowance(o, s)
  }

  /** What each operation does to any one account, whichever accounts coincide. */
  lemma TransferMoves(l: Ledger, from: Address, to: Address, amount: nat, account: Address)
    requires l.Transfer(from, to, amount).Done?
    ensures var after := l.Transfer(from, to, amount).value;
            && after.BalanceOf(account) == l.BalanceOf(account) - At(account, from, amount) + At(account, to, amount)
            && after.supply == l.supply && after.allowances == l.allowances
  {
  }

  lemma TransferFromMoves(l: Ledger, spender: Address, from: Address, to: Address, amount: nat, account: Address)
    requires l.TransferFrom(spender, from, to, amount).Done?
    ensures var after := l.TransferFrom(spender, from, to, amount).value;
            && after.BalanceOf(account) == l.BalanceOf(account) - At(account, from, amount) + At(account, to, amount)
            && after.supply == l.supply
            && after.Allowance(from, spender) ==
               l.Allowance(from, spender) - (if l.Allowance(from, spender) == UINT_MAX then 0 else amount)
            && l.BalanceOf(from) >= amount
            && (l.Allowance(from, spender) >= amount || l.Allowance(from, spender) == UINT_MAX)
  {
  }

  lemma MintMoves(l: Ledger, to: Address, amount: nat, cap: nat, account: Address)
    requires l.Mint(to, amount, cap).Done?
    ensures var after := l.Mint(to, amount, cap).value;
            && after.BalanceOf(account) == l.BalanceOf(account) + At(account, to, amount)
            && after.supply == l.supply + amount <= cap && after.allowances == l.allowances
  {
  }

  lemma BurnMoves(l: Ledger, from: Address, amount: nat, account: Address)
    requires l.Burn(from, amount).Done?
    ensures var after := l.Burn(from, amount).value;
            && after.BalanceOf(account) == l.BalanceOf(account) - At(account, from, amount)
            && after.supply == l.supply - amount && after.allowances == l.allowances
  {
  }

  lemma TransferBalanced(l: Ledger, from: Address, to: Address, amount: nat)
    requires l.Balanced() && l.Transfer(from, to, amount).Done?
    ensures l.Transfer(from, to, amount).value.Balanced()
  {
    var debited := l.balances[from := l.BalanceOf(from) - amount];
    SumUpdate(l.balances, from, l.BalanceOf(from) - amount);
    SumUpdate(debited, to, Get(debited, to) + amount);
  }

  lemma MintBalanced(l: Ledger, to: Address, amount: nat, cap: nat)
    requires l.Balanced() && l.Mint(to, amount, cap).Done?
    ensures l.Mint(to, amount, cap).value.Balanced()
  {
    SumUpdate(l.balances, to, l.BalanceOf(to) + amount);
  }

  lemma BurnBalanced(l: Ledger, from: Address, amount: nat)
    requires l.Balanced() && l.Burn(from, amount).Done?
    ensures l.Burn(from, amount).value.Balanced()
  {
    SumUpdate(l.balances, from, l.BalanceOf(from) - amount);
  }

  /** In a balanced ledger a burn needs nothing but the holder's balance: the total supply
      always covers it. */
  lemma BurnDomain(l: Ledger, from: Address, amount: nat)
    requires l.Balanced()
    ensures l.Burn(from, amount).Done? <==> from != ZERO_ADDRESS && amount <= l.BalanceOf(from)
  {
    SumUpdate(l.balances, from, 0);
  }
}
