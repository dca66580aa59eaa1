/** The broadcast of contracts/Balancer/Balancer.sol: a new rate is applied at home and sent to
    every listed chain, each message paid from the contract's ETH, and what is left of the ETH
    goes back to the caller. Anything that fails undoes everything. */
module RateBroadcast {
  import opened Evm
  import opened Sums
  import opened ChainRegistry
  import opened SweepRates
  import Sweepr

  /** A message handed to the LayerZero endpoint with its fee. */
  datatype Packet = Packet(destination: ChainId, payload: Update, fee: nat)

  /** What the balancer learns from outside: which remote it trusts, what the endpoint charges. */
  datatype Endpoint = Endpoint(trusted: (ChainId, Address) -> bool, fee: (ChainId, Update) -> nat)

  /** One packet for every entry of the registry, in its order. */
  function Packets(r: Registry, e: Endpoint, u: Update): (packets: seq<Packet>)
    ensures |packets| == |r.ids|
    ensures forall i :: 0 <= i < |packets| ==> packets[i] == Packet(r.ids[i], u, e.fee(r.ids[i], u))
  {
    seq(|r.ids|, i requires 0 <= i < |r.ids| => Packet(r.ids[i], u, e.fee(r.ids[i], u)))
  }

  function Fees(packets: seq<Packet>): seq<nat> {
    seq(|packets|, i requires 0 <= i < |packets| => packets[i].fee)
  }

  ghost predicate AllTrusted(r: Registry, e: Endpoint) {
    forall i :: 0 <= i < |r.ids| ==> e.trusted(r.ids[i], r.BalancerOf(r.ids[i]))
  }

  /** A broadcast goes through exactly when every listed chain is trusted and the ETH covers the
      fees of all messages together. */
  ghost predicate CanBroadcast(r: Registry, e: Endpoint, u: Update, eth: nat) {
    AllTrusted(r, e) && Total(Fees(Packets(r, e, u))) <= eth
  }

  lemma FeesAppend(packets: seq<Packet>, p: Packet)
    ensures Total(Fees(packets + [p])) == Total(Fees(packets)) + p.fee
  {
    assert Fees(packets + [p]) == Fees(packets) + [p.fee];
    TotalAppend(Fees(packets), [p.fee]);
    assert [p.fee][1..] == [];
  }

  /** The fees of the first messages never exceed the fees of all. */
  lemma FeesPrefix(packets: seq<Packet>, i: nat)
    requires i <= |packets|
    ensures Total(Fees(packets[..i])) <= Total(Fees(packets))
  {
    assert packets == packets[..i] + packets[i..];
    assert Fees(packets) == Fees(packets[..i]) + Fees(packets[i..]);
    TotalAppend(Fees(packets[..i]), Fees(packets[i..]));
  }

  /** Over a proper registry a broadcast is one over its finite map: it goes through exactly when
      every registered chain is trusted at its balancer and the ETH covers one fee for each, in
      whatever order the chains are listed. */
  lemma ProperBroadcast(r: Registry, e: Endpoint, u: Update, eth: nat)
    requires Proper(r)
    ensures CanBroadcast(r, e, u, eth) <==>
            && (forall id :: id in r.addresses ==> e.trusted(id, r.addresses[id]))
            && Sum(FeeOf(r.addresses.Keys, e, u)) <= eth
  {
    ListedFees(r.ids, e, u);
    assert Packets(r, e, u) == Packets(Registry(r.ids, map[]), e, u);
    assert Members(r.ids) == r.addresses.Keys;
    if forall id :: id in r.addresses ==> e.trusted(id, r.addresses[id]) {
      assert AllTrusted(r, e);
    }
    if AllTrusted(r, e) {
      forall id | id in r.addresses ensures e.trusted(id, r.addresses[id]) {
        var i :| 0 <= i < |r.ids| && r.ids[i] == id;
        assert e.trusted(r.ids[i], r.BalancerOf(r.ids[i]));
      }
    }
  }

  function FeeOf(ids: set<ChainId>, e: Endpoint, u: Update): map<ChainId, nat> {
    map id | id in ids :: e.fee(id, u)
  }

  function Members(ids: seq<ChainId>): set<ChainId> {
    set id | id in ids
  }

  function ListFees(ids: seq<ChainId>, e: Endpoint, u: Update): seq<nat> {
    Fees(Packets(Registry(ids, map[]), e, u))
  }

  lemma {:induction false} ListedFees(ids: seq<ChainId>, e: Endpoint, u: Update)
    requires forall i, j :: 0 <= i < j < |ids| ==> ids[i] != ids[j]
    ensures Total(ListFees(ids, e, u)) == Sum(FeeOf(Members(ids), e, u))
  {
    if ids == [] {
      assert FeeOf(Members(ids), e, u) == map[];
    } else {
      var n := |ids| - 1;
      ListedFees(ids[..n], e, u);
      assert ids == ids[..n] + [ids[n]];
      MemberFees(ids[..n], ids[n], e, u);
      ListFeesAppend(ids[..n], ids[n], e, u);
    }
  }

  lemma MemberFees(ids: seq<ChainId>, last: ChainId, e: Endpoint, u: Update)
    requires last !in ids
    ensures Sum(FeeOf(Members(ids + [last]), e, u)) == Sum(FeeOf(Members(ids), e, u)) + e.fee(last, u)
  {
    assert FeeOf(Members(ids + [last]), e, u) == FeeOf(Members(ids), e, u)[last := e.fee(last, u)];
    SumUpdate(FeeOf(Members(ids), e, u), last, e.fee(last, u));
  }

  lemma ListFeesAppend(ids: seq<ChainId>, last: ChainId, e: Endpoint, u: Update)
    ensures Total(ListFees(ids + [last], e, u)) == Total(ListFees(ids, e, u)) + e.fee(last, u)
  {
    var packets, packet := Packets(Registry(ids, map[]), e, u), Packet(last, u, e.fee(last, u));
    assert Packets(Registry(ids + [last], map[]), e, u) == packets + [packet];
    FeesAppend(packets, packet);
  }

  /** A chain left listed without a balancer stops every broadcast, whatever the ETH, unless the
      zero address is trusted on that chain. */
  lemma LostChainStopsBroadcast(r: Registry, id: ChainId, e: Endpoint, u: Update, eth: nat)
    requires id in r.ids && r.BalancerOf(id) == ZERO_ADDRESS
    ensures CanBroadcast(r, e, u, eth) ==> e.trusted(id, ZERO_ADDRESS)
  {
    var i :| 0 <= i < |r.ids| && r.ids[i] == id;
    assert AllTrusted(r, e) ==> e.trusted(r.ids[i], r.BalancerOf(r.ids[i]));
  }

  /** Starting from a registry whose chains are all trusted, a removal leaves them so exactly when
      the removed chain was listed once, unless the zero address is trusted on that chain. */
  lemma RemovalKeepsTrust(r: Registry, index: nat, e: Endpoint)
    requires index < |r.ids| && AllTrusted(r, e)
    ensures AllTrusted(r.RemoveChain(index).value, e) <==>
            multiset(r.ids)[r.ids[index]] == 1 || e.trusted(r.ids[index], ZERO_ADDRESS)
  {
    var after := r.RemoveChain(index).value;
    var id := r.ids[index];
    assert id in multiset(r.ids);
    StaysListed(r.ids, index, id);
    if id in after.ids && !e.trusted(id, ZERO_ADDRESS) {
      var i :| 0 <= i < |after.ids| && after.ids[i] == id;
      assert !e.trusted(after.ids[i], after.BalancerOf(after.ids[i]));
    } else {
      forall i | 0 <= i < |after.ids| ensures e.trusted(after.ids[i], after.BalancerOf(after.ids[i])) {
        StillTrusted(r, index, e, after.ids[i]);
      }
    }
  }

  /** So a broadcast after a removal goes through exactly when, beside that, the ETH covers it. */
  lemma RemovalStopsBroadcast(r: Registry, index: nat, e: Endpoint, u: Update, eth: nat)
    requires index < |r.ids| && AllTrusted(r, e)
    ensures var after := r.RemoveChain(index).value;
            CanBroadcast(after, e, u, eth) <==>
            && Total(Fees(Packets(after, e, u))) <= eth
            && (multiset(r.ids)[r.ids[index]] == 1 || e.trusted(r.ids[index], ZERO_ADDRESS))
  {
    RemovalKeepsTrust(r, index, e);
  }

  lemma StillTrusted(r: Registry, index: nat, e: Endpoint, x: ChainId)
    requires index < |r.ids| && AllTrusted(r, e) && x in r.RemoveChain(index).value.ids
    requires r.ids[index] in r.RemoveChain(index).value.ids ==> e.trusted(r.ids[index], ZERO_ADDRESS)
    ensures e.trusted(x, r.RemoveChain(index).value.BalancerOf(x))
  {
    StaysListed(r.ids, index, x);
    var j :| 0 <= j < |r.ids| && r.ids[j] == x;
    assert e.trusted(r.ids[j], r.BalancerOf(r.ids[j]));
  }

  class Balancer {
    var sweepr: Sweepr.SweeprCoin?
    var rates: Rates
    var eth: nat
    var outbox: seq<Packet>

    constructor (rates: Rates)
      ensures sweepr == null && this.rates == rates && eth == 0 && outbox == []
    {
      sweepr, this.rates, eth, outbox := null, rates, 0, [];
    }

    /** Checks and pays message by message; a failure half-way restores what was spent. */
    method SendInterestRate(coin: Sweepr.SweeprCoin, e: Endpoint, u: Update) returns (r: Tx<()>)
      modifies this`eth, this`outbox
      ensures r.Done? <==> CanBroadcast(coin.Listed(), e, u, old(eth))
      ensures r.Done? ==> outbox == old(outbox) + Packets(coin.Listed(), e, u)
                          && eth == old(eth) - Total(Fees(Packets(coin.Listed(), e, u)))
      ensures r.Reverted? ==> outbox == old(outbox) && eth == old(eth)
    {
      var listed, eth0, outbox0 := coin.Listed(), eth, outbox;
      ghost var packets := Packets(listed, e, u);
      var chainCount := coin.ChainCount();
      var i := 0;
      while i < chainCount
        invariant 0 <= i <= chainCount == |packets|
        invariant outbox == old(outbox) + packets[..i]
        invariant Total(Fees(packets[..i])) <= old(eth) && eth == old(eth) - Total(Fees(packets[..i]))
        invariant forall k :: 0 <= k < i ==> e.trusted(listed.ids[k], listed.BalancerOf(listed.ids[k]))
      {
        var dstChainId := coin.GetChainId(i).value;
        assert packets[..i + 1] == packets[..i] + [packets[i]];
        FeesAppend(packets[..i], packets[i]);
        FeesPrefix(packets, i + 1);
        var messageFee := e.fee(dstChainId, u);
        if !e.trusted(dstChainId, coin.GetBalancerWithChainId(dstChainId)) || eth < messageFee {
          assert !CanBroadcast(listed, e, u, old(eth));
          outbox, eth := outbox0, eth0;
          return Reverted;
        }
        outbox := outbox + [Packet(dstChainId, u, messageFee)];
        eth := eth - messageFee;
        i := i + 1;
      }
      assert packets[..i] == packets;
      return Done(());
    }

    /** Applies the rate at home and broadcasts it, when the token is set and this is the
        governance chain; then all ETH left goes to the caller, who may refuse it. */
    method SendNewInterestRate(e: Endpoint, u: Update, now: nat, value: nat, callerAccepts: bool) returns (r: Tx<nat>)
      modifies this
      ensures sweepr == old(sweepr)
      ensures var sends := sweepr != null && sweepr.isGovernanceChain;
              var budget := old(eth) + value;
              if callerAccepts
                 && (sends ==> old(rates).Refresh(u, now).Done? && CanBroadcast(sweepr.Listed(), e, u, budget))
              then
                var packets := if sends then Packets(sweepr.Listed(), e, u) else [];
                && outbox == old(outbox) + packets
                && rates == (if sends then old(rates).Refresh(u, now).value else old(rates))
                && eth == 0
                && r.Done? && Total(Fees(packets)) + r.value == budget
              else
                r == Reverted && unchanged(this)
    {
      var eth0, rates0, outbox0 := eth, rates, outbox;
      eth := eth + value;
      if sweepr != null && sweepr.isGovernanceChain {
        var refreshed := rates.Refresh(u, now);
        if refreshed.Reverted? {
          eth := eth0;
          return Reverted;
        }
        rates := refreshed.value;
        var sent := SendInterestRate(sweepr, e, u);
        if sent.Reverted? {
          eth, rates := eth0, rates0;
          return Reverted;
        }
      }
      var ethBalance := eth;
      if !callerAccepts {
        eth, rates, outbox := eth0, rates0, outbox0;
        return Reverted;
      }
      eth := 0;
      return Done(ethBalance);
    }
  }
}
