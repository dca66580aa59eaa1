/** The destination chains of contracts/Governance/Sweepr.sol: an array of chain ids, and a
    mapping from chain id to balancer that reads as the zero address where nothing is stored. */
module ChainRegistry {
  import opened Evm

  type ChainId = nat

  datatype Registry = Registry(ids: seq<ChainId>, addresses: map<ChainId, Address>) {

    /** Chain ids may be added twice: nothing checks it. */
    function AddChain(id: ChainId, balancer: Address): Registry {
      Registry(ids + [id], addresses[id := balancer])
    }

    function RemoveChain(index: nat): Tx<Registry> {
      if index >= |ids| then Reverted
      else
        var moved := ids[index := ids[|ids| - 1]];
        Done(Registry(moved[..|ids| - 1], addresses - {ids[index]}))
    }

    function BalancerOf(id: ChainId): Address {
      if id in addresses then addresses[id] else ZERO_ADDRESS
    }
  }

  const EMPTY: Registry := Registry([], map[])

  /** The chains a broadcast goes to, in order. */
  function Destinations(r: Registry): (d: seq<(ChainId, Address)>)
    ensures |d| == |r.ids|
    ensures forall i :: 0 <= i < |d| ==> d[i] == (r.ids[i], r.BalancerOf(r.ids[i]))
  {
    seq(|r.ids|, i requires 0 <= i < |r.ids| => (r.ids[i], r.BalancerOf(r.ids[i])))
  }

  /** Adding puts the id last, also when it is listed already, and gives it the new balancer. */
  lemma AddExact(r: Registry, id: ChainId, balancer: Address, i: nat, x: ChainId)
    requires i <= |r.ids|
    ensures var after := r.AddChain(id, balancer);
            && |after.ids| == |r.ids| + 1
            && after.ids[i] == (if i < |r.ids| then r.ids[i] else id)
            && after.BalancerOf(x) == (if x == id then balancer else r.BalancerOf(x))
  {
  }

  /** Removing moves the last id into the gap and keeps all others in their places; only the
      removed chain loses its balancer. */
  lemma RemoveExact(r: Registry, index: nat, i: nat, x: ChainId)
    requires index < |r.ids| && i < |r.ids| - 1
    ensures r.RemoveChain(index).Done?
    ensures var after := r.RemoveChain(index).value;
            && |after.ids| == |r.ids| - 1
            && after.ids[i] == r.ids[if i == index then |r.ids| - 1 else i]
            && after.BalancerOf(x) == (if x == r.ids[index] then ZERO_ADDRESS else r.BalancerOf(x))
  {
  }

  /** Whatever is stored is listed. */
  ghost predicate StoredIsListed(r: Registry) {
    forall id :: id in r.addresses ==> id in r.ids
  }

  /** Whatever is listed has a balancer, so that a broadcast can reach it. */
  ghost predicate Reachable(r: Registry) {
    forall i :: 0 <= i < |r.ids| ==> r.BalancerOf(r.ids[i]) != ZERO_ADDRESS
  }

  /** The array lists the keys of the mapping, each once, and no address is zero. */
  ghost predicate Proper(r: Registry) {
    && (forall i, j :: 0 <= i < j < |r.ids| ==> r.ids[i] != r.ids[j])
    && (forall id :: id in r.addresses <==> id in r.ids)
    && Reachable(r)
  }

  /** Swap-remove takes out exactly one occurrence. */
  lemma SwapRemove(ids: seq<ChainId>, index: nat)
    requires index < |ids|
    ensures var rest := ids[index := ids[|ids| - 1]][..|ids| - 1];
            multiset(rest) == multiset(ids) - multiset{ids[index]}
  {
    var n := |ids| - 1;
    var moved := ids[index := ids[n]];
    assert ids == ids[..n] + [ids[n]];
    assert moved == moved[..n] + [ids[n]];
    assert multiset(moved) == multiset(ids) - multiset{ids[index]} + multiset{ids[n]};
  }

  /** A finite map from chain to balancer is all there is to a proper registry: adding a fresh
      chain is writing an entry. */
  lemma AddRefinesMap(r: Registry, id: ChainId, balancer: Address)
    requires Proper(r) && id !in r.addresses && balancer != ZERO_ADDRESS
    ensures Proper(r.AddChain(id, balancer))
    ensures r.AddChain(id, balancer).addresses == r.addresses[id := balancer]
  {
  }

  /** Removing a listed chain is deleting its entry, and nothing else is refused. */
  lemma RemoveRefinesMap(r: Registry, index: nat)
    requires Proper(r)
    ensures r.RemoveChain(index).Done? <==> index < |r.ids|
    ensures index < |r.ids| ==>
              var after := r.RemoveChain(index).value;
              && r.ids[index] in r.addresses
              && after.addresses == r.addresses - {r.ids[index]}
              && Proper(after)
  {
    if index < |r.ids| {
      var after := r.RemoveChain(index).value;
      var n := |r.ids| - 1;
      assert forall i :: 0 <= i < n ==> after.ids[i] == r.ids[if i == index then n else i];
      forall id ensures id in after.addresses <==> id in after.ids {
        if id in after.addresses {
          var k :| 0 <= k <= n && r.ids[k] == id;
          assert k == n ==> after.ids[index] == id;
          assert k < n ==> after.ids[k] == id;
        }
      }
    }
  }

  /** In a sequence without repetition every member occurs once. */
  lemma {:induction false} DistinctCounts<T>(ids: seq<T>)
    requires forall i, j :: 0 <= i < j < |ids| ==> ids[i] != ids[j]
    ensures forall id :: id in ids ==> multiset(ids)[id] == 1
  {
    if ids == [] {
    } else {
      var n := |ids| - 1;
      DistinctCounts(ids[..n]);
      assert ids == ids[..n] + [ids[n]];
    }
  }

  /** A broadcast over a proper registry reaches each registered chain exactly once, at its
      balancer, and nothing else. */
  lemma ReachesEachOnce(r: Registry, id: ChainId, balancer: Address)
    requires Proper(r)
    ensures multiset(Destinations(r))[(id, balancer)] ==
            if id in r.addresses && r.addresses[id] == balancer then 1 else 0
  {
    var d := Destinations(r);
    DistinctCounts(d);
    assert (id, balancer) in d <==> id in r.addresses && r.addresses[id] == balancer by {
      if id in r.addresses {
        var i :| 0 <= i < |r.ids| && r.ids[i] == id;
        assert d[i] == (id, r.addresses[id]);
      }
    }
  }

  /** What stays listed: everything else, and the removed chain when it was listed again. */
  lemma StaysListed(ids: seq<ChainId>, index: nat, x: ChainId)
    requires index < |ids|
    ensures x in ids[index := ids[|ids| - 1]][..|ids| - 1] <==>
            if x == ids[index] then multiset(ids)[x] > 1 else x in ids
  {
    SwapRemove(ids, index);
    var rest := ids[index := ids[|ids| - 1]][..|ids| - 1];
    assert x in rest <==> x in multiset(rest);
    assert x in ids <==> x in multiset(ids);
  }

  /** Removing a listing leaves every other listing with its balancer; it leaves an unreachable
      chain behind exactly when the removed chain was listed more than once. */
  lemma RemovalKeepsReach(r: Registry, index: nat)
    requires Reachable(r) && index < |r.ids|
    ensures Reachable(r.RemoveChain(index).value) <==> multiset(r.ids)[r.ids[index]] == 1
  {
    var id := r.ids[index];
    var after := r.RemoveChain(index).value;
    assert id in multiset(r.ids);
    StaysListed(r.ids, index, id);
    if id in after.ids {
      var i :| 0 <= i < |after.ids| && after.ids[i] == id;
      assert after.BalancerOf(after.ids[i]) == ZERO_ADDRESS;
    } else {
      forall i | 0 <= i < |after.ids| ensures after.BalancerOf(after.ids[i]) != ZERO_ADDRESS {
        StaysListed(r.ids, index, after.ids[i]);
        var j :| 0 <= j < |r.ids| && r.ids[j] == after.ids[i];
        assert r.BalancerOf(r.ids[j]) != ZERO_ADDRESS;
      }
    }
  }

  datatype Edit = Added(id: ChainId, balancer: Address) | Removed(index: nat)

  /** An owner's call: a revert leaves the registry as it was. */
  function Edited(r: Registry, e: Edit): Registry {
    match e
    case Added(id, balancer) => r.AddChain(id, balancer)
    case Removed(index) =>
      var after := r.RemoveChain(index);
      if after.Done? then after.value else r
  }

  function Run(r: Registry, edits: seq<Edit>): Registry
    decreases |edits|
  {
    if edits == [] then r else Run(Edited(r, edits[0]), edits[1..])
  }

  /** Every chain added is new to the registry at that moment, and its balancer is not zero. */
  ghost predicate Fresh(r: Registry, edits: seq<Edit>)
    decreases |edits|
  {
    edits == [] ||
    (&& (edits[0].Added? ==> edits[0].id !in r.addresses && edits[0].balancer != ZERO_ADDRESS)
     && Fresh(Edited(r, edits[0]), edits[1..]))
  }

  /** Under any calls at all, repeated ids included, whatever is stored is listed. */
  lemma {:induction false} StoredStaysListed(r: Registry, edits: seq<Edit>)
    requires StoredIsListed(r)
    ensures StoredIsListed(Run(r, edits))
    decreases |edits|
  {
    if edits == [] {
    } else {
      var e := edits[0];
      if e.Removed? && e.index < |r.ids| {
        var after := r.RemoveChain(e.index).value;
        forall id | id in after.addresses ensures id in after.ids {
          StaysListed(r.ids, e.index, id);
        }
      }
      StoredStaysListed(Edited(r, e), edits[1..]);
    }
  }

  /** As long as only fresh chains are added, the registry stays proper, so every broadcast
      reaches each registered chain exactly once. */
  lemma {:induction false} FreshStaysProper(r: Registry, edits: seq<Edit>)
    requires Proper(r) && Fresh(r, edits)
    ensures Proper(Run(r, edits))
    decreases |edits|
  {
    if edits == [] {
    } else {
      var e := edits[0];
      match e {
        case Added(id, balancer) => AddRefinesMap(r, id, balancer);
        case Removed(index) => RemoveRefinesMap(r, index);
      }
      FreshStaysProper(Edited(r, e), edits[1..]);
    }
  }

  /** Freshness is needed: a chain added twice and removed once stays listed with no balancer. */
  lemma RepeatedChainIsLost(id: ChainId, balancer: Address)
    ensures var r := Run(EMPTY, [Added(id, balancer), Added(id, balancer), Removed(0)]);
            r.ids == [id] && r.BalancerOf(id) == ZERO_ADDRESS
  {
    var edits := [Added(id, balancer), Added(id, balancer), Removed(0)];
    var r1 := Edited(EMPTY, edits[0]);
    var r2 := Edited(r1, edits[1]);
    assert edits[1..][1..] == [edits[2]];
    assert r2.ids == [id, id];
    assert Run(r2, [edits[2]]) == Edited(r2, edits[2]);
  }
}
