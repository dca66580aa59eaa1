/** How a new rate spreads: a transition system of the governance chain, its registry, one
    first-in-first-out channel to each remote chain, and the remote balancers, which apply what
    they receive (contracts/Balancer/Balancer.sol). A receipt that the remote coin refuses is
    consumed without effect. */
module RatePropagation {
  import opened Evm
  import opened Sums
  import opened ChainRegistry
  import opened SweepRates
  import opened RateBroadcast

  /** A received update, and whether the remote coin took it. */
  datatype Receipt = Receipt(payload: Update, taken: bool)

  /** `byUpdate` is whether an update wrote the coin's next rate and period last. */
  datatype Remote = Remote(channel: seq<Update>, receipts: seq<Receipt>, rates: Rates, byUpdate: bool)

  /** A broadcast that went through, and the registry it went to. */
  datatype Broadcast = Broadcast(payload: Update, ids: seq<ChainId>)

  datatype System = System(registry: Registry, home: Rates, homeByUpdate: bool,
                           broadcasts: seq<Broadcast>, remotes: map<ChainId, Remote>)

  datatype Site = Home | At(id: ChainId)

  datatype Action =
    | Refresh(payload: Update, now: nat, endpoint: Endpoint, eth: nat)
    | Deliver(id: ChainId, now: nat)
    | EditRegistry(edit: Edit)
    | Write(site: Site, setting: Setting)

  /** What one broadcast puts into the channel of a chain: a copy for each time it is listed. */
  function Copies(b: Broadcast, id: ChainId): seq<Update> {
    seq(multiset(b.ids)[id], _ => b.payload)
  }

  function Spread(remotes: map<ChainId, Remote>, b: Broadcast): map<ChainId, Remote> {
    map id | id in remotes :: remotes[id].(channel := remotes[id].channel + Copies(b, id))
  }

  /** The payloads of the packets addressed to a chain, in order. */
  function AddressedTo(packets: seq<Packet>, id: ChainId): seq<Update> {
    if packets == [] then []
    else
      var n := |packets| - 1;
      AddressedTo(packets[..n], id) + if packets[n].destination == id then [packets[n].payload] else []
  }

  /** They are what the loop of the broadcast hands to the endpoint for the chain. */
  lemma PacketsAreCopies(r: Registry, e: Endpoint, u: Update, id: ChainId)
    ensures AddressedTo(Packets(r, e, u), id) == Copies(Broadcast(u, r.ids), id)
  {
    var packets := Packets(r, e, u);
    AddressedCopies(packets, r.ids, u, id);
  }

  lemma {:induction false} AddressedCopies(packets: seq<Packet>, ids: seq<ChainId>, u: Update, id: ChainId)
    requires |packets| == |ids|
    requires forall i :: 0 <= i < |ids| ==> packets[i].destination == ids[i] && packets[i].payload == u
    ensures AddressedTo(packets, id) == Copies(Broadcast(u, ids), id)
  {
    if packets == [] {
    } else {
      var n := |packets| - 1;
      AddressedCopies(packets[..n], ids[..n], u, id);
      assert ids == ids[..n] + [ids[n]];
      CopiesOneMore(ids[..n], ids[n], u, id);
    }
  }

  lemma CopiesOneMore(ids: seq<ChainId>, last: ChainId, u: Update, id: ChainId)
    ensures Copies(Broadcast(u, ids + [last]), id) == Copies(Broadcast(u, ids), id) + if last == id then [u] else []
  {
    assert multiset(ids + [last])[id] == multiset(ids)[id] + if last == id then 1 else 0;
  }

  ghost function Step(s: System, a: Action): Tx<System> {
    match a
    case Refresh(u, now, endpoint, eth) =>
      var home :- s.home.Refresh(u, now);
      var _ :- Require(CanBroadcast(s.registry, endpoint, u, eth));
      var b := Broadcast(u, s.registry.ids);
      Done(s.(home := home, homeByUpdate := true, broadcasts := s.broadcasts + [b], remotes := Spread(s.remotes, b)))
    case Deliver(id, now) =>
      var _ :- Require(id in s.remotes && s.remotes[id].channel != []);
      var r := s.remotes[id];
      var refreshed := r.rates.Refresh(r.channel[0], now);
      var rates := if refreshed.Done? then refreshed.value else r.rates;
      var receipts := r.receipts + [Receipt(r.channel[0], refreshed.Done?)];
      var byUpdate := refreshed.Done? || r.byUpdate;
      Done(s.(remotes := s.remotes[id := Remote(r.channel[1..], receipts, rates, byUpdate)]))
    case EditRegistry(edit) =>
      Done(s.(registry := Edited(s.registry, edit)))
    case Write(Home, setting) =>
      var home :- s.home.Set(setting);
      Done(s.(home := home, homeByUpdate := s.homeByUpdate && setting.TargetPrices?))
    case Write(At(id), setting) =>
      var _ :- Require(id in s.remotes);
      var r := s.remotes[id];
      var rates :- r.rates.Set(setting);
      Done(s.(remotes := s.remotes[id := r.(rates := rates, byUpdate := r.byUpdate && setting.TargetPrices?)]))
  }

  ghost function Run(s: System, actions: seq<Action>): System
    decreases |actions|
  {
    if actions == [] then s
    else
      var next := Step(s, actions[0]);
      Run(if next.Done? then next.value else s, actions[1..])
  }

  /** The updates applied on the governance chain. */
  function HomeLog(broadcasts: seq<Broadcast>): seq<Update> {
    seq(|broadcasts|, i requires 0 <= i < |broadcasts| => broadcasts[i].payload)
  }

  /** The updates ever sent to a chain, in order. */
  function SentTo(broadcasts: seq<Broadcast>, id: ChainId): seq<Update> {
    if broadcasts == [] then []
    else
      var n := |broadcasts| - 1;
      SentTo(broadcasts[..n], id) + Copies(broadcasts[n], id)
  }

  function Received(receipts: seq<Receipt>): seq<Update> {
    seq(|receipts|, i requires 0 <= i < |receipts| => receipts[i].payload)
  }

  /** The updates a remote applied: those received and taken. */
  function Applied(receipts: seq<Receipt>): seq<Update> {
    if receipts == [] then []
    else
      var n := |receipts| - 1;
      Applied(receipts[..n]) + (if receipts[n].taken then [receipts[n].payload] else [])
  }

  /** The rate and start announced last. */
  ghost predicate Announces(r: Rates, u: Update) {
    r.nextInterestRate == u.rate && r.nextPeriodStart == u.periodStart
  }

  ghost predicate RemoteInOrder(s: System, id: ChainId)
    requires id in s.remotes
  {
    var r := s.remotes[id];
    && SentTo(s.broadcasts, id) == Received(r.receipts) + r.channel
    && (r.byUpdate ==>
          Applied(r.receipts) != [] && Announces(r.rates, Applied(r.receipts)[|Applied(r.receipts)| - 1]))
  }

  /** Nothing is lost, duplicated or reordered on the way, and each chain announces the update
      it applied last, unless a direct write has replaced it since. */
  ghost predicate InOrder(s: System) {
    && (forall id :: id in s.remotes ==> RemoteInOrder(s, id))
    && (s.homeByUpdate ==>
          s.broadcasts != [] && Announces(s.home, s.broadcasts[|s.broadcasts| - 1].payload))
  }

  /** A remote takes the first message of its channel whenever there is one, and applies it when its
      coin does, just as the coin would; a refused one is gone without effect. No other chain and
      nothing at home changes. */
  lemma DeliverApplies(s: System, id: ChainId, now: nat)
    ensures Step(s, Deliver(id, now)).Done? <==> id in s.remotes && s.remotes[id].channel != []
    ensures Step(s, Deliver(id, now)).Done? ==>
              var after, r, u := Step(s, Deliver(id, now)).value, s.remotes[id], s.remotes[id].channel[0];
              && after == s.(remotes := after.remotes) && after.remotes.Keys == s.remotes.Keys
              && (forall other :: other in s.remotes && other != id ==> after.remotes[other] == s.remotes[other])
              && var r' := after.remotes[id];
              && r.channel == [u] + r'.channel
              && r'.receipts == r.receipts + [Receipt(u, r.rates.Refresh(u, now).Done?)]
              && if r.rates.Refresh(u, now).Done? then InForce(r'.rates, r.rates, now) && Announces(r'.rates, u)
                 else r'.rates == r.rates
  {
    if id in s.remotes && s.remotes[id].channel != [] {
      RefreshExact(s.remotes[id].rates, s.remotes[id].channel[0], now);
    }
  }

  /** A refresh at home goes through exactly when the home coin takes it and the broadcast does; it
      is applied just as the coin would, and logged with the registry it went to. */
  lemma RefreshApplies(s: System, u: Update, now: nat, e: Endpoint, eth: nat)
    ensures Step(s, Refresh(u, now, e, eth)).Done? <==>
            s.home.Refresh(u, now).Done? && CanBroadcast(s.registry, e, u, eth)
    ensures Step(s, Refresh(u, now, e, eth)).Done? ==>
              var after := Step(s, Refresh(u, now, e, eth)).value;
              && InForce(after.home, s.home, now) && Announces(after.home, u)
              && after.broadcasts == s.broadcasts + [Broadcast(u, s.registry.ids)] && after.registry == s.registry
              && after.remotes.Keys == s.remotes.Keys
              && forall id :: id in s.remotes ==>
                   && after.remotes[id] == s.remotes[id].(channel := after.remotes[id].channel)
                   && after.remotes[id].channel ==
                      s.remotes[id].channel + AddressedTo(Packets(s.registry, e, u), id)
  {
    RefreshExact(s.home, u, now);
    if Step(s, Refresh(u, now, e, eth)).Done? {
      forall id | id in s.remotes
        ensures AddressedTo(Packets(s.registry, e, u), id) == Copies(Broadcast(u, s.registry.ids), id)
      {
        PacketsAreCopies(s.registry, e, u, id);
      }
    }
  }

  /** A direct write changes the coin it is made on as the coin would, and nothing else but whether
      an update wrote the announcement last; a change of the registry changes nothing else. */
  lemma WriteApplies(s: System, id: ChainId, setting: Setting, edit: Edit)
    ensures Step(s, Write(Home, setting)).Done? <==> s.home.Set(setting).Done?
    ensures Step(s, Write(Home, setting)).Done? ==>
              var after := Step(s, Write(Home, setting)).value;
              && after == s.(home := after.home, homeByUpdate := after.homeByUpdate)
              && s.home.Set(setting) == Done(after.home)
              && (after.homeByUpdate <==> s.homeByUpdate && setting.TargetPrices?)
    ensures Step(s, Write(At(id), setting)).Done? <==> id in s.remotes && s.remotes[id].rates.Set(setting).Done?
    ensures Step(s, Write(At(id), setting)).Done? ==>
              var after := Step(s, Write(At(id), setting)).value;
              && id in after.remotes && after == s.(remotes := s.remotes[id := after.remotes[id]])
              && var r, r' := s.remotes[id], after.remotes[id];
              && r' == r.(rates := r'.rates, byUpdate := r'.byUpdate) && r.rates.Set(setting) == Done(r'.rates)
              && (r'.byUpdate <==> r.byUpdate && setting.TargetPrices?)
    ensures Step(s, EditRegistry(edit)) == Done(s.(registry := Edited(s.registry, edit)))
  {
  }

  lemma RefreshAnnounces(r: Rates, u: Update, now: nat)
    requires r.Refresh(u, now).Done?
    ensures Announces(r.Refresh(u, now).value, u)
  {
  }

  lemma RefreshInOrder(s: System, u: Update, now: nat, endpoint: Endpoint, eth: nat)
    requires InOrder(s) && Step(s, Refresh(u, now, endpoint, eth)).Done?
    ensures InOrder(Step(s, Refresh(u, now, endpoint, eth)).value)
  {
    var after := Step(s, Refresh(u, now, endpoint, eth)).value;
    var b := Broadcast(u, s.registry.ids);
    RefreshAnnounces(s.home, u, now);
    forall id | id in after.remotes ensures RemoteInOrder(after, id) {
      SpreadInOrder(s, b, after, id);
    }
  }

  lemma SpreadInOrder(s: System, b: Broadcast, after: System, id: ChainId)
    requires id in s.remotes && RemoteInOrder(s, id)
    requires after.broadcasts == s.broadcasts + [b] && after.remotes == Spread(s.remotes, b)
    ensures RemoteInOrder(after, id)
  {
    assert after.broadcasts[..|s.broadcasts|] == s.broadcasts;
    var r := s.remotes[id];
    assert Received(r.receipts) + r.channel + Copies(b, id) == Received(r.receipts) + (r.channel + Copies(b, id));
  }

  lemma DeliverInOrder(s: System, id: ChainId, now: nat)
    requires id in s.remotes && RemoteInOrder(s, id) && Step(s, Deliver(id, now)).Done?
    ensures RemoteInOrder(Step(s, Deliver(id, now)).value, id)
  {
    var r, r' := s.remotes[id], Step(s, Deliver(id, now)).value.remotes[id];
    assert Received(r'.receipts) == Received(r.receipts) + [r.channel[0]];
    assert r.channel == [r.channel[0]] + r'.channel;
    assert r'.receipts[..|r.receipts|] == r.receipts;
  }

  lemma StepInOrder(s: System, a: Action)
    requires InOrder(s) && Step(s, a).Done?
    ensures InOrder(Step(s, a).value)
  {
    var after := Step(s, a).value;
    match a {
      case Refresh(u, now, endpoint, eth) => RefreshInOrder(s, u, now, endpoint, eth);
      case Deliver(id, now) =>
        DeliverInOrder(s, id, now);
        OthersInOrder(s, after, id);
      case EditRegistry(edit) =>
        EditInOrder(s, edit);
      case Write(Home, setting) =>
        HomeWriteInOrder(s, after);
      case Write(At(id), setting) =>
        OthersInOrder(s, after, id);
    }
  }

  lemma OthersInOrder(s: System, after: System, id: ChainId)
    requires InOrder(s) && id in s.remotes && id in after.remotes
    requires after == s.(remotes := s.remotes[id := after.remotes[id]]) && RemoteInOrder(after, id)
    ensures InOrder(after)
  {
    forall other | other in after.remotes ensures RemoteInOrder(after, other) {
      assert other != id ==> RemoteInOrder(s, other);
    }
  }

  lemma HomeWriteInOrder(s: System, after: System)
    requires InOrder(s) && after == s.(home := after.home, homeByUpdate := after.homeByUpdate)
    requires after.homeByUpdate ==> s.homeByUpdate && after.home.nextInterestRate == s.home.nextInterestRate
                                    && after.home.nextPeriodStart == s.home.nextPeriodStart
    ensures InOrder(after)
  {
    forall id | id in after.remotes ensures RemoteInOrder(after, id) {
      assert RemoteInOrder(s, id);
    }
  }

  lemma EditInOrder(s: System, edit: Edit)
    requires InOrder(s)
    ensures InOrder(s.(registry := Edited(s.registry, edit)))
  {
    var after := s.(registry := Edited(s.registry, edit));
    forall id | id in after.remotes ensures RemoteInOrder(after, id) {
      assert RemoteInOrder(s, id);
    }
  }

  lemma {:induction false} RunInOrder(s: System, actions: seq<Action>)
    requires InOrder(s)
    ensures InOrder(Run(s, actions))
    decreases |actions|
  {
    if actions == [] {
    } else {
      var next := Step(s, actions[0]);
      if next.Done? {
        StepInOrder(s, actions[0]);
      }
      RunInOrder(if next.Done? then next.value else s, actions[1..]);
    }
  }

  /** A system before its first broadcast. */
  ghost predicate Fresh(s: System) {
    && s.broadcasts == [] && !s.homeByUpdate
    && forall id :: id in s.remotes ==>
         s.remotes[id].channel == [] && s.remotes[id].receipts == [] && !s.remotes[id].byUpdate
  }

  lemma FreshInOrder(s: System)
    requires Fresh(s)
    ensures InOrder(s)
  {
  }

  ghost predicate AllTaken(receipts: seq<Receipt>) {
    forall i :: 0 <= i < |receipts| ==> receipts[i].taken
  }

  lemma {:induction false} TakenIsReceived(receipts: seq<Receipt>)
    requires AllTaken(receipts)
    ensures Applied(receipts) == Received(receipts)
  {
    if receipts == [] {
    } else {
      var n := |receipts| - 1;
      TakenIsReceived(receipts[..n]);
      assert Received(receipts) == Received(receipts[..n]) + [receipts[n].payload];
    }
  }

  /** In every run, as long as no receipt was refused, what a remote applied is a prefix of
      what was sent to it. */
  lemma AppliedIsPrefixOfSent(s: System, actions: seq<Action>, id: ChainId)
    requires Fresh(s) && id in Run(s, actions).remotes
    requires AllTaken(Run(s, actions).remotes[id].receipts)
    ensures Applied(Run(s, actions).remotes[id].receipts) <= SentTo(Run(s, actions).broadcasts, id)
  {
    FreshInOrder(s);
    RunInOrder(s, actions);
    assert RemoteInOrder(Run(s, actions), id);
    TakenIsReceived(Run(s, actions).remotes[id].receipts);
  }

  /** `positions` embeds `part` into `whole`, in order. */
  ghost predicate Embeds(part: seq<Update>, whole: seq<Update>, positions: seq<nat>) {
    && |positions| == |part|
    && (forall i, j :: 0 <= i < j < |positions| ==> positions[i] < positions[j])
    && (forall i :: 0 <= i < |positions| ==> positions[i] < |whole| && whole[positions[i]] == part[i])
  }

  /** A chain that is never listed twice is sent a subsequence of the home log. */
  lemma {:induction false} SentIsSubsequence(broadcasts: seq<Broadcast>, id: ChainId) returns (positions: seq<nat>)
    requires ListedOnce(broadcasts, id)
    ensures Embeds(SentTo(broadcasts, id), HomeLog(broadcasts), positions)
    ensures forall i :: 0 <= i < |positions| ==> id in broadcasts[positions[i]].ids
  {
    positions := [];
    if broadcasts == [] {
    } else {
      var n := |broadcasts| - 1;
      var before, b := broadcasts[..n], broadcasts[n];
      assert broadcasts == before + [b];
      positions := SentIsSubsequence(before, id);
      LogsOneMore(before, b, id);
      EmbedsOneMore(SentTo(before, id), HomeLog(before), positions, b.payload);
      if id in b.ids {
        positions := positions + [n];
      }
    }
  }

  lemma LogsOneMore(broadcasts: seq<Broadcast>, b: Broadcast, id: ChainId)
    requires multiset(b.ids)[id] <= 1
    ensures HomeLog(broadcasts + [b]) == HomeLog(broadcasts) + [b.payload]
    ensures SentTo(broadcasts + [b], id) == SentTo(broadcasts, id) + if id in b.ids then [b.payload] else []
  {
    assert (broadcasts + [b])[..|broadcasts|] == broadcasts;
    assert id in b.ids <==> id in multiset(b.ids);
    assert Copies(b, id) == if id in b.ids then [b.payload] else [];
  }

  lemma EmbedsOneMore(part: seq<Update>, whole: seq<Update>, positions: seq<nat>, u: Update)
    requires Embeds(part, whole, positions)
    ensures Embeds(part, whole + [u], positions)
    ensures Embeds(part + [u], whole + [u], positions + [|whole|])
  {
  }

  /** An embedding into a part of a log, followed by one of that part into another log. */
  lemma EmbedsThrough(part: seq<Update>, middle: seq<Update>, whole: seq<Update>, inner: seq<nat>, outer: seq<nat>)
    returns (positions: seq<nat>)
    requires Embeds(part, middle, inner) && Embeds(middle, whole, outer)
    ensures Embeds(part, whole, positions)
  {
    positions := seq(|inner|, i requires 0 <= i < |inner| => outer[inner[i]]);
  }

  lemma {:induction false} TakenEmbeds(receipts: seq<Receipt>) returns (positions: seq<nat>)
    ensures Embeds(Applied(receipts), Received(receipts), positions)
  {
    positions := [];
    if receipts == [] {
    } else {
      var n := |receipts| - 1;
      positions := TakenEmbeds(receipts[..n]);
      var u := receipts[n].payload;
      assert Received(receipts) == Received(receipts[..n]) + [u];
      EmbedsOneMore(Applied(receipts[..n]), Received(receipts[..n]), positions, u);
      if receipts[n].taken {
        positions := positions + [n];
      }
    }
  }

  /** In every run, whatever was refused, what a remote applied is a subsequence of what was
      sent to it. */
  lemma AppliedIsSubsequenceOfSent(s: System, actions: seq<Action>, id: ChainId) returns (positions: seq<nat>)
    requires Fresh(s) && id in Run(s, actions).remotes
    ensures Embeds(Applied(Run(s, actions).remotes[id].receipts), SentTo(Run(s, actions).broadcasts, id), positions)
  {
    FreshInOrder(s);
    RunInOrder(s, actions);
    assert RemoteInOrder(Run(s, actions), id);
    positions := TakenEmbeds(Run(s, actions).remotes[id].receipts);
  }

  /** The changes a run makes to the registry. */
  function Edits(actions: seq<Action>): seq<Edit> {
    if actions == [] then []
    else (if actions[0].EditRegistry? then [actions[0].edit] else []) + Edits(actions[1..])
  }

  /** As long as only fresh chains are added to a proper registry, no broadcast of the run lists
      a chain twice. */
  lemma {:induction false} FreshListsOnce(s: System, actions: seq<Action>, id: ChainId)
    requires Proper(s.registry) && ChainRegistry.Fresh(s.registry, Edits(actions)) && ListedOnce(s.broadcasts, id)
    ensures Proper(Run(s, actions).registry) && ListedOnce(Run(s, actions).broadcasts, id)
    decreases |actions|
  {
    if actions == [] {
    } else {
      var a := actions[0];
      var next := if Step(s, a).Done? then Step(s, a).value else s;
      StepListsOnce(s, a, id);
      if a.EditRegistry? {
        EditStaysProper(s.registry, a.edit, Edits(actions[1..]));
      } else {
        assert Edits(actions) == Edits(actions[1..]);
      }
      FreshListsOnce(next, actions[1..], id);
    }
  }

  lemma StepListsOnce(s: System, a: Action, id: ChainId)
    requires ListedOnce(s.broadcasts, id) && Proper(s.registry)
    ensures var next := if Step(s, a).Done? then Step(s, a).value else s;
            && ListedOnce(next.broadcasts, id)
            && next.registry == if a.EditRegistry? then Edited(s.registry, a.edit) else s.registry
  {
    if a.Refresh? {
      BroadcastListsOnce(s.broadcasts, a.payload, s.registry.ids, id);
    }
  }

  lemma BroadcastListsOnce(broadcasts: seq<Broadcast>, u: Update, ids: seq<ChainId>, id: ChainId)
    requires ListedOnce(broadcasts, id) && forall i, j :: 0 <= i < j < |ids| ==> ids[i] != ids[j]
    ensures ListedOnce(broadcasts + [Broadcast(u, ids)], id)
  {
    DistinctCounts(ids);
    if id !in ids {
      assert id !in multiset(ids);
    }
  }

  lemma EditStaysProper(r: Registry, edit: Edit, rest: seq<Edit>)
    requires Proper(r) && ChainRegistry.Fresh(r, [edit] + rest)
    ensures Proper(Edited(r, edit)) && ChainRegistry.Fresh(Edited(r, edit), rest)
  {
    assert ([edit] + rest)[1..] == rest;
    match edit {
      case Added(id, balancer) => AddRefinesMap(r, id, balancer);
      case Removed(index) => RemoveRefinesMap(r, index);
    }
  }

  /** So in every such run a remote is sent a subsequence of what was applied at home, and
      applies a subsequence of that. */
  lemma RemoteFollowsHome(s: System, actions: seq<Action>, id: ChainId) returns (sent: seq<nat>, applied: seq<nat>)
    requires Fresh(s) && Proper(s.registry) && ChainRegistry.Fresh(s.registry, Edits(actions))
    requires id in Run(s, actions).remotes
    ensures var after := Run(s, actions);
            && Embeds(SentTo(after.broadcasts, id), HomeLog(after.broadcasts), sent)
            && Embeds(Applied(after.remotes[id].receipts), HomeLog(after.broadcasts), applied)
  {
    var after := Run(s, actions);
    FreshListsOnce(s, actions, id);
    sent := SentIsSubsequence(after.broadcasts, id);
    var taken := AppliedIsSubsequenceOfSent(s, actions, id);
    applied := EmbedsThrough(Applied(after.remotes[id].receipts), SentTo(after.broadcasts, id),
                             HomeLog(after.broadcasts), taken, sent);
  }

  /** Two copies of one broadcast follow each other in what is sent to the chain. */
  lemma {:induction false} AdjacentCopies(broadcasts: seq<Broadcast>, id: ChainId, i: nat) returns (k: nat)
    requires i < |broadcasts| && multiset(broadcasts[i].ids)[id] > 1
    ensures k + 1 < |SentTo(broadcasts, id)|
    ensures SentTo(broadcasts, id)[k] == SentTo(broadcasts, id)[k + 1] == broadcasts[i].payload
    decreases |broadcasts|
  {
    var n := |broadcasts| - 1;
    if i == n {
      k := |SentTo(broadcasts[..n], id)|;
    } else {
      k := AdjacentCopies(broadcasts[..n], id, i);
    }
  }

  ghost predicate DifferentPayloads(broadcasts: seq<Broadcast>) {
    forall i, j :: 0 <= i < j < |broadcasts| ==> broadcasts[i].payload != broadcasts[j].payload
  }

  ghost predicate ListedOnce(broadcasts: seq<Broadcast>, id: ChainId) {
    forall b :: b in broadcasts ==> multiset(b.ids)[id] <= 1
  }

  /** When no two broadcasts say the same, what is sent to a chain is a subsequence of the home
      log exactly when no broadcast lists the chain more than once. */
  lemma SubsequenceIsListedOnce(broadcasts: seq<Broadcast>, id: ChainId)
    requires DifferentPayloads(broadcasts)
    ensures (exists positions :: Embeds(SentTo(broadcasts, id), HomeLog(broadcasts), positions))
            <==> ListedOnce(broadcasts, id)
  {
    if ListedOnce(broadcasts, id) {
      var positions := SentIsSubsequence(broadcasts, id);
    } else {
      var b :| b in broadcasts && multiset(b.ids)[id] > 1;
      var i :| 0 <= i < |broadcasts| && broadcasts[i] == b;
      var k := AdjacentCopies(broadcasts, id, i);
      RepeatedIsNotEmbedded(broadcasts, SentTo(broadcasts, id), k);
    }
  }

  lemma RepeatedIsNotEmbedded(broadcasts: seq<Broadcast>, part: seq<Update>, k: nat)
    requires DifferentPayloads(broadcasts) && k + 1 < |part| && part[k] == part[k + 1]
    ensures forall positions :: !Embeds(part, HomeLog(broadcasts), positions)
  {
    forall i, j | 0 <= i < j < |broadcasts| ensures HomeLog(broadcasts)[i] != HomeLog(broadcasts)[j] {
      assert broadcasts[i].payload != broadcasts[j].payload;
    }
  }

  /** Every update of a log k times over. */
  function Repeated(log: seq<Update>, k: nat): seq<Update> {
    if log == [] then []
    else
      var n := |log| - 1;
      Repeated(log[..n], k) + seq(k, _ => log[n])
  }

  /** A chain listed k times in every broadcast is sent every update k times over. */
  lemma {:induction false} SentIsRepeatedLog(broadcasts: seq<Broadcast>, id: ChainId, k: nat)
    requires forall b :: b in broadcasts ==> multiset(b.ids)[id] == k
    ensures SentTo(broadcasts, id) == Repeated(HomeLog(broadcasts), k)
  {
    if broadcasts == [] {
    } else {
      var n := |broadcasts| - 1;
      SentIsRepeatedLog(broadcasts[..n], id, k);
      assert HomeLog(broadcasts)[..n] == HomeLog(broadcasts[..n]);
      assert broadcasts[n] in broadcasts;
    }
  }

  lemma RunMore(s: System, a: Action, rest: seq<Action>)
    ensures Run(s, [a] + rest) == Run(if Step(s, a).Done? then Step(s, a).value else s, rest)
  {
    assert ([a] + rest)[1..] == rest;
  }

  /** Nothing keeps an owner from listing a chain twice; the next broadcast then sends it the
      update twice, which is no subsequence of the one update applied at home. */
  lemma ListedTwiceIsSentTwice(s: System, id: ChainId, balancer: Address, u: Update, now: nat, e: Endpoint, eth: nat)
    requires Fresh(s) && s.registry == EMPTY && id in s.remotes
    requires s.home.Refresh(u, now).Done? && e.trusted(id, balancer) && 2 * e.fee(id, u) <= eth
    ensures var twice := EditRegistry(Added(id, balancer));
            var after := Run(s, [twice, twice, Refresh(u, now, e, eth)]);
            && id in after.remotes && HomeLog(after.broadcasts) == [u]
            && SentTo(after.broadcasts, id) == [u, u] && after.remotes[id].channel == [u, u]
            && !exists positions :: Embeds(SentTo(after.broadcasts, id), HomeLog(after.broadcasts), positions)
  {
    var twice, refresh := EditRegistry(Added(id, balancer)), Refresh(u, now, e, eth);
    var s1 := Step(s, twice).value;
    var s2 := Step(s1, twice).value;
    RunMore(s, twice, [twice, refresh]);
    RunMore(s1, twice, [refresh]);
    RunMore(s2, refresh, []);
    assert [twice, twice, refresh] == [twice] + [twice, refresh] && [twice, refresh] == [twice] + [refresh];
    assert [refresh] == [refresh] + [];
    TwiceListedBroadcast(s2, id, balancer, u, now, e, eth);
    TwiceListedLog(u, id);
  }

  lemma TwiceListedBroadcast(s: System, id: ChainId, balancer: Address, u: Update, now: nat, e: Endpoint, eth: nat)
    requires Fresh(s) && s.registry.ids == [id, id] && s.registry.BalancerOf(id) == balancer && id in s.remotes
    requires s.home.Refresh(u, now).Done? && e.trusted(id, balancer) && 2 * e.fee(id, u) <= eth
    ensures var after := Step(s, Refresh(u, now, e, eth));
            && after.Done? && after.value.broadcasts == [Broadcast(u, [id, id])]
            && id in after.value.remotes && after.value.remotes[id].channel == Copies(Broadcast(u, [id, id]), id)
  {
    TwoFees(s.registry, e, u, id);
  }

  lemma TwiceListedLog(u: Update, id: ChainId)
    ensures var b := Broadcast(u, [id, id]);
            && Copies(b, id) == [u, u] == SentTo([b], id) && HomeLog([b]) == [u]
            && !exists positions :: Embeds(SentTo([b], id), HomeLog([b]), positions)
  {
    var b := Broadcast(u, [id, id]);
    assert multiset(b.ids)[id] == 2;
    assert Copies(b, id) == [u, u];
    assert [b][..0] == [] && SentTo([b], id) == Copies(b, id);
    RepeatedIsNotEmbedded([b], SentTo([b], id), 0);
  }

  lemma TwoFees(r: Registry, e: Endpoint, u: Update, id: ChainId)
    requires r.ids == [id, id]
    ensures Total(Fees(Packets(r, e, u))) == 2 * e.fee(id, u)
  {
    var packets := Packets(r, e, u);
    FeesAppend([], packets[0]);
    FeesAppend([packets[0]], packets[1]);
    assert packets == [packets[0]] + [packets[1]] && [packets[0]] == [] + [packets[0]];
  }

  /** A chain listed exactly once in every broadcast is sent the home log itself. */
  lemma {:induction false} SentIsHomeLog(broadcasts: seq<Broadcast>, id: ChainId)
    requires forall b :: b in broadcasts ==> multiset(b.ids)[id] == 1
    ensures SentTo(broadcasts, id) == HomeLog(broadcasts)
  {
    if broadcasts == [] {
    } else {
      var n := |broadcasts| - 1;
      SentIsHomeLog(broadcasts[..n], id);
      assert HomeLog(broadcasts) == HomeLog(broadcasts[..n]) + [broadcasts[n].payload];
      assert broadcasts[n] in broadcasts;
    }
  }

  /** In every run, a remote that was listed once throughout, has received everything and
      refused nothing has applied exactly what the governance chain applied. */
  lemma DrainedRemoteAgrees(s: System, actions: seq<Action>, id: ChainId)
    requires Fresh(s) && id in Run(s, actions).remotes
    requires var after := Run(s, actions);
             && after.remotes[id].channel == [] && AllTaken(after.remotes[id].receipts)
             && forall b :: b in after.broadcasts ==> multiset(b.ids)[id] == 1
    ensures Applied(Run(s, actions).remotes[id].receipts) == HomeLog(Run(s, actions).broadcasts)
  {
    var after := Run(s, actions);
    FreshInOrder(s);
    RunInOrder(s, actions);
    assert RemoteInOrder(after, id);
    TakenIsReceived(after.remotes[id].receipts);
    SentIsHomeLog(after.broadcasts, id);
  }

  /** No direct write to the rates or periods of a chain; one of target prices does not matter. */
  ghost predicate Unwritten(actions: seq<Action>, site: Site) {
    forall a :: a in actions ==> !(a.Write? && a.site == site && !a.setting.TargetPrices?)
  }

  /** From s to after, both coins keep being written by updates: a broadcast writes the home coin,
      and a receipt that is taken the remote one. */
  ghost predicate UpdatedSince(s: System, after: System, id: ChainId) {
    && id in s.remotes && id in after.remotes && s.broadcasts <= after.broadcasts
    && (s.homeByUpdate || |s.broadcasts| < |after.broadcasts| ==> after.homeByUpdate)
    && var r, r' := s.remotes[id], after.remotes[id];
    && r.receipts <= r'.receipts
    && (r.byUpdate || (|r.receipts| < |r'.receipts| && r'.receipts[|r'.receipts| - 1].taken) ==> r'.byUpdate)
  }

  lemma {:induction false} RunUnwritten(s: System, actions: seq<Action>, id: ChainId)
    requires Unwritten(actions, Home) && Unwritten(actions, At(id)) && id in s.remotes
    ensures UpdatedSince(s, Run(s, actions), id)
    decreases |actions|
  {
    if actions == [] {
    } else {
      var next := if Step(s, actions[0]).Done? then Step(s, actions[0]).value else s;
      StepUnwritten(s, actions[0], id);
      assert forall a :: a in actions[1..] ==> a in actions;
      RunUnwritten(next, actions[1..], id);
    }
  }

  lemma StepUnwritten(s: System, a: Action, id: ChainId)
    requires Unwritten([a], Home) && Unwritten([a], At(id)) && id in s.remotes
    ensures UpdatedSince(s, if Step(s, a).Done? then Step(s, a).value else s, id)
  {
    assert a in [a];
  }

  /** Later broadcasts only add to what is sent to a chain, and one that lists it adds something. */
  lemma {:induction false} SentGrows(before: seq<Broadcast>, after: seq<Broadcast>, id: ChainId)
    requires before <= after
    ensures |SentTo(before, id)| <= |SentTo(after, id)|
    ensures |before| < |after| && id in after[|after| - 1].ids ==> |SentTo(before, id)| < |SentTo(after, id)|
    decreases |after|
  {
    if |before| == |after| {
      assert before == after;
    } else {
      var n := |after| - 1;
      assert before <= after[..n];
      SentGrows(before, after[..n], id);
      assert id in after[n].ids ==> id in multiset(after[n].ids);
    }
  }

  /** The last broadcast was made since s and lists the remote, whose channel is empty and which
      took its last receipt. */
  ghost predicate CaughtUpSince(s: System, after: System, id: ChainId) {
    && |s.broadcasts| < |after.broadcasts| && id in after.broadcasts[|after.broadcasts| - 1].ids
    && id in after.remotes && after.remotes[id].channel == []
    && var receipts := after.remotes[id].receipts;
    receipts != [] ==> receipts[|receipts| - 1].taken
  }

  /** The remote announces the same next rate and the same next period as the governance chain. */
  ghost predicate Agree(s: System, id: ChainId) {
    && id in s.remotes
    && s.remotes[id].rates.nextInterestRate == s.home.nextInterestRate
    && s.remotes[id].rates.nextPeriodStart == s.home.nextPeriodStart
  }

  /** In every run, whatever was lost, repeated or written directly before some moment: if from
      then on neither coin is written directly, a remote that has caught up with a broadcast made
      since agrees with the governance chain. */
  lemma LastUpdateWins(s: System, before: seq<Action>, since: seq<Action>, id: ChainId)
    requires Fresh(s) && id in Run(s, before).remotes
    requires Unwritten(since, Home) && Unwritten(since, At(id))
    requires CaughtUpSince(Run(s, before), Run(Run(s, before), since), id)
    ensures Agree(Run(Run(s, before), since), id)
  {
    FreshInOrder(s);
    RunInOrder(s, before);
    LastUpdateSince(Run(s, before), since, id);
  }

  lemma LastUpdateSince(s: System, since: seq<Action>, id: ChainId)
    requires InOrder(s) && id in s.remotes && Unwritten(since, Home) && Unwritten(since, At(id))
    requires CaughtUpSince(s, Run(s, since), id)
    ensures Agree(Run(s, since), id)
  {
    RunInOrder(s, since);
    RunUnwritten(s, since, id);
    AgreeSince(s, Run(s, since), id);
  }

  lemma AgreeSince(s: System, after: System, id: ChainId)
    requires InOrder(s) && InOrder(after) && UpdatedSince(s, after, id) && CaughtUpSince(s, after, id)
    ensures Agree(after, id)
  {
    ReceivedSince(s, after, id);
    Agreement(after, id);
  }

  lemma ReceivedSince(s: System, after: System, id: ChainId)
    requires id in s.remotes && id in after.remotes && RemoteInOrder(s, id) && RemoteInOrder(after, id)
    requires after.remotes[id].channel == [] && s.broadcasts <= after.broadcasts
    requires |s.broadcasts| < |after.broadcasts| && id in after.broadcasts[|after.broadcasts| - 1].ids
    ensures |s.remotes[id].receipts| < |after.remotes[id].receipts|
  {
    SentGrows(s.broadcasts, after.broadcasts, id);
  }

  lemma Agreement(s: System, id: ChainId)
    requires InOrder(s) && id in s.remotes && s.remotes[id].channel == []
    requires s.homeByUpdate && s.remotes[id].byUpdate && id in s.broadcasts[|s.broadcasts| - 1].ids
    requires var receipts := s.remotes[id].receipts; receipts != [] ==> receipts[|receipts| - 1].taken
    ensures Agree(s, id)
  {
    assert RemoteInOrder(s, id);
    var receipts := s.remotes[id].receipts;
    LastReceipt(s.broadcasts, id, receipts);
    assert Applied(receipts)[|Applied(receipts)| - 1] == receipts[|receipts| - 1].payload;
  }

  lemma LastReceipt(broadcasts: seq<Broadcast>, id: ChainId, receipts: seq<Receipt>)
    requires broadcasts != [] && id in broadcasts[|broadcasts| - 1].ids
    requires SentTo(broadcasts, id) == Received(receipts) + []
    ensures receipts != [] && receipts[|receipts| - 1].payload == broadcasts[|broadcasts| - 1].payload
  {
    var last := broadcasts[|broadcasts| - 1];
    var copies := Copies(last, id);
    assert id in multiset(last.ids);
    assert copies[|copies| - 1] == last.payload;
    assert Received(receipts) == SentTo(broadcasts[..|broadcasts| - 1], id) + copies;
    assert Received(receipts)[|receipts| - 1] == last.payload;
  }
}
