/** The queue of pending actions of contracts/Balancer/Balancer.sol: slots that hold stabilizer
    addresses, and one amount per address. An address may fill several slots, and removing an
    action clears its amount but leaves its slots. */
module ActionQueue {
  import opened Evm
  import opened Arithmetic
  import opened Sums

  datatype Mode = IDLE | INVEST | CALL

  /** The mode the price calls for. A spread above the target price reverts. */
  function GetMode(twaPrice: nat, targetPrice: nat, arbSpread: nat): Tx<Mode> {
    var product :- Mul(arbSpread, targetPrice);
    var upperBound :- Add(targetPrice, product / PRECISION);
    var lowerBound :- Sub(targetPrice, product / PRECISION);
    Done(if twaPrice < lowerBound then CALL else if twaPrice > upperBound then INVEST else IDLE)
  }

  /** The mode can be computed exactly when the bounds fit and the spread does not exceed the
      target price, which an `arbSpread` of at most one hundred percent ensures. */
  lemma ModeDomain(twaPrice: nat, targetPrice: nat, arbSpread: nat)
    ensures GetMode(twaPrice, targetPrice, arbSpread).Done? <==>
            && arbSpread * targetPrice <= UINT_MAX
            && targetPrice + arbSpread * targetPrice / PRECISION <= UINT_MAX
            && arbSpread * targetPrice < (targetPrice + 1) * PRECISION
    ensures GetMode(twaPrice, targetPrice, arbSpread).Done? ==>
              var mode, spread := GetMode(twaPrice, targetPrice, arbSpread).value, arbSpread * targetPrice / PRECISION;
              && (mode == CALL <==> twaPrice + spread < targetPrice)
              && (mode == INVEST <==> targetPrice + spread < twaPrice)
    ensures arbSpread <= PRECISION && targetPrice * PRECISION <= UINT_MAX ==>
              GetMode(twaPrice, targetPrice, arbSpread).Done?
  {
    var product := arbSpread * targetPrice;
    assert product >= 0 by { MulMono(0, arbSpread, targetPrice); }
    DivAdjoint(product, PRECISION, targetPrice + 1);
    if arbSpread <= PRECISION && targetPrice * PRECISION <= UINT_MAX {
      assert product <= targetPrice * PRECISION by { MulMono(arbSpread, PRECISION, targetPrice); }
      assert product / PRECISION <= targetPrice;
    }
  }

  /** A call to `autoInvest` or to `autoCall` of a stabilizer. */
  datatype Call =
    | AutoInvest(stabilizer: Address, amount: nat, price: nat, slippage: nat)
    | AutoCall(stabilizer: Address, amount: nat, price: nat, slippage: nat)

  function MakeCall(intention: Mode, stabilizer: Address, amount: nat, price: nat, slippage: nat): Call {
    if intention == INVEST then AutoInvest(stabilizer, amount, price, slippage)
    else AutoCall(stabilizer, amount, price, slippage)
  }

  datatype Queue = Queue(index: nat, stabilizers: map<nat, Address>, amounts: map<Address, nat>) {

    function Slot(i: nat): Address {
      if i in stabilizers then stabilizers[i] else ZERO_ADDRESS
    }

    function Slots(): (s: seq<Address>)
      ensures |s| == index
      ensures forall i :: 0 <= i < index ==> s[i] == Slot(i)
    {
      seq(index, i requires 0 <= i < index => Slot(i))
    }

    function AddAction(stabilizer: Address, amount: nat): Queue {
      Queue(index + 1, stabilizers[index := stabilizer], amounts[stabilizer := amount])
    }

    function RemoveAction(stabilizer: Address): Queue {
      this.(amounts := amounts - {stabilizer})
    }

    /** All slots below `index` and the amounts of their addresses are deleted. */
    function Drained(): Queue {
      Queue(0, map i | i in stabilizers && i >= index :: stabilizers[i],
            map a | a in amounts && a !in Slots() :: amounts[a])
    }

    /** Each queued address once, in the order of its first slot, with its amount, unless that
        is zero. */
    function Pending(): seq<(Address, nat)> {
      Select(FirstOccurrences(Slots()), amounts)
    }

    /** Only queued addresses have an amount, and no slot from `index` on is in use. */
    ghost predicate WellFormed() {
      && (forall a :: a in amounts ==> a in Slots())
      && (forall i :: i in stabilizers ==> i < index)
    }
  }

  const EMPTY: Queue := Queue(0, map[], map[])

  function FirstOccurrences(s: seq<Address>): seq<Address> {
    if s == [] then []
    else
      var earlier, last := FirstOccurrences(s[..|s| - 1]), s[|s| - 1];
      if last in s[..|s| - 1] then earlier else earlier + [last]
  }

  function Select(addresses: seq<Address>, amounts: map<Address, nat>): seq<(Address, nat)> {
    if addresses == [] then []
    else
      var earlier, last := Select(addresses[..|addresses| - 1], amounts), addresses[|addresses| - 1];
      if Get(amounts, last) > 0 then earlier + [(last, amounts[last])] else earlier
  }

  ghost predicate NoRepeats(s: seq<Address>) {
    forall i, j :: 0 <= i < j < |s| ==> s[i] != s[j]
  }

  /** The addresses picked are exactly those of the sequence, none twice. */
  lemma {:induction false} FirstOccurrencesDistinct(s: seq<Address>)
    ensures NoRepeats(FirstOccurrences(s))
    ensures forall a :: a in FirstOccurrences(s) <==> a in s
  {
    if s == [] {
    } else {
      var n := |s| - 1;
      FirstOccurrencesDistinct(s[..n]);
      assert s == s[..n] + [s[n]];
    }
  }

  /** They come in the order in which they first appear. */
  lemma {:induction false} FirstOccurrencesInOrder(s: seq<Address>, i: nat, j: nat)
    requires i < j < |FirstOccurrences(s)|
    ensures var d := FirstOccurrences(s);
            exists k: nat :: k < |s| && d[i] in s[..k] && d[j] !in s[..k]
  {
    var n := |s| - 1;
    var d := FirstOccurrences(s);
    FirstOccurrencesDistinct(s[..n]);
    var earlier := FirstOccurrences(s[..n]);
    if j < |earlier| {
      FirstOccurrencesInOrder(s[..n], i, j);
      var k: nat :| k < |s[..n]| && earlier[i] in s[..n][..k] && earlier[j] !in s[..n][..k];
      assert s[..n][..k] == s[..k];
      assert d[i] in s[..k] && d[j] !in s[..k];
    } else {
      assert d[i] in s[..n] && d[j] !in s[..n];
    }
  }

  /** One more slot adds at most one call. */
  lemma PendingStep(s: seq<Address>, amounts: map<Address, nat>, i: nat)
    requires i < |s|
    ensures var before := Select(FirstOccurrences(s[..i]), amounts);
            var after := Select(FirstOccurrences(s[..i + 1]), amounts);
            after == if s[i] !in s[..i] && Get(amounts, s[i]) > 0 then before + [(s[i], amounts[s[i]])] else before
  {
    assert s[..i + 1][..i] == s[..i];
    var earlier := FirstOccurrences(s[..i]);
    assert (earlier + [s[i]])[..|earlier|] == earlier;
  }

  lemma {:induction false} PendingPrefix(s: seq<Address>, amounts: map<Address, nat>, i: nat)
    requires i <= |s|
    ensures Select(FirstOccurrences(s[..i]), amounts) <= Select(FirstOccurrences(s), amounts)
    decreases |s| - i
  {
    if i < |s| {
      PendingStep(s, amounts, i);
      PendingPrefix(s, amounts, i + 1);
    } else {
      assert s[..i] == s;
    }
  }

  /** A pending call is the one for an address queued with a positive amount, and there is one
      for each such address. */
  lemma {:induction false} SelectMembers(addresses: seq<Address>, amounts: map<Address, nat>, a: Address, x: nat)
    ensures (a, x) in Select(addresses, amounts) <==> a in addresses && x > 0 && Get(amounts, a) == x
  {
    if addresses == [] {
    } else {
      var n := |addresses| - 1;
      SelectMembers(addresses[..n], amounts, a, x);
      assert addresses == addresses[..n] + [addresses[n]];
    }
  }

  function ManyAdded(q: Queue, stabilizers: seq<Address>, amounts: seq<nat>): Tx<Queue> {
    if |stabilizers| != |amounts| then Reverted else Done(AddAll(q, stabilizers, amounts))
  }

  function AddAll(q: Queue, stabilizers: seq<Address>, amounts: seq<nat>): Queue
    requires |stabilizers| == |amounts|
  {
    if stabilizers == [] then q
    else
      var n := |stabilizers| - 1;
      AddAll(q, stabilizers[..n], amounts[..n]).AddAction(stabilizers[n], amounts[n])
  }

  /** The calls an execution makes, in order. */
  function Requests(pending: seq<(Address, nat)>, intention: Mode, price: nat, slippage: nat): (calls: seq<Call>)
    ensures |calls| == |pending|
    ensures forall i :: 0 <= i < |calls| ==>
              calls[i] == MakeCall(intention, pending[i].0, pending[i].1, price, slippage)
  {
    seq(|pending|, i requires 0 <= i < |pending| => MakeCall(intention, pending[i].0, pending[i].1, price, slippage))
  }

  /** Whether each call succeeds after the ones before it. */
  ghost predicate Accepted(calls: seq<Call>, accepts: seq<Call> -> bool) {
    forall k :: 0 < k <= |calls| ==> accepts(calls[..k])
  }

  /** What an execution does: nothing when idle; it reverts when the mode cannot be computed,
      when it is not the intended one and is not forced, and when a stabilizer refuses. */
  ghost function Execution(q: Queue, intention: Mode, force: bool, state: Tx<Mode>, price: nat, slippage: nat,
                           accepts: seq<Call> -> bool): Tx<(Queue, seq<Call>)>
  {
    if intention == IDLE then Done((q, []))
    else
      var mode :- state;
      var calls := Requests(q.Pending(), intention, price, slippage);
      var _ :- Require((intention == mode || force) && Accepted(calls, accepts));
      Done((q.Drained(), calls))
  }

  /** Draining a well-formed queue leaves nothing behind: no slot and no amount. */
  lemma DrainedIsEmpty(q: Queue)
    requires q.WellFormed()
    ensures q.Drained() == EMPTY
  {
    assert q.Drained().stabilizers == map[] && q.Drained().amounts == map[];
  }

  /** What the owners and the balancer can do to the queue. */
  datatype Event =
    | Added(stabilizer: Address, amount: nat)
    | Cleared(stabilizer: Address)
    | Emptied

  function Apply(q: Queue, e: Event): Queue {
    match e
    case Added(stabilizer, amount) => q.AddAction(stabilizer, amount)
    case Cleared(stabilizer) => q.RemoveAction(stabilizer)
    case Emptied => q.Drained()
  }

  function Replay(events: seq<Event>): Queue {
    if events == [] then EMPTY else Apply(Replay(events[..|events| - 1]), events[|events| - 1])
  }

  /** The addresses added since the queue was last emptied, in order. */
  function Queued(events: seq<Event>): seq<Address> {
    if events == [] then []
    else
      var earlier := Queued(events[..|events| - 1]);
      match events[|events| - 1]
      case Added(stabilizer, _) => earlier + [stabilizer]
      case Cleared(_) => earlier
      case Emptied => []
  }

  /** The amount last written for an address; removing and emptying write zero. */
  function LastWritten(events: seq<Event>, a: Address): nat {
    if events == [] then 0
    else
      var earlier := LastWritten(events[..|events| - 1], a);
      match events[|events| - 1]
      case Added(stabilizer, amount) => if stabilizer == a then amount else earlier
      case Cleared(stabilizer) => if stabilizer == a then 0 else earlier
      case Emptied => 0
  }

  /** In every run the queue is well formed, its slots are the additions since the last time
      it was emptied, and every amount is the one last written. */
  lemma {:induction false} QueueReflectsHistory(events: seq<Event>)
    ensures var q := Replay(events);
            && q.WellFormed()
            && q.Slots() == Queued(events)
            && forall a :: Get(q.amounts, a) == LastWritten(events, a)
  {
    if events == [] {
    } else {
      var n := |events| - 1;
      QueueReflectsHistory(events[..n]);
      var before, after := Replay(events[..n]), Replay(events);
      match events[n] {
        case Added(stabilizer, amount) =>
          assert after.Slots() == before.Slots() + [stabilizer];
        case Cleared(stabilizer) =>
          assert after.Slots() == before.Slots();
        case Emptied =>
          DrainedIsEmpty(before);
      }
    }
  }

  /** The additions of a call that adds many, pair by pair. */
  function Additions(stabilizers: seq<Address>, amounts: seq<nat>): (events: seq<Event>)
    requires |stabilizers| == |amounts|
    ensures |events| == |stabilizers|
    ensures forall i :: 0 <= i < |events| ==> events[i] == Added(stabilizers[i], amounts[i])
  {
    seq(|stabilizers|, i requires 0 <= i < |stabilizers| => Added(stabilizers[i], amounts[i]))
  }

  /** Adding many after any history is that history with the additions after it, in order. It
      reverts exactly when the lengths differ. */
  lemma {:induction false} AddActionsOfHistory(events: seq<Event>, stabilizers: seq<Address>, amounts: seq<nat>)
    ensures ManyAdded(Replay(events), stabilizers, amounts) ==
            if |stabilizers| == |amounts| then Done(Replay(events + Additions(stabilizers, amounts)))
            else Reverted
    decreases |stabilizers|
  {
    if |stabilizers| != |amounts| {
    } else if stabilizers == [] {
      assert events + Additions(stabilizers, amounts) == events;
    } else {
      var n := |stabilizers| - 1;
      AddActionsOfHistory(events, stabilizers[..n], amounts[..n]);
      var longer := events + Additions(stabilizers, amounts);
      assert longer[..|longer| - 1] == events + Additions(stabilizers[..n], amounts[..n]);
    }
  }

  function LastAmounts(addresses: seq<Address>, events: seq<Event>): seq<(Address, nat)> {
    if addresses == [] then []
    else
      var earlier, last := LastAmounts(addresses[..|addresses| - 1], events), addresses[|addresses| - 1];
      if LastWritten(events, last) > 0 then earlier + [(last, LastWritten(events, last))] else earlier
  }

  lemma {:induction false} SelectLast(addresses: seq<Address>, amounts: map<Address, nat>, events: seq<Event>)
    requires forall a :: Get(amounts, a) == LastWritten(events, a)
    ensures Select(addresses, amounts) == LastAmounts(addresses, events)
  {
    if addresses == [] {
    } else {
      SelectLast(addresses[..|addresses| - 1], amounts, events);
      var last := addresses[|addresses| - 1];
      assert Get(amounts, last) == LastWritten(events, last);
    }
  }

  /** Whatever was added, overwritten and removed, what is pending is each address added since
      the last time the queue was emptied, once, in the order of its first addition, with the
      amount last written for it, skipping zeros. */
  lemma PendingOfHistory(events: seq<Event>)
    ensures Replay(events).Pending() == LastAmounts(FirstOccurrences(Queued(events)), events)
  {
    QueueReflectsHistory(events);
    SelectLast(FirstOccurrences(Queued(events)), Replay(events).amounts, events);
  }

  /** A pending list names no address twice, and pairs exactly the queued addresses that have a
      positive amount with that amount. */
  lemma PendingExact(q: Queue, a: Address, x: nat)
    ensures NoAddressTwice(q.Pending())
    ensures (a, x) in q.Pending() <==> a in q.Slots() && x > 0 && Get(q.amounts, a) == x
  {
    var d := FirstOccurrences(q.Slots());
    FirstOccurrencesDistinct(q.Slots());
    SelectMembers(d, q.amounts, a, x);
    SelectDistinct(d, q.amounts);
  }

  ghost predicate NoAddressTwice(pending: seq<(Address, nat)>) {
    forall i, j :: 0 <= i < j < |pending| ==> pending[i].0 != pending[j].0
  }

  lemma {:induction false} SelectDistinct(addresses: seq<Address>, amounts: map<Address, nat>)
    requires NoRepeats(addresses)
    ensures NoAddressTwice(Select(addresses, amounts))
  {
    if addresses == [] {
    } else {
      var n := |addresses| - 1;
      SelectDistinct(addresses[..n], amounts);
      var earlier := Select(addresses[..n], amounts);
      forall i | 0 <= i < |earlier| ensures earlier[i].0 != addresses[n] {
        SelectMembers(addresses[..n], amounts, earlier[i].0, earlier[i].1);
        assert earlier[i] in earlier;
      }
    }
  }

  /** After any history, an idle execution does nothing. Any other goes through exactly when the
      mode is known, fits or is forced, and every call is accepted after those before it; then it
      makes exactly the calls the history asks for, and leaves the queue empty. */
  lemma ExecutionOfHistory(events: seq<Event>, intention: Mode, force: bool, state: Tx<Mode>, price: nat, slippage: nat,
                           accepts: seq<Call> -> bool)
    ensures var calls := Requests(LastAmounts(FirstOccurrences(Queued(events)), events), intention, price, slippage);
            Execution(Replay(events), intention, force, state, price, slippage, accepts) ==
            if intention == IDLE then Done((Replay(events), []))
            else if state.Done? && (state.value == intention || force)
                    && (forall k :: 0 < k <= |calls| ==> accepts(calls[..k]))
            then Done((EMPTY, calls))
            else Reverted
    ensures var pending := LastAmounts(FirstOccurrences(Queued(events)), events);
            var calls := Requests(pending, intention, price, slippage);
            forall i :: 0 <= i < |pending| ==>
              && (calls[i].AutoInvest? <==> intention == INVEST)
              && (calls[i].stabilizer, calls[i].amount) == pending[i]
              && calls[i].price == price && calls[i].slippage == slippage
  {
    PendingOfHistory(events);
    QueueReflectsHistory(events);
    DrainedIsEmpty(Replay(events));
  }

  /** In every run a positive amount belongs to an address in some slot below `index`, and
      emptying the queue clears every amount and every slot. */
  lemma EmptyingClearsEverything(events: seq<Event>, a: Address)
    ensures var q := Replay(events);
            && (Get(q.amounts, a) > 0 ==> exists i: nat :: i < q.index && q.Slot(i) == a)
            && Replay(events + [Emptied]) == EMPTY
  {
    var q := Replay(events);
    QueueReflectsHistory(events);
    DrainedIsEmpty(q);
    assert (events + [Emptied])[..|events|] == events;
    if Get(q.amounts, a) > 0 {
      var i: nat :| i < |q.Slots()| && q.Slots()[i] == a;
      assert q.Slot(i) == a;
    }
  }

  /** The queue with its first i slots, and the amounts of the addresses in them, deleted. */
  ghost predicate Emptying(q: Queue, i: nat, now: Queue)
    requires i <= q.index
  {
    && now.index == q.index
    && now.stabilizers == (map k | k in q.stabilizers && k >= i :: q.stabilizers[k])
    && now.amounts == (map a | a in q.amounts && a !in q.Slots()[..i] :: q.amounts[a])
  }

  /** What deleting slot i finds, and what it leaves: a repeated address has no amount left. */
  lemma EmptyingStep(q: Queue, i: nat, now: Queue, next: Queue)
    requires i < q.index && Emptying(q, i, now)
    requires next == now.(stabilizers := now.stabilizers - {i}, amounts := now.amounts - {now.Slot(i)})
    ensures var s := q.Slots();
            && now.Slot(i) == s[i]
            && Get(now.amounts, s[i]) == (if s[i] in s[..i] then 0 else Get(q.amounts, s[i]))
            && Emptying(q, i + 1, next)
  {
    var s := q.Slots();
    assert now.Slot(i) == q.Slot(i) == s[i];
    assert s[..i + 1] == s[..i] + [s[i]];
    assert next.amounts == (map a | a in q.amounts && a !in s[..i + 1] :: q.amounts[a]);
  }

  lemma EmptyingDone(q: Queue, now: Queue)
    requires Emptying(q, q.index, now)
    ensures now.(index := 0) == q.Drained()
  {
    assert q.Slots()[..q.index] == q.Slots();
  }

  /** The calls for the first i slots. */
  function RequestsFor(q: Queue, i: nat, intention: Mode, price: nat, slippage: nat): seq<Call>
    requires i <= q.index
  {
    Requests(Select(FirstOccurrences(q.Slots()[..i]), q.amounts), intention, price, slippage)
  }

  /** Slot i adds the call for its address, when that is its first slot and has an amount; the
      calls so far are always a prefix of those of the whole queue. */
  lemma RequestsStep(q: Queue, i: nat, intention: Mode, price: nat, slippage: nat)
    requires i < q.index
    ensures var s := q.Slots();
            && RequestsFor(q, i + 1, intention, price, slippage) == RequestsFor(q, i, intention, price, slippage)
               + (if s[i] !in s[..i] && Get(q.amounts, s[i]) > 0
                  then [MakeCall(intention, s[i], q.amounts[s[i]], price, slippage)] else [])
            && RequestsFor(q, i + 1, intention, price, slippage) <= Requests(q.Pending(), intention, price, slippage)
  {
    var s := q.Slots();
    PendingStep(s, q.amounts, i);
    PendingPrefix(s, q.amounts, i + 1);
    var before := Select(FirstOccurrences(s[..i]), q.amounts);
    var after := Select(FirstOccurrences(s[..i + 1]), q.amounts);
    RequestsPrefix(after, q.Pending(), intention, price, slippage);
    if after != before {
      RequestsAppend(before, s[i], q.amounts[s[i]], intention, price, slippage);
    }
  }

  lemma RequestsPrefix(part: seq<(Address, nat)>, all: seq<(Address, nat)>, intention: Mode, price: nat, slippage: nat)
    requires part <= all
    ensures Requests(part, intention, price, slippage) <= Requests(all, intention, price, slippage)
  {
  }

  lemma RequestsAppend(part: seq<(Address, nat)>, a: Address, x: nat, intention: Mode, price: nat, slippage: nat)
    ensures Requests(part + [(a, x)], intention, price, slippage) ==
            Requests(part, intention, price, slippage) + [MakeCall(intention, a, x, price, slippage)]
  {
  }

  lemma AcceptedStep(calls: seq<Call>, call: Call, accepts: seq<Call> -> bool)
    requires Accepted(calls, accepts)
    ensures Accepted(calls + [call], accepts) <==> accepts(calls + [call])
  {
    var longer := calls + [call];
    assert longer[..|longer|] == longer;
    forall k | 0 < k <= |calls| ensures longer[..k] == calls[..k] {
    }
  }

  lemma RefusedAtOnce(calls: seq<Call>, all: seq<Call>, accepts: seq<Call> -> bool)
    requires 0 < |calls| && calls <= all && !accepts(calls)
    ensures !Accepted(all, accepts)
  {
    assert all[..|calls|] == calls;
  }

  /** The queue as the contract stores it. */
  class Actions {
    var index: nat
    var stabilizers: map<nat, Address>
    var amounts: map<Address, nat>

    constructor ()
      ensures State() == EMPTY
    {
      index, stabilizers, amounts := 0, map[], map[];
    }

    function State(): Queue
      reads this
    {
      Queue(index, stabilizers, amounts)
    }

    method AddAction(stabilizer: Address, amount: nat)
      modifies this
      ensures State() == old(State()).AddAction(stabilizer, amount)
    {
      stabilizers, index := stabilizers[index := stabilizer], index + 1;
      amounts := amounts[stabilizer := amount];
    }

    method AddActions(addresses: seq<Address>, amounts_: seq<nat>) returns (r: Tx<()>)
      modifies this
      ensures match ManyAdded(old(State()), addresses, amounts_)
              case Done(next) => r.Done? && State() == next
              case Reverted => r.Reverted? && State() == old(State())
    {
      if |addresses| != |amounts_| {
        return Reverted;
      }
      for i := 0 to |addresses|
        invariant State() == AddAll(old(State()), addresses[..i], amounts_[..i])
      {
        AddAction(addresses[i], amounts_[i]);
        assert addresses[..i + 1][..i] == addresses[..i] && amounts_[..i + 1][..i] == amounts_[..i];
      }
      assert addresses[..|addresses|] == addresses && amounts_[..|addresses|] == amounts_;
      return Done(());
    }

    method RemoveAction(stabilizer: Address)
      modifies this`amounts
      ensures State() == old(State()).RemoveAction(stabilizer)
    {
      amounts := amounts - {stabilizer};
    }

    /** Deletes slot i and the amount of the address in it. */
    method DeleteSlot(i: nat)
      requires i < index
      modifies this`stabilizers, this`amounts
      ensures amounts == old(amounts) - {old(State()).Slot(i)}
      ensures stabilizers == old(stabilizers) - {i}
    {
      amounts := amounts - {State().Slot(i)};
      stabilizers := stabilizers - {i};
    }

    /** The loop deletes as it goes, so a second slot of an address finds no amount. */
    method Execute(intention: Mode, force: bool, state: Tx<Mode>, price: nat, slippage: nat,
                   accepts: seq<Call> -> bool) returns (r: Tx<seq<Call>>)
      modifies this
      ensures match Execution(old(State()), intention, force, state, price, slippage, accepts)
              case Done((next, calls)) => r == Done(calls) && State() == next
              case Reverted => r == Reverted && State() == old(State())
    {
      if intention == IDLE {
        return Done([]);
      }
      var mode :- state;
      if intention != mode && !force {
        return Reverted;
      }
      var q := State();
      var calls := [];
      for i := 0 to index
        invariant index == q.index
        invariant Emptying(q, i, State())
        invariant calls == RequestsFor(q, i, intention, price, slippage)
        invariant Accepted(calls, accepts)
      {
        EmptyingStep(q, i, State(), State().(stabilizers := stabilizers - {i}, amounts := amounts - {State().Slot(i)}));
        RequestsStep(q, i, intention, price, slippage);
        var stabilizer := State().Slot(i);
        var amount := Get(amounts, stabilizer);
        if amount > 0 {
          var call := MakeCall(intention, stabilizer, amount, price, slippage);
          AcceptedStep(calls, call, accepts);
          calls := calls + [call];
          if !accepts(calls) {
            RefusedAtOnce(calls, Requests(q.Pending(), intention, price, slippage), accepts);
            index, stabilizers, amounts := q.index, q.stabilizers, q.amounts;
            return Reverted;
          }
        }
        DeleteSlot(i);
      }
      EmptyingDone(q, State());
      assert q.Slots()[..q.index] == q.Slots();
      index := 0;
      return Done(calls);
    }

    method Reset()
      modifies this
      ensures State() == old(State()).Drained()
    {
      var q := State();
      for i := 0 to index
        invariant index == q.index
        invariant Emptying(q, i, State())
      {
        EmptyingStep(q, i, State(), State().(stabilizers := stabilizers - {i}, amounts := amounts - {State().Slot(i)}));
        DeleteSlot(i);
      }
      EmptyingDone(q, State());
      index := 0;
    }
  }
}
