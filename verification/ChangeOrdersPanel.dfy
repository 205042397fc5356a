// The client's side of the idempotency key: one key per order, made on the first
// decision, kept across failures, dropped on success
// (client/src/components/ChangeOrdersPanel.tsx). The awaited call splits decide()
// in two, so clicks and replies may interleave.
module ChangeOrdersPanel {

  /** The key map and the next value crypto.randomUUID() will return; each is new. */
  datatype Keys = Keys(kept: map<nat, nat>, nextUuid: nat)

  datatype Event = Click(order: nat) | Reply(order: nat, ok: bool)

  function KeyFor(keys: Keys, order: nat): nat
  {
    if order in keys.kept then keys.kept[order] else keys.nextUuid
  }

  function Step(keys: Keys, e: Event): Keys
  {
    match e
    case Click(order) =>
      if order in keys.kept then keys else Keys(keys.kept[order := keys.nextUuid], keys.nextUuid + 1)
    case Reply(order, ok) =>
      if ok then keys.(kept := keys.kept - {order}) else keys
  }

  function Run(events: seq<Event>): Keys
  {
    if events == [] then Keys(map[], 0) else Step(Run(events[..|events| - 1]), events[|events| - 1])
  }

  /** The key sent by the click at position `n`. */
  function Sent(events: seq<Event>, n: nat): nat
    requires n < |events| && events[n].Click?
  {
    KeyFor(Run(events[..n]), events[n].order)
  }

  /** Kept keys were made before now, and no two orders share one. */
  ghost predicate ValidKeys(keys: Keys)
  {
    && (forall o :: o in keys.kept ==> keys.kept[o] < keys.nextUuid)
    && (forall o, p :: o in keys.kept && p in keys.kept && keys.kept[o] == keys.kept[p] ==> o == p)
  }

  lemma {:induction false} RunIsValid(events: seq<Event>)
    ensures ValidKeys(Run(events))
  {
    if events != [] {
      RunIsValid(events[..|events| - 1]);
    }
  }

  predicate SameKey(before: Keys, after: Keys, order: nat)
  {
    && (order in after.kept <==> order in before.kept)
    && (order in before.kept ==> after.kept[order] == before.kept[order])
  }

  class Panel {
    var decisionKeys: map<nat, nat>
    var nextUuid: nat
    var error: bool

    function Contents(): Keys
      reads this
    {
      Keys(decisionKeys, nextUuid)
    }

    ghost predicate Valid()
      reads this
    {
      ValidKeys(Contents())
    }

    constructor ()
      ensures Contents() == Run([]) && Valid() && !error
    {
      decisionKeys, nextUuid, error := map[], 0, false;
    }

    /** decide() up to the awaited request: a retry resends the kept key; any other decision
        takes one that no order has and none had before. */
    method Decide(order: nat) returns (key: nat)
      requires Valid()
      modifies this
      ensures Valid() && !error
      ensures order in decisionKeys && decisionKeys[order] == key
      ensures if order in old(decisionKeys) then key == old(decisionKeys)[order]
              else key >= old(nextUuid) && forall o :: o in old(decisionKeys) ==> old(decisionKeys)[o] != key
      ensures forall o :: o != order ==> SameKey(old(Contents()), Contents(), o)
      ensures Contents() == Step(old(Contents()), Click(order))
    {
      error := false;
      if order in decisionKeys {
        key := decisionKeys[order];
      } else {
        key := nextUuid;
        nextUuid := nextUuid + 1;
        decisionKeys := decisionKeys[order := key];
      }
    }

    /** decide() once the request has succeeded or thrown: only a success lets the next decision
        on this order take a new key, and no other order's key is touched. */
    method Settle(order: nat, ok: bool)
      requires Valid()
      modifies this
      ensures Valid() && error == (old(error) || !ok)
      ensures ok ==> order !in decisionKeys
      ensures forall o :: o != order || !ok ==> SameKey(old(Contents()), Contents(), o)
      ensures nextUuid == old(nextUuid)
      ensures Contents() == Step(old(Contents()), Reply(order, ok))
    {
      if ok {
        decisionKeys := decisionKeys - {order};
      } else {
        error := true;
      }
    }
  }

  /** Has the order's request succeeded between positions `i` and `j`? */
  predicate SettledBetween(events: seq<Event>, order: nat, i: nat, j: nat)
    requires j <= |events|
  {
    exists n :: i <= n < j && events[n] == Reply(order, true)
  }

  /** Where a sent key stands: under its order until a success drops it, and never anyone else's. */
  ghost predicate KeyStands(keys: Keys, key: nat, order: nat, settled: bool)
  {
    && key < keys.nextUuid
    && (forall o :: o in keys.kept && keys.kept[o] == key ==> o == order)
    && ((order in keys.kept && keys.kept[order] == key) <==> !settled)
  }

  lemma KeyStep(keys: Keys, e: Event, key: nat, order: nat, settled: bool)
    requires KeyStands(keys, key, order, settled)
    ensures KeyStands(Step(keys, e), key, order, settled || e == Reply(order, true))
  {
  }

  lemma {:induction false} KeyAfter(events: seq<Event>, i: nat, j: nat)
    requires i < j <= |events| && events[i].Click?
    ensures KeyStands(Run(events[..j]), Sent(events, i), events[i].order, SettledBetween(events, events[i].order, i, j))
    decreases j
  {
    var order := events[i].order;
    assert events[..j][..j - 1] == events[..j - 1];
    assert Run(events[..j]) == Step(Run(events[..j - 1]), events[j - 1]);
    if j == i + 1 {
      RunIsValid(events[..i]);
      assert !SettledBetween(events, order, i, j);
    } else {
      KeyAfter(events, i, j - 1);
      KeyStep(Run(events[..j - 1]), events[j - 1], Sent(events, i), order, SettledBetween(events, order, i, j - 1));
      assert SettledBetween(events, order, i, j) == (SettledBetween(events, order, i, j - 1) || events[j - 1] == Reply(order, true));
    }
  }

  /** Two decisions carry the same key exactly when they are retries: the same order,
      with no success in between. */
  lemma SameKeyIffRetry(events: seq<Event>, i: nat, j: nat)
    requires i < j < |events| && events[i].Click? && events[j].Click?
    ensures Sent(events, i) == Sent(events, j) <==>
            events[i].order == events[j].order && !SettledBetween(events, events[i].order, i, j)
  {
    KeyAfter(events, i, j);
  }
}
