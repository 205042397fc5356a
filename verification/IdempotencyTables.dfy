// The change-order and idempotency_keys tables, updated in place one statement at
// a time, each method proved to be exactly one step of the model.
module IdempotencyTables {
  import opened IdempotencyModel
  import opened IdempotencyProofs
  import opened IdempotencyTheorems
  import opened IdempotencyAnswers
  import opened IdempotencyLease

  // ---- What a caller may rely on across any step ----

  /** Decisions only go forward, and no stored response changes except at the hand of the
      catch block of the worker that stored it. */
  ghost predicate KeepsPromises(before: State, a: Action, after: State)
  {
    && OrdersGrow(before.books.orders, after.books.orders)
    && (forall key :: key in before.claims && before.claims[key].completed && !Forgets(before, a, key) ==>
          key in after.claims && after.claims[key] == before.claims[key])
  }

  lemma StepKeepsPromises(s: State, a: Action)
    requires Inv(s)
    ensures Inv(Step(s, a)) && KeepsPromises(s, a, Step(s, a))
  {
    StepKeepsInv(s, a);
    StepOrdersGrow(s, a);
    forall key | key in s.claims && s.claims[key].completed && !Forgets(s, a, key)
      ensures key in Step(s, a).claims && Step(s, a).claims[key] == s.claims[key]
    {
      CompletedClaimIsFinal(s, a, key);
    }
  }

  /** A statement of one worker concerns that worker and its own key's claim. */
  ghost predicate OnlyOwnClaim(before: State, i: nat, after: State)
  {
    && |after.workers| == |before.workers|
    && (forall j :: 0 <= j < |before.workers| && j != i ==> after.workers[j] == before.workers[j])
    && (forall key :: (i < |before.workers| ==> key != before.workers[i].key) ==>
          ((key in after.claims <==> key in before.claims) && (key in before.claims ==> after.claims[key] == before.claims[key])))
  }

  lemma WorkTouchesOnlyOwnClaim(s: State, i: nat, fault: Fault)
    ensures OnlyOwnClaim(s, i, Step(s, Action.Work(i, fault)))
  {
  }

  /** The heartbeat moves only the lease of the pending claim its worker owns. */
  ghost predicate OnlyRenews(before: State, i: nat, after: State)
  {
    && after.claims.Keys == before.claims.Keys
    && forall key :: key in before.claims && after.claims[key] != before.claims[key] ==>
         && i < |before.workers| && before.workers[i].phase.Leads() && key == before.workers[i].key
         && Owns(before, before.workers[i]) && !before.claims[key].completed
         && after.claims[key] == before.claims[key].(lease := before.now + LEASE_DURATION_MS)
  }

  /** What a statement gives its worker: a claim for a whole lease, or an answer that is stored. */
  lemma WorkLeadsOrAnswers(s: State, i: nat, fault: Fault)
    requires Inv(s) && i < |s.workers|
    ensures var t := Step(s, Action.Work(i, fault));
            && |t.workers| == |s.workers|
            && (!s.workers[i].phase.Leads() && t.workers[i].phase.Leads() ==> HoldsUntil(t, i, t.now + LEASE_DURATION_MS))
            && (fault == Error && s.workers[i].phase.Leads() ==> t.books == s.books && t.claims == s.claims)
            && (!s.workers[i].phase.Answered? && t.workers[i].phase.Answered? ==> AnswerStored(t, t.workers[i]))
  {
    var t := Step(s, Action.Work(i, fault));
    WorkTouchesOnlyOwnClaim(s, i, fault);
    if !s.workers[i].phase.Leads() && t.workers[i].phase.Leads() {
      NewLeaderHolds(s, Action.Work(i, fault), i);
    }
    if !s.workers[i].phase.Answered? && !s.workers[i].phase.Conflict? {
      OwnAnswerStored(s, i, fault);
    }
  }

  lemma BeatOnlyRenews(s: State, i: nat)
    ensures OnlyRenews(s, i, Step(s, Action.Beat(i)))
  {
  }

  /** A decided order's amount and the budget stay when an order is deleted. */
  ghost predicate DeletesAtMost(before: Books, o: nat, after: Books)
  {
    && after.budget == before.budget && ApprovedSum(after.orders) == ApprovedSum(before.orders)
    && |after.orders| == |before.orders|
    && forall p :: 0 <= p < |before.orders| && (p != o || before.orders[p].status == Approved) ==> after.orders[p] == before.orders[p]
  }

  lemma DeleteKeepsSum(s: State, o: nat)
    requires Inv(s)
    ensures DeletesAtMost(s.books, o, Step(s, Action.DeleteOrder(o)).books)
  {
    DeleteOrderKeepsInv(s, o);
  }

  class Server {
    var now: nat
    const opening: int
    var orders: seq<Order>
    var budget: int
    var claims: map<nat, Claim>
    var nextId: nat
    var nextToken: nat
    var workers: seq<Worker>

    function Contents(): State
      reads this
    {
      State(now, opening, Books(orders, budget), claims, nextId, nextToken, workers)
    }

    /** The fencing invariant and balanced books (module IdempotencyProofs). */
    ghost predicate Valid()
      reads this
    {
      Inv(Contents())
    }

    constructor (opening: int)
      ensures Contents() == Initial(opening) && Valid()
    {
      this.opening, now, orders, budget := opening, 0, [], opening;
      claims, nextId, nextToken, workers := map[], 0, 0, [];
      new;
      RunKeepsInv(opening, []);
      assert Contents() == Run(opening, []);
    }

    /** UPDATE change_orders ... WHERE status = 'pending', then the atomic increment: succeeds
        exactly for a pending order, which alone changes, and the budget with the approved sum. */
    method Decide(request: Request) returns (response: Response)
      modifies this`orders, this`budget
      ensures budget - ApprovedSum(orders) == old(budget - ApprovedSum(orders))
      ensures OrdersGrow(old(orders), orders) && |orders| == |old(orders)|
      ensures response == Decided <==> request.order < |orders| && old(orders)[request.order].status == Pending
      ensures response == Decided ==>
                orders[request.order] == old(orders)[request.order].(status := if request.decision == Approve then Approved else Rejected)
      ensures response == Decided || response == AlreadyDecided
      ensures forall o :: 0 <= o < |orders| && (o != request.order || response != Decided) ==> orders[o] == old(orders)[o]
      ensures (Books(orders, budget), response) == IdempotencyModel.Decide(Books(old(orders), old(budget)), request)
    {
      DecideKeepsBooks(budget - ApprovedSum(orders), Books(orders, budget), request);
      var o := request.order;
      if o >= |orders| || orders[o].status != Pending {
        return AlreadyDecided;
      }
      orders := orders[o := orders[o].(status := if request.decision == Approve then Approved else Rejected)];
      if request.decision == Approve {
        budget := budget + orders[o].delta;
      }
      response := Decided;
    }

    /** POST of a change order: pending, its amount not yet in the budget. */
    method CreateOrder(delta: int)
      requires Valid()
      modifies this`orders
      ensures Valid() && orders == old(orders) + [Order(delta, Pending)]
    {
      StepKeepsPromises(Contents(), Action.CreateOrder(delta));
      orders := orders + [Order(delta, Pending)];
    }

    /** A decision sent without a key: not found for a missing order, else the transaction alone. */
    method DecideWithoutKey(request: Request) returns (response: Response)
      requires Valid()
      modifies this`orders, this`budget
      ensures Valid() && budget == opening + ApprovedSum(orders)
      ensures response == NotFound <==> request.order >= |old(orders)| || old(orders)[request.order].status == Deleted
      ensures response == Decided <==> request.order < |old(orders)| && old(orders)[request.order].status == Pending
      ensures response == Decided ==>
                orders == old(orders)[request.order := old(orders)[request.order].(status := if request.decision == Approve then Approved else Rejected)]
      ensures response != Decided ==> orders == old(orders)
      ensures Contents() == Step(old(Contents()), Action.PlainDecide(request))
    {
      StepKeepsPromises(Contents(), Action.PlainDecide(request));
      if request.order >= |orders| || orders[request.order].status == Deleted {
        return NotFound;
      }
      response := Decide(request);
    }

    /** A rejected or pending order is marked deleted; an approved one, and the budget, stay. */
    method DeleteOrder(o: nat)
      requires Valid()
      modifies this`orders
      ensures Valid() && DeletesAtMost(Books(old(orders), old(budget)), o, Books(orders, budget))
      ensures o < |orders| ==> orders[o].status == if old(orders)[o].status == Approved then Approved else Deleted
      ensures Contents() == Step(old(Contents()), Action.DeleteOrder(o))
    {
      DeleteKeepsSum(Contents(), o);
      StepKeepsPromises(Contents(), Action.DeleteOrder(o));
      if o < |orders| && orders[o].status != Deleted && orders[o].status != Approved {
        orders := orders[o := orders[o].(status := Deleted)];
      }
    }

    method Become(i: nat, phase: Phase)
      requires i < |workers|
      modifies this`workers
      ensures Contents() == Move(old(Contents()), i, phase)
    {
      workers := workers[i := workers[i].(phase := phase)];
    }

    /** The next statement of withIdempotency or runAsLeader for worker `i`: whatever it is and
        however it fails, the budget stays the opening value plus the approved amounts, decisions
        and stored responses stand, and no other worker or key is touched. */
    method Work(i: nat, fault: Fault)
      requires Valid()
      modifies this
      ensures Valid() && budget == opening + ApprovedSum(orders)
      ensures KeepsPromises(old(Contents()), Action.Work(i, fault), Contents())
      ensures OnlyOwnClaim(old(Contents()), i, Contents())
      ensures i < |workers| && !old(workers)[i].phase.Leads() && workers[i].phase.Leads() ==>
                HoldsUntil(Contents(), i, now + LEASE_DURATION_MS)
      ensures i < |workers| && workers[i].phase.Answered? && !old(workers)[i].phase.Answered? ==> AnswerStored(Contents(), workers[i])
      ensures fault == Error && i < |old(workers)| && old(workers)[i].phase.Leads() ==>
                orders == old(orders) && budget == old(budget) && claims == old(claims)
      ensures Contents() == Step(old(Contents()), Action.Work(i, fault))
    {
      ghost var before := Contents();
      RunStatement(i, fault);
      if i < |before.workers| {
        WorkLeadsOrAnswers(before, i, fault);
      }
      StepKeepsPromises(before, Action.Work(i, fault));
      WorkTouchesOnlyOwnClaim(before, i, fault);
    }

    method RunStatement(i: nat, fault: Fault)
      modifies this
      ensures Contents() == Step(old(Contents()), Action.Work(i, fault))
    {
      if i < |workers| {
        if workers[i].phase.Leads() {
          RunAsLeader(i, fault);
        } else {
          Follow(i, fault);
        }
      }
    }

    /** withIdempotency: insert, else poll, else steal. */
    method Follow(i: nat, fault: Fault)
      requires i < |workers| && !workers[i].phase.Leads()
      modifies this
      ensures Contents() == WorkStep(old(Contents()), i, fault)
    {
      var w := workers[i];
      match w.phase
      case Claiming(attempt) =>
        if attempt >= CLAIM_ATTEMPTS {
          Become(i, Failed);
        } else if w.key in claims {
          Become(i, Polling(attempt, 0));
        } else {
          claims := claims[w.key := Claim(nextId, w.request, false, NotFound, nextToken, now + LEASE_DURATION_MS)];
          Become(i, Leading(nextId, nextToken));
          nextId, nextToken := nextId + 1, nextToken + 1;
        }
      case Polling(attempt, poll) =>
        if poll >= POLL_ATTEMPTS || w.key !in claims {
          Become(i, Claiming(attempt + 1));
        } else if claims[w.key].completed && claims[w.key].fingerprint != w.request {
          Become(i, Conflict);
        } else if claims[w.key].completed {
          Become(i, Answered(claims[w.key].response, true));
        } else if claims[w.key].lease <= now {
          Become(i, Stealing(attempt, poll, claims[w.key].id));
        } else {
          Become(i, Polling(attempt, poll + 1));
        }
      case Stealing(attempt, poll, id) =>
        if w.key in claims && claims[w.key].id == id && !claims[w.key].completed && claims[w.key].lease < now {
          claims := claims[w.key := claims[w.key].(owner := nextToken, lease := now + LEASE_DURATION_MS, fingerprint := w.request)];
          Become(i, Leading(id, nextToken));
          nextToken := nextToken + 1;
        } else {
          Become(i, Polling(attempt, poll + 1));
        }
      case _ =>
    }

    /** runAsLeader: the handler's read and its transaction, then completion, else release. */
    method RunAsLeader(i: nat, fault: Fault)
      requires i < |workers| && workers[i].phase.Leads()
      modifies this
      ensures Contents() == WorkStep(old(Contents()), i, fault)
    {
      var w := workers[i];
      match w.phase
      case Leading(id, token) =>
        if fault != NoFault {
          Become(i, Releasing(id, token));
        } else if w.request.order < |orders| && orders[w.request.order].status != Deleted {
          Become(i, Deciding(id, token));
        } else {
          Become(i, Completing(id, token, NotFound));
        }
      case Deciding(id, token) =>
        if fault == Error {
          Become(i, Releasing(id, token));
        } else {
          var response := Decide(w.request);
          Become(i, if fault == LostReply then Releasing(id, token) else Completing(id, token, response));
        }
      case Completing(id, token, outcome) =>
        if fault == Error || !(w.key in claims && claims[w.key].id == id && claims[w.key].owner == token) {
          Become(i, Releasing(id, token));
        } else {
          claims := claims[w.key := claims[w.key].(completed := true, response := outcome)];
          Become(i, if fault == LostReply then Releasing(id, token) else Answered(outcome, false));
        }
      case Releasing(id, token) =>
        if fault != Error && w.key in claims && claims[w.key].id == id && claims[w.key].owner == token {
          claims := claims - {w.key};
        }
        Become(i, Failed);
    }

    /** One tick of the holder's heartbeat timer. */
    method Beat(i: nat)
      requires Valid()
      modifies this`claims
      ensures Valid() && OnlyRenews(old(Contents()), i, Contents())
      ensures Contents() == Step(old(Contents()), Action.Beat(i))
    {
      ghost var before := Contents();
      RenewLease(i);
      StepKeepsPromises(before, Action.Beat(i));
      BeatOnlyRenews(before, i);
    }

    method RenewLease(i: nat)
      modifies this`claims
      ensures Contents() == Step(old(Contents()), Action.Beat(i))
    {
      if i < |workers| && workers[i].phase.Leads() {
        var w := workers[i];
        if w.key in claims && claims[w.key].id == w.phase.id && claims[w.key].owner == w.phase.token && !claims[w.key].completed {
          claims := claims[w.key := claims[w.key].(lease := now + LEASE_DURATION_MS)];
        }
      }
    }
  }
}
