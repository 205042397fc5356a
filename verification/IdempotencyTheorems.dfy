// The promises of the idempotency lease, over whole runs: any number of requests,
// retries, crashes, stalls, failed statements and lost replies.
module IdempotencyTheorems {
  import opened IdempotencyModel
  import opened IdempotencyProofs

  // ---- Money and decisions ----

  /** In every run the budget is its opening value plus the approved amounts. */
  lemma BudgetIsOpeningPlusApproved(opening: int, actions: seq<Action>)
    ensures Run(opening, actions).books.budget == opening + ApprovedSum(Run(opening, actions).books.orders)
  {
    RunKeepsInv(opening, actions);
  }

  /** No request is ever told a success, a replayed one included, that is not so:
      an approval reported is in force, a rejection reported was made. */
  lemma NoFalseSuccess(opening: int, actions: seq<Action>, i: nat)
    requires i < |Run(opening, actions).workers| && Run(opening, actions).workers[i].phase.Answered?
    ensures var s := Run(opening, actions);
            Truthful(s.books.orders, s.workers[i].request, s.workers[i].phase.answer)
  {
    RunKeepsInv(opening, actions);
    assert WorkerOk(Run(opening, actions), Run(opening, actions).workers[i]);
  }

  /** However many leaders a key has had, at most one of them decided a given order. */
  lemma OneDeciderPerOrder(opening: int, actions: seq<Action>, i: nat, j: nat)
    requires i < j < |Run(opening, actions).workers|
    requires OwnDecision(Run(opening, actions).workers[i]) && OwnDecision(Run(opening, actions).workers[j])
    ensures Run(opening, actions).workers[i].request.order != Run(opening, actions).workers[j].request.order
  {
    RunKeepsInv(opening, actions);
  }

  lemma StepOrdersGrow(s: State, a: Action)
    ensures OrdersGrow(s.books.orders, Step(s, a).books.orders)
  {
    if a.Work? && a.i < |s.workers| && s.workers[a.i].phase.Deciding? {
      var (books, response) := Decide(s.books, s.workers[a.i].request);
      assert OrdersGrow(s.books.orders, books.orders);
    }
  }

  /** A decided order is never decided again; an approved one stays approved for good. */
  lemma {:induction false} DecidedOnce(opening: int, actions: seq<Action>, n: nat)
    requires n <= |actions|
    ensures OrdersGrow(Run(opening, actions[..n]).books.orders, Run(opening, actions).books.orders)
    decreases |actions|
  {
    if n == |actions| {
      assert actions[..n] == actions;
    } else {
      var before := actions[..|actions| - 1];
      assert before[..n] == actions[..n];
      DecidedOnce(opening, before, n);
      StepOrdersGrow(Run(opening, before), actions[|actions| - 1]);
    }
  }

  // ---- The lease ----

  /** A claim passes to another owner only by a conditional steal of a pending claim
      whose lease has passed, and disappears only at the hand of its owner. */
  lemma OwnerChangesOnlyAfterLease(s: State, a: Action, key: nat)
    requires Inv(s) && key in s.claims
    ensures var next := Step(s, a);
            && (key in next.claims && next.claims[key].owner != s.claims[key].owner ==>
                  && s.claims[key].lease < s.now && !s.claims[key].completed
                  && next.claims[key].id == s.claims[key].id && !next.claims[key].completed)
            && (key !in next.claims ==>
                  a.Work? && a.i < |s.workers| && s.workers[a.i].phase.Releasing? && s.workers[a.i].key == key && Owns(s, s.workers[a.i]))
  {
  }

  /** A worker becomes leader in one step exactly when its key has no claim, or the
      claim it is stealing is still pending with its lease passed. The request the
      claim was made for plays no part. */
  lemma LeadsExactlyWhen(s: State, i: nat, fault: Fault)
    requires i < |s.workers| && !s.workers[i].phase.Leads()
    ensures var w := s.workers[i];
            WorkStep(s, i, fault).workers[i].phase.Leads() <==>
              || (w.phase.Claiming? && w.phase.attempt < CLAIM_ATTEMPTS && w.key !in s.claims)
              || (w.phase.Stealing? && w.key in s.claims && s.claims[w.key].id == w.phase.id
                  && !s.claims[w.key].completed && s.claims[w.key].lease < s.now)
  {
  }

  /** What a follower gets from one read: the stored response for the same request, a
      conflict for another, the right to try a steal once the lease is over, or a wait. */
  lemma FollowerOutcome(s: State, i: nat, fault: Fault)
    requires i < |s.workers| && s.workers[i].phase.Polling? && s.workers[i].phase.poll < POLL_ATTEMPTS
    ensures var w, phase := s.workers[i], WorkStep(s, i, fault).workers[i].phase;
            var found := w.key in s.claims;
            && (phase.Answered? <==> found && s.claims[w.key].completed && s.claims[w.key].fingerprint == w.request)
            && (phase.Answered? ==> phase.replayed && phase.answer == s.claims[w.key].response)
            && (phase.Conflict? <==> found && s.claims[w.key].completed && s.claims[w.key].fingerprint != w.request)
            && (phase.Stealing? <==> found && !s.claims[w.key].completed && s.claims[w.key].lease <= s.now)
            && WorkStep(s, i, fault).claims == s.claims && WorkStep(s, i, fault).books == s.books
  {
  }

  /** While a holder's lease runs, nobody but the holder changes or removes its claim. */
  lemma LiveHolderKeepsClaim(s: State, a: Action, i: nat)
    requires Inv(s) && i < |s.workers| && s.workers[i].phase.Leads() && Owns(s, s.workers[i])
    requires s.now <= s.claims[s.workers[i].key].lease
    requires a != Crash(i) && !(a.Work? && a.i == i) && a != Beat(i)
    ensures s.workers[i].key in Step(s, a).claims
    ensures Step(s, a).claims[s.workers[i].key] == s.claims[s.workers[i].key]
    ensures Step(s, a).workers[i] == s.workers[i]
  {
    if (a.Work? || a.Beat?) && a.i < |s.workers| && a.i != i {
      assert WorkerOk(s, s.workers[a.i]) && WorkerOk(s, s.workers[i]);
      assert s.workers[a.i].phase.Leads() ==> s.workers[a.i].phase.token != s.workers[i].phase.token by {
        assert if i < a.i then i < a.i < |s.workers| else a.i < i < |s.workers|;
      }
    }
  }

  // ---- The stored response ----

  /** The catch block's DELETE takes effect on the key's claim. */
  predicate Forgets(s: State, a: Action, key: nat)
  {
    && a.Work? && a.i < |s.workers| && a.fault != Error && s.workers[a.i].phase.Releasing?
    && s.workers[a.i].key == key && Owns(s, s.workers[a.i])
  }

  /** A step leaves a completed claim as it is, unless it is the catch block of the very
      worker that completed it, which deletes it. */
  lemma CompletedClaimIsFinal(s: State, a: Action, key: nat)
    requires Inv(s) && key in s.claims && s.claims[key].completed
    ensures !Forgets(s, a, key) ==> key in Step(s, a).claims && Step(s, a).claims[key] == s.claims[key]
    ensures Forgets(s, a, key) ==> key !in Step(s, a).claims
  {
    assert ClaimOk(s, key);
    if a.Work? && a.i < |s.workers| {
      assert WorkerOk(s, s.workers[a.i]);
    }
  }

  /** No step after the n-th deletes the key's claim. */
  predicate NeverForgotten(opening: int, actions: seq<Action>, n: nat, key: nat)
    decreases |actions|
  {
    |actions| > n ==>
      var before := actions[..|actions| - 1];
      NeverForgotten(opening, before, n, key) && !Forgets(Run(opening, before), actions[|actions| - 1], key)
  }

  /** The claim with this id is gone for good: whatever the key holds now came later. */
  ghost predicate Gone(s: State, key: nat, id: nat)
  {
    id < s.nextId && (key in s.claims ==> id < s.claims[key].id)
  }

  lemma GoneStays(s: State, a: Action, key: nat, id: nat)
    requires Gone(s, key, id)
    ensures Gone(Step(s, a), key, id)
  {
  }

  lemma {:induction false} StoredOrGone(opening: int, actions: seq<Action>, n: nat, key: nat)
    requires n <= |actions|
    requires key in Run(opening, actions[..n]).claims && Run(opening, actions[..n]).claims[key].completed
    ensures var stored, t := Run(opening, actions[..n]).claims[key], Run(opening, actions);
            if NeverForgotten(opening, actions, n, key) then key in t.claims && t.claims[key] == stored
            else Gone(t, key, stored.id)
    decreases |actions|
  {
    if n == |actions| {
      assert actions[..n] == actions;
    } else {
      var before, a := actions[..|actions| - 1], actions[|actions| - 1];
      assert before[..n] == actions[..n];
      StoredOrGone(opening, before, n, key);
      RunKeepsInv(opening, before);
      var s := Run(opening, before);
      if NeverForgotten(opening, before, n, key) {
        assert ClaimOk(s, key);
        CompletedClaimIsFinal(s, a, key);
      } else {
        GoneStays(s, a, key, Run(opening, actions[..n]).claims[key].id);
      }
    }
  }

  /** A response stored at some point of a run is the one stored at its end exactly when no
      step in between was the delete of the worker that stored it. */
  lemma StoredResponseLastsIff(opening: int, actions: seq<Action>, n: nat, key: nat)
    requires n <= |actions|
    requires key in Run(opening, actions[..n]).claims && Run(opening, actions[..n]).claims[key].completed
    ensures (key in Run(opening, actions).claims && Run(opening, actions).claims[key] == Run(opening, actions[..n]).claims[key])
        <==> NeverForgotten(opening, actions, n, key)
  {
    StoredOrGone(opening, actions, n, key);
  }

  /** A completion UPDATE that took effect while its reply was lost. */
  predicate LosesCompletion(s: State, a: Action)
  {
    a.Work? && a.i < |s.workers| && a.fault == LostReply && s.workers[a.i].phase.Completing?
  }

  ghost predicate NoLostCompletion(opening: int, actions: seq<Action>)
  {
    forall n :: 0 <= n < |actions| ==> !LosesCompletion(Run(opening, actions[..n]), actions[n])
  }

  /** Nobody is about to delete a completed claim. */
  ghost predicate NoPendingLoss(s: State)
  {
    forall i :: 0 <= i < |s.workers| && s.workers[i].phase.Releasing? && Owns(s, s.workers[i]) ==> !s.claims[s.workers[i].key].completed
  }

  lemma StepKeepsNoPendingLoss(s: State, a: Action)
    requires Inv(s) && NoPendingLoss(s) && !LosesCompletion(s, a)
    ensures NoPendingLoss(Step(s, a))
  {
    var next := Step(s, a);
    forall i | 0 <= i < |next.workers| && next.workers[i].phase.Releasing? && Owns(next, next.workers[i])
      ensures !next.claims[next.workers[i].key].completed
    {
      var key := next.workers[i].key;
      if next.claims[key].completed {
        ReleasingOwnsPending(s, a, i);
      }
    }
  }

  lemma ReleasingOwnsPending(s: State, a: Action, i: nat)
    requires Inv(s) && NoPendingLoss(s) && !LosesCompletion(s, a)
    requires i < |Step(s, a).workers| && Step(s, a).workers[i].phase.Releasing? && Owns(Step(s, a), Step(s, a).workers[i])
    ensures !Step(s, a).claims[Step(s, a).workers[i].key].completed
  {
    if a.Work? && a.i < |s.workers| {
      if a.i == i {
        OwnReleasePending(s, a, i);
      } else {
        OtherReleasePending(s, a, i);
      }
    } else {
      NoWorkNoCompletion(s, a, Step(s, a).workers[i].key);
      assert i < |s.workers| && Step(s, a).workers[i] == s.workers[i];
    }
  }

  /** Only a statement of withIdempotency completes a claim or changes its owner. */
  lemma NoWorkNoCompletion(s: State, a: Action, key: nat)
    requires !(a.Work? && a.i < |s.workers|) && key in Step(s, a).claims
    ensures key in s.claims && Step(s, a).claims[key] == s.claims[key].(lease := Step(s, a).claims[key].lease)
  {
  }

  lemma OwnReleasePending(s: State, a: Action, i: nat)
    requires Inv(s) && NoPendingLoss(s) && !LosesCompletion(s, a) && a.Work? && a.i == i < |s.workers|
    requires Step(s, a).workers[i].phase.Releasing? && Owns(Step(s, a), Step(s, a).workers[i])
    ensures !Step(s, a).claims[Step(s, a).workers[i].key].completed
  {
    assert WorkerOk(s, s.workers[i]);
    if s.workers[i].key in s.claims {
      assert ClaimOk(s, s.workers[i].key);
    }
  }

  lemma OtherReleasePending(s: State, a: Action, i: nat)
    requires Inv(s) && NoPendingLoss(s) && a.Work? && a.i < |s.workers| && i < |s.workers| && a.i != i
    requires s.workers[i].phase.Releasing? && Owns(Step(s, a), s.workers[i]) && Step(s, a).workers[i] == s.workers[i]
    ensures !Step(s, a).claims[s.workers[i].key].completed
  {
    assert WorkerOk(s, s.workers[i]) && WorkerOk(s, s.workers[a.i]);
    if s.workers[i].key in s.claims {
      assert ClaimOk(s, s.workers[i].key);
    }
    assert s.workers[a.i].phase.Leads() ==> s.workers[a.i].phase.token != s.workers[i].phase.token by {
      assert if i < a.i then i < a.i < |s.workers| else a.i < i < |s.workers|;
    }
  }

  lemma {:induction false} RunKeepsNoPendingLoss(opening: int, actions: seq<Action>)
    requires NoLostCompletion(opening, actions)
    ensures NoPendingLoss(Run(opening, actions))
  {
    if actions != [] {
      var before := actions[..|actions| - 1];
      assert forall n :: 0 <= n < |before| ==> before[..n] == actions[..n] && before[n] == actions[n];
      RunKeepsNoPendingLoss(opening, before);
      RunKeepsInv(opening, before);
      StepKeepsNoPendingLoss(Run(opening, before), actions[|actions| - 1]);
    }
  }

  // ---- Two limits of the protocol, by example ----

  lemma RunAppend(opening: int, actions: seq<Action>, a: Action)
    ensures Run(opening, actions + [a]) == Step(Run(opening, actions), a)
  {
    assert (actions + [a])[..|actions|] == actions;
  }

  /** One worker's next statement, appended to a run. */
  lemma Then(opening: int, actions: seq<Action>, a: Action, s: State) returns (longer: seq<Action>, next: State)
    requires Run(opening, actions) == s
    ensures longer == actions + [a] && next == Step(s, a) && Run(opening, longer) == next
  {
    RunAppend(opening, actions, a);
    longer, next := actions + [a], Step(s, a);
  }

  /** The first part of both examples: an order, and a leader about to decide it. */
  lemma OneLeader(delta: int) returns (actions: seq<Action>, s: State)
    ensures Run(0, actions) == s && s.opening == 0 && s.now == 0 && s.nextId == 1 && s.nextToken == 1
    ensures s.books == Books([Order(delta, Pending)], 0)
    ensures s.workers == [Worker(7, Request(0, Approve), Leading(0, 0))]
    ensures s.claims.Keys == {7}
    ensures s.claims[7].(response := Decided) == Claim(0, Request(0, Approve), false, Decided, 0, LEASE_DURATION_MS)
  {
    s := Initial(0);
    actions := [];
    actions, s := Then(0, actions, CreateOrder(delta), s);
    actions, s := Then(0, actions, Arrive(7, Request(0, Approve)), s);
    actions, s := Then(0, actions, Work(0, NoFault), s);
    assert s.claims.Keys == {7};
  }

  /** A kept key does not protect against the opposite decision while the first one
      never completed: an approval whose process dies is overtaken by a rejection under
      the same key, which is applied and answered as a success. */
  lemma OppositeDecisionAfterCrash(delta: int) returns (actions: seq<Action>)
    ensures var s := Run(0, actions);
            && |s.workers| == 2 && s.workers[0].key == s.workers[1].key
            && s.workers[0].request == Request(0, Approve) && s.workers[0].phase == Crashed
            && s.workers[1].request == Request(0, Reject) && s.workers[1].phase == Answered(Decided, false)
            && s.books == Books([Order(delta, Rejected)], 0)
  {
    var s;
    actions, s := OneLeader(delta);
    actions, s := Then(0, actions, Crash(0), s);
    actions, s := Then(0, actions, Tick(LEASE_DURATION_MS + 1), s);
    actions, s := Then(0, actions, Arrive(7, Request(0, Reject)), s);
    actions, s := StaleClaimIsStolen(delta, actions, s);
    actions, s := Then(0, actions, Work(1, NoFault), s);
    actions, s := Then(0, actions, Work(1, NoFault), s);
    actions, s := Then(0, actions, Work(1, NoFault), s);
  }

  lemma StaleClaimIsStolen(delta: int, before: seq<Action>, start: State) returns (actions: seq<Action>, s: State)
    requires Run(0, before) == start && start.books == Books([Order(delta, Pending)], 0)
    requires start.workers == [Worker(7, Request(0, Approve), Crashed), Worker(7, Request(0, Reject), Claiming(0))]
    requires 7 in start.claims && start.claims[7].id == 0 && !start.claims[7].completed && start.claims[7].lease < start.now
    requires start.nextToken == 1
    ensures Run(0, actions) == s && s.books == start.books && 7 in s.claims && s.claims[7].id == 0 && s.claims[7].owner == 1
    ensures !s.claims[7].completed && s.claims[7].lease == s.now + LEASE_DURATION_MS
    ensures s.workers == [Worker(7, Request(0, Approve), Crashed), Worker(7, Request(0, Reject), Leading(0, 1))]
  {
    actions, s := before, start;
    actions, s := Then(0, actions, Work(1, NoFault), s);
    assert s.workers[1].phase == Polling(0, 0);
    actions, s := Then(0, actions, Work(1, NoFault), s);
    assert s.workers[1].phase == Stealing(0, 0, 0);
    actions, s := Then(0, actions, Work(1, NoFault), s);
  }

  /** When the reply to the completion UPDATE is lost, the catch block deletes the
      stored response; the retry runs the handler again and is told 409. */
  lemma LostCompletionForgetsResponse(delta: int) returns (actions: seq<Action>)
    ensures var s := Run(0, actions);
            && |s.workers| == 2 && s.workers[0].key == s.workers[1].key && s.workers[0].request == s.workers[1].request
            && s.workers[0].phase == Failed && s.workers[1].phase == Answered(AlreadyDecided, false)
            && s.books == Books([Order(delta, Approved)], delta)
  {
    var s;
    actions, s := CompletionForgotten(delta);
    actions, s := Then(0, actions, Arrive(7, Request(0, Approve)), s);
    actions, s := Then(0, actions, Work(1, NoFault), s);
    assert s.workers[1].phase == Leading(1, 1);
    actions, s := Then(0, actions, Work(1, NoFault), s);
    actions, s := Then(0, actions, Work(1, NoFault), s);
    actions, s := Then(0, actions, Work(1, NoFault), s);
  }

  lemma CompletionForgotten(delta: int) returns (actions: seq<Action>, s: State)
    ensures Run(0, actions) == s && s.claims == map[] && s.nextId == 1 && s.nextToken == 1
    ensures s.books == Books([Order(delta, Approved)], delta)
    ensures s.workers == [Worker(7, Request(0, Approve), Failed)]
  {
    actions, s := OneLeader(delta);
    actions, s := Then(0, actions, Work(0, NoFault), s);
    actions, s := Then(0, actions, Work(0, NoFault), s);
    actions, s := Then(0, actions, Work(0, LostReply), s);
    assert s.workers[0].phase == Releasing(0, 0) && s.claims[7].completed;
    actions, s := Then(0, actions, Work(0, NoFault), s);
    assert s.claims.Keys == {};
  }
}
