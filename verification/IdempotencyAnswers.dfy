// What the workers of one key are told and may do, over whole runs in which its stored
// response is not deleted (server/src/lib/idempotency.ts), and what that means for the panel's retries
// (client/src/components/ChangeOrdersPanel.tsx).
module IdempotencyAnswers {
  import opened IdempotencyModel
  import opened IdempotencyProofs
  import opened IdempotencyTheorems
  import Client = ChangeOrdersPanel

  // ---- One answer per key ----

  /** A worker that was answered got its own request's stored response; one that was refused
      for its fingerprint finds another request's there. */
  ghost predicate AnswerStored(s: State, w: Worker)
  {
    && (w.phase.Answered? ==>
          && w.key in s.claims && s.claims[w.key].completed
          && s.claims[w.key].fingerprint == w.request && s.claims[w.key].response == w.phase.answer)
    && (w.phase.Conflict? ==> w.key in s.claims && s.claims[w.key].completed && s.claims[w.key].fingerprint != w.request)
  }

  ghost predicate AnswersStored(s: State, key: nat)
  {
    forall i :: 0 <= i < |s.workers| && s.workers[i].key == key ==> AnswerStored(s, s.workers[i])
  }

  /** The catch block deletes the key's claim although its response is stored. */
  predicate ForgetsAnswer(s: State, a: Action, key: nat)
  {
    key in s.claims && s.claims[key].completed && Forgets(s, a, key)
  }

  lemma OwnAnswerStored(s: State, i: nat, fault: Fault)
    requires Inv(s) && i < |s.workers| && AnswerStored(s, s.workers[i])
    ensures AnswerStored(WorkStep(s, i, fault), WorkStep(s, i, fault).workers[i])
  {
    assert WorkerOk(s, s.workers[i]);
    if s.workers[i].phase.Polling? && s.workers[i].phase.poll < POLL_ATTEMPTS {
      FollowerOutcome(s, i, fault);
    }
  }

  lemma OtherAnswerStored(s: State, a: Action, i: nat)
    requires Inv(s) && i < |s.workers| && AnswerStored(s, s.workers[i]) && !ForgetsAnswer(s, a, s.workers[i].key)
    requires !(a.Work? && a.i == i)
    ensures i < |Step(s, a).workers| && AnswerStored(Step(s, a), Step(s, a).workers[i])
  {
    if s.workers[i].phase.Answered? || s.workers[i].phase.Conflict? {
      CompletedClaimIsFinal(s, a, s.workers[i].key);
    }
  }

  /** Workers keep their keys, and a new one has been told nothing. */
  lemma WorkersStay(s: State, a: Action, i: nat)
    requires i < |Step(s, a).workers|
    ensures if i < |s.workers| then Step(s, a).workers[i].key == s.workers[i].key else Step(s, a).workers[i].phase.Claiming?
    ensures a.Work? && a.i == i < |s.workers| ==> Step(s, a) == WorkStep(s, i, a.fault)
  {
  }

  lemma WorkerStaysStored(s: State, a: Action, i: nat, key: nat)
    requires Inv(s) && AnswersStored(s, key) && !ForgetsAnswer(s, a, key) && i < |s.workers| && s.workers[i].key == key
    ensures i < |Step(s, a).workers| && AnswerStored(Step(s, a), Step(s, a).workers[i])
  {
    if a.Work? && a.i == i {
      OwnAnswerStored(s, i, a.fault);
    } else {
      OtherAnswerStored(s, a, i);
    }
  }

  lemma StepKeepsAnswers(s: State, a: Action, key: nat)
    requires Inv(s) && AnswersStored(s, key) && !ForgetsAnswer(s, a, key)
    ensures AnswersStored(Step(s, a), key)
  {
    var next := Step(s, a);
    forall i | 0 <= i < |next.workers| && next.workers[i].key == key
      ensures AnswerStored(next, next.workers[i])
    {
      WorkersStay(s, a, i);
      if i < |s.workers| {
        WorkerStaysStored(s, a, i, key);
      }
    }
  }

  /** No step of the run deletes the key's claim once its response is stored. */
  predicate KeepsAnswer(opening: int, actions: seq<Action>, key: nat)
  {
    actions != [] ==>
      var before := actions[..|actions| - 1];
      KeepsAnswer(opening, before, key) && !ForgetsAnswer(Run(opening, before), actions[|actions| - 1], key)
  }

  /** That is so of every key when no completion loses its reply. */
  lemma {:induction false} NoLostCompletionKeepsAnswers(opening: int, actions: seq<Action>, key: nat)
    requires NoLostCompletion(opening, actions)
    ensures KeepsAnswer(opening, actions, key)
  {
    if actions != [] {
      var before := actions[..|actions| - 1];
      assert forall n :: 0 <= n < |before| ==> before[..n] == actions[..n] && before[n] == actions[n];
      NoLostCompletionKeepsAnswers(opening, before, key);
      RunKeepsNoPendingLoss(opening, before);
    }
  }

  lemma {:induction false} RunKeepsAnswers(opening: int, actions: seq<Action>, key: nat)
    requires KeepsAnswer(opening, actions, key)
    ensures AnswersStored(Run(opening, actions), key)
  {
    if actions != [] {
      var before := actions[..|actions| - 1];
      RunKeepsAnswers(opening, before, key);
      RunKeepsInv(opening, before);
      StepKeepsAnswers(Run(opening, before), actions[|actions| - 1], key);
    }
  }

  /** Any two workers answered under a key whose stored response is never deleted made the same
      request and were told the same; a worker that made another request is not answered, and
      one refused for its fingerprint did make another request than any answered one. */
  lemma OneAnswerPerKey(opening: int, actions: seq<Action>, i: nat, j: nat)
    requires i < |Run(opening, actions).workers| && j < |Run(opening, actions).workers|
    requires Run(opening, actions).workers[i].key == Run(opening, actions).workers[j].key
    requires KeepsAnswer(opening, actions, Run(opening, actions).workers[i].key)
    requires Run(opening, actions).workers[i].phase.Answered?
    ensures var w, v := Run(opening, actions).workers[i], Run(opening, actions).workers[j];
            && (v.phase.Answered? ==> v.request == w.request && v.phase.answer == w.phase.answer)
            && (v.phase.Conflict? ==> v.request != w.request)
  {
    var s := Run(opening, actions);
    RunKeepsAnswers(opening, actions, s.workers[i].key);
    assert AnswerStored(s, s.workers[i]) && AnswerStored(s, s.workers[j]);
  }

  // ---- When a key still lets a decision through ----

  function RunFrom(s: State, actions: seq<Action>): State
  {
    if actions == [] then s else Step(RunFrom(s, actions[..|actions| - 1]), actions[|actions| - 1])
  }

  /** No step of the continuation deletes the key's claim once its response is stored. */
  predicate ForgetsNone(s: State, actions: seq<Action>, key: nat)
  {
    actions != [] ==>
      var before := actions[..|actions| - 1];
      ForgetsNone(s, before, key) && !ForgetsAnswer(RunFrom(s, before), actions[|actions| - 1], key)
  }

  /** A request arrives under the key now, and the continuation decides the order by it and says so. */
  predicate Applies(s: State, key: nat, request: Request, actions: seq<Action>)
  {
    var start := Step(s, Arrive(key, request));
    var t := RunFrom(start, actions);
    && ForgetsNone(start, actions, key)
    && |s.workers| < |t.workers| && t.workers[|s.workers|].phase == Answered(Decided, false)
  }

  predicate Completed(s: State, key: nat)
  {
    key in s.claims && s.claims[key].completed
  }

  /** One more action of the continuation. */
  lemma Onward(s: State, actions: seq<Action>, key: nat, a: Action, t: State) returns (longer: seq<Action>, next: State)
    requires RunFrom(s, actions) == t && ForgetsNone(s, actions, key) && !ForgetsAnswer(t, a, key)
    ensures longer == actions + [a] && next == Step(t, a) && RunFrom(s, longer) == next && ForgetsNone(s, longer, key)
  {
    longer, next := actions + [a], Step(t, a);
    assert longer[..|longer| - 1] == actions;
  }

  /** The newest worker is leading, on its own pending claim. */
  ghost predicate LeadsOwn(t: State, i: nat, key: nat, request: Request)
  {
    && i < |t.workers| && t.workers[i].key == key && t.workers[i].request == request
    && t.workers[i].phase.Leading? && Owns(t, t.workers[i])
  }

  /** Without a completed claim the worker gets to lead: by claiming, or by waiting for the
      lease to pass and stealing. */
  lemma GetsToLead(s: State, key: nat, request: Request) returns (actions: seq<Action>, t: State)
    requires !Completed(s, key)
    ensures var start := Step(s, Arrive(key, request));
            RunFrom(start, actions) == t && ForgetsNone(start, actions, key)
    ensures LeadsOwn(t, |s.workers|, key, request) && t.books == s.books
  {
    var start, i := Step(s, Arrive(key, request)), |s.workers|;
    actions, t := [], start;
    if key in s.claims {
      actions, t := Onward(start, actions, key, Tick(s.claims[key].lease + 1), t);
      actions, t := Onward(start, actions, key, Work(i, NoFault), t);
      assert t.workers[i].phase == Polling(0, 0);
      actions, t := Onward(start, actions, key, Work(i, NoFault), t);
      assert t.workers[i].phase == Stealing(0, 0, s.claims[key].id);
    }
    actions, t := Onward(start, actions, key, Work(i, NoFault), t);
  }

  lemma LeaderDecides(start: State, before: seq<Action>, s: State, i: nat, key: nat, request: Request)
      returns (actions: seq<Action>, t: State)
    requires RunFrom(start, before) == s && ForgetsNone(start, before, key) && LeadsOwn(s, i, key, request)
    requires request.order < |s.books.orders| && s.books.orders[request.order].status == Pending
    ensures RunFrom(start, actions) == t && ForgetsNone(start, actions, key)
    ensures i < |t.workers| && t.workers[i].phase == Answered(Decided, false)
  {
    actions, t := Onward(start, before, key, Work(i, NoFault), s);
    assert t.workers[i].phase == Deciding(s.workers[i].phase.id, s.workers[i].phase.token);
    actions, t := Onward(start, actions, key, Work(i, NoFault), t);
    assert t.workers[i].phase == Completing(s.workers[i].phase.id, s.workers[i].phase.token, Decided);
    actions, t := Onward(start, actions, key, Work(i, NoFault), t);
  }

  /** The worker is held off by a completed claim: it neither leads nor answers with a decision of its own. */
  ghost predicate HeldOff(s: State, i: nat, key: nat)
  {
    && Completed(s, key) && i < |s.workers| && s.workers[i].key == key
    && !s.workers[i].phase.Leads() && (s.workers[i].phase.Answered? ==> s.workers[i].phase.replayed)
  }

  lemma StepKeepsHeldOff(s: State, a: Action, i: nat, key: nat)
    requires Inv(s) && HeldOff(s, i, key) && !ForgetsAnswer(s, a, key)
    ensures HeldOff(Step(s, a), i, key)
  {
    CompletedClaimIsFinal(s, a, key);
    if a.Work? && a.i == i {
      LeadsExactlyWhen(s, i, a.fault);
    }
  }

  lemma {:induction false} StaysHeldOff(s: State, actions: seq<Action>, i: nat, key: nat)
    requires Inv(s) && HeldOff(s, i, key) && ForgetsNone(s, actions, key)
    ensures var t := RunFrom(s, actions); Inv(t) && HeldOff(t, i, key)
  {
    if actions != [] {
      var before, a := actions[..|actions| - 1], actions[|actions| - 1];
      StaysHeldOff(s, before, i, key);
      var t := RunFrom(s, before);
      StepKeepsHeldOff(t, a, i, key);
      StepKeepsInv(t, a);
    }
  }

  /** In every run, while an order is pending, a request under a key, whichever decision it
      carries and whatever the key was used for, can still come to be applied and answered as a
      success, without a stored response of the key being deleted first, exactly when the key
      has no completed claim. */
  lemma KeyGuardsIff(opening: int, before: seq<Action>, key: nat, request: Request)
    requires request.order < |Run(opening, before).books.orders|
    requires Run(opening, before).books.orders[request.order].status == Pending
    ensures (exists actions :: Applies(Run(opening, before), key, request, actions)) <==> !Completed(Run(opening, before), key)
  {
    var s := Run(opening, before);
    var start := Step(s, Arrive(key, request));
    RunKeepsInv(opening, before);
    if Completed(s, key) {
      StepKeepsInv(s, Arrive(key, request));
      forall actions | ForgetsNone(start, actions, key)
        ensures !Applies(s, key, request, actions)
      {
        StaysHeldOff(start, actions, |s.workers|, key);
      }
    } else {
      var actions, t := GetsToLead(s, key, request);
      actions, t := LeaderDecides(start, actions, t, |s.workers|, key, request);
      assert Applies(s, key, request, actions);
    }
  }

  // ---- From the panel's click to the answer ----

  /** The worker serves the click at position `n` of the panel's events. */
  ghost predicate Serves(w: Worker, events: seq<Client.Event>, n: nat)
    requires n < |events| && events[n].Click?
  {
    w.key == Client.Sent(events, n) && w.request.order == events[n].order
  }

  /** A second click on an order, with no success seen in between, carries the first one's
      key: if both get an answer it is the same answer to the same decision, and if the
      first was answered the opposite decision is not. */
  lemma RetryReplays(events: seq<Client.Event>, n: nat, m: nat, opening: int, actions: seq<Action>, i: nat, j: nat)
    requires n < m < |events| && events[n].Click? && events[m].Click? && events[n].order == events[m].order
    requires !Client.SettledBetween(events, events[n].order, n, m)
    requires KeepsAnswer(opening, actions, Client.Sent(events, n))
    requires i < |Run(opening, actions).workers| && j < |Run(opening, actions).workers|
    requires Serves(Run(opening, actions).workers[i], events, n) && Serves(Run(opening, actions).workers[j], events, m)
    ensures var w, v := Run(opening, actions).workers[i], Run(opening, actions).workers[j];
            && w.key == v.key
            && (w.phase.Answered? && v.phase.Answered? ==> v.request == w.request && v.phase.answer == w.phase.answer)
            && (w.phase.Answered? && v.request.decision != w.request.decision ==> !v.phase.Answered?)
  {
    Client.SameKeyIffRetry(events, n, m);
    if Run(opening, actions).workers[i].phase.Answered? {
      OneAnswerPerKey(opening, actions, i, j);
    }
  }
}
