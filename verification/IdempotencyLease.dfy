// How long a leader is safe: from the moment it claims, steals or renews, its claim is its own
// for the whole lease (server/src/lib/idempotency.ts).
module IdempotencyLease {
  import opened IdempotencyModel
  import opened IdempotencyProofs
  import opened IdempotencyTheorems
  import opened IdempotencyAnswers

  /** Time that passes during a continuation. */
  function Elapsed(actions: seq<Action>): nat
  {
    if actions == [] then 0
    else Elapsed(actions[..|actions| - 1]) + if actions[|actions| - 1].Tick? then actions[|actions| - 1].ms else 0
  }

  /** At work as the leader: not answered, not in the catch block, not crashed. */
  predicate AtWork(s: State, i: nat)
  {
    i < |s.workers| && s.workers[i].phase.Leads() && !s.workers[i].phase.Releasing?
  }

  predicate StaysAtWork(s: State, actions: seq<Action>, i: nat)
  {
    AtWork(RunFrom(s, actions), i) && (actions != [] ==> StaysAtWork(s, actions[..|actions| - 1], i))
  }

  /** The worker owns its key's pending claim, whose lease runs at least until then. */
  ghost predicate HoldsUntil(s: State, i: nat, deadline: nat)
  {
    && AtWork(s, i) && Owns(s, s.workers[i])
    && !s.claims[s.workers[i].key].completed && deadline <= s.claims[s.workers[i].key].lease
  }

  lemma TimePasses(s: State, actions: seq<Action>)
    ensures RunFrom(s, actions).now == s.now + Elapsed(actions)
  {
    if actions != [] {
      TimePasses(s, actions[..|actions| - 1]);
    }
  }

  lemma OwnStepHolds(s: State, a: Action, i: nat, deadline: nat)
    requires Inv(s) && HoldsUntil(s, i, deadline) && s.now + LEASE_DURATION_MS >= deadline
    requires a == Beat(i) || (a.Work? && a.i == i)
    requires AtWork(Step(s, a), i)
    ensures HoldsUntil(Step(s, a), i, deadline)
  {
    assert WorkerOk(s, s.workers[i]) && ClaimOk(s, s.workers[i].key);
  }

  lemma StepHolds(s: State, a: Action, i: nat, deadline: nat)
    requires Inv(s) && HoldsUntil(s, i, deadline) && s.now <= deadline <= s.now + LEASE_DURATION_MS
    requires AtWork(Step(s, a), i)
    ensures HoldsUntil(Step(s, a), i, deadline)
  {
    if a == Beat(i) || (a.Work? && a.i == i) {
      OwnStepHolds(s, a, i, deadline);
    } else {
      LiveHolderKeepsClaim(s, a, i);
    }
  }

  lemma {:induction false} HoldsThroughLease(s: State, actions: seq<Action>, i: nat, deadline: nat)
    requires Inv(s) && HoldsUntil(s, i, deadline) && deadline <= s.now + LEASE_DURATION_MS
    requires s.now + Elapsed(actions) <= deadline && StaysAtWork(s, actions, i)
    ensures Inv(RunFrom(s, actions)) && HoldsUntil(RunFrom(s, actions), i, deadline)
  {
    if actions != [] {
      var before, a := actions[..|actions| - 1], actions[|actions| - 1];
      HoldsThroughLease(s, before, i, deadline);
      TimePasses(s, before);
      StepHolds(RunFrom(s, before), a, i, deadline);
      StepKeepsInv(RunFrom(s, before), a);
    }
  }

  /** No claim is good for more than one lease from now: a holder that fell silent can be
      overtaken once that time is over. */
  lemma {:induction false} NoLeaseBeyondOne(opening: int, actions: seq<Action>, key: nat)
    requires key in Run(opening, actions).claims
    ensures Run(opening, actions).claims[key].lease <= Run(opening, actions).now + LEASE_DURATION_MS
  {
    var before, a := actions[..|actions| - 1], actions[|actions| - 1];
    if key in Run(opening, before).claims {
      NoLeaseBeyondOne(opening, before, key);
    }
    StepLease(Run(opening, before), a, key);
  }

  lemma StepLease(s: State, a: Action, key: nat)
    requires key in Step(s, a).claims
    requires key in s.claims ==> s.claims[key].lease <= s.now + LEASE_DURATION_MS
    ensures Step(s, a).claims[key].lease <= Step(s, a).now + LEASE_DURATION_MS
  {
  }

  lemma NewLeaderHolds(s: State, a: Action, i: nat)
    requires i < |s.workers| && !s.workers[i].phase.Leads()
    requires i < |Step(s, a).workers| && Step(s, a).workers[i].phase.Leads()
    ensures HoldsUntil(Step(s, a), i, Step(s, a).now + LEASE_DURATION_MS)
  {
    assert a.Work? && a.i == i;
  }

  /** A worker that comes to lead, by a fresh claim or a steal, still owns its pending claim
      after whatever the others do for the length of a lease, as long as it stays at work. */
  lemma LeaderIsSafeForALease(opening: int, before: seq<Action>, a: Action, i: nat, actions: seq<Action>)
    requires i < |Run(opening, before).workers| && !Run(opening, before).workers[i].phase.Leads()
    requires i < |Step(Run(opening, before), a).workers| && Step(Run(opening, before), a).workers[i].phase.Leads()
    requires Elapsed(actions) <= LEASE_DURATION_MS && StaysAtWork(Step(Run(opening, before), a), actions, i)
    ensures var t := RunFrom(Step(Run(opening, before), a), actions);
            i < |t.workers| && t.workers[i].phase.Leads() && Owns(t, t.workers[i]) && !t.claims[t.workers[i].key].completed
  {
    var s := Run(opening, before);
    RunKeepsInv(opening, before);
    StepKeepsInv(s, a);
    NewLeaderHolds(s, a, i);
    HoldsThroughLease(Step(s, a), actions, i, s.now + LEASE_DURATION_MS);
  }

  lemma BeatHolds(s: State, i: nat)
    requires Inv(s) && AtWork(s, i) && Owns(s, s.workers[i])
    ensures HoldsUntil(Step(s, Beat(i)), i, s.now + LEASE_DURATION_MS)
  {
    assert WorkerOk(s, s.workers[i]) && ClaimOk(s, s.workers[i].key);
  }

  /** And a heartbeat of a worker that owns its claim gives it another lease from then on. */
  lemma HeartbeatIsSafeForALease(opening: int, before: seq<Action>, i: nat, actions: seq<Action>)
    requires AtWork(Run(opening, before), i) && Owns(Run(opening, before), Run(opening, before).workers[i])
    requires Elapsed(actions) <= LEASE_DURATION_MS && StaysAtWork(Step(Run(opening, before), Beat(i)), actions, i)
    ensures var t := RunFrom(Step(Run(opening, before), Beat(i)), actions);
            i < |t.workers| && t.workers[i].phase.Leads() && Owns(t, t.workers[i]) && !t.claims[t.workers[i].key].completed
  {
    var s := Run(opening, before);
    RunKeepsInv(opening, before);
    StepKeepsInv(s, Beat(i));
    BeatHolds(s, i);
    HoldsThroughLease(Step(s, Beat(i)), actions, i, s.now + LEASE_DURATION_MS);
  }
}
