// No request goes on for ever: whatever the others do and whatever fails, a worker is done
// after a bounded number of its own statements (server/src/lib/idempotency.ts:191-276).
module IdempotencyProgress {
  import opened IdempotencyModel

  /** Answered, refused, failed or crashed. */
  predicate Over(phase: Phase)
  {
    phase.Answered? || phase.Conflict? || phase.Failed? || phase.Crashed?
  }

  /** Statements of one attempt: its insert, two for each poll, and the read that gives up. */
  const ATTEMPT: nat := 2 * POLL_ATTEMPTS + 3

  /** How many statements a worker has left at most. */
  function Remaining(phase: Phase): nat
  {
    match phase
    case Claiming(attempt) => 5 + if attempt < CLAIM_ATTEMPTS then (CLAIM_ATTEMPTS - attempt) * ATTEMPT else 0
    case Polling(attempt, poll) => 6 + Further(attempt) + 2 * Left(poll)
    case Stealing(attempt, poll, _) => 5 + Further(attempt) + 2 * Left(poll)
    case Leading(_, _) => 4
    case Deciding(_, _) => 3
    case Completing(_, _, _) => 2
    case Releasing(_, _) => 1
    case _ => 0
  }

  function Further(attempt: nat): nat
  {
    if attempt < CLAIM_ATTEMPTS then (CLAIM_ATTEMPTS - attempt - 1) * ATTEMPT else 0
  }

  function Left(poll: nat): nat
  {
    if poll < POLL_ATTEMPTS then POLL_ATTEMPTS - poll else 0
  }

  /** Nobody polls after its last poll or last attempt. */
  predicate InBounds(phase: Phase)
  {
    match phase
    case Claiming(attempt) => attempt <= CLAIM_ATTEMPTS
    case Polling(attempt, poll) => attempt < CLAIM_ATTEMPTS && poll <= POLL_ATTEMPTS
    case Stealing(attempt, poll, _) => attempt < CLAIM_ATTEMPTS && poll < POLL_ATTEMPTS
    case _ => true
  }

  lemma AttemptsLeft(attempt: nat)
    requires attempt < CLAIM_ATTEMPTS
    ensures (CLAIM_ATTEMPTS - attempt) * ATTEMPT == Further(attempt) + ATTEMPT
    ensures attempt + 1 < CLAIM_ATTEMPTS ==> Further(attempt) == (CLAIM_ATTEMPTS - (attempt + 1)) * ATTEMPT
    ensures attempt + 1 == CLAIM_ATTEMPTS ==> Further(attempt) == 0
  {
  }

  lemma OwnStepShortens(s: State, i: nat, fault: Fault)
    requires i < |s.workers| && InBounds(s.workers[i].phase) && !Over(s.workers[i].phase)
    ensures InBounds(WorkStep(s, i, fault).workers[i].phase)
    ensures Remaining(WorkStep(s, i, fault).workers[i].phase) < Remaining(s.workers[i].phase)
  {
    match s.workers[i].phase
    case Claiming(attempt) =>
      if attempt < CLAIM_ATTEMPTS {
        AttemptsLeft(attempt);
      }
    case Polling(attempt, poll) => AttemptsLeft(attempt);
    case _ =>
  }

  /** The statements worker `i` has made before it was done. */
  function Statements(opening: int, actions: seq<Action>, i: nat): nat
  {
    if actions == [] then 0
    else
      var before, a := actions[..|actions| - 1], actions[|actions| - 1];
      var s := Run(opening, before);
      Statements(opening, before, i) + if a.Work? && a.i == i < |s.workers| && !Over(s.workers[i].phase) then 1 else 0
  }

  lemma StepOfAnother(s: State, a: Action, i: nat)
    requires i < |s.workers| && !(a.Work? && a.i == i)
    ensures i < |Step(s, a).workers| && (Step(s, a).workers[i] == s.workers[i] || Step(s, a).workers[i].phase == Crashed)
  {
  }

  lemma NewWorker(s: State, a: Action, i: nat)
    requires |s.workers| <= i < |Step(s, a).workers|
    ensures Step(s, a).workers[i].phase == Claiming(0)
  {
  }

  lemma {:induction false} StatementsAndRemaining(opening: int, actions: seq<Action>, i: nat)
    ensures i >= |Run(opening, actions).workers| ==> Statements(opening, actions, i) == 0
    ensures i < |Run(opening, actions).workers| ==>
              && InBounds(Run(opening, actions).workers[i].phase)
              && Statements(opening, actions, i) + Remaining(Run(opening, actions).workers[i].phase) <= Remaining(Claiming(0))
  {
    if actions != [] {
      var before, a := actions[..|actions| - 1], actions[|actions| - 1];
      var s := Run(opening, before);
      StatementsAndRemaining(opening, before, i);
      if i >= |s.workers| {
        if i < |Step(s, a).workers| {
          NewWorker(s, a, i);
        }
      } else if a.Work? && a.i == i {
        if !Over(s.workers[i].phase) {
          OwnStepShortens(s, i, a.fault);
        }
      } else {
        StepOfAnother(s, a, i);
      }
    }
  }

  /** In every run, each request makes at most so many statements: three attempts of an insert
      and forty polls, each perhaps with a steal, and the five of a leader. */
  lemma EveryRequestEnds(opening: int, actions: seq<Action>, i: nat)
    ensures Statements(opening, actions, i) <= 5 + CLAIM_ATTEMPTS * (2 * POLL_ATTEMPTS + 3)
  {
    StatementsAndRemaining(opening, actions, i);
  }
}
