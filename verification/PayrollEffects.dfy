// What the payroll routes accept and what they leave, said of the rows themselves: a period's
// way to being posted, and what a post, a reversal and a change write.
module PayrollEffects {
  import opened Payroll
  import opened PayrollProofs
  import Money

  // ---- A period's way ----

  predicate HasAllocation(s: State, period: nat) {
    exists k :: 0 <= k < |s.allocations| && s.allocations[k].Some? && s.allocations[k].value.period == period
  }

  /** Exactly how a period's status moves, and by which request. */
  lemma PeriodMoves(s: State, a: Action, period: nat)
    requires Inv(s) && Balanced(s) && period in s.periods
    ensures period in Step(s, a).periods
    ensures var was, now := s.periods[period], Step(s, a).periods[period];
            now == match was
                   case Draft => if a == DoSubmit(period, true) then Submitted else Draft
                   case Rejected => if a == DoSubmit(period, true) then Submitted else Rejected
                   case Submitted =>
                     if a == DoReview(period, true) then Approved else if a == DoReview(period, false) then Rejected else Submitted
                   case Approved => if a == DoPost(period) && HasAllocation(s, period) then Posted else Approved
                   case Posted => Posted
  {
    if a.DoPost? {
      if Post(s, a.period).1 == Ok {
        PostUpToPeriods(s.(periods := s.periods[a.period := Posted]), a.period, |s.allocations|);
      }
      if a.period in s.periods && s.periods[a.period] == Approved {
        AllocationIsToPost(s, a.period);
      }
    }
  }

  lemma {:induction false} PostUpToPeriods(s: State, period: nat, k: nat)
    requires k <= |s.allocations|
    ensures PostUpTo(s, period, k).periods == s.periods && PostUpTo(s, period, k).allocations == s.allocations
    ensures s.expenses <= PostUpTo(s, period, k).expenses
    ensures |PostUpTo(s, period, k).expenses| - |s.expenses| == |PostUpTo(s, period, k).postings| - |s.postings|
  {
    if k > 0 {
      PostUpToPeriods(s, period, k - 1);
    }
  }

  lemma NewPeriodIsDraft(s: State, a: Action, period: nat)
    requires period !in s.periods && period in Step(s, a).periods
    ensures Step(s, a).periods[period] == Draft
  {
    if a.DoPost? && Post(s, a.period).1 == Ok {
      PostUpToPeriods(s.(periods := s.periods[a.period := Posted]), a.period, |s.allocations|);
    }
  }

  predicate Passed(s: State, period: nat) {
    period in s.periods && (s.periods[period] == Approved || s.periods[period] == Posted)
  }

  /** The n-th action is the review that approved the period. */
  predicate ApprovedAt(actions: seq<Action>, period: nat, n: nat) {
    && n < |actions| && actions[n] == DoReview(period, true)
    && period in Run(EMPTY, actions[..n]).periods && Run(EMPTY, actions[..n]).periods[period] == Submitted
    && period in Run(EMPTY, actions[..n + 1]).periods && Run(EMPTY, actions[..n + 1]).periods[period] == Approved
  }

  lemma ApprovedEarlier(actions: seq<Action>, m: nat, period: nat, n: nat)
    requires m <= |actions| && ApprovedAt(actions[..m], period, n)
    ensures ApprovedAt(actions, period, n)
  {
    assert actions[..m][..n] == actions[..n] && actions[..m][..n + 1] == actions[..n + 1];
  }

  lemma ApprovedLast(actions: seq<Action>, period: nat)
    requires actions != [] && Passed(Run(EMPTY, actions), period) && !Passed(Run(EMPTY, actions[..|actions| - 1]), period)
    ensures ApprovedAt(actions, period, |actions| - 1)
  {
    var s, a := Run(EMPTY, actions[..|actions| - 1]), actions[|actions| - 1];
    RunKeeps(actions[..|actions| - 1]);
    if period in s.periods {
      PeriodMoves(s, a, period);
    } else {
      NewPeriodIsDraft(s, a, period);
    }
    assert actions[..|actions| - 1 + 1] == actions;
  }

  lemma {:induction false} PassedWasApproved(actions: seq<Action>, period: nat) returns (n: nat)
    requires Passed(Run(EMPTY, actions), period)
    ensures ApprovedAt(actions, period, n)
  {
    if Passed(Run(EMPTY, actions[..|actions| - 1]), period) {
      n := PassedWasApproved(actions[..|actions| - 1], period);
      ApprovedEarlier(actions, |actions| - 1, period, n);
    } else {
      ApprovedLast(actions, period);
      n := |actions| - 1;
    }
  }

  /** No payroll is booked that was not approved: every posting row's period was submitted and
      then accepted by a review. */
  lemma PostedWasApproved(actions: seq<Action>, i: nat) returns (n: nat)
    requires i < |Run(EMPTY, actions).postings|
    ensures ApprovedAt(actions, Run(EMPTY, actions).postings[i].period, n)
  {
    RunKeeps(actions);
    assert RowOk(Run(EMPTY, actions), Run(EMPTY, actions).postings[i]);
    n := PassedWasApproved(actions, Run(EMPTY, actions).postings[i].period);
  }

  // ---- What the totals are sums of ----

  function Costs(expenses: seq<Option<Expense>>, project: nat): (costs: seq<int>)
    ensures |costs| == |expenses|
    ensures forall k :: 0 <= k < |costs| ==>
              costs[k] == if expenses[k].Some? && expenses[k].value.project == project then expenses[k].value.amount else 0
  {
    seq(|expenses|, k requires 0 <= k < |expenses| =>
      if expenses[k].Some? && expenses[k].value.project == project then expenses[k].value.amount else 0)
  }

  /** A project's actual cost is the sum of its expenses. */
  lemma {:induction false} SpentIsSum(expenses: seq<Option<Expense>>, project: nat)
    ensures Spent(expenses, project) == Money.Sum(Costs(expenses, project))
  {
    if expenses != [] {
      var n := |expenses| - 1;
      SpentIsSum(expenses[..n], project);
      Money.SumOneMore(Costs(expenses[..n], project), Costs(expenses, project)[n]);
      assert Costs(expenses, project) == Costs(expenses[..n], project) + [Costs(expenses, project)[n]];
    }
  }

  // ---- Posting ----

  /** The allocation's cost is booked: a posting row of the period, and an expense of its
      amount on its project. */
  predicate BookedBy(s: State, k: nat, row: Row) {
    && k < |s.allocations| && s.allocations[k].Some?
    && row.kind == Posting && row.allocation == k && row.period == s.allocations[k].value.period
    && row.expense < |s.expenses|
    && s.expenses[row.expense] == Some(Expense(s.allocations[k].value.project, s.allocations[k].value.amount))
  }

  /** A post is accepted exactly for an approved period that has an allocation; it then books
      every allocation of the period, and no other period changes. */
  ghost predicate PostsPeriod(before: State, period: nat, outcome: Outcome, after: State) {
    && (outcome == NotFound <==> period !in before.periods)
    && (outcome == Conflict <==> period in before.periods && before.periods[period] != Approved)
    && (outcome == Ok <==> period in before.periods && before.periods[period] == Approved && HasAllocation(before, period))
    && (outcome != Ok ==> after == before)
    && (outcome == Ok ==>
          && after.periods == before.periods[period := Posted] && after.allocations == before.allocations
          && before.postings <= after.postings && before.expenses <= after.expenses
          && |after.expenses| - |before.expenses| == |after.postings| - |before.postings|
          && forall k :: 0 <= k < |before.allocations| && before.allocations[k].Some? && before.allocations[k].value.period == period ==>
               exists i :: |before.postings| <= i < |after.postings| && BookedBy(after, k, after.postings[i]))
  }

  lemma AllocationIsToPost(s: State, period: nat)
    requires Inv(s) && period in s.periods && s.periods[period] == Approved
    ensures forall k :: 0 <= k < |s.allocations| && s.allocations[k].Some? && s.allocations[k].value.period == period ==> ToPost(s, period, k)
  {
    forall k | 0 <= k < |s.allocations| && s.allocations[k].Some? && s.allocations[k].value.period == period
      ensures ToPost(s, period, k)
    {
      NotYetPosted(s, k);
    }
  }

  lemma PostedAllocationIsBooked(s: State, t: State, period: nat, k: nat)
    requires Inv(t) && s.postings <= t.postings && t.allocations == s.allocations
    requires k < |s.allocations| && s.allocations[k].Some? && s.allocations[k].value.period == period
    requires HasPosting(t.postings, k) && !HasPosting(s.postings, k)
    ensures exists i :: |s.postings| <= i < |t.postings| && BookedBy(t, k, t.postings[i])
  {
    assert forall j :: 0 <= j < |s.postings| ==> s.postings[j] == t.postings[j];
    var i :| 0 <= i < |t.postings| && t.postings[i].kind == Posting && t.postings[i].allocation == k;
    assert RowOk(t, t.postings[i]);
    assert BookedBy(t, k, t.postings[i]);
  }

  lemma PostEffect(s: State, period: nat)
    requires Inv(s) && Balanced(s)
    ensures PostsPeriod(s, period, Post(s, period).1, Post(s, period).0)
  {
    if period in s.periods && s.periods[period] == Approved {
      AllocationIsToPost(s, period);
      if Post(s, period).1 == Ok {
        var u, t := s.(periods := s.periods[period := Posted]), Post(s, period).0;
        PostUpToPeriods(u, period, |s.allocations|);
        PeriodChangeKeeps(s, period, Posted);
        PostUpToKeeps(u, period, |s.allocations|);
        forall k | 0 <= k < |s.allocations| && s.allocations[k].Some? && s.allocations[k].value.period == period
          ensures exists i :: |s.postings| <= i < |t.postings| && BookedBy(t, k, t.postings[i])
        {
          assert ToPost(u, period, k);
          PostedAllocationIsBooked(s, t, period, k);
        }
      }
    }
  }
}
