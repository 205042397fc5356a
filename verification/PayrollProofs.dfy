// The posted ledger balances in every run (server/src/db/schema.ts:3261-3321).
module PayrollProofs {
  import opened Payroll

  // ---- Frames of the three totals ----

  lemma ReferencedAppend(postings: seq<Row>, row: Row, expense: nat)
    ensures IsReferenced(postings + [row], expense) <==> IsReferenced(postings, expense) || row.expense == expense
  {
    var after := postings + [row];
    if IsReferenced(postings, expense) {
      var i :| 0 <= i < |postings| && postings[i].expense == expense;
      assert after[i] == postings[i];
    }
    assert after[|postings|] == row;
  }

  lemma PostingAppend(postings: seq<Row>, row: Row, allocation: nat)
    ensures HasPosting(postings + [row], allocation) <==>
            HasPosting(postings, allocation) || (row.kind == Posting && row.allocation == allocation)
    ensures IsReversed(postings + [row], allocation) <==>
            IsReversed(postings, allocation) || (row.kind.Reversal? && row.allocation == allocation)
  {
    var after := postings + [row];
    if HasPosting(postings, allocation) {
      var i :| 0 <= i < |postings| && postings[i].kind == Posting && postings[i].allocation == allocation;
      assert after[i] == postings[i];
    }
    if IsReversed(postings, allocation) {
      var i :| 0 <= i < |postings| && postings[i].kind.Reversal? && postings[i].allocation == allocation;
      assert after[i] == postings[i];
    }
    assert after[|postings|] == row;
  }

  lemma {:induction false} ManualIgnoresNewRow(expenses: seq<Option<Expense>>, postings: seq<Row>, row: Row, project: nat)
    requires row.expense >= |expenses|
    ensures Manual(expenses, postings + [row], project) == Manual(expenses, postings, project)
  {
    if expenses != [] {
      var n := |expenses| - 1;
      ReferencedAppend(postings, row, n);
      ManualIgnoresNewRow(expenses[..n], postings, row, project);
    }
  }

  lemma {:induction false} DeletedExpense(expenses: seq<Option<Expense>>, postings: seq<Row>, k: nat, project: nat)
    requires k < |expenses| && !IsReferenced(postings, k)
    ensures Spent(expenses[k := None], project) == Spent(expenses, project) - Amount(expenses[k], project)
    ensures Manual(expenses[k := None], postings, project) == Manual(expenses, postings, project) - Amount(expenses[k], project)
  {
    var n := |expenses| - 1;
    if k < n {
      assert expenses[k := None][..n] == expenses[..n][k := None];
      DeletedExpense(expenses[..n], postings, k, project);
    } else {
      assert expenses[k := None][..n] == expenses[..n];
    }
  }

  lemma {:induction false} LedgerIgnores(postings: seq<Row>, expenses: seq<Option<Expense>>, after: seq<Option<Expense>>, scope: Scope)
    requires |expenses| <= |after|
    requires forall i :: 0 <= i < |postings| ==>
                           postings[i].expense < |expenses| && after[postings[i].expense] == expenses[postings[i].expense]
    ensures Ledger(postings, after, scope) == Ledger(postings, expenses, scope)
  {
    if postings != [] {
      var n := |postings| - 1;
      assert forall i :: 0 <= i < n ==> postings[..n][i] == postings[i];
      LedgerIgnores(postings[..n], expenses, after, scope);
    }
  }

  /** Rows of one allocation change the contributions by the change of that allocation. */
  lemma {:induction false} ContributionsChange(allocations: seq<Option<Allocation>>, before: seq<Row>, after: seq<Row>, k: nat, scope: Scope)
    requires forall j: nat :: j != k ==> HasPosting(before, j) == HasPosting(after, j) && IsReversed(before, j) == IsReversed(after, j)
    ensures Contributions(allocations, after, scope) - Contributions(allocations, before, scope) ==
            if k < |allocations|
            then Contribution(allocations[k], k, after, scope) - Contribution(allocations[k], k, before, scope) else 0
  {
    if allocations != [] {
      var n := |allocations| - 1;
      ContributionsChange(allocations[..n], before, after, k, scope);
    }
  }

  lemma {:induction false} ContributionsIgnore(allocations: seq<Option<Allocation>>, k: nat, a: Option<Allocation>, postings: seq<Row>, scope: Scope)
    requires k < |allocations| && !HasPosting(postings, k)
    ensures Contributions(allocations[k := a], postings, scope) == Contributions(allocations, postings, scope)
  {
    var n := |allocations| - 1;
    if k < n {
      assert allocations[k := a][..n] == allocations[..n][k := a];
      ContributionsIgnore(allocations[..n], k, a, postings, scope);
    } else {
      assert allocations[k := a][..n] == allocations[..n];
    }
  }

  // ---- One row booked ----

  predicate Bookable(s: State, row: Row, expense: Expense) {
    && row.expense == |s.expenses|
    && RowOk(s.(expenses := s.expenses + [Some(expense)]), row)
    && !IsReversed(s.postings, row.allocation)
    && match row.kind
       case Posting => !HasPosting(s.postings, row.allocation)
       case Reversal(of) =>
         of < |s.postings| && s.postings[of].kind == Posting && s.postings[of].allocation == row.allocation
  }

  lemma BookKeepsLinked(s: State, row: Row, expense: Expense, next: State)
    requires Inv(s) && Bookable(s, row, expense)
    requires next == Book(s, row.period, row.allocation, expense, row.kind)
    ensures Linked(next) && next.postings == s.postings + [row]
  {
    forall i | 0 <= i < |next.postings|
      ensures RowOk(next, next.postings[i])
    {
      if i < |s.postings| {
        assert next.postings[i] == s.postings[i] && RowOk(s, s.postings[i]);
      }
    }
  }

  lemma BookKeepsUnique(s: State, row: Row, expense: Expense)
    requires Inv(s) && Bookable(s, row, expense)
    ensures Unique(s.postings + [row])
  {
    var after := s.postings + [row];
    forall i, j | 0 <= i < j < |after|
      ensures after[i].expense != after[j].expense
      ensures after[i].kind == Posting && after[j].kind == Posting ==> after[i].allocation != after[j].allocation
      ensures after[i].kind.Reversal? ==> after[i].kind != after[j].kind
    {
      assert after[i] == s.postings[i] && RowOk(s, s.postings[i]);
      if j < |s.postings| {
        assert after[j] == s.postings[j];
      }
    }
  }

  lemma BookKeepsProjectBalance(s: State, row: Row, expense: Expense, next: State, project: nat)
    requires Inv(s) && Balanced(s) && Bookable(s, row, expense)
    requires next == Book(s, row.period, row.allocation, expense, row.kind)
    ensures Spent(next.expenses, project) == Manual(next.expenses, next.postings, project) + Ledger(next.postings, next.expenses, OfProject(project))
  {
    var n := |s.expenses|;
    assert next.expenses[..n] == s.expenses && next.postings[..|s.postings|] == s.postings;
    ReferencedAppend(s.postings, row, n);
    ManualIgnoresNewRow(s.expenses, s.postings, row, project);
    assert forall i :: 0 <= i < |s.postings| ==> RowOk(s, s.postings[i]);
    LedgerIgnores(s.postings, s.expenses, next.expenses, OfProject(project));
  }

  lemma BookKeepsScopeBalance(s: State, row: Row, expense: Expense, next: State, scope: Scope)
    requires Inv(s) && Balanced(s) && Bookable(s, row, expense)
    requires next == Book(s, row.period, row.allocation, expense, row.kind)
    ensures Ledger(next.postings, next.expenses, scope) == Contributions(next.allocations, next.postings, scope)
  {
    assert next.postings[..|s.postings|] == s.postings;
    assert forall i :: 0 <= i < |s.postings| ==> RowOk(s, s.postings[i]);
    LedgerIgnores(s.postings, s.expenses, next.expenses, scope);
    forall j: nat
      ensures HasPosting(next.postings, j) <==> HasPosting(s.postings, j) || (row.kind == Posting && row.allocation == j)
      ensures IsReversed(next.postings, j) <==> IsReversed(s.postings, j) || (row.kind.Reversal? && row.allocation == j)
    {
      PostingAppend(s.postings, row, j);
    }
    ContributionsChange(s.allocations, s.postings, next.postings, row.allocation, scope);
    if row.kind.Reversal? {
      assert HasPosting(s.postings, row.allocation) by { assert s.postings[row.kind.of].kind == Posting; }
    }
  }

  lemma BookKeeps(s: State, row: Row, expense: Expense, next: State)
    requires Inv(s) && Balanced(s) && Bookable(s, row, expense)
    requires next == Book(s, row.period, row.allocation, expense, row.kind)
    ensures Inv(next) && Balanced(next) && next.postings == s.postings + [row]
  {
    BookKeepsLinked(s, row, expense, next);
    BookKeepsUnique(s, row, expense);
    forall project
      ensures Spent(next.expenses, project) == Manual(next.expenses, next.postings, project) + Ledger(next.postings, next.expenses, OfProject(project))
    {
      BookKeepsProjectBalance(s, row, expense, next, project);
    }
    forall scope
      ensures Ledger(next.postings, next.expenses, scope) == Contributions(next.allocations, next.postings, scope)
    {
      BookKeepsScopeBalance(s, row, expense, next, scope);
    }
  }

  /** An allocation without a posting has no reversal either. */
  lemma NoReversalWithoutPosting(s: State, allocation: nat)
    requires Inv(s)
    ensures IsReversed(s.postings, allocation) ==> HasPosting(s.postings, allocation)
  {
    if IsReversed(s.postings, allocation) {
      var i :| 0 <= i < |s.postings| && s.postings[i].kind.Reversal? && s.postings[i].allocation == allocation;
      assert s.postings[s.postings[i].kind.of].kind == Posting;
    }
  }

  /** With one posting per allocation, an unreversed posting is an unreversed allocation. */
  lemma ReversedIff(s: State, posting: nat)
    requires Inv(s) && posting < |s.postings| && s.postings[posting].kind == Posting
    ensures HasReversal(s.postings, posting) <==> IsReversed(s.postings, s.postings[posting].allocation)
  {
    var allocation := s.postings[posting].allocation;
    if IsReversed(s.postings, allocation) {
      var i :| 0 <= i < |s.postings| && s.postings[i].kind.Reversal? && s.postings[i].allocation == allocation;
      var of := s.postings[i].kind.of;
      assert s.postings[of].kind == Posting && s.postings[of].allocation == allocation;
      assert of == posting;
    }
  }

  // ---- Posting a period ----

  lemma {:induction false} PostUpToKeeps(s: State, period: nat, k: nat)
    requires Inv(s) && Balanced(s) && k <= |s.allocations|
    requires period in s.periods && s.periods[period] == Posted
    ensures var t := PostUpTo(s, period, k);
            && Inv(t) && Balanced(t)
            && t.periods == s.periods && t.allocations == s.allocations
            && s.postings <= t.postings
            && (forall j: nat :: HasPosting(t.postings, j) <==> HasPosting(s.postings, j) || (j < k && ToPost(s, period, j)))
  {
    if k > 0 {
      PostUpToKeeps(s, period, k - 1);
      var t := PostUpTo(s, period, k - 1);
      if ToPost(s, period, k - 1) {
        var a := s.allocations[k - 1].value;
        var expense, row := Expense(a.project, a.amount), Row(period, k - 1, |t.expenses|, Posting);
        NoReversalWithoutPosting(t, k - 1);
        BookKeeps(t, row, expense, PostUpTo(s, period, k));
        forall j: nat
          ensures HasPosting(t.postings + [row], j) <==> HasPosting(t.postings, j) || k - 1 == j
        {
          PostingAppend(t.postings, row, j);
        }
      }
    }
  }

  lemma PeriodChangeKeeps(s: State, period: nat, status: Status)
    requires Inv(s) && Balanced(s)
    requires period in s.periods ==> s.periods[period] != Posted
    ensures Inv(s.(periods := s.periods[period := status])) && Balanced(s.(periods := s.periods[period := status]))
  {
    var t := s.(periods := s.periods[period := status]);
    forall i | 0 <= i < |s.postings|
      ensures RowOk(t, t.postings[i])
    {
      assert RowOk(s, s.postings[i]);
    }
  }

  lemma ReverseKeeps(s: State, posting: nat)
    requires Inv(s) && Balanced(s)
    ensures Inv(Reverse(s, posting).0) && Balanced(Reverse(s, posting).0)
    ensures s.postings <= Reverse(s, posting).0.postings
  {
    if Reverse(s, posting).1 == Ok {
      var row := s.postings[posting];
      assert RowOk(s, row);
      var original := s.expenses[row.expense].value;
      var expense := Expense(original.project, -original.amount);
      ReversedIff(s, posting);
      BookKeeps(s, Row(row.period, row.allocation, |s.expenses|, Reversal(posting)), expense, Reverse(s, posting).0);
    }
  }

  // ---- Expenses and allocations ----

  lemma ExpensesKeep(s: State, t: State)
    requires Inv(s) && Balanced(s)
    requires t == s.(expenses := t.expenses) && |s.expenses| <= |t.expenses|
    requires forall i :: 0 <= i < |s.postings| && s.postings[i].expense < |s.expenses| ==>
                           t.expenses[s.postings[i].expense] == s.expenses[s.postings[i].expense]
    requires forall project :: Spent(t.expenses, project) - Spent(s.expenses, project)
                            == Manual(t.expenses, s.postings, project) - Manual(s.expenses, s.postings, project)
    ensures Inv(t) && Balanced(t)
  {
    forall i | 0 <= i < |s.postings|
      ensures RowOk(t, t.postings[i]) && s.postings[i].expense < |s.expenses|
    {
      assert RowOk(s, s.postings[i]);
    }
    forall scope
      ensures Ledger(t.postings, t.expenses, scope) == Ledger(s.postings, s.expenses, scope)
    {
      LedgerIgnores(s.postings, s.expenses, t.expenses, scope);
    }
  }

  lemma AddExpenseKeeps(s: State, expense: Expense)
    requires Inv(s) && Balanced(s)
    ensures Inv(AddExpense(s, expense)) && Balanced(AddExpense(s, expense))
  {
    var t := AddExpense(s, expense);
    assert t.expenses[..|s.expenses|] == s.expenses;
    assert forall i :: 0 <= i < |s.postings| ==> RowOk(s, s.postings[i]);
    assert !IsReferenced(s.postings, |s.expenses|);
    ExpensesKeep(s, t);
  }

  lemma DeleteExpenseKeeps(s: State, k: nat)
    requires Inv(s) && Balanced(s)
    ensures Inv(DeleteExpense(s, k).0) && Balanced(DeleteExpense(s, k).0)
  {
    if DeleteExpense(s, k).1 == Ok {
      var t := DeleteExpense(s, k).0;
      forall project
        ensures Spent(t.expenses, project) - Spent(s.expenses, project)
             == Manual(t.expenses, s.postings, project) - Manual(s.expenses, s.postings, project)
      {
        DeletedExpense(s.expenses, s.postings, k, project);
      }
      ExpensesKeep(s, t);
    }
  }

  lemma NoRowBeyond(s: State)
    requires Inv(s)
    ensures !HasPosting(s.postings, |s.allocations|)
  {
    forall i | 0 <= i < |s.postings|
      ensures s.postings[i].allocation < |s.allocations|
    {
      assert RowOk(s, s.postings[i]);
    }
  }

  lemma ContributionsAppend(allocations: seq<Option<Allocation>>, a: Option<Allocation>, postings: seq<Row>, scope: Scope)
    requires !HasPosting(postings, |allocations|)
    ensures Contributions(allocations + [a], postings, scope) == Contributions(allocations, postings, scope)
  {
    assert (allocations + [a])[..|allocations|] == allocations;
  }

  lemma AddAllocationKeeps(s: State, a: Allocation)
    requires Inv(s) && Balanced(s)
    ensures Inv(AddAllocation(s, a).0) && Balanced(AddAllocation(s, a).0)
  {
    var t := AddAllocation(s, a).0;
    if t != s {
      forall i | 0 <= i < |s.postings|
        ensures RowOk(t, t.postings[i])
      {
        assert RowOk(s, s.postings[i]);
      }
      NoRowBeyond(s);
      forall scope
        ensures Ledger(t.postings, t.expenses, scope) == Contributions(t.allocations, t.postings, scope)
      {
        ContributionsAppend(s.allocations, Some(a), s.postings, scope);
      }
    }
  }

  lemma ChangeAllocationKeeps(s: State, k: nat, amount: Option<int>)
    requires Inv(s) && Balanced(s)
    ensures Inv(ChangeAllocation(s, k, amount).0) && Balanced(ChangeAllocation(s, k, amount).0)
  {
    var t := ChangeAllocation(s, k, amount).0;
    if ChangeAllocation(s, k, amount).1 == Ok {
      forall i | 0 <= i < |s.postings|
        ensures s.postings[i].allocation != k && RowOk(t, t.postings[i])
      {
        assert RowOk(s, s.postings[i]);
      }
      forall scope
        ensures Contributions(t.allocations, t.postings, scope) == Contributions(s.allocations, s.postings, scope)
      {
        ContributionsIgnore(s.allocations, k, t.allocations[k], s.postings, scope);
      }
    }
  }

  // ---- Every run ----

  lemma PostKeeps(s: State, period: nat)
    requires Inv(s) && Balanced(s)
    ensures Inv(Post(s, period).0) && Balanced(Post(s, period).0)
    ensures s.postings <= Post(s, period).0.postings
  {
    if Post(s, period).1 == Ok {
      PeriodChangeKeeps(s, period, Posted);
      PostUpToKeeps(s.(periods := s.periods[period := Posted]), period, |s.allocations|);
    }
  }

  lemma StepKeeps(s: State, action: Action)
    requires Inv(s) && Balanced(s)
    ensures Inv(Step(s, action)) && Balanced(Step(s, action))
    ensures s.postings <= Step(s, action).postings
  {
    match action
    case DoCreatePeriod(period) => if period !in s.periods { PeriodChangeKeeps(s, period, Draft); }
    case DoSubmit(period, hasRecords) => if Editable(s, period) { PeriodChangeKeeps(s, period, Submitted); }
    case DoReview(period, approve) =>
      if period in s.periods && s.periods[period] == Submitted {
        PeriodChangeKeeps(s, period, if approve then Approved else Rejected);
      }
    case DoPost(period) => PostKeeps(s, period);
    case DoReverse(posting) => ReverseKeeps(s, posting);
    case DoAddExpense(expense) => AddExpenseKeeps(s, expense);
    case DoDeleteExpense(id) => DeleteExpenseKeeps(s, id);
    case DoAddAllocation(a) => AddAllocationKeeps(s, a);
    case DoChangeAllocation(k, amount) => ChangeAllocationKeeps(s, k, amount);
  }

  /** In every run: one posting per allocation, one reversal per posting, never a reversal
      reversed, and the totals balance. */
  lemma {:induction false} RunKeeps(actions: seq<Action>)
    ensures Inv(Run(EMPTY, actions)) && Balanced(Run(EMPTY, actions))
  {
    if actions != [] {
      RunKeeps(actions[..|actions| - 1]);
      StepKeeps(Run(EMPTY, actions[..|actions| - 1]), actions[|actions| - 1]);
    }
  }

  /** A project's actual cost is its manual expenses and the amounts of its allocations that
      are posted and not reversed. */
  lemma SpentIsManualPlusContributions(actions: seq<Action>, project: nat)
    ensures var s := Run(EMPTY, actions);
            Spent(s.expenses, project) == Manual(s.expenses, s.postings, project) + Contributions(s.allocations, s.postings, OfProject(project))
  {
    RunKeeps(actions);
    var s := Run(EMPTY, actions);
    assert Ledger(s.postings, s.expenses, OfProject(project)) == Contributions(s.allocations, s.postings, OfProject(project));
  }

  // ---- The page ----

  function ReversedPostingIds(postings: seq<Row>): set<nat> {
    set i | 0 <= i < |postings| && postings[i].kind.Reversal? :: postings[i].kind.of
  }

  /** The row's reverse button. */
  predicate OffersReversal(postings: seq<Row>, posting: nat) {
    posting < |postings| && postings[posting].kind == Posting && posting !in ReversedPostingIds(postings)
  }

  lemma OffersExactlyReversible(s: State, posting: nat)
    requires Inv(s)
    ensures OffersReversal(s.postings, posting) <==> Reverse(s, posting).1 == Ok
  {
    if posting < |s.postings| {
      assert RowOk(s, s.postings[posting]);
    }
  }

  /** The page offers a reversal exactly for the postings the server would reverse, and its
      total over postings and reversals is what the period's allocations still contribute. */
  lemma PageAgreesWithLedger(actions: seq<Action>, period: nat, posting: nat)
    ensures var s := Run(EMPTY, actions);
            && (OffersReversal(s.postings, posting) <==> Reverse(s, posting).1 == Ok)
            && Ledger(s.postings, s.expenses, OfPeriod(period)) == Contributions(s.allocations, s.postings, OfPeriod(period))
  {
    RunKeeps(actions);
    OffersExactlyReversible(Run(EMPTY, actions), posting);
  }

  /** A reversal takes back exactly what its posting contributed, and can never be taken
      back or repeated. */
  lemma ReversalIsFinal(actions: seq<Action>, posting: nat)
    requires Reverse(Run(EMPTY, actions), posting).1 == Ok
    ensures var s := Run(EMPTY, actions);
            var t := Reverse(s, posting).0;
            && (forall project :: Spent(t.expenses, project) ==
                                  Spent(s.expenses, project) - Amount(s.expenses[s.postings[posting].expense], project))
            && IsReversed(t.postings, s.postings[posting].allocation)
            && Reverse(t, posting).1 == AlreadyReversed
            && Reverse(t, |s.postings|).1 == NotAPosting
  {
    RunKeeps(actions);
    var s := Run(EMPTY, actions);
    var t := Reverse(s, posting).0;
    assert RowOk(s, s.postings[posting]);
    assert t.expenses[..|s.expenses|] == s.expenses;
    assert t.postings[|s.postings|].kind == Reversal(posting) && t.postings[posting] == s.postings[posting];
  }

  // ---- What the reviewer sees is what is posted ----

  /** The amount the confirmation dialog announces: the period's allocations, summed. */
  function Preview(allocations: seq<Option<Allocation>>, period: nat): int {
    if allocations == [] then 0
    else
      var n := |allocations| - 1;
      Preview(allocations[..n], period) +
      if allocations[n].Some? && allocations[n].value.period == period then allocations[n].value.amount else 0
  }

  lemma {:induction false} PreviewIsContributions(allocations: seq<Option<Allocation>>, postings: seq<Row>, period: nat)
    requires forall k :: 0 <= k < |allocations| && allocations[k].Some? && allocations[k].value.period == period ==>
                           HasPosting(postings, k) && !IsReversed(postings, k)
    ensures Contributions(allocations, postings, OfPeriod(period)) == Preview(allocations, period)
  {
    if allocations != [] {
      var n := |allocations| - 1;
      assert forall k :: 0 <= k < n ==> allocations[..n][k] == allocations[k];
      PreviewIsContributions(allocations[..n], postings, period);
    }
  }

  predicate IsClosed(s: State, period: nat) {
    period in s.periods && (s.periods[period] == Approved || s.periods[period] == Posted)
  }

  lemma {:induction false} PreviewIgnores(allocations: seq<Option<Allocation>>, k: nat, a: Option<Allocation>, period: nat)
    requires k < |allocations|
    requires allocations[k].None? || allocations[k].value.period != period
    requires a.None? || a.value.period != period
    ensures Preview(allocations[k := a], period) == Preview(allocations, period)
  {
    var n := |allocations| - 1;
    if k < n {
      assert allocations[k := a][..n] == allocations[..n][k := a];
      PreviewIgnores(allocations[..n], k, a, period);
    } else {
      assert allocations[k := a][..n] == allocations[..n];
    }
  }

  /** The period's allocations are still there, with their amounts. */
  ghost predicate Frozen(before: seq<Option<Allocation>>, after: seq<Option<Allocation>>, period: nat) {
    && |before| <= |after|
    && (forall k :: 0 <= k < |before| && before[k].Some? && before[k].value.period == period ==> after[k] == before[k])
    && Preview(after, period) == Preview(before, period)
  }

  lemma StepFreezesAllocations(s: State, action: Action, period: nat)
    requires Inv(s) && Balanced(s) && IsClosed(s, period)
    ensures IsClosed(Step(s, action), period)
    ensures Frozen(s.allocations, Step(s, action).allocations, period)
  {
    match action
    case DoPost(p) =>
      if Post(s, p).1 == Ok {
        PeriodChangeKeeps(s, p, Posted);
        PostUpToKeeps(s.(periods := s.periods[p := Posted]), p, |s.allocations|);
      }
    case DoAddAllocation(a) =>
      if AddAllocation(s, a).1 == Ok {
        assert Step(s, action).allocations[..|s.allocations|] == s.allocations;
      }
    case DoChangeAllocation(k, amount) =>
      if ChangeAllocation(s, k, amount).1 == Ok {
        PreviewIgnores(s.allocations, k, ChangeAllocation(s, k, amount).0.allocations[k], period);
      }
    case _ =>
  }

  lemma {:induction false} RunFreezesAllocations(s: State, actions: seq<Action>, period: nat)
    requires Inv(s) && Balanced(s) && IsClosed(s, period)
    ensures var t := Run(s, actions);
            Inv(t) && Balanced(t) && IsClosed(t, period) && Frozen(s.allocations, t.allocations, period)
  {
    if actions != [] {
      var before := actions[..|actions| - 1];
      RunFreezesAllocations(s, before, period);
      StepKeeps(Run(s, before), actions[|actions| - 1]);
      StepFreezesAllocations(Run(s, before), actions[|actions| - 1], period);
    }
  }

  predicate IsPosted(s: State, period: nat) {
    period in s.periods && s.periods[period] == Posted
  }

  lemma NotYetPosted(s: State, k: nat)
    requires Inv(s) && k < |s.allocations| && s.allocations[k].Some?
    ensures HasPosting(s.postings, k) ==> IsPosted(s, s.allocations[k].value.period)
  {
    if HasPosting(s.postings, k) {
      var i :| 0 <= i < |s.postings| && s.postings[i].kind == Posting && s.postings[i].allocation == k;
      assert RowOk(s, s.postings[i]);
    }
  }

  lemma PostBooksPreview(s: State, period: nat)
    requires Inv(s) && Balanced(s) && Post(s, period).1 == Ok
    ensures var t := Post(s, period).0;
            Ledger(t.postings, t.expenses, OfPeriod(period)) == Preview(s.allocations, period)
  {
    PeriodChangeKeeps(s, period, Posted);
    var u := s.(periods := s.periods[period := Posted]);
    PostUpToKeeps(u, period, |s.allocations|);
    var t := Post(s, period).0;
    forall k | 0 <= k < |t.allocations| && t.allocations[k].Some? && t.allocations[k].value.period == period
      ensures HasPosting(t.postings, k) && !IsReversed(t.postings, k)
    {
      assert !HasPosting(s.postings, k) by {
        NotYetPosted(s, k);
      }
      assert ToPost(u, period, k);
      NoReversalWithoutPosting(s, k);
      PostUpToAddsNoReversal(u, period, |s.allocations|, k);
    }
    PreviewIsContributions(t.allocations, t.postings, period);
  }

  lemma {:induction false} PostUpToAddsNoReversal(s: State, period: nat, n: nat, k: nat)
    requires n <= |s.allocations|
    ensures IsReversed(PostUpTo(s, period, n).postings, k) == IsReversed(s.postings, k)
  {
    if n > 0 {
      PostUpToAddsNoReversal(s, period, n - 1, k);
      var t := PostUpTo(s, period, n - 1);
      PostingAppend(t.postings, Row(period, n - 1, |t.expenses|, Posting), k);
    }
  }

  /** From the moment the dialog is opened on an approved period, whatever else happens
      meanwhile, a post that succeeds books exactly the announced amount for the period. */
  lemma PreviewedAmountIsPosted(before: seq<Action>, meanwhile: seq<Action>, period: nat)
    requires IsClosed(Run(EMPTY, before), period)
    requires Post(Run(Run(EMPTY, before), meanwhile), period).1 == Ok
    ensures var t := Post(Run(Run(EMPTY, before), meanwhile), period).0;
            Ledger(t.postings, t.expenses, OfPeriod(period)) == Preview(Run(EMPTY, before).allocations, period)
  {
    RunKeeps(before);
    RunFreezesAllocations(Run(EMPTY, before), meanwhile, period);
    PostBooksPreview(Run(Run(EMPTY, before), meanwhile), period);
  }
}
