// From payroll allocation to posted expense to reversal (server/src/routes/payrollPeriods.ts,
// server/src/routes/laborCostPostings.ts, server/src/routes/laborAllocations.ts,
// server/src/routes/budget.ts; client/src/pages/PayrollPeriodDetail.tsx).
// Every table is a sequence whose indices are the generated ids; a deleted row leaves None.
// Amounts are cents.
module Payroll {

  datatype Option<T> = None | Some(value: T)

  datatype Status = Draft | Submitted | Approved | Rejected | Posted

  datatype Allocation = Allocation(period: nat, project: nat, amount: int)

  datatype Expense = Expense(project: nat, amount: int)

  datatype Kind = Posting | Reversal(of: nat)

  datatype Row = Row(period: nat, allocation: nat, expense: nat, kind: Kind)

  datatype State = State(periods: map<nat, Status>, allocations: seq<Option<Allocation>>,
                         expenses: seq<Option<Expense>>, postings: seq<Row>)

  datatype Outcome = Ok | Conflict | NoRecords | NoAllocations | NotFound | NotAPosting | AlreadyReversed | Referenced

  predicate Editable(s: State, period: nat) {
    period in s.periods && (s.periods[period] == Draft || s.periods[period] == Rejected)
  }

  // ---- The period's own transitions ----

  function Submit(s: State, period: nat, hasRecords: bool): (State, Outcome) {
    if period !in s.periods then (s, NotFound)
    else if !Editable(s, period) then (s, Conflict)
    else if !hasRecords then (s, NoRecords)
    else (s.(periods := s.periods[period := Submitted]), Ok)
  }

  /** Approve and reject both demand a submitted period. */
  function Review(s: State, period: nat, verdict: Status): (State, Outcome) {
    if period !in s.periods then (s, NotFound)
    else if s.periods[period] != Submitted then (s, Conflict)
    else (s.(periods := s.periods[period := verdict]), Ok)
  }

  // ---- Posting ----

  predicate HasPosting(postings: seq<Row>, allocation: nat) {
    exists i :: 0 <= i < |postings| && postings[i].kind == Posting && postings[i].allocation == allocation
  }

  predicate HasReversal(postings: seq<Row>, posting: nat) {
    exists i :: 0 <= i < |postings| && postings[i].kind == Reversal(posting)
  }

  /** The allocation belongs to the period and carries no posting yet. */
  predicate ToPost(s: State, period: nat, k: nat) {
    && k < |s.allocations| && s.allocations[k].Some? && s.allocations[k].value.period == period
    && !HasPosting(s.postings, k)
  }

  /** One more expense, and the row linking the allocation to it. */
  function Book(s: State, period: nat, allocation: nat, expense: Expense, kind: Kind): State {
    s.(expenses := s.expenses + [Some(expense)],
       postings := s.postings + [Row(period, allocation, |s.expenses|, kind)])
  }

  /** The first k allocations of the table posted, for those that are to be. */
  function PostUpTo(s: State, period: nat, k: nat): State
    requires k <= |s.allocations|
  {
    if k == 0 then s
    else
      var t := PostUpTo(s, period, k - 1);
      if ToPost(s, period, k - 1)
      then Book(t, period, k - 1, Expense(s.allocations[k - 1].value.project, s.allocations[k - 1].value.amount), Posting)
      else t
  }

  function Post(s: State, period: nat): (State, Outcome) {
    if period !in s.periods then (s, NotFound)
    else if s.periods[period] != Approved then (s, Conflict)
    else if forall k :: 0 <= k < |s.allocations| ==> !ToPost(s, period, k) then (s, NoAllocations)
    else (PostUpTo(s.(periods := s.periods[period := Posted]), period, |s.allocations|), Ok)
  }

  /** An additional negative expense; the posting and its expense stay. */
  function Reverse(s: State, posting: nat): (State, Outcome) {
    if posting >= |s.postings| then (s, NotFound)
    else
      var row := s.postings[posting];
      if row.kind != Posting then (s, NotAPosting)
      else if HasReversal(s.postings, posting) then (s, AlreadyReversed)
      else if row.expense >= |s.expenses| || s.expenses[row.expense].None? then (s, NotFound)
      else
        var original := s.expenses[row.expense].value;
        (Book(s, row.period, row.allocation, Expense(original.project, -original.amount), Reversal(posting)), Ok)
  }

  // ---- Expenses and allocations ----

  function AddExpense(s: State, expense: Expense): State {
    s.(expenses := s.expenses + [Some(expense)])
  }

  predicate IsReferenced(postings: seq<Row>, expense: nat) {
    exists i :: 0 <= i < |postings| && postings[i].expense == expense
  }

  /** The foreign key of a posting has no delete action, so the database refuses. */
  function DeleteExpense(s: State, expense: nat): (State, Outcome) {
    if expense >= |s.expenses| || s.expenses[expense].None? then (s, NotFound)
    else if IsReferenced(s.postings, expense) then (s, Referenced)
    else (s.(expenses := s.expenses[expense := None]), Ok)
  }

  function AddAllocation(s: State, a: Allocation): (State, Outcome) {
    if !Editable(s, a.period) then (s, Conflict)
    else (s.(allocations := s.allocations + [Some(a)]), Ok)
  }

  /** A new amount, or None to delete the row. */
  function ChangeAllocation(s: State, k: nat, amount: Option<int>): (State, Outcome) {
    if k >= |s.allocations| || s.allocations[k].None? then (s, NotFound)
    else if !Editable(s, s.allocations[k].value.period) then (s, Conflict)
    else
      var a := if amount.Some? then Some(s.allocations[k].value.(amount := amount.value)) else None;
      (s.(allocations := s.allocations[k := a]), Ok)
  }

  datatype Action =
    | DoCreatePeriod(period: nat)
    | DoSubmit(period: nat, hasRecords: bool)
    | DoReview(period: nat, approve: bool)
    | DoPost(period: nat)
    | DoReverse(posting: nat)
    | DoAddExpense(expense: Expense)
    | DoDeleteExpense(id: nat)
    | DoAddAllocation(a: Allocation)
    | DoChangeAllocation(k: nat, amount: Option<int>)

  function Step(s: State, action: Action): State {
    match action
    case DoCreatePeriod(period) => if period in s.periods then s else s.(periods := s.periods[period := Draft])
    case DoSubmit(period, hasRecords) => Submit(s, period, hasRecords).0
    case DoReview(period, approve) => Review(s, period, if approve then Approved else Rejected).0
    case DoPost(period) => Post(s, period).0
    case DoReverse(posting) => Reverse(s, posting).0
    case DoAddExpense(expense) => AddExpense(s, expense)
    case DoDeleteExpense(id) => DeleteExpense(s, id).0
    case DoAddAllocation(a) => AddAllocation(s, a).0
    case DoChangeAllocation(k, amount) => ChangeAllocation(s, k, amount).0
  }

  function Run(s: State, actions: seq<Action>): State {
    if actions == [] then s else Step(Run(s, actions[..|actions| - 1]), actions[|actions| - 1])
  }

  const EMPTY := State(map[], [], [], [])

  // ---- Totals ----

  function Amount(e: Option<Expense>, project: nat): int {
    if e.Some? && e.value.project == project then e.value.amount else 0
  }

  /** SUM(expenses.amount) of a project: its actual cost. */
  function Spent(expenses: seq<Option<Expense>>, project: nat): int {
    if expenses == [] then 0
    else Spent(expenses[..|expenses| - 1], project) + Amount(expenses[|expenses| - 1], project)
  }

  /** The same over the expenses no posting row points at. */
  function Manual(expenses: seq<Option<Expense>>, postings: seq<Row>, project: nat): int {
    if expenses == [] then 0
    else
      var n := |expenses| - 1;
      Manual(expenses[..n], postings, project) + if IsReferenced(postings, n) then 0 else Amount(expenses[n], project)
  }

  datatype Scope = OfProject(project: nat) | OfPeriod(period: nat)

  predicate InScope(scope: Scope, a: Allocation) {
    match scope
    case OfProject(project) => a.project == project
    case OfPeriod(period) => a.period == period
  }

  predicate IsReversed(postings: seq<Row>, allocation: nat) {
    exists i :: 0 <= i < |postings| && postings[i].kind.Reversal? && postings[i].allocation == allocation
  }

  /** Nothing, or the frozen amount once posted and until reversed. */
  function Contribution(a: Option<Allocation>, k: nat, postings: seq<Row>, scope: Scope): int {
    if a.Some? && InScope(scope, a.value) && HasPosting(postings, k) && !IsReversed(postings, k) then a.value.amount else 0
  }

  function Contributions(allocations: seq<Option<Allocation>>, postings: seq<Row>, scope: Scope): int {
    if allocations == [] then 0
    else
      var n := |allocations| - 1;
      Contributions(allocations[..n], postings, scope) + Contribution(allocations[n], n, postings, scope)
  }

  function RowAmount(row: Row, expenses: seq<Option<Expense>>, scope: Scope): int {
    if row.expense >= |expenses| || expenses[row.expense].None? then 0
    else
      var e := expenses[row.expense].value;
      match scope
      case OfProject(project) => if e.project == project then e.amount else 0
      case OfPeriod(period) => if row.period == period then e.amount else 0
  }

  /** The fold of the posted summary over the posting and reversal rows, each with the
      amount of its own expense. */
  function Ledger(postings: seq<Row>, expenses: seq<Option<Expense>>, scope: Scope): int {
    if postings == [] then 0
    else
      Ledger(postings[..|postings| - 1], expenses, scope) + RowAmount(postings[|postings| - 1], expenses, scope)
  }

  // ---- The invariant ----

  /** What a posting or reversal row agrees on with its allocation, period and expense. */
  predicate RowOk(s: State, row: Row) {
    && row.allocation < |s.allocations| && s.allocations[row.allocation].Some?
    && row.expense < |s.expenses| && s.expenses[row.expense].Some?
    && row.period in s.periods && s.periods[row.period] == Posted
    && var a := s.allocations[row.allocation].value;
       var e := s.expenses[row.expense].value;
       && a.period == row.period && e.project == a.project
       && e.amount == (if row.kind == Posting then a.amount else -a.amount)
  }

  ghost predicate Linked(s: State) {
    && (forall i :: 0 <= i < |s.postings| ==> RowOk(s, s.postings[i]))
    && (forall i :: 0 <= i < |s.postings| && s.postings[i].kind.Reversal? ==>
          var of := s.postings[i].kind.of;
          of < |s.postings| && s.postings[of].kind == Posting && s.postings[of].allocation == s.postings[i].allocation)
  }

  /** The two partial unique indexes, and one expense per row. */
  ghost predicate Unique(postings: seq<Row>) {
    forall i, j :: 0 <= i < j < |postings| ==>
                     && postings[i].expense != postings[j].expense
                     && (postings[i].kind == Posting && postings[j].kind == Posting ==> postings[i].allocation != postings[j].allocation)
                     && (postings[i].kind.Reversal? ==> postings[i].kind != postings[j].kind)
  }

  ghost predicate Inv(s: State) {
    Linked(s) && Unique(s.postings)
  }

  /** Posted money is accounted for twice over: project by project and period by period. */
  ghost predicate Balanced(s: State) {
    && (forall project :: Spent(s.expenses, project) == Manual(s.expenses, s.postings, project) + Ledger(s.postings, s.expenses, OfProject(project)))
    && (forall scope :: Ledger(s.postings, s.expenses, scope) == Contributions(s.allocations, s.postings, scope))
  }
}
