// What deleting a row does to the rows that refer to it: the foreign keys declared for the
// schedule and labor-cost tables, and for the platform's tables that refer to companies and
// their users (server/src/db/schema.ts), with the meaning of cascade, set null and no action
// in section 11.8 of ISO/IEC 9075-2: no action is checked once the cascades are done.
// PostgreSQL checks earlier; module DeleteQueue says what it does instead, and QueuedDeletes
// and MigratedDeletes where that comes to the same.
module Referential {

  datatype Table =
    | Companies | Users | Projects | CostCodes | BudgetItems | Expenses
    | Employees | PayrollPeriods | PayrollRecords | ImportBatches | Allocations | Postings
    | Tasks | Dependencies
    | SupportSessions | RuleVersions | Incidents
  {
    /** Rows of the platform, which belong to no company. */
    predicate OfPlatform() {
      this in {SupportSessions, RuleVersions, Incidents}
    }
  }

  datatype Row = Row(table: Table, id: nat)

  datatype Column =
    | CompanyId | ProjectId | CostCodeId | ParentCostCodeId | BudgetItemId
    | UserId | CreatedBy | SubmittedBy | ApprovedBy | PostedBy | RejectedBy | CommittedBy
    | PayrollPeriodId | PayrollRecordId | EmployeeId | ImportBatchId
    | AllocationId | ExpenseId | ReversalOfPostingId
    | ParentTaskId | PredecessorTaskId | SuccessorTaskId
    | TargetCompanyId | AboutCompanyId | PublishedBy

  datatype Rule = Cascade | SetNull | NoAction

  /** The onDelete of every column; a column of one name has one rule on all these tables
      (the company an incident is about is called AboutCompanyId here, for its rule differs). */
  function OnDelete(column: Column): Rule {
    match column
    case CompanyId | ProjectId | PayrollPeriodId | PayrollRecordId | AllocationId | PredecessorTaskId | SuccessorTaskId => Cascade
    case BudgetItemId | ParentTaskId | AboutCompanyId => SetNull
    case _ => NoAction
  }

  /** The table a column refers to. */
  function Target(column: Column): Table {
    match column
    case CompanyId | TargetCompanyId | AboutCompanyId => Companies
    case ProjectId => Projects
    case CostCodeId | ParentCostCodeId => CostCodes
    case BudgetItemId => BudgetItems
    case UserId | CreatedBy | SubmittedBy | ApprovedBy | PostedBy | RejectedBy | CommittedBy | PublishedBy => Users
    case PayrollPeriodId => PayrollPeriods
    case PayrollRecordId => PayrollRecords
    case EmployeeId => Employees
    case ImportBatchId => ImportBatches
    case AllocationId => Allocations
    case ExpenseId => Expenses
    case ReversalOfPostingId => Postings
    case ParentTaskId | PredecessorTaskId | SuccessorTaskId => Tasks
  }

  /** Which tables have the column. */
  predicate Declares(table: Table, column: Column) {
    match column
    case CompanyId => table !in {Companies, BudgetItems, Expenses} && !table.OfPlatform()
    case ProjectId => table in {CostCodes, BudgetItems, Expenses, Allocations, Tasks, Dependencies}
    case CostCodeId => table in {BudgetItems, Expenses, Allocations}
    case ParentCostCodeId => table == CostCodes
    case BudgetItemId => table == Expenses
    case UserId => table == Employees
    case CreatedBy => table in {Employees, PayrollPeriods, PayrollRecords, ImportBatches, Allocations, Tasks, Dependencies}
    case SubmittedBy | ApprovedBy | RejectedBy => table == PayrollPeriods
    case PostedBy => table in {PayrollPeriods, Postings}
    case CommittedBy => table == ImportBatches
    case PayrollPeriodId => table in {PayrollRecords, ImportBatches, Postings}
    case PayrollRecordId => table == Allocations
    case EmployeeId | ImportBatchId => table == PayrollRecords
    case AllocationId | ExpenseId | ReversalOfPostingId => table == Postings
    case ParentTaskId => table == Tasks
    case PredecessorTaskId | SuccessorTaskId => table == Dependencies
    case TargetCompanyId => table == SupportSessions
    case AboutCompanyId => table == Incidents
    case PublishedBy => table == RuleVersions
  }

  /** One non-null reference. */
  datatype Link = Link(from: Row, column: Column, to: Row)

  datatype Database = Database(rows: set<Row>, links: set<Link>)

  /** Every reference is in a declared column and points at a row of the table the column names. */
  ghost predicate Sound(db: Database) {
    forall l :: l in db.links ==>
      l.from in db.rows && l.to in db.rows && l.to.table == Target(l.column) && Declares(l.from.table, l.column)
  }

  // ---- What the cascades reach ----

  ghost predicate CascadeClosed(db: Database, doomed: set<Row>) {
    forall l :: l in db.links && OnDelete(l.column) == Cascade && l.to in doomed ==> l.from in doomed
  }

  /** The least set that contains the row and all that cascades from it. */
  ghost predicate IsLeastClosed(db: Database, row: Row, doomed: set<Row>) {
    && row in doomed && CascadeClosed(db, doomed)
    && forall other: set<Row> :: row in other && CascadeClosed(db, other) ==> doomed <= other
  }

  lemma LeastIsUnique(db: Database, row: Row, a: set<Row>, b: set<Row>)
    requires IsLeastClosed(db, row, a) && IsLeastClosed(db, row, b)
    ensures a == b
  {
  }

  /** Rows one more round of cascades deletes. */
  function Referring(db: Database, doomed: set<Row>): set<Row> {
    set l | l in db.links && OnDelete(l.column) == Cascade && l.to in doomed :: l.from
  }

  function Closure(db: Database, doomed: set<Row>): (closure: set<Row>)
    requires Sound(db) && doomed <= db.rows
    ensures doomed <= closure <= db.rows && CascadeClosed(db, closure)
    decreases db.rows - doomed
  {
    var next := doomed + Referring(db, doomed);
    assert next <= db.rows;
    if next == doomed then
      assert forall l :: l in db.links && OnDelete(l.column) == Cascade && l.to in doomed ==> l.from in Referring(db, doomed);
      doomed
    else
      assert exists r :: r in next && r !in doomed;
      Closure(db, next)
  }

  lemma {:induction false} ClosureIsLeast(db: Database, doomed: set<Row>, other: set<Row>)
    requires Sound(db) && doomed <= db.rows && doomed <= other && CascadeClosed(db, other)
    ensures Closure(db, doomed) <= other
    decreases db.rows - doomed
  {
    var next := doomed + Referring(db, doomed);
    if next != doomed {
      assert exists r :: r in next && r !in doomed;
      ClosureIsLeast(db, next, other);
    }
  }

  lemma DoomedIsLeastClosed(db: Database, row: Row)
    requires Sound(db) && row in db.rows
    ensures IsLeastClosed(db, row, Closure(db, {row}))
  {
    forall other: set<Row> | row in other && CascadeClosed(db, other)
      ensures Closure(db, {row}) <= other
    {
      ClosureIsLeast(db, {row}, other);
    }
  }

  // ---- The delete ----

  /** A row that stays refers to one that goes, without a delete action. */
  predicate Blocked(db: Database, doomed: set<Row>) {
    exists l :: l in db.links && OnDelete(l.column) == NoAction && l.to in doomed && l.from !in doomed
  }

  /** The surviving rows with their references; those to deleted rows are set to null. */
  function Remove(db: Database, doomed: set<Row>): Database {
    Database(db.rows - doomed, set l | l in db.links && l.from !in doomed && l.to !in doomed)
  }

  datatype Outcome = Deleted(after: Database) | Refused

  function Delete(db: Database, row: Row): Outcome
    requires Sound(db) && row in db.rows
  {
    var doomed := Closure(db, {row});
    if Blocked(db, doomed) then Refused else Deleted(Remove(db, doomed))
  }

  /** The delete computed from a work list of rows whose references are still to be followed. */
  method DeleteRow(db: Database, row: Row) returns (outcome: Outcome)
    requires Sound(db) && row in db.rows
    ensures outcome == Delete(db, row)
  {
    var doomed, work := {row}, {row};
    while work != {}
      invariant work <= doomed <= db.rows && row in doomed
      invariant doomed <= Closure(db, {row})
      invariant forall l :: l in db.links && OnDelete(l.column) == Cascade && l.to in doomed && l.to !in work ==> l.from in doomed
      decreases db.rows - doomed, |work|
    {
      var next :| next in work;
      var found := (set l | l in db.links && OnDelete(l.column) == Cascade && l.to == next :: l.from) - doomed;
      doomed, work := doomed + found, work - {next} + found;
    }
    ClosureIsLeast(db, {row}, doomed);
    if Blocked(db, doomed) {
      outcome := Refused;
    } else {
      outcome := Deleted(Remove(db, doomed));
    }
  }

  /** A delete that goes through removes exactly the least cascade-closed set, leaves no
      dangling reference, and touches the references of the rows that stay only where they
      led to a deleted row through a set-null column. It is refused exactly when a row
      outside that set refers into it through a column without a delete action. */
  lemma DeleteIsExact(db: Database, row: Row, doomed: set<Row>)
    requires Sound(db) && row in db.rows && IsLeastClosed(db, row, doomed)
    ensures Delete(db, row) == Refused <==> Blocked(db, doomed)
    ensures Delete(db, row).Deleted? ==>
              var after := Delete(db, row).after;
              && after.rows == db.rows - doomed && Sound(after)
              && (forall l :: l in after.links ==> l in db.links)
              && (forall l :: l in db.links && l.from in after.rows && l !in after.links ==>
                    OnDelete(l.column) == SetNull && l.to in doomed)
  {
    DoomedIsLeastClosed(db, row);
    LeastIsUnique(db, row, doomed, Closure(db, {row}));
  }

  // ---- Tenants ----

  /** Every reference between rows of companies stays inside one company. */
  ghost predicate Isolated(db: Database, tenant: map<Row, nat>) {
    && (forall r :: r in db.rows && !r.table.OfPlatform() ==> r in tenant)
    && (forall l :: l in db.links && !l.from.table.OfPlatform() ==>
          l.from in tenant && l.to in tenant && tenant[l.from] == tenant[l.to])
    && (forall c :: Row(Companies, c) in db.rows ==> tenant[Row(Companies, c)] == c)
  }

  /** A company's rows. */
  function OwnedBy(db: Database, tenant: map<Row, nat>, c: nat): set<Row> {
    set r | r in db.rows && !r.table.OfPlatform() && r in tenant && tenant[r] == c
  }

  /** Nothing cascades out of the platform's tables or into them. */
  lemma PlatformLink(db: Database, l: Link)
    requires Sound(db) && l in db.links
    ensures !l.to.table.OfPlatform()
    ensures l.from.table.OfPlatform() ==> OnDelete(l.column) != Cascade
    ensures l.from.table.OfPlatform() <==> l.column in {TargetCompanyId, AboutCompanyId, PublishedBy}
  {
  }

  lemma ClosureStaysInside(db: Database, tenant: map<Row, nat>, row: Row)
    requires Sound(db) && Isolated(db, tenant) && row in db.rows && !row.table.OfPlatform()
    ensures Closure(db, {row}) <= OwnedBy(db, tenant, tenant[row])
  {
    forall l | l in db.links && OnDelete(l.column) == Cascade && l.to in OwnedBy(db, tenant, tenant[row])
      ensures l.from in OwnedBy(db, tenant, tenant[row])
    {
      PlatformLink(db, l);
    }
    ClosureIsLeast(db, {row}, OwnedBy(db, tenant, tenant[row]));
  }

  /** Nothing of any other company is removed or altered, whatever of a company is deleted. */
  lemma OtherTenantsUntouched(db: Database, tenant: map<Row, nat>, row: Row, r: Row)
    requires Sound(db) && Isolated(db, tenant) && row in db.rows && !row.table.OfPlatform() && Delete(db, row).Deleted?
    requires r in db.rows && !r.table.OfPlatform() && tenant[r] != tenant[row]
    ensures var after := Delete(db, row).after;
            r in after.rows && forall l: Link :: l.from == r || l.to == r ==> (l in after.links <==> l in db.links)
  {
    ClosureStaysInside(db, tenant, row);
    forall l: Link | l in db.links && (l.from == r || l.to == r)
      ensures l.from !in Closure(db, {row}) && l.to !in Closure(db, {row})
    {
      PlatformLink(db, l);
    }
  }

  /** The not-null columns: an expense or budget item has a project, any other row of a
      company the company. */
  ghost predicate Owned(db: Database) {
    forall r :: r in db.rows ==>
      match r.table
      case Companies | SupportSessions | RuleVersions | Incidents => true
      case Expenses | BudgetItems => exists p :: Link(r, ProjectId, p) in db.links
      case _ => exists c :: Link(r, CompanyId, c) in db.links
  }

  /** Every row of a company but an expense or budget item names it. */
  lemma NamesCompany(db: Database, tenant: map<Row, nat>, c: nat, r: Row)
    requires Sound(db) && Isolated(db, tenant) && Owned(db)
    requires r in OwnedBy(db, tenant, c) && r.table !in {Companies, Expenses, BudgetItems}
    ensures Link(r, CompanyId, Row(Companies, c)) in db.links
  {
    var company :| Link(r, CompanyId, company) in db.links;
    assert company == Row(Companies, company.id) && tenant[company] == c;
  }

  /** And those name a project that does. */
  lemma NamesProject(db: Database, tenant: map<Row, nat>, c: nat, r: Row) returns (p: Row)
    requires Sound(db) && Isolated(db, tenant) && Owned(db)
    requires r in OwnedBy(db, tenant, c) && r.table in {Expenses, BudgetItems}
    ensures Link(r, ProjectId, p) in db.links && Link(p, CompanyId, Row(Companies, c)) in db.links
  {
    p :| Link(r, ProjectId, p) in db.links;
    NamesCompany(db, tenant, c, p);
  }

  lemma OwnedRowIsDoomed(db: Database, tenant: map<Row, nat>, c: nat, r: Row)
    requires Sound(db) && Isolated(db, tenant) && Owned(db)
    requires Row(Companies, c) in db.rows && r in OwnedBy(db, tenant, c)
    ensures r in Closure(db, {Row(Companies, c)})
  {
    if r.table == Companies {
      assert r == Row(Companies, r.id);
    } else if r.table in {Expenses, BudgetItems} {
      var p := NamesProject(db, tenant, c, r);
      assert Link(p, CompanyId, Row(Companies, c)) in db.links && Link(r, ProjectId, p) in db.links;
    } else {
      NamesCompany(db, tenant, c, r);
      assert Link(r, CompanyId, Row(Companies, c)) in db.links;
    }
  }

  lemma CompanyClosure(db: Database, tenant: map<Row, nat>, c: nat)
    requires Sound(db) && Isolated(db, tenant) && Owned(db) && Row(Companies, c) in db.rows
    ensures Closure(db, {Row(Companies, c)}) == OwnedBy(db, tenant, c)
  {
    ClosureStaysInside(db, tenant, Row(Companies, c));
    forall r | r in OwnedBy(db, tenant, c)
      ensures r in Closure(db, {Row(Companies, c)})
    {
      OwnedRowIsDoomed(db, tenant, c, r);
    }
  }

  /** A support session was held with the company, or one of its users published tax rules:
      rows no route deletes, in columns without a delete action. */
  ghost predicate KnownToPlatform(db: Database, tenant: map<Row, nat>, c: nat) {
    exists l :: l in db.links && l.column in {TargetCompanyId, PublishedBy} && l.to in tenant && tenant[l.to] == c
  }

  /** Only the platform refers into a company from outside. */
  lemma OutsideLink(db: Database, tenant: map<Row, nat>, c: nat, l: Link)
    requires Sound(db) && Isolated(db, tenant) && l in db.links
    ensures l.to in OwnedBy(db, tenant, c) <==> l.to in tenant && tenant[l.to] == c
    ensures l.to in OwnedBy(db, tenant, c) && l.from !in OwnedBy(db, tenant, c) <==>
            l.to in tenant && tenant[l.to] == c && l.column in {TargetCompanyId, AboutCompanyId, PublishedBy}
  {
    PlatformLink(db, l);
  }

  lemma BlockedByPlatform(db: Database, tenant: map<Row, nat>, c: nat)
    requires Sound(db) && Isolated(db, tenant)
    ensures Blocked(db, OwnedBy(db, tenant, c)) <==> KnownToPlatform(db, tenant, c)
  {
    forall l | l in db.links
      ensures OnDelete(l.column) == NoAction && l.to in OwnedBy(db, tenant, c) && l.from !in OwnedBy(db, tenant, c) <==>
              l.column in {TargetCompanyId, PublishedBy} && l.to in tenant && tenant[l.to] == c
    {
      OutsideLink(db, tenant, c, l);
    }
  }

  /** Deleting a company is refused exactly when the platform refers to it or its users so;
      otherwise exactly its own rows and references go, and incidents about it lose theirs. */
  lemma CompanyDeleteIff(db: Database, tenant: map<Row, nat>, c: nat)
    requires Sound(db) && Isolated(db, tenant) && Owned(db) && Row(Companies, c) in db.rows
    ensures Delete(db, Row(Companies, c)) == Refused <==> KnownToPlatform(db, tenant, c)
    ensures Delete(db, Row(Companies, c)).Deleted? ==>
              var after := Delete(db, Row(Companies, c)).after;
              && after.rows == db.rows - OwnedBy(db, tenant, c)
              && forall l :: l in db.links ==>
                   (l !in after.links <==> l.from in OwnedBy(db, tenant, c)
                                           || (l.column == AboutCompanyId && l.to == Row(Companies, c)))
  {
    CompanyClosure(db, tenant, c);
    BlockedByPlatform(db, tenant, c);
    if Delete(db, Row(Companies, c)).Deleted? {
      forall l | l in db.links && l.from !in OwnedBy(db, tenant, c)
        ensures l.to in OwnedBy(db, tenant, c) <==> l.column == AboutCompanyId && l.to == Row(Companies, c)
      {
        AboutLink(db, tenant, c, l);
      }
    }
  }

  lemma AboutLink(db: Database, tenant: map<Row, nat>, c: nat, l: Link)
    requires Sound(db) && Isolated(db, tenant) && Row(Companies, c) in db.rows && !KnownToPlatform(db, tenant, c)
    requires l in db.links && l.from !in OwnedBy(db, tenant, c)
    ensures l.to in OwnedBy(db, tenant, c) <==> l.column == AboutCompanyId && l.to == Row(Companies, c)
  {
    OutsideLink(db, tenant, c, l);
    if l.column == AboutCompanyId {
      assert l.to == Row(Companies, l.to.id);
    }
  }

  /** Concrete database: one company, and one support session held with it long ago. */
  lemma SupportedCompanyStays()
    ensures var company, session := Row(Companies, 0), Row(SupportSessions, 0);
            var db := Database({company, session}, {Link(session, TargetCompanyId, company)});
            && Sound(db) && Isolated(db, map[company := 0]) && Owned(db)
            && Delete(db, company) == Refused
  {
    var company, session := Row(Companies, 0), Row(SupportSessions, 0);
    var db := Database({company, session}, {Link(session, TargetCompanyId, company)});
    CompanyDeleteIff(db, map[company := 0], 0);
    assert Link(session, TargetCompanyId, company) in db.links;
  }

  // ---- Particular tables ----

  /** Nothing cascades from a dependency, an expense or a posting. */
  lemma LeafTables(db: Database, row: Row)
    requires Sound(db) && row in db.rows && row.table in {Dependencies, Expenses, Postings}
    ensures Closure(db, {row}) == {row}
  {
    ClosureIsLeast(db, {row}, {row});
  }

  /** An expense can be deleted exactly when no posting was made from or reversed into it;
      then it goes alone. */
  lemma ExpenseDeleteIff(db: Database, expense: Row)
    requires Sound(db) && expense in db.rows && expense.table == Expenses
    ensures Delete(db, expense).Deleted? <==> forall l :: l in db.links && l.to == expense ==> l.column != ExpenseId
    ensures Delete(db, expense).Deleted? ==> Delete(db, expense).after.rows == db.rows - {expense}
  {
    LeafTables(db, expense);
  }

  function DependenciesOf(db: Database, task: Row): set<Row> {
    set l | l in db.links && l.to == task && l.column != ParentTaskId :: l.from
  }

  lemma OnlyDependenciesCascade(db: Database, task: Row, l: Link)
    requires Sound(db) && task.table == Tasks && l in db.links
    ensures l.to == task && l.column != ParentTaskId ==> l.from.table == Dependencies && OnDelete(l.column) == Cascade
    ensures l.to.table != Dependencies
  {
    match l.column
    case _ =>
  }

  lemma TaskClosure(db: Database, task: Row)
    requires Sound(db) && task in db.rows && task.table == Tasks
    ensures Closure(db, {task}) == {task} + DependenciesOf(db, task)
  {
    var all := {task} + DependenciesOf(db, task);
    forall l | l in db.links
      ensures OnDelete(l.column) == Cascade && l.to in all ==> l.from in all
      ensures l.to == task && l.column != ParentTaskId ==> OnDelete(l.column) == Cascade
    {
      OnlyDependenciesCascade(db, task, l);
      if l.to in DependenciesOf(db, task) {
        var d :| d in db.links && d.to == task && d.column != ParentTaskId && d.from == l.to;
        OnlyDependenciesCascade(db, task, d);
      }
    }
    ClosureIsLeast(db, {task}, all);
    forall r | r in DependenciesOf(db, task)
      ensures r in Closure(db, {task})
    {
      var d :| d in db.links && d.to == task && d.column != ParentTaskId && d.from == r;
      OnlyDependenciesCascade(db, task, d);
    }
  }

  lemma NoLinkToDependencies(db: Database, task: Row, l: Link)
    requires Sound(db) && task.table == Tasks && l in db.links
    ensures l.to !in DependenciesOf(db, task)
  {
    OnlyDependenciesCascade(db, task, l);
    if l.to in DependenciesOf(db, task) {
      var d :| d in db.links && d.to == task && d.column != ParentTaskId && d.from == l.to;
      OnlyDependenciesCascade(db, task, d);
    }
  }

  /** Deleting a task is never refused: its dependency rows go with it and its children
      become top-level tasks. */
  lemma TaskDelete(db: Database, task: Row)
    requires Sound(db) && task in db.rows && task.table == Tasks
    ensures Delete(db, task).Deleted?
    ensures var after := Delete(db, task).after;
            && after.rows == db.rows - {task} - DependenciesOf(db, task)
            && forall l :: l in db.links && l.from in after.rows ==>
                 if l.to == task then l.column == ParentTaskId && l !in after.links else l in after.links
  {
    TaskClosure(db, task);
    forall l | l in db.links
      ensures l.to !in DependenciesOf(db, task)
      ensures l.to == task && l.column != ParentTaskId ==> l.from in DependenciesOf(db, task)
    {
      NoLinkToDependencies(db, task, l);
    }
  }

  // ---- Deleting a project ----

  /** Cost codes, budget items, expenses, allocations, tasks and dependencies name their project. */
  function OwnRows(db: Database, project: Row): set<Row> {
    set l | l in db.links && l.column == ProjectId && l.to == project :: l.from
  }

  /** The postings of the project's allocations. */
  function OwnPostings(db: Database, project: Row): set<Row> {
    set l | l in db.links && l.column == AllocationId && l.to in OwnRows(db, project) :: l.from
  }

  /** The dependencies at either end of the project's tasks. */
  function TaskEdges(db: Database, project: Row): set<Row> {
    set l | l in db.links && l.column in {PredecessorTaskId, SuccessorTaskId} && l.to in OwnRows(db, project) :: l.from
  }

  function ProjectRows(db: Database, project: Row): set<Row> {
    {project} + OwnRows(db, project) + OwnPostings(db, project) + TaskEdges(db, project)
  }

  lemma ProjectTables(db: Database, project: Row, r: Row)
    requires Sound(db) && project.table == Projects
    ensures r in OwnRows(db, project) ==> r.table in {CostCodes, BudgetItems, Expenses, Allocations, Tasks, Dependencies}
    ensures r in OwnPostings(db, project) ==> r.table == Postings
    ensures r in TaskEdges(db, project) ==> r.table == Dependencies
  {
  }

  /** A cascading reference into one of the groups comes from the next. */
  lemma ProjectCascades(db: Database, project: Row, l: Link)
    requires Sound(db) && project.table == Projects && l in db.links && OnDelete(l.column) == Cascade
    requires l.to in ProjectRows(db, project)
    ensures l.from in ProjectRows(db, project)
  {
    ProjectTables(db, project, l.to);
    if l.to == project {
      assert l.from in OwnRows(db, project);
    } else {
      assert l.to in OwnRows(db, project);
      assert l.column in {AllocationId, PredecessorTaskId, SuccessorTaskId};
    }
  }

  lemma ProjectRowsAreReached(db: Database, project: Row, closed: set<Row>)
    requires project in closed && CascadeClosed(db, closed)
    ensures ProjectRows(db, project) <= closed
  {
    assert OwnRows(db, project) <= closed;
    assert OwnPostings(db, project) <= closed;
    assert TaskEdges(db, project) <= closed;
  }

  /** What goes with a project is exactly these groups of rows. */
  lemma ProjectClosure(db: Database, project: Row)
    requires Sound(db) && project in db.rows && project.table == Projects
    ensures Closure(db, {project}) == ProjectRows(db, project)
  {
    forall l | l in db.links && OnDelete(l.column) == Cascade && l.to in ProjectRows(db, project)
      ensures l.from in ProjectRows(db, project)
    {
      ProjectCascades(db, project, l);
    }
    ClosureIsLeast(db, {project}, ProjectRows(db, project));
    ProjectRowsAreReached(db, project, Closure(db, {project}));
  }

  ghost predicate OfProject(db: Database, project: Row, r: Row) {
    Link(r, ProjectId, project) in db.links
  }

  ghost predicate PostedTo(db: Database, project: Row, posting: Row) {
    exists a :: Link(posting, AllocationId, a) in db.links && OfProject(db, project, a)
  }

  lemma ProjectRowsByTable(db: Database, project: Row, r: Row)
    requires Sound(db) && project.table == Projects
    ensures r in OwnRows(db, project) <==> OfProject(db, project, r)
    ensures r in OwnPostings(db, project) <==> PostedTo(db, project, r)
    ensures r.table == Postings ==> (r in ProjectRows(db, project) <==> PostedTo(db, project, r))
    ensures r.table in {CostCodes, BudgetItems, Expenses, Allocations} ==>
              (r in ProjectRows(db, project) <==> OfProject(db, project, r))
  {
    ProjectTables(db, project, r);
    if l: Link :| l in db.links && l.column == AllocationId && l.to in OwnRows(db, project) && l.from == r {
      assert Link(r, AllocationId, l.to) in db.links && OfProject(db, project, l.to);
    }
  }

  /** A row that stays would keep a reference, without a delete action, to a cost code, an
      expense or a posting that goes with the project. */
  ghost predicate Holds(db: Database, project: Row, l: Link) {
    match l.column
    case CostCodeId | ParentCostCodeId => OfProject(db, project, l.to) && !OfProject(db, project, l.from)
    case ExpenseId => OfProject(db, project, l.to) && !PostedTo(db, project, l.from)
    case ReversalOfPostingId => PostedTo(db, project, l.to) && !PostedTo(db, project, l.from)
    case _ => false
  }

  /** Users, employees and import batches are in no project. */
  lemma NoOtherTarget(db: Database, project: Row, l: Link)
    requires Sound(db) && project.table == Projects && l in db.links && OnDelete(l.column) == NoAction
    ensures l.to in ProjectRows(db, project) ==> l.column in {CostCodeId, ParentCostCodeId, ExpenseId, ReversalOfPostingId}
  {
    ProjectTables(db, project, l.to);
  }

  lemma HoldsIsBlocking(db: Database, project: Row, l: Link)
    requires Sound(db) && project.table == Projects && l in db.links
    ensures Holds(db, project, l) <==>
            OnDelete(l.column) == NoAction && l.to in ProjectRows(db, project) && l.from !in ProjectRows(db, project)
  {
    ProjectRowsByTable(db, project, l.to);
    ProjectRowsByTable(db, project, l.from);
    if OnDelete(l.column) == NoAction {
      NoOtherTarget(db, project, l);
    }
  }

  /** Checked at the end of the statement, the delete of a project is refused exactly when a
      row of no or another project uses one of its cost codes, or a posting of another project's allocation was booked to one of its
      expenses or reverses one of its postings. */
  lemma ProjectDeleteIff(db: Database, project: Row)
    requires Sound(db) && project in db.rows && project.table == Projects
    ensures Delete(db, project) == Refused <==> exists l :: l in db.links && Holds(db, project, l)
    ensures Delete(db, project).Deleted? ==> Delete(db, project).after.rows == db.rows - ProjectRows(db, project)
  {
    ProjectClosure(db, project);
    forall l | l in db.links
      ensures Holds(db, project, l) <==>
              OnDelete(l.column) == NoAction && l.to in ProjectRows(db, project) && l.from !in ProjectRows(db, project)
    {
      HoldsIsBlocking(db, project, l);
    }
  }

  /** A posting is removed with a project exactly when its allocation is the project's. A check
      at the end of the statement, as here, sees the posting of a doomed expense gone: the
      missing delete action then protects nothing. */
  lemma ProjectDeleteTakesPostings(db: Database, project: Row, posting: Row)
    requires Sound(db) && project in db.rows && project.table == Projects
    requires posting in db.rows && posting.table == Postings
    ensures posting in Closure(db, {project}) <==> PostedTo(db, project, posting)
    ensures Delete(db, project).Deleted? ==>
              (posting !in Delete(db, project).after.rows <==> PostedTo(db, project, posting))
  {
    ProjectClosure(db, project);
    ProjectRowsByTable(db, project, posting);
  }

  // ---- Books on which the delete goes through ----

  predicate NotNull(table: Table, column: Column) {
    match column
    case ProjectId => table in {BudgetItems, Expenses, Allocations, Tasks, Dependencies}
    case CompanyId | CreatedBy | PayrollPeriodId | PayrollRecordId | EmployeeId | AllocationId | ExpenseId
      | PredecessorTaskId | SuccessorTaskId => Declares(table, column)
    case PostedBy => table == Postings
    case _ => false
  }

  predicate PostedTable(table: Table) {
    table in {Companies, Users, Projects, Employees, PayrollPeriods, PayrollRecords, Allocations, Expenses, Postings}
  }

  function Only(table: Table): Row {
    Row(table, 0)
  }

  /** One posted allocation of one project: one row a table, with every not-null column filled. */
  function PostedBooks(): Database {
    Database(set table: Table | PostedTable(table) :: Only(table),
             set table: Table, column: Column | PostedTable(table) && NotNull(table, column) ::
               Link(Only(table), column, Only(Target(column))))
  }

  lemma PostedBooksAreSound()
    ensures Sound(PostedBooks())
  {
    forall table: Table, column: Column | PostedTable(table) && NotNull(table, column)
      ensures PostedTable(Target(column)) && Declares(table, column)
    {
      match column
      case _ =>
    }
  }

  lemma PostedLinkIff(table: Table, column: Column, to: Row)
    ensures Link(Only(table), column, to) in PostedBooks().links <==>
            PostedTable(table) && NotNull(table, column) && to == Only(Target(column))
  {
  }

  lemma PostedLinks()
    ensures OfProject(PostedBooks(), Only(Projects), Only(Expenses))
    ensures PostedTo(PostedBooks(), Only(Projects), Only(Postings))
    ensures Link(Only(Postings), ExpenseId, Only(Expenses)) in PostedBooks().links
  {
    PostedLinkIff(Postings, ExpenseId, Only(Expenses));
    PostedLinkIff(Allocations, ProjectId, Only(Projects));
    PostedLinkIff(Expenses, ProjectId, Only(Projects));
    PostedLinkIff(Postings, AllocationId, Only(Allocations));
  }

  lemma NothingHoldsPostedProject(l: Link)
    requires l in PostedBooks().links
    ensures !Holds(PostedBooks(), Only(Projects), l)
  {
    PostedLinkIff(l.from.table, l.column, l.to);
    PostedLinks();
  }

  lemma PostedBooksRows()
    ensures forall table: Table :: Only(table) in PostedBooks().rows <==> PostedTable(table)
  {
  }

  /** Checked at the end of the statement, the delete of that allocation's project would go
      through and remove the posting and its expense, while the payroll record stays; as
      PostgreSQL checks, it is refused (MigratedDeletes.PostedProjectStays). */
  lemma PostedProjectGoes()
    ensures Sound(PostedBooks()) && Only(Projects) in PostedBooks().rows
    ensures Only(Postings) in PostedBooks().rows && Only(Expenses) in PostedBooks().rows
    ensures var outcome := Delete(PostedBooks(), Only(Projects));
            && outcome.Deleted?
            && Only(Postings) !in outcome.after.rows && Only(Expenses) !in outcome.after.rows
            && Only(PayrollRecords) in outcome.after.rows
  {
    var db, project := PostedBooks(), Only(Projects);
    PostedBooksAreSound();
    PostedBooksRows();
    forall l | l in db.links
      ensures !Holds(db, project, l)
    {
      NothingHoldsPostedProject(l);
    }
    ProjectDeleteIff(db, project);
    PostedLinks();
    WhatPostedProjectTakes(db, project);
  }

  lemma WhatPostedProjectTakes(db: Database, project: Row)
    requires Sound(db) && project.table == Projects
    requires OfProject(db, project, Only(Expenses)) && PostedTo(db, project, Only(Postings))
    ensures Only(Postings) in ProjectRows(db, project) && Only(Expenses) in ProjectRows(db, project)
    ensures Only(PayrollRecords) !in ProjectRows(db, project)
  {
    ProjectRowsByTable(db, project, Only(Postings));
    ProjectRowsByTable(db, project, Only(Expenses));
    ProjectTables(db, project, Only(PayrollRecords));
  }
}
