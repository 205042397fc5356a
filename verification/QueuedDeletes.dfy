// What a delete of a task, an expense, a project or a company comes to when the keys' events
// are fired from a queue, and where the order the keys were created in decides it.
module QueuedDeletes {
  import opened Referential
  import opened DeleteQueue

  // ---- Tasks and expenses ----

  /** No order of events can refuse a task's delete: it is the standard's. */
  lemma TaskDeleteInAnyOrder(fire: Firing, db: Database, task: Row, outcome: Outcome)
    requires AllKeys(fire) && Sound(db) && task in db.rows && task.table == Tasks && Ends(fire, db, task, outcome)
    ensures outcome == Delete(db, task)
  {
    TaskDelete(db, task);
    TaskClosure(db, task);
    forall s, n, l | Reaches(fire, db, task, s, n)
      ensures !RefusedFor(db, s, l)
    {
      TaskNotRefused(fire, db, task, s, n, l);
    }
    RefusedAlike(fire, db, task, outcome);
  }

  lemma TaskNotRefused(fire: Firing, db: Database, task: Row, s: Deletion, n: nat, l: Link)
    requires Sound(db) && task in db.rows && task.table == Tasks && Reaches(fire, db, task, s, n)
    ensures !RefusedFor(db, s, l)
  {
    ReachedIsSteady(fire, db, task, s, n);
    TaskClosure(db, task);
    GoneIsDoomed(fire, db, task, s, n, Closure(db, {task}));
    if l in db.links && OnDelete(l.column) == NoAction {
      NothingChecksTasks(db, task, l);
    }
  }

  lemma NothingChecksTasks(db: Database, task: Row, l: Link)
    requires Sound(db) && task.table == Tasks && l in db.links && OnDelete(l.column) == NoAction
    ensures l.to !in {task} + DependenciesOf(db, task)
  {
    NoLinkToDependencies(db, task, l);
  }

  /** Nor does the order matter to an expense's. */
  lemma ExpenseDeleteInAnyOrder(fire: Firing, db: Database, expense: Row, outcome: Outcome)
    requires AllKeys(fire) && Sound(db) && expense in db.rows && expense.table == Expenses && Ends(fire, db, expense, outcome)
    ensures outcome == Delete(db, expense)
  {
    LeafTables(db, expense);
    forall s, n, l | Reaches(fire, db, expense, s, n) && RefusedFor(db, s, l)
      ensures l.from !in Closure(db, {expense})
    {
      ReachedIsSteady(fire, db, expense, s, n);
    }
    RefusedAlike(fire, db, expense, outcome);
  }

  // ---- Companies ----

  const COMPANY_PROJECTS := Key(Projects, CompanyId)
  const COMPANY_COST_CODES := Key(CostCodes, CompanyId)

  lemma CompanyOrder(fire: Firing, db: Database, tenant: map<Row, nat>, c: nat) returns (b: nat)
    requires AllKeys(fire) && Before(fire, Companies, COMPANY_PROJECTS, COMPANY_COST_CODES)
    requires Sound(db) && Isolated(db, tenant) && Row(Companies, c) in db.rows
    ensures DeletedAt(fire, db, Row(Companies, c), OwnedBy(db, tenant, c), Projects, CostCodes, b)
  {
    b := PlaceOf(fire, Companies, COMPANY_PROJECTS, COMPANY_COST_CODES);
    forall l | l in db.links && OnDelete(l.column) == Cascade && l.from.table == Projects && l.to in OwnedBy(db, tenant, c)
      ensures l.to == Row(Companies, c)
    {
      assert l.to == Row(Companies, l.to.id);
    }
  }

  /** When a cost code is checked, the company's expenses and budget items are gone. */
  lemma SpentBeforeChecked(fire: Firing, db: Database, tenant: map<Row, nat>, c: nat, s: Deletion, r: Row)
    requires AllKeys(fire) && Sound(db) && Isolated(db, tenant) && Owned(db)
    requires Steady(fire, db, Row(Companies, c), s) && Precedes(s, Projects, CostCodes)
    requires s.next < |s.queue| && s.queue[s.next].row.table == CostCodes
    requires r in OwnedBy(db, tenant, c) && r.table in {Expenses, BudgetItems}
    ensures r in s.gone
  {
    var p := NamesProject(db, tenant, c, r);
    FirstRowDone(fire, db, Row(Companies, c), s, Link(p, CompanyId, Row(Companies, c)));
    EarlierDone(fire, db, Row(Companies, c), s, Projects, CostCodes, Link(r, ProjectId, p));
  }

  lemma ChecksOfCompany(db: Database, l: Link)
    requires Sound(db) && l in db.links && OnDelete(l.column) == NoAction && !l.from.table.OfPlatform()
    ensures l.to.table != Companies && l.from.table != Companies
    ensures l.from.table in {Expenses, BudgetItems} ==> l.to.table == CostCodes
  {
  }

  /** What still refers to a row of the company when that row's check fires is the platform's. */
  lemma OnlyPlatformIsLate(fire: Firing, db: Database, tenant: map<Row, nat>, c: nat, s: Deletion, l: Link)
    requires AllKeys(fire) && Sound(db) && Isolated(db, tenant) && Owned(db) && Row(Companies, c) in db.rows
    requires Steady(fire, db, Row(Companies, c), s) && Precedes(s, Projects, CostCodes) && RefusedFor(db, s, l)
    ensures l.from !in OwnedBy(db, tenant, c)
  {
    if !l.from.table.OfPlatform() {
      ChecksOfCompany(db, l);
      if l.from in OwnedBy(db, tenant, c) {
        if l.from.table in {Expenses, BudgetItems} {
          SpentBeforeChecked(fire, db, tenant, c, s, l.from);
        } else {
          NamesCompany(db, tenant, c, l.from);
          FirstRowDone(fire, db, Row(Companies, c), s, Link(l.from, CompanyId, Row(Companies, c)));
        }
      }
    }
  }

  /** With projects older than cost codes, a company's delete is the standard's. */
  lemma CompanyDeleteInOrder(fire: Firing, db: Database, tenant: map<Row, nat>, c: nat, outcome: Outcome)
    requires AllKeys(fire) && Before(fire, Companies, COMPANY_PROJECTS, COMPANY_COST_CODES)
    requires Sound(db) && Isolated(db, tenant) && Owned(db) && Row(Companies, c) in db.rows
    requires Ends(fire, db, Row(Companies, c), outcome)
    ensures outcome == Delete(db, Row(Companies, c))
  {
    var company := Row(Companies, c);
    var b := CompanyOrder(fire, db, tenant, c);
    CompanyClosure(db, tenant, c);
    forall s, n, l | Reaches(fire, db, company, s, n) && RefusedFor(db, s, l)
      ensures l.from !in Closure(db, {company})
    {
      ReachedIsSteady(fire, db, company, s, n);
      ReachedInOrder(fire, db, company, OwnedBy(db, tenant, c), s, n, Projects, CostCodes, b);
      OnlyPlatformIsLate(fire, db, tenant, c, s, l);
    }
    RefusedAlike(fire, db, company, outcome);
  }

  // ---- Projects ----

  const PROJECT_EXPENSES := Key(Expenses, ProjectId)
  const PROJECT_ALLOCATIONS := Key(Allocations, ProjectId)

  /** Expenses and allocations of a project go only with the project itself. */
  lemma DirectOnly(db: Database, project: Row, l: Link)
    requires Sound(db) && project.table == Projects && l in db.links && OnDelete(l.column) == Cascade
    requires l.from.table in {Expenses, Allocations} && l.to in ProjectRows(db, project)
    ensures l.to == project
  {
    ProjectTables(db, project, l.to);
  }

  lemma ProjectOrder(fire: Firing, db: Database, project: Row, x: Table, y: Table, b: nat)
    requires Sound(db) && project.table == Projects && x in {Expenses, Allocations} && y != x && y != Projects
    requires FirstAt(fire, Projects, x, y, b)
    ensures DeletedAt(fire, db, project, ProjectRows(db, project), x, y, b)
  {
    forall l | l in db.links && OnDelete(l.column) == Cascade && l.from.table == x && l.to in ProjectRows(db, project)
      ensures l.to == project
    {
      DirectOnly(db, project, l);
    }
  }

  lemma PostingsLast(fire: Firing) returns (b: nat)
    requires AllKeys(fire)
    ensures FirstAt(fire, Projects, Allocations, Postings, b)
  {
    assert Declared(Projects, PROJECT_ALLOCATIONS);
    b := PlaceAlone(fire, Projects, PROJECT_ALLOCATIONS, Postings);
  }

  /** When a row of y is checked, with the allocations' events fired before, the project's
      postings are gone. */
  lemma PostedIsGone(fire: Firing, db: Database, project: Row, s: Deletion, y: Table, posting: Row)
    requires AllKeys(fire) && Sound(db) && project.table == Projects
    requires Steady(fire, db, project, s) && Precedes(s, Allocations, y) && y != Allocations && y != Projects
    requires s.next < |s.queue| && s.queue[s.next].row.table == y && PostedTo(db, project, posting)
    ensures posting in s.gone
  {
    var a :| Link(posting, AllocationId, a) in db.links && OfProject(db, project, a);
    FirstRowDone(fire, db, project, s, Link(a, ProjectId, project));
    EarlierDone(fire, db, project, s, Allocations, y, Link(posting, AllocationId, a));
  }

  lemma ReversalIsNotLate(fire: Firing, db: Database, project: Row, s: Deletion, l: Link)
    requires AllKeys(fire) && Sound(db) && project.table == Projects && Steady(fire, db, project, s)
    requires Precedes(s, Allocations, Postings) && RefusedFor(db, s, l) && l.column == ReversalOfPostingId
    ensures !PostedTo(db, project, l.from)
  {
    if PostedTo(db, project, l.from) {
      PostedIsGone(fire, db, project, s, Postings, l.from);
    }
  }

  lemma CostCodeIsNotLate(fire: Firing, db: Database, project: Row, s: Deletion, l: Link)
    requires AllKeys(fire) && Sound(db) && project.table == Projects && Steady(fire, db, project, s)
    requires RefusedFor(db, s, l) && l.to != project
    ensures !OfProject(db, project, l.from)
  {
    if OfProject(db, project, l.from) {
      FirstRowDone(fire, db, project, s, Link(l.from, ProjectId, project));
    }
  }

  /** All but the check of an expense finds late only what is not the project's. */
  lemma OthersAreNotLate(fire: Firing, db: Database, project: Row, s: Deletion, l: Link)
    requires AllKeys(fire) && Sound(db) && project.table == Projects
    requires Steady(fire, db, project, s) && l.to in ProjectRows(db, project)
    requires Precedes(s, Allocations, Postings) && RefusedFor(db, s, l) && l.column != ExpenseId
    ensures Holds(db, project, l)
  {
    NoOtherTarget(db, project, l);
    ProjectRowsByTable(db, project, l.to);
    if l.column == ReversalOfPostingId {
      ReversalIsNotLate(fire, db, project, s, l);
    } else {
      CostCodeIsNotLate(fire, db, project, s, l);
    }
  }

  // ---- Projects whose allocations go first ----

  lemma ExpensesAreNotLate(fire: Firing, db: Database, project: Row, s: Deletion, l: Link)
    requires AllKeys(fire) && Sound(db) && project.table == Projects
    requires Steady(fire, db, project, s) && l.to in ProjectRows(db, project)
    requires Precedes(s, Allocations, Expenses) && RefusedFor(db, s, l) && l.column == ExpenseId
    ensures Holds(db, project, l)
  {
    ProjectRowsByTable(db, project, l.to);
    if PostedTo(db, project, l.from) {
      PostedIsGone(fire, db, project, s, Expenses, l.from);
    }
  }

  lemma NothingIsLate(fire: Firing, db: Database, project: Row, b: nat, d: nat, s: Deletion, n: nat, l: Link)
    requires AllKeys(fire) && Sound(db) && project.table == Projects && CascadeClosed(db, ProjectRows(db, project))
    requires FirstAt(fire, Projects, Allocations, Expenses, b) && FirstAt(fire, Projects, Allocations, Postings, d)
    requires Reaches(fire, db, project, s, n) && RefusedFor(db, s, l)
    ensures Holds(db, project, l)
  {
    ProjectOrder(fire, db, project, Allocations, Expenses, b);
    ProjectOrder(fire, db, project, Allocations, Postings, d);
    ReachedInOrder(fire, db, project, ProjectRows(db, project), s, n, Allocations, Expenses, b);
    ReachedInOrder(fire, db, project, ProjectRows(db, project), s, n, Allocations, Postings, d);
    assert l.to in s.gone;
    if l.column == ExpenseId {
      ExpensesAreNotLate(fire, db, project, s, l);
    } else {
      OthersAreNotLate(fire, db, project, s, l);
    }
  }

  /** Had allocations.project_id been the older key, a project's delete would be the standard's,
      and would take postings with it. */
  lemma ProjectDeleteAllocationsFirst(fire: Firing, db: Database, project: Row, outcome: Outcome)
    requires AllKeys(fire) && Before(fire, Projects, PROJECT_ALLOCATIONS, PROJECT_EXPENSES)
    requires Sound(db) && project in db.rows && project.table == Projects && Ends(fire, db, project, outcome)
    ensures outcome == Delete(db, project)
  {
    var b := PlaceOf(fire, Projects, PROJECT_ALLOCATIONS, PROJECT_EXPENSES);
    var d := PostingsLast(fire);
    ProjectClosure(db, project);
    forall s, n, l | Reaches(fire, db, project, s, n) && RefusedFor(db, s, l)
      ensures l.from !in Closure(db, {project})
    {
      NothingIsLate(fire, db, project, b, d, s, n, l);
      HoldsIsBlocking(db, project, l);
    }
    RefusedAlike(fire, db, project, outcome);
  }

  // ---- Projects whose expenses go first ----

  /** A posting goes only once an allocation's event has fired. */
  ghost predicate PostingsWait(s: Deletion) {
    (forall i :: 0 <= i < s.next && i < |s.queue| ==> s.queue[i].row.table != Allocations) ==>
      forall r :: r in s.gone ==> r.table != Postings
  }

  /** A check of an expense that passed found nothing to begin with. */
  ghost predicate ExpensesUnused(db: Database, s: Deletion) {
    forall i :: 0 <= i < s.next && i < |s.queue| && s.queue[i].key.column == ExpenseId ==>
      forall l :: l in db.links ==> !Matches(l, s.queue[i])
  }

  lemma NoPostingYet(db: Database, project: Row, e: Event, l: Link)
    requires Sound(db) && project.table == Projects && e.row in ProjectRows(db, project)
    requires l in db.links && Matches(l, e) && OnDelete(l.column) == Cascade && e.row.table != Allocations
    ensures l.from.table != Postings
  {
    ProjectTables(db, project, e.row);
  }

  lemma StepKeepsPostingsWait(fire: Firing, db: Database, project: Row, s: Deletion, t: Deletion)
    requires Sound(db) && project.table == Projects && s.gone <= ProjectRows(db, project)
    requires QueueOk(fire, project, s) && PostingsWait(s) && Fires(fire, db, s, t)
    ensures PostingsWait(t)
  {
    var e := s.queue[s.next];
    if OnDelete(e.key.column) == Cascade && forall i :: 0 <= i < t.next && i < |t.queue| ==> t.queue[i].row.table != Allocations {
      assert forall i :: 0 <= i < |s.queue| ==> t.queue[i] == s.queue[i];
      assert t.queue[s.next] == e;
      forall r | r in Referrers(db, e, s.gone)
        ensures r.table != Postings
      {
        var l :| l in db.links && Matches(l, e) && l.from !in s.gone && l.from == r;
        NoPostingYet(db, project, e, l);
      }
    }
  }

  /** A check of an expense sees every posting there ever was, the allocations' events coming later. */
  lemma ExpenseCheckSeesAll(fire: Firing, db: Database, project: Row, s: Deletion, l: Link)
    requires AllKeys(fire) && Sound(db) && QueueOk(fire, project, s) && PostingsWait(s) && Precedes(s, Expenses, Allocations)
    requires s.next < |s.queue| && s.queue[s.next].key.column == ExpenseId && l in db.links && Matches(l, s.queue[s.next])
    ensures l.from in Referrers(db, s.queue[s.next], s.gone)
  {
    var e := s.queue[s.next];
    assert Declared(e.row.table, e.key);
    assert l.from.table == Postings;
  }

  lemma StepKeepsUnused(fire: Firing, db: Database, project: Row, s: Deletion, t: Deletion)
    requires AllKeys(fire) && Sound(db) && QueueOk(fire, project, s) && PostingsWait(s) && Precedes(s, Expenses, Allocations)
    requires ExpensesUnused(db, s) && Fires(fire, db, s, t)
    ensures ExpensesUnused(db, t)
  {
    var e := s.queue[s.next];
    forall l | l in db.links && e.key.column == ExpenseId && Matches(l, e)
      ensures l.from in Referrers(db, e, s.gone)
    {
      ExpenseCheckSeesAll(fire, db, project, s, l);
    }
    KeptUnused(db, s, t);
  }

  lemma KeptUnused(db: Database, s: Deletion, t: Deletion)
    requires ExpensesUnused(db, s) && s.next < |s.queue| && s.queue <= t.queue && t.next <= s.next + 1
    requires s.queue[s.next].key.column == ExpenseId && t.next > s.next ==>
               forall l :: l in db.links ==> !Matches(l, s.queue[s.next])
    ensures ExpensesUnused(db, t)
  {
    forall i, l | 0 <= i < t.next && i < |t.queue| && t.queue[i].key.column == ExpenseId && l in db.links
      ensures !Matches(l, t.queue[i])
    {
      assert t.queue[i] == s.queue[i];
    }
  }

  ghost predicate Watched(fire: Firing, db: Database, project: Row, b: nat, s: Deletion) {
    && SteadyInOrder(fire, db, project, ProjectRows(db, project), Expenses, Allocations, b, s)
    && PostingsWait(s) && ExpensesUnused(db, s)
  }

  lemma StartIsWatched(fire: Firing, db: Database, project: Row, b: nat)
    requires project.table == Projects && DeletedAt(fire, db, project, ProjectRows(db, project), Expenses, Allocations, b)
    ensures Watched(fire, db, project, b, Start(fire, project))
  {
    StartIsSteadyInOrder(fire, db, project, ProjectRows(db, project), Expenses, Allocations, b);
  }

  lemma EveryStepKeepsWatched(fire: Firing, db: Database, project: Row, b: nat)
    requires AllKeys(fire) && Sound(db) && project.table == Projects && CascadeClosed(db, ProjectRows(db, project))
    requires DeletedAt(fire, db, project, ProjectRows(db, project), Expenses, Allocations, b)
    ensures forall s, t :: Watched(fire, db, project, b, s) && Fires(fire, db, s, t) ==> Watched(fire, db, project, b, t)
  {
    forall s, t | Watched(fire, db, project, b, s) && Fires(fire, db, s, t)
      ensures Watched(fire, db, project, b, t)
    {
      StepKeepsSteadyInOrder(fire, db, project, ProjectRows(db, project), s, t, Expenses, Allocations, b);
      StepKeepsPostingsWait(fire, db, project, s, t);
      StepKeepsUnused(fire, db, project, s, t);
    }
  }

  lemma ReachedWatched(fire: Firing, db: Database, project: Row, b: nat, s: Deletion, n: nat)
    requires Watched(fire, db, project, b, Start(fire, project))
    requires forall before, after :: Watched(fire, db, project, b, before) && Fires(fire, db, before, after) ==>
               Watched(fire, db, project, b, after)
    requires Reaches(fire, db, project, s, n)
    ensures Watched(fire, db, project, b, s)
  {
    Invariant(fire, db, project, (at: Deletion) => Watched(fire, db, project, b, at), s, n);
  }

  /** What keeps a project when its expenses go first: besides the references the standard
      minds, any posting booked to one of its expenses, be it of its own allocation. */
  ghost predicate Withheld(db: Database, project: Row, l: Link) {
    if l.column == ExpenseId then OfProject(db, project, l.to) else Holds(db, project, l)
  }

  /** A delete that went all the way found no posting booked to an expense of the project. */
  lemma EndIsUnused(fire: Firing, db: Database, project: Row, b: nat, s: Deletion, l: Link)
    requires AllKeys(fire) && Sound(db) && project.table == Projects
    requires Watched(fire, db, project, b, s) && s.next == |s.queue| && s.gone == ProjectRows(db, project)
    requires l in db.links && l.column == ExpenseId
    ensures !OfProject(db, project, l.to)
  {
    if OfProject(db, project, l.to) {
      ProjectRowsByTable(db, project, l.to);
      var i := LinkHasEvent(fire, db, project, s, l);
    }
  }

  lemma RefusedIsWithheld(fire: Firing, db: Database, project: Row, s: Deletion, n: nat, l: Link, d: nat)
    requires AllKeys(fire) && Sound(db) && project in db.rows && project.table == Projects
    requires CascadeClosed(db, ProjectRows(db, project)) && FirstAt(fire, Projects, Allocations, Postings, d)
    requires Reaches(fire, db, project, s, n) && RefusedFor(db, s, l)
    ensures Withheld(db, project, l)
  {
    ProjectOrder(fire, db, project, Allocations, Postings, d);
    ReachedInOrder(fire, db, project, ProjectRows(db, project), s, n, Allocations, Postings, d);
    assert l.to in s.gone;
    if l.column == ExpenseId {
      ProjectRowsByTable(db, project, l.to);
    } else {
      OthersAreNotLate(fire, db, project, s, l);
    }
  }

  /** With expenses.project_id the older key, as it is, a project's delete is refused exactly
      when a row elsewhere uses one of its cost codes, a posting elsewhere reverses one of its
      postings, or any posting at all is booked to one of its expenses. */
  lemma ProjectDeleteExpensesFirst(fire: Firing, db: Database, project: Row, outcome: Outcome)
    requires AllKeys(fire) && Before(fire, Projects, PROJECT_EXPENSES, PROJECT_ALLOCATIONS)
    requires Sound(db) && project in db.rows && project.table == Projects && Ends(fire, db, project, outcome)
    ensures outcome == Refused <==> exists l :: l in db.links && Withheld(db, project, l)
    ensures outcome.Deleted? ==> outcome == Delete(db, project)
  {
    var b := PlaceOf(fire, Projects, PROJECT_EXPENSES, PROJECT_ALLOCATIONS);
    var d := PostingsLast(fire);
    ProjectOrder(fire, db, project, Expenses, Allocations, b);
    ProjectClosure(db, project);
    NeverBeyondStandard(fire, db, project, outcome);
    var s, n :| Reaches(fire, db, project, s, n) && !Open(s) && outcome == OutcomeOf(db, s);
    if s.refused {
      ReachedIsSteady(fire, db, project, s, n);
      var l :| RefusedFor(db, s, l);
      RefusedIsWithheld(fire, db, project, s, n, l, d);
    } else {
      ProjectDeleteIff(db, project);
      StartIsWatched(fire, db, project, b);
      EveryStepKeepsWatched(fire, db, project, b);
      ReachedWatched(fire, db, project, b, s, n);
      EndIsClosure(fire, db, project, s, n);
      forall l | l in db.links
        ensures !Withheld(db, project, l)
      {
        if l.column == ExpenseId {
          EndIsUnused(fire, db, project, b, s, l);
        }
      }
    }
  }
}
