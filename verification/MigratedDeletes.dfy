// Which deletes go through in the server's database, whose keys were created in the order of
// the migrations under server/drizzle.
module MigratedDeletes {
  import opened Referential
  import opened DeleteQueue
  import opened QueuedDeletes

  /** The keys that refer to a table, in the order the migrations under server/drizzle add
      them, which is the order their triggers fire in. */
  function Triggers(table: Table): seq<Key> {
    match table
    case Companies =>
      [Key(Projects, CompanyId), Key(Users, CompanyId), Key(CostCodes, CompanyId),
       Key(SupportSessions, TargetCompanyId), Key(Employees, CompanyId), Key(Allocations, CompanyId),
       Key(Postings, CompanyId), Key(ImportBatches, CompanyId), Key(PayrollPeriods, CompanyId),
       Key(PayrollRecords, CompanyId), Key(Table.Dependencies, CompanyId), Key(Tasks, CompanyId), Key(Incidents, AboutCompanyId)]
    case Users =>
      [Key(RuleVersions, PublishedBy), Key(Employees, UserId), Key(Employees, CreatedBy), Key(Allocations, CreatedBy),
       Key(Postings, PostedBy), Key(ImportBatches, CreatedBy), Key(ImportBatches, CommittedBy),
       Key(PayrollPeriods, CreatedBy), Key(PayrollPeriods, SubmittedBy), Key(PayrollPeriods, ApprovedBy),
       Key(PayrollPeriods, PostedBy), Key(PayrollPeriods, RejectedBy), Key(PayrollRecords, CreatedBy),
       Key(Table.Dependencies, CreatedBy), Key(Tasks, CreatedBy)]
    case Projects =>
      [Key(BudgetItems, ProjectId), Key(Expenses, ProjectId), Key(CostCodes, ProjectId), Key(Allocations, ProjectId),
       Key(Table.Dependencies, ProjectId), Key(Tasks, ProjectId)]
    case CostCodes =>
      [Key(CostCodes, ParentCostCodeId), Key(BudgetItems, CostCodeId), Key(Allocations, CostCodeId), Key(Expenses, CostCodeId)]
    case BudgetItems => [Key(Expenses, BudgetItemId)]
    case Expenses => [Key(Postings, ExpenseId)]
    case Employees => [Key(PayrollRecords, EmployeeId)]
    case PayrollPeriods => [Key(Postings, PayrollPeriodId), Key(ImportBatches, PayrollPeriodId), Key(PayrollRecords, PayrollPeriodId)]
    case PayrollRecords => [Key(Allocations, PayrollRecordId)]
    case ImportBatches => [Key(PayrollRecords, ImportBatchId)]
    case Allocations => [Key(Postings, AllocationId)]
    case Postings => [Key(Postings, ReversalOfPostingId)]
    case Tasks => [Key(Table.Dependencies, PredecessorTaskId), Key(Table.Dependencies, SuccessorTaskId), Key(Tasks, ParentTaskId)]
    case Dependencies | SupportSessions | RuleVersions | Incidents => []
  }

  lemma CompanyTriggersAreDeclared(i: nat)
    requires i < |Triggers(Companies)|
    ensures Declared(Companies, Triggers(Companies)[i])
  {
  }

  lemma UserTriggersAreDeclared(i: nat)
    requires i < |Triggers(Users)|
    ensures Declared(Users, Triggers(Users)[i])
  {
  }

  lemma TriggerIsDeclared(table: Table, i: nat)
    requires i < |Triggers(table)|
    ensures Declared(table, Triggers(table)[i])
  {
    match table
    case Companies => CompanyTriggersAreDeclared(i);
    case Users => UserTriggersAreDeclared(i);
    case Projects | CostCodes | BudgetItems | Expenses | Employees | PayrollPeriods | PayrollRecords =>
    case ImportBatches | Allocations | Postings | Tasks | Dependencies | SupportSessions | RuleVersions | Incidents =>
  }

  lemma DeclaredHasTrigger(key: Key)
    requires Declares(key.table, key.column)
    ensures key in Triggers(Target(key.column))
  {
    match key.column
    case CompanyId => CompanyKeyHasTrigger(key);
    case CreatedBy => CreatorKeyHasTrigger(key);
    case ProjectId | CostCodeId | ParentCostCodeId | BudgetItemId =>
    case UserId | SubmittedBy | ApprovedBy | PostedBy | RejectedBy | CommittedBy | PublishedBy =>
    case PayrollPeriodId | PayrollRecordId | EmployeeId | ImportBatchId | AllocationId | ExpenseId | ReversalOfPostingId =>
    case ParentTaskId | PredecessorTaskId | SuccessorTaskId | TargetCompanyId | AboutCompanyId =>
  }

  lemma CompanyKeyHasTrigger(key: Key)
    requires key.column == CompanyId && Declares(key.table, CompanyId)
    ensures key in Triggers(Companies)
  {
    match key.table
    case Users | Projects | CostCodes | Employees | PayrollPeriods | PayrollRecords | ImportBatches =>
    case Allocations | Postings | Tasks | Dependencies =>
    case _ =>
  }

  lemma CreatorKeyHasTrigger(key: Key)
    requires key.column == CreatedBy && Declares(key.table, CreatedBy)
    ensures key in Triggers(Users)
  {
  }

  /** A key has a trigger on a table exactly when it is declared and refers to it. */
  lemma TriggersAreTheKeys(table: Table, key: Key)
    ensures key in Triggers(table) <==> Declared(table, key)
  {
    if i :| 0 <= i < |Triggers(table)| && Triggers(table)[i] == key {
      TriggerIsDeclared(table, i);
    }
    if Declares(key.table, key.column) {
      DeclaredHasTrigger(key);
    }
  }

  lemma TriggersDiffer(table: Table, i: nat, j: nat)
    requires i < j < |Triggers(table)|
    ensures Triggers(table)[i] != Triggers(table)[j]
  {
    match table
    case Companies =>
    case Users =>
    case Projects | CostCodes | BudgetItems | Expenses | Employees | PayrollPeriods | PayrollRecords =>
    case ImportBatches | Allocations | Postings | Tasks | Dependencies | SupportSessions | RuleVersions | Incidents =>
  }

  lemma MigrationsCoverAllKeys()
    ensures AllKeys(Triggers)
  {
    forall table, key
      ensures key in Triggers(table) <==> Declared(table, key)
    {
      TriggersAreTheKeys(table, key);
    }
    forall table, i, j | 0 <= i < j < |Triggers(table)|
      ensures Triggers(table)[i] != Triggers(table)[j]
    {
      TriggersDiffer(table, i, j);
    }
  }

  lemma OlderKeys()
    ensures Before(Triggers, Companies, COMPANY_PROJECTS, COMPANY_COST_CODES)
    ensures Before(Triggers, Projects, PROJECT_EXPENSES, PROJECT_ALLOCATIONS)
  {
    assert Triggers(Companies)[0] == COMPANY_PROJECTS && Triggers(Companies)[2] == COMPANY_COST_CODES;
    assert Triggers(Projects)[1] == PROJECT_EXPENSES && Triggers(Projects)[3] == PROJECT_ALLOCATIONS;
  }

  // ---- What the server's deletes do ----

  /** DELETE of a project: refused exactly when a row elsewhere uses one of its cost codes, a
      posting elsewhere reverses one of its postings, or any posting at all is booked to one of
      its expenses; otherwise its own rows, their postings and their dependencies go. */
  lemma ProjectDelete(db: Database, project: Row, outcome: Outcome)
    requires Sound(db) && project in db.rows && project.table == Projects && Ends(Triggers, db, project, outcome)
    ensures outcome == Refused <==> exists l :: l in db.links && Withheld(db, project, l)
    ensures outcome.Deleted? ==> outcome.after.rows == db.rows - ProjectRows(db, project)
  {
    MigrationsCoverAllKeys();
    OlderKeys();
    ProjectDeleteExpensesFirst(Triggers, db, project, outcome);
    ProjectDeleteIff(db, project);
  }

  /** Every posting of the project's allocations is booked to an expense of the project, as the
      posting and reversing routes book it. */
  ghost predicate BookedWithin(db: Database, project: Row) {
    forall posting :: posting in db.rows && PostedTo(db, project, posting) ==>
      exists e :: Link(posting, ExpenseId, e) in db.links && OfProject(db, project, e)
  }

  /** On such books no delete of a project removes a posting: one that has any stays. */
  lemma PostingsOutliveProjects(db: Database, project: Row, outcome: Outcome)
    requires Sound(db) && project in db.rows && project.table == Projects && Ends(Triggers, db, project, outcome)
    requires BookedWithin(db, project)
    ensures (exists posting :: posting in db.rows && PostedTo(db, project, posting)) ==> outcome == Refused
    ensures outcome.Deleted? ==> forall posting :: posting in db.rows && posting.table == Postings ==> posting in outcome.after.rows
  {
    ProjectDelete(db, project, outcome);
    forall posting | posting in db.rows && PostedTo(db, project, posting)
      ensures outcome == Refused
    {
      var e :| Link(posting, ExpenseId, e) in db.links && OfProject(db, project, e);
      assert Withheld(db, project, Link(posting, ExpenseId, e));
    }
    forall posting | posting in db.rows && posting.table == Postings
      ensures outcome.Deleted? ==> posting in outcome.after.rows
    {
      ProjectRowsByTable(db, project, posting);
    }
  }

  lemma BookedProjectStays(db: Database, project: Row, posting: Row, expense: Row, outcome: Outcome)
    requires Sound(db) && project in db.rows && project.table == Projects && Ends(Triggers, db, project, outcome)
    requires Link(posting, ExpenseId, expense) in db.links && OfProject(db, project, expense)
    ensures outcome == Refused
  {
    ProjectDelete(db, project, outcome);
    assert Withheld(db, project, Link(posting, ExpenseId, expense));
  }

  /** On the one posted allocation the check of the expense refuses what the check at the end of
      the statement, as section 11.8 of ISO/IEC 9075-2 has it, would let through. */
  lemma PostedProjectStays(db: Database, outcome: Outcome)
    requires db == PostedBooks() && Ends(Triggers, db, Only(Projects), outcome)
    ensures outcome == Refused
    ensures Sound(db) && Only(Projects) in db.rows && Delete(db, Only(Projects)).Deleted?
  {
    PostedProjectGoes();
    PostedLinks();
    BookedProjectStays(db, Only(Projects), Only(Postings), Only(Expenses), outcome);
  }

  /** DELETE of a company: refused exactly when the platform knows it by a support session, or
      one of its users by tax rules published; otherwise exactly its own rows go. */
  lemma CompanyDelete(db: Database, tenant: map<Row, nat>, c: nat, outcome: Outcome)
    requires Sound(db) && Isolated(db, tenant) && Owned(db) && Row(Companies, c) in db.rows
    requires Ends(Triggers, db, Row(Companies, c), outcome)
    ensures outcome == Refused <==> KnownToPlatform(db, tenant, c)
    ensures outcome.Deleted? ==> outcome.after.rows == db.rows - OwnedBy(db, tenant, c)
  {
    MigrationsCoverAllKeys();
    OlderKeys();
    CompanyDeleteInOrder(Triggers, db, tenant, c, outcome);
    CompanyDeleteIff(db, tenant, c);
  }
}
