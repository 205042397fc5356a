# Verified model of the financial and concurrency protocols

A Dafny 4.11 model of how the application keeps money, quantities, counters and graphs
right while requests overlap, fail and retry, with proofs over every run. `dafny verify
dfyconfig.toml` checks it all.

Every protocol is a state and a step function over database statements or whole
transactions, at the granularity the row locks allow; a class beside it updates the tables
in place, loops as the routes loop, and is proved equal to the step function. Money is in
cents, quantities in thousandths, stored percentages in hundredths of a percent; numbers a
request carries unrounded are reals.

| files | what they model |
|---|---|
| `RowLocks`, `CertificationModel`, `CertificationSafety`, `CertificationLedger`, `CertificationEffects`, `CertificationTables` | measurement approval and the two kinds of payment certificate: lock plans, ceilings, frozen snapshots |
| `IdempotencyModel`, `IdempotencyProofs`, `IdempotencyTheorems`, `IdempotencyAnswers`, `IdempotencyLease`, `IdempotencyProgress`, `IdempotencyTables`, `ChangeOrdersPanel` | the idempotency lease with fencing tokens, around change-order decisions, and the client's key map |
| `Dependencies`, `TaskTree`, `Schedule`, `ScheduleRuns`, `ScheduleReferences` | the finish-to-start graph and the task hierarchy |
| `Referential`, `DeleteQueue`, `QueuedDeletes`, `MigratedDeletes` | cascade, set null and no action over the declared foreign keys: as the standard defines them, as PostgreSQL's trigger queue enforces them, and where the order of the migrations decides |
| `Allocation`, `AllocationAmounts`, `AllocationTables` | labor allocations of one payroll record |
| `Payroll`, `PayrollProofs`, `PayrollEffects`, `PayrollTables` | posting payroll to expenses, and reversing it |
| `Zatca`, `ZatcaTables` | the invoice counter (KSA-16) and previous-invoice-hash chain (KSA-13) of an EGS unit |
| `BoqRevisions`, `BoqTables`, `Commitments`, `CommitmentTables` | BOQ revisions, and the derived amounts of a commitment |
| `InvoicePages`, `Templates`, `Translations` | the invoice page walk and translated texts |
| `Money`, `Reals` | rounding |

## Where the code does less than its comments say

The model follows the code. The member named states when the promise holds, or gives the run
that breaks it; the table lists both.

- Allocation percentages: an edit without a percentage writes back one read before the lock
  (`RunWithinHundredIff`), and amounts are resolved from unrounded percentages
  (`RunHalfCentEachIff`).
- Commitment lines: the amount uses the request's rate, certificates the stored one
  (`StaysWithinIff`, `UsedUpIff`).
- Schedule: neither the cycle check nor the ancestor walk takes a lock, and an edit of other
  fields writes a stale parent back (`RunIsAcyclicIff`, `RunIsForestIff`); the walk stops after
  a thousand tasks (`DeepChainsLoop`).
- BOQ revisions: drafts can be published out of order, so the supersedes links need not fall
  (`LinksFallIff`).
- Idempotency: a kept key does not keep the opposite decision out until its claim is completed
  (`KeyGuardsIff`, `OppositeDecisionAfterCrash`), and a lost completion reply deletes the stored
  response (`StoredResponseLastsIff`, `LostCompletionForgetsResponse`); what holds regardless is
  `BudgetIsOpeningPlusApproved`, `NoFalseSuccess`, `DecidedOnce`.
- Companies: a company a support session ever targeted cannot be deleted, although every tenant
  table cascades (`CompanyDelete`).
- Posted labor: a project's postings outlive it (`PostingsOutliveProjects`), but only because
  the expenses' key is older than the allocations' (`ProjectDeleteExpensesFirst`,
  `ProjectDeleteAllocationsFirst`); the declared actions alone do not say so
  (`PostedProjectGoes`).
- Invoice pages: an invoice arriving during the walk makes another count twice, one marked paid
  after its page is missed (`WalkIsWholeListIff`, `PaidTotalsLag`).
- Row locks: project deletion leaves the global order (`ProjectDeletionDeadlocks`).

## Model

| member | source | states |
|---|---|---|
| `Money.RoundDiv` | server/src/lib/money.ts:8-18 | the integer n/d rounds to lies within half a unit of it, a tie going up: the two bounds leave one integer |
| `Money.RoundDivUnique` | server/src/lib/money.ts:8-18 | those bounds determine the rounded amount |
| `Money.SumOne` | server/src/lib/money.ts:20-22 | a sum of one amount is that amount; with additivity over concatenation this leaves one meaning for every sum below |
| `Money.SplitLinesDrift` | server/src/lib/money.ts:16-22 | n line values rounded one by one stay within half a cent each of the exact product of total quantity and rate |
| `RowLocks.SortedDistinct` | server/src/routes/ipcs.ts:491 | the ids locked are exactly the ids on the lines, each once, rising |
| `RowLocks.PlansAreOrdered` | server/src/routes/measurements.ts:344-352 | the lock plans of approve, both certifies, commitment submit/approve/amend, BOQ publish and allocation edits all follow one global order |
| `RowLocks.DeadlockFree` | server/src/routes/measurements.ts:327-336 | while a transaction is unfinished, some transaction can take its next lock or end |
| `RowLocks.ReachableStatesAreDeadlockFree` | server/src/db/schema.ts:2045-2056 | the same in every state reached by any arrivals, advances and aborts of ordered transactions, with one holder per row |
| `RowLocks.EveryTransactionCanFinish` | server/src/db/schema.ts:2045-2056 | from any such state a schedule brings all transactions to their end |
| `RowLocks.NoLongerSchedule` | server/src/db/schema.ts:2045-2056 | and no schedule at all is longer than the locks and ends still outstanding |
| `RowLocks.UnsortedPlansDeadlock` | server/src/routes/measurements.ts:327-332 | without the sort two transactions over the same two items reach a state in which neither can step |
| `RowLocks.ProjectDeletionDeadlocks` | server/src/routes/projects.ts:160-190 | counterexample: project deletion locks commitments and then cascades into contracts, out of that order, and a submit of a cancelled commitment, whose status is read only under its locks, reaches a state with it in which neither can step |
| `CertificationSafety.StepKeepsInv` | server/src/routes/ipcs.ts:466-606 | every database step (line edits, submits, reviews, lock by lock certify, commit, abort) keeps: one holder per row, every check made under a lock still true, all ceilings respected |
| `CertificationSafety.NeverOvercertified` | server/src/routes/ipcs.ts:506-520 | in every interleaved run, per item: certified <= measured <= BOQ quantity, and certified <= committed by quantity or by amount |
| `CertificationSafety.CommitTotals` | server/src/db/schema.ts:2077-2095 | a commit adds the document's own lines to its own ledger and changes no figure of another kind's, even on a shared item |
| `CertificationSafety.CheckSurvivesCommit` | server/src/routes/ipcs.ts:500-520 | an overrun check made under lock by one transaction is not invalidated by another's commit |
| `CertificationSafety.CertificationNeverDeadlocks` | server/src/routes/subcontractIpcs.ts:460-500 | in every reachable state with an open approve or certify, one of them can take its next lock or commit |
| `CertificationLedger.StepKeepsPosted` | server/src/db/schema.ts:1953-1973 | no step changes an approved measurement or a certified certificate, nor the price of an item |
| `CertificationLedger.RunKeepsPosted` | server/src/db/schema.ts:2024-2041 | a posted document is bit for bit the same at the end of every longer run, whatever retention rate or certificate comes later |
| `CertificationLedger.EveryRunTelescopes` | server/src/routes/ipcs.ts:522-559 | in every run each certificate line shows as previous the sum of all quantities (and for subcontracts values) certified before it and as cumulative that plus its own; gross is the sum of the line values and equals net plus retention exactly, net not negative |
| `CertificationLedger.CommitFreezesLivePercent` | server/src/routes/ipcs.ts:479-488 | the retention frozen at commit is computed with the percentage in force at that moment |
| `CertificationLedger.NetIsNotNegative` | server/src/routes/ipcs.ts:559-563 | with a retention of at most 100% the negative-net refusal cannot occur |
| `CertificationLedger.CertifiedValueNearCommitted` | server/src/routes/subcontractIpcs.ts:500-540 | n certificate lines on a quantity line pay at most n/2 cents above the full quantity at the stored rate, and at most (n+1)/2 below it when used up |
| `CertificationLedger.PreviousValueNearEarlierValues` | server/src/routes/ipcs.ts:526-533 | the owner certificate's once-rounded previous value is within half a cent per earlier line, and half a cent, of the values it summarises |
| `CertificationEffects.StatusMoves` | server/src/routes/ipcs.ts:302-411 | every way a document's status can change: submitted only from draft or rejected and with lines, approved or rejected only from submitted, certified only from approved |
| `CertificationEffects.PostedWasReviewed` | server/src/routes/ipcs.ts:477 | in every run each certificate in the ledger was submitted and then accepted by a review, whose action is exhibited |
| `CertificationEffects.LineSums` | server/src/routes/ipcs.ts:515-516 | what a document's lines use of an item is the sum of their quantities, or of their values under an amount ceiling; the gross the sum of the values |
| `CertificationEffects.LedgerSums` | server/src/routes/measurements.ts:315-325 | the ledger total is the sum of that over the approved measurements, or certified certificates, of the kind |
| `CertificationTables.Tables.SetPercent` | server/src/db/schema.ts:2024-2041 | a new percentage, written exactly when no transaction has the row, changes no posted document and no certified total, and every certificate in the making that holds its contract still knows the percentage in force |
| `CertificationTables.Tables.AddItem` | server/src/routes/boq.ts:247-300 | a new BOQ item or commitment line gets its ceiling and rate; an existing one stays |
| `CertificationTables.Tables.AddDocument` | server/src/routes/ipcs.ts:50-110 | a new document is a draft without lines |
| `CertificationTables.Tables.AddLine` | server/src/routes/ipcs.ts:220-251 | exactly to an unlocked draft or rejected document a line is added, at the item's rate, quantity times rate rounded once; no ledger total moves and nothing posted or locked is touched |
| `CertificationTables.Tables.RemoveLine` | server/src/routes/ipcs.ts:275-297 | exactly from an unlocked draft or rejected document one line is taken, no total moves, nothing posted or locked is touched |
| `CertificationTables.Tables.Submit` | server/src/routes/ipcs.ts:309-330 | exactly an unlocked draft or rejected document with lines becomes submitted; no total moves |
| `CertificationTables.Tables.Review` | server/src/routes/ipcs.ts:352-411 | exactly a submitted, unlocked document is approved or rejected, a measurement never approved this way; no total moves |
| `CertificationTables.Tables.SumLines` | server/src/routes/ipcs.ts:515-516 | the loop over the document's lines is the specified sum for the item |
| `CertificationTables.Tables.SumPosted` | server/src/routes/measurements.ts:315-325 | the sum over the posted documents' lines is the specified ledger total |
| `CertificationTables.Tables.Begin` | server/src/routes/ipcs.ts:475 | a transaction on an existing document opens holding nothing: the same rows are free, the same totals stand |
| `CertificationTables.Tables.Abort` | server/src/routes/ipcs.ts:475-520 | a transaction given up lets go of its rows and changes nothing else |
| `CertificationTables.Tables.Advance` | server/src/routes/ipcs.ts:476-520 | getting the document row a certificate goes on exactly when approved, a measurement when submitted; getting the parent it reads the percentage in force; getting an item it ends exactly when the ledger total and its own lines pass what is measured or committed |
| `CertificationTables.Tables.FreezeLines` | server/src/routes/ipcs.ts:526-535 | the running-total loop yields for every line the snapshot specified from all earlier lines |
| `CertificationTables.Tables.SumValues` | server/src/routes/ipcs.ts:549 | the gross is the sum of the line values |
| `CertificationTables.Tables.Commit` | server/src/routes/ipcs.ts:538-580 | with all rows held, and only then, a measurement becomes approved, a certificate certified with gross, retention and net at the percentage in force, or nothing is posted if net were negative; ceilings hold and the ledger telescopes as before |
| `IdempotencyTheorems.BudgetIsOpeningPlusApproved` | server/src/routes/changeOrders.ts:103-130 | in every run of retries, crashes, lost replies and reclaims the budget is its opening value plus the amounts of the approved orders |
| `IdempotencyTheorems.NoFalseSuccess` | server/src/lib/idempotency.ts:155-169 | no request, replayed or not, is ever told a success that did not happen |
| `IdempotencyTheorems.OneDeciderPerOrder` | server/src/routes/changeOrders.ts:104-109 | of all leaders a key has had, at most one decided a given order |
| `IdempotencyTheorems.DecidedOnce` | server/src/db/schema.ts:356-360 | a decided order never changes its decision again in any run |
| `IdempotencyTheorems.OwnerChangesOnlyAfterLease` | server/src/lib/idempotency.ts:245-261 | a claim changes owner only while pending and after its lease has passed, and disappears only at its owner's hand |
| `IdempotencyAnswers.KeyGuardsIff` | server/src/lib/idempotency.ts:170-261 | in every run, while an order is pending, a request under a key with either decision can still come to be applied and answered as success, without a stored response of the key being deleted first, exactly when the key has no completed claim |
| `IdempotencyAnswers.OneAnswerPerKey` | server/src/lib/idempotency.ts:220-245 | in every run in which the key's stored response is never deleted, all workers answered under it made the same request and got the same answer, and one refused for its fingerprint made another |
| `IdempotencyTheorems.LiveHolderKeepsClaim` | server/src/lib/idempotency.ts:141-152 | while the lease runs nobody but the holder changes or removes the claim |
| `IdempotencyLease.LeaderIsSafeForALease` | server/src/lib/idempotency.ts:202 | in every run a worker that comes to lead, by a fresh claim or a steal, still owns its pending claim after anything the others do within one lease, while it stays at work |
| `IdempotencyLease.HeartbeatIsSafeForALease` | server/src/lib/idempotency.ts:141-152 | a heartbeat of the owner gives it another whole lease from then on |
| `IdempotencyLease.NoLeaseBeyondOne` | server/src/lib/idempotency.ts:202 | in every run no claim is good for longer than one lease from now, so a silent holder can be overtaken after it |
| `IdempotencyProgress.EveryRequestEnds` | server/src/lib/idempotency.ts:191-276 | in every run, whatever the others do and whatever fails, a request is done after a bounded number of its own statements: three attempts of forty polls, and those of a leader |
| `IdempotencyTheorems.CompletedClaimIsFinal` | server/src/lib/idempotency.ts:161-177 | a step leaves a completed claim as it is, or is the catch-block delete of the worker that completed it, which removes it |
| `IdempotencyTheorems.StoredResponseLastsIff` | server/src/db/schema.ts:1291-1317 | a response stored at any moment of a run is the one stored at its end exactly when no catch block that still owned the claim deleted it in between |
| `IdempotencyTheorems.OppositeDecisionAfterCrash` | server/src/lib/idempotency.ts:248-251 | counterexample: after a crash the opposite decision under the kept key steals the claim, is applied and answered as success |
| `IdempotencyTheorems.LostCompletionForgetsResponse` | server/src/lib/idempotency.ts:170-177 | counterexample: when the completion's reply is lost the stored response is deleted and a retry is told 409 |
| `IdempotencyProofs.StepKeepsInv` | server/src/lib/idempotency.ts:136-276 | every statement of every worker, heartbeat, crash and clock tick keeps the fencing invariant: distinct tokens, live claims owned by their leader, truthful responses, a balanced budget |
| `IdempotencyTables.Server.Decide` | server/src/routes/changeOrders.ts:91-130 | it succeeds exactly for a pending order, changes that order alone and to the decision made, and moves the budget by what the approved sum moves |
| `IdempotencyTables.Server.CreateOrder` | server/src/routes/changeOrders.ts:45-80 | a new order is pending and its amount not in the budget |
| `IdempotencyTables.Server.DecideWithoutKey` | server/src/routes/changeOrders.ts:91-130 | not found for a missing order, decided exactly for a pending one, which alone changes |
| `IdempotencyTables.Server.DeleteOrder` | server/src/routes/changeOrders.ts:207-242 | exactly an existing order that is not approved is deleted; the budget, the approved sum and every other order stay |
| `IdempotencyTables.Server.Work` | server/src/lib/idempotency.ts:191-276 | one statement of withIdempotency leaves the budget at opening plus approved, orders moving forward only, stored responses in place but for their own catch block, every other worker and key untouched; a worker that comes to lead owns a claim for a whole lease, one that is answered finds its own request and answer stored, and a failed statement of a leader changes nothing |
| `IdempotencyTables.Server.Beat` | server/src/lib/idempotency.ts:141-152 | a heartbeat changes at most the lease of the pending claim its worker still owns |
| `ChangeOrdersPanel.SameKeyIffRetry` | client/src/components/ChangeOrdersPanel.tsx:52-70 | two decisions carry the same key exactly when they are for the same order with no success in between |
| `ChangeOrdersPanel.RunIsValid` | client/src/components/ChangeOrdersPanel.tsx:54-58 | kept keys are pairwise distinct in every run |
| `ChangeOrdersPanel.Panel.Decide` | client/src/components/ChangeOrdersPanel.tsx:52-64 | a retry sends its kept key again, any other decision one that no order holds, and no other order's key changes |
| `ChangeOrdersPanel.Panel.Settle` | client/src/components/ChangeOrdersPanel.tsx:65-69 | a success drops this order's key, a failure keeps it and shows the error, and no other order's key changes either way |
| `IdempotencyAnswers.RetryReplays` | client/src/components/ChangeOrdersPanel.tsx:52-70 | end to end, while the key's stored response is not deleted: a second click on an order with no success seen in between carries the first one's key, both get the same answer if answered, and once one decision was answered the opposite is not |
| `Dependencies.WouldCreateCycle` | server/src/routes/projectSchedule.ts:304-325 | the stack search terminates and answers true exactly when the successor reaches the predecessor |
| `Dependencies.SuccessorLists` | server/src/routes/projectSchedule.ts:308-313 | the adjacency map lists exactly the successors of every task |
| `Dependencies.EdgeIsSafeIff` | server/src/routes/projectSchedule.ts:359-361 | a new edge keeps an acyclic graph acyclic exactly when that search answers false |
| `Dependencies.NoOrphanEdge` | server/src/db/schema.ts:3552-3577 | whatever the interleaving, no dependency points at a missing task |
| `Dependencies.WhatStands` | server/src/routes/projectSchedule.ts:332-420 | a dependency is there at the end of a run exactly when a checked request inserted it and neither it nor one of its tasks was deleted since; a task exactly when created and not deleted since |
| `Dependencies.RunIsAcyclicIff` | server/src/routes/projectSchedule.ts:359-374 | a run of interleaved requests stays acyclic throughout exactly when every insert would still pass its earlier, unlocked check |
| `Dependencies.ConcurrentChecksCloseCycle` | server/src/routes/projectSchedule.ts:359-374 | counterexample: two requests each checked before the other inserts close a cycle |
| `Dependencies.SerialRequestsStayAcyclic` | server/src/routes/projectSchedule.ts:332-396 | requests that do not overlap keep the graph acyclic through every create, delete and insert |
| `TaskTree.ResolveParent` | server/src/routes/projectSchedule.ts:111-139 | the bounded walk refuses exactly a self parent, a missing parent, or a task among the candidate's first thousand ancestors |
| `TaskTree.ReparentIsSafeIff` | server/src/routes/projectSchedule.ts:125-137 | a move keeps a forest exactly when the task is not the new parent or any ancestor of it |
| `TaskTree.AcceptedReparentIsSafeIff` | server/src/routes/projectSchedule.ts:129 | a move the walk accepts and that is written on the same hierarchy is safe exactly when the task is not an ancestor beyond its reach |
| `TaskTree.SmallProjectsAreSafe` | server/src/routes/projectSchedule.ts:129 | up to 1001 tasks the walk misses nothing of the hierarchy it reads |
| `TaskTree.DeepChainsLoop` | server/src/routes/projectSchedule.ts:129 | counterexample for every larger size: a forest of that many tasks in which putting the root under the last task is accepted and loops |
| `TaskTree.DeleteKeepsForest` | server/src/db/schema.ts:3505-3511 | deleting a task leaves a forest, loses no other task and promotes its children |
| `TaskTree.CreateKeepsForest` | server/src/routes/projectSchedule.ts:153-170 | a new task under an existing or no parent keeps a forest |
| `Schedule.ProjectSchedule.CreateTask` | server/src/routes/projectSchedule.ts:153-196 | creation is refused exactly for a missing parent and keeps forest, acyclicity and references |
| `Schedule.ProjectSchedule.Reparent` | server/src/routes/projectSchedule.ts:225-265 | a move among no others is refused exactly for a missing or own parent or one the walk finds below the task; the result is a forest exactly unless the task is an ancestor past the walk's reach, so always up to 1001 tasks |
| `Schedule.ProjectSchedule.DeleteTask` | server/src/routes/projectSchedule.ts:272-296 | deletion keeps forest and acyclic graph, removing exactly the task and its dependencies |
| `Schedule.ProjectSchedule.AddDependency` | server/src/routes/projectSchedule.ts:332-396 | an edge is refused exactly when an endpoint is missing, the tasks are equal or it closes a cycle, and a duplicate exactly when it exists |
| `Schedule.ProjectSchedule.DeleteDependency` | server/src/routes/projectSchedule.ts:398-420 | exactly that dependency goes, and nothing else |
| `Schedule.StaleParentIsSafeIff` | server/src/routes/projectSchedule.ts:225-243 | writing any parent read or checked earlier is safe exactly when the task is not that parent's ancestor by now |
| `Schedule.StaleParentClosesLoop` | server/src/routes/projectSchedule.ts:225-243 | counterexample: a rename overlapping two accepted moves closes a loop |
| `ScheduleRuns.RunIsForestIff` | server/src/routes/projectSchedule.ts:111-256 | however creates, reads, steps of the ancestor walk, writes and deletes interleave, the hierarchy is a forest throughout exactly when no write puts a task under itself or under a task below it at that moment |
| `ScheduleRuns.UndisturbedCheck` | server/src/routes/projectSchedule.ts:111-139 | the walk read by read refuses, while nobody writes, exactly what the check on one state refuses |
| `ScheduleRuns.MoveAlone` | server/src/routes/projectSchedule.ts:236-256 | a move with no other request under way, read by read, leaves exactly what the one-request route leaves |
| `ScheduleRuns.OthersAlone` | server/src/routes/projectSchedule.ts:153-296 | so do detaching, an edit of other fields, a create and a delete, children of the deleted task being promoted |
| `ScheduleRuns.StaleRenameLoops` | server/src/routes/projectSchedule.ts:225-243 | counterexample: a rename that overlaps two accepted moves writes its stale parent back and closes a loop |
| `ScheduleRuns.OverlappingMovesLoop` | server/src/routes/projectSchedule.ts:236-256 | counterexample: two top-level tasks moved under each other, both checked before either writes, form a loop |
| `Referential.DeleteRow` | server/src/db/schema.ts:3495-3580 | a work list, in any order, computes the delete as the standard defines it, and ends |
| `Referential.DoomedIsLeastClosed` | server/src/db/schema.ts:153-197 | what is deleted is the least set containing the row and closed under cascades |
| `Referential.DeleteIsExact` | server/src/db/schema.ts:305-330 | a delete removes exactly that set, leaves no dangling reference, nulls exactly the set-null references into it, and is refused exactly when an outside row refers into it without a delete action |
| `Referential.OtherTenantsUntouched` | server/src/db/schema.ts:153-197 | with references inside one company, no delete of a company's row removes or alters a row or reference of another company |
| `Referential.CompanyDeleteIff` | server/src/db/schema.ts:2495-2514 | deleting a company is refused exactly when a support session targeted it or one of its users published tax rules; otherwise exactly its own rows and references go and incidents about it lose theirs |
| `Referential.SupportedCompanyStays` | server/src/routes/platformSupportSessions.ts:30-48 | concrete database: one company, one support session held with it, and the delete is refused |
| `Referential.ExpenseDeleteIff` | server/src/db/schema.ts:3285-3307 | an expense can be deleted exactly when no posting refers to it, and then goes alone |
| `Referential.TaskDelete` | server/src/db/schema.ts:3495-3580 | deleting a task is never refused, takes exactly its dependencies and promotes its children |
| `Referential.ProjectDeleteTakesPostings` | server/src/db/schema.ts:3285-3307 | the cascades of a project reach exactly the postings of its allocations; with no action checked at the end of the statement exactly they would go |
| `Referential.ProjectDeleteIff` | server/src/db/schema.ts:3285-3307 | with no action checked at the end of the statement, a project's delete is refused exactly when a row elsewhere uses one of its cost codes, or a posting of an allocation elsewhere is booked to one of its expenses or reverses one of its postings; otherwise its own rows, their postings and their dependencies go, and nothing else |
| `Referential.PostedProjectGoes` | server/src/db/schema.ts:3285-3307 | concrete books, every not-null column filled, on which a check at the end of the statement would let the delete take posting and expense; PostgreSQL refuses it, see the rows below |
| `DeleteQueue.DeleteRow` | server/drizzle/0033_concerned_randall.sql:125-131 | the statement as PostgreSQL runs it, a first-in-first-out queue of trigger events with each check made when its event fires, always ends |
| `DeleteQueue.NeverBeyondStandard` | server/drizzle/0033_concerned_randall.sql:125-131 | for every order of keys and of scans, a delete the queue lets through is the one the standard defines: the order can only refuse more |
| `QueuedDeletes.TaskDeleteInAnyOrder` | server/drizzle/0038_cloudy_tyrannus.sql:37-42 | for tasks the queue and the standard agree in any order |
| `QueuedDeletes.ExpenseDeleteInAnyOrder` | server/drizzle/0033_concerned_randall.sql:131 | for expenses too |
| `QueuedDeletes.ProjectDeleteExpensesFirst` | server/drizzle/0000_curious_lethal_legion.sql:83 | with expenses.project_id older than labor_allocations.project_id, a project's delete is refused exactly when a row elsewhere uses one of its cost codes, a posting elsewhere reverses one of its postings, or any posting at all is booked to one of its expenses |
| `QueuedDeletes.ProjectDeleteAllocationsFirst` | server/drizzle/0033_concerned_randall.sql:125 | with the two keys the other way round it is the standard's delete, which takes the postings |
| `QueuedDeletes.CompanyDeleteInOrder` | server/drizzle/0000_curious_lethal_legion.sql:95 | with projects.company_id older than cost_codes.company_id, a company's delete is the standard's |
| `MigratedDeletes.MigrationsCoverAllKeys` | server/drizzle/0033_concerned_randall.sql:125-131 | the trigger lists in migration order hold every declared key once |
| `MigratedDeletes.PostingsOutliveProjects` | server/src/routes/laborCostPostings.ts:55-59 | the posting history stays queryable: when each posting of a project is booked to an expense of that project, no delete of the project that goes through removes a posting |
| `MigratedDeletes.ProjectDelete` | server/src/routes/projects.ts:190 | exactly when the server's database refuses a project's delete, and exactly the rows that go otherwise |
| `MigratedDeletes.PostedProjectStays` | server/src/db/schema.ts:3285-3307 | on the concrete books above the server's database refuses |
| `MigratedDeletes.CompanyDelete` | server/src/db/schema.ts:2495-2514 | the server's database refuses a company's delete exactly for support sessions and published rules, and otherwise removes exactly its rows |
| `ScheduleReferences.TaskDeleteAgrees` | server/src/db/schema.ts:3505-3511 | the schedule's own delete leaves exactly the tasks, parent links and dependencies the foreign keys leave |
| `Allocation.AcceptedIsWithinHundred` | server/src/routes/laborAllocations.ts:161-165 | an accepted percentage brings the stored total to at most exactly 100 despite the 0.0001 tolerance; two-decimal ones are accepted exactly then |
| `Allocation.StepWithinHundredIff` | server/src/routes/laborAllocations.ts:256-283 | a step from a total within 100 stays within 100 exactly when the check an edit without a percentage skips would have passed |
| `Allocation.RunWithinHundredIff` | server/src/db/schema.ts:3221-3231 | every interleaving of one record's edits stays within 100 throughout exactly when every skipped check would have passed |
| `Allocation.LockedRowsStay` | server/src/routes/laborAllocations.ts:244-256 | while the period is closed for edits no run of requests changes a row |
| `Allocation.UnchangedRowPasses` | server/src/routes/laborAllocations.ts:256-283 | an edit whose row did not change since it was read passes |
| `Allocation.StaleWriteBackExceedsHundred` | server/src/routes/laborAllocations.ts:256-283 | counterexample: a note edit writes back a stale 60% and leaves 150% |
| `AllocationAmounts.HalfCentEachIff` | server/src/routes/laborAllocations.ts:167 | the amounts stay within half a cent each above every net amount exactly when the percentages as sent sum to at most 100 |
| `AllocationAmounts.RunHalfCentEachIff` | server/src/routes/laborAllocations.ts:167-178 | the same for the allocations any run of requests leaves saved |
| `AllocationAmounts.TwoDecimalRunsStayNearNet` | server/src/routes/laborAllocations.ts:150-178 | a caller who sends two decimals and never lets a stale percentage be written back always gets the bound |
| `AllocationAmounts.ThirdsExceedNet` | server/src/routes/laborAllocations.ts:167-178 | counterexample: three times 33.334% is stored as 99.99% and costs 20 cents more than 10,000.00 |
| `AllocationAmounts.OwnRemainingIff` | client/src/pages/LaborAllocation.tsx:79-81 | the form's own limit equals 100 minus the other allocations, and is exactly what the server accepts, precisely while the record is within 100 |
| `AllocationTables.RecordAllocations.SumPercent` | server/src/routes/laborAllocations.ts:46-48 | the reduce is the specified sum, with or without one row |
| `AllocationTables.RecordAllocations.Post` | server/src/routes/laborAllocations.ts:137-195 | accepted exactly for an open period and a percentage in range that fits beside the saved ones; the row appended holds the nearest hundredths and the nearest cents, and the total stays within 100 |
| `AllocationTables.RecordAllocations.Patch` | server/src/routes/laborAllocations.ts:244-300 | without a percentage an open period takes the row read before the lock back as it was; with one it is accepted exactly when it fits beside the others, only that row changes, and the total stays within 100 |
| `AllocationTables.RecordAllocations.Delete` | server/src/routes/laborAllocations.ts:335-360 | exactly in an open period exactly that row goes |
| `PayrollProofs.StepKeeps` | server/src/db/schema.ts:3261-3321 | every transition, posting, reversal, expense and allocation change keeps the rows linked, both partial unique indexes satisfied, the totals balanced and the posting history a prefix of what follows |
| `PayrollProofs.SpentIsManualPlusContributions` | server/src/routes/payrollPeriods.ts:471-520 | in every run a project's expense total is its manual expenses plus the frozen amounts of its posted, unreversed allocations |
| `PayrollProofs.PageAgreesWithLedger` | client/src/pages/PayrollPeriodDetail.tsx:631-632 | the page offers a reversal exactly where the server would reverse, and its total is what the period's allocations still contribute |
| `PayrollProofs.ReversalIsFinal` | server/src/routes/laborCostPostings.ts:68-137 | a reversal takes back exactly its posting's amount from its project alone and can neither be repeated nor reversed |
| `PayrollProofs.PreviewedAmountIsPosted` | client/src/pages/PayrollPeriodDetail.tsx:555 | whatever happens after the dialog is opened on an approved period, a post that succeeds books exactly the announced amount |
| `PayrollProofs.RunFreezesAllocations` | server/src/routes/payrollPeriods.ts:34 | from approval on every allocation of the period stays as it is |
| `PayrollProofs.NotYetPosted` | server/src/routes/payrollPeriods.ts:440-466 | a posting exists only for an allocation of a posted period, so an approved period's allocations are all still to post |
| `PayrollEffects.PeriodMoves` | server/src/routes/payrollPeriods.ts:255-435 | exactly how a period's status moves: to submitted from draft or rejected with records, to approved or rejected from submitted, to posted from approved with an allocation |
| `PayrollEffects.PostedWasApproved` | server/src/routes/payrollPeriods.ts:433 | in every run each posting row's period was submitted and then accepted by a review, whose action is exhibited |
| `PayrollEffects.SpentIsSum` | server/src/db/schema.ts:306-330 | a project's actual cost is the sum of its expenses' amounts |
| `PayrollTables.Books.CreatePeriod` | server/src/routes/payrollPeriods.ts:109-175 | a new period is a draft |
| `PayrollTables.Books.SubmitPeriod` | server/src/routes/payrollPeriods.ts:255-300 | accepted exactly for a draft or rejected period that has records |
| `PayrollTables.Books.ReviewPeriod` | server/src/routes/payrollPeriods.ts:312-385 | accepted exactly for a submitted period, which becomes approved or rejected |
| `PayrollTables.Books.PostPeriod` | server/src/routes/payrollPeriods.ts:425-535 | accepted exactly for an approved period that has an allocation; then each of its allocations is booked with its amount on its project, and the period's ledger equals the preview |
| `PayrollTables.Books.ReversePosting` | server/src/routes/laborCostPostings.ts:68-137 | succeeds exactly where the page offers it, for a posting nothing reverses yet; then only the opposite amount on the same project and the row naming the posting are added |
| `PayrollTables.Books.Delete` | server/src/routes/budget.ts:371-398 | an expense goes exactly when it exists and no posting row refers to it |
| `PayrollTables.Books.Allocate` | server/src/routes/laborAllocations.ts:137-195 | an allocation is added exactly while its period is a draft or rejected |
| `PayrollTables.Books.Change` | server/src/routes/laborAllocations.ts:244-300 | an allocation changes or goes exactly while its period is a draft or rejected, so a posted one never does |
| `PayrollTables.Books.TotalPosted` | client/src/pages/PayrollPeriodDetail.tsx:632 | the page's fold equals the contributions of the period's allocations |
| `Zatca.StepKeepsInv` | server/src/routes/zatca.ts:936-971 | every step of every concurrent prepare, lost race and crash keeps all units' chains, the lock holder's private counter and hash current, and one submission per unit and invoice |
| `Zatca.CountersAndHashesChain` | server/src/lib/zatca/domain/icv.ts:34-51 | in every run a unit's submissions carry counters 1 to n, each linked to the hash before it, and counter row and pointer are those of the last |
| `Zatca.PrepareIsIdempotent` | client/src/api/zatca.ts:74-78 | all answered requests for one invoice on one unit get the same submission, and it is that invoice's |
| `Zatca.SubmissionsOnlyGrow` | server/src/db/schema.ts:2994-3008 | committed submissions are never changed or dropped |
| `Zatca.HashIsItsDocuments` | server/src/routes/zatca.ts:951-964 | in every run each submission stores the hash its own commit computed, for that request's invoice and unit |
| `Zatca.HolderCanMove` | server/src/lib/zatca/domain/pih.ts:29-37 | the request that holds a unit's lock can always go on, and its commit releases the lock |
| `Zatca.LastHashFixesHistory` | server/src/db/schema.ts:2586-2591 | with a collision-free hash two valid chains ending in the same hash hold the same documents and links |
| `ZatcaTables.EgsTables.FindSubmission` | server/src/lib/zatca/domain/submissions.ts:112-125 | the lookup finds the pair's submission exactly when there is one |
| `ZatcaTables.EgsTables.RegisterUnit` | server/src/routes/zatca.ts:174-202 | a new unit has no holder, no pointer and counter zero |
| `ZatcaTables.EgsTables.StartPrepare` | server/src/routes/zatca.ts:912-915 | the request is answered at once exactly when the pair has a submission; nothing else changes |
| `ZatcaTables.EgsTables.LockAndReadPih` | server/src/lib/zatca/domain/pih.ts:29-37 | the lock is taken exactly when free, and what is read with it is the unit's pointer, or genesis |
| `ZatcaTables.EgsTables.ClaimNextIcv` | server/src/lib/zatca/domain/icv.ts:34-51 | the claimed counter is the length of the unit's chain plus one |
| `ZatcaTables.EgsTables.CommitPrepare` | server/src/routes/zatca.ts:952-985 | exactly when the pair has no submission yet one is appended with the next counter, the old pointer as its previous hash and the document's own hash, which becomes the pointer; otherwise only the lock is released |
| `ZatcaTables.EgsTables.Abandon` | server/src/routes/zatca.ts:966-985 | a transaction that dies releases its lock and leaves counter, pointer and submissions |
| `BoqRevisions.NumberedAndOnePublished` | server/src/routes/boq.ts:65-84 | in every run revisions are numbered 1 to n and at most one is published |
| `BoqRevisions.RunIsOneChain` | server/src/routes/boq.ts:128-197 | the supersedes links form one chain through all published revisions in publishing order, its last the published one; drafts are unlinked |
| `BoqRevisions.PredecessorIsLast` | server/src/routes/boq.ts:185-197 | the revision superseded is always the one currently published, so the tie-break by date is never needed |
| `BoqRevisions.PublishedIsImmutable` | server/src/db/schema.ts:1009-1016 | from publication on number, date, link and items of a revision never change |
| `BoqRevisions.LinksFallIff` | server/src/routes/boq.ts:157-197 | the links fall in number exactly when every publish was of a revision newer than the one published then |
| `BoqRevisions.OlderDraftSupersedesNewer` | server/src/routes/boq.ts:157-197 | counterexample: revision 1 published after revision 2 supersedes it |
| `BoqTables.ContractRevisions.CreateRevision` | server/src/routes/boq.ts:55-86 | whatever the earlier, unlocked read of the contract said, the MAX plus one claim gives the new draft the number after the last and keeps the supersedes chain |
| `BoqTables.ContractRevisions.PublishRevision` | server/src/routes/boq.ts:128-210 | succeeds exactly for an existing draft of an unblocked contract; it is then published now with its number and items as they were, superseding the one published last, and every other revision stays or goes from published to superseded |
| `BoqTables.ContractRevisions.SupersedeOthers` | server/src/routes/boq.ts:166-190 | exactly the other published revisions are superseded, and the one published last is found |
| `BoqTables.ContractRevisions.AddBoqItem` | server/src/routes/boq.ts:287-310 | it succeeds exactly on a draft, appends the item there and leaves every other revision, and all that was ever published, as it was |
| `BoqTables.ContractRevisions.RemoveBoqItem` | server/src/routes/boq.ts:337-375 | succeeds exactly for an item of a draft, and takes that item alone |
| `Commitments.AmountsFollowLines` | server/src/db/schema.ts:1459-1475 | from submit on, the original amount stays the submitted sum, the revised amount is the sum of all lines, and their difference is exactly the amended lines |
| `Commitments.StaysWithinIff` | server/src/routes/commitments.ts:282-291 | certificates on a quantity line never pay more than its amount by over half a cent each, however split, exactly when storing the rate did not round it up |
| `Commitments.UsedUpIff` | server/src/routes/commitments.ts:282-291 | and when used up pay no less than it by over half a cent each and half a cent, exactly when the rate is a whole number of cents |
| `Commitments.HalfCentRateDoubles` | server/src/routes/commitments.ts:282-291 | counterexample: 1000 units at 0.005 commit 5.00 and certify 10.00 |
| `CommitmentTables.Commitment.LinesTotal` | server/src/lib/money.ts:20-22 | the loop is the sum of the line amounts |
| `CommitmentTables.Commitment.AddItem` | server/src/routes/commitments.ts:328-378 | accepted exactly on a draft for a line with quantity and rate or an amount; the line appended holds the nearest cents of quantity times the rate as sent, or that amount |
| `CommitmentTables.Commitment.RemoveItem` | server/src/routes/commitments.ts:388-430 | exactly on a draft exactly that line goes |
| `CommitmentTables.Commitment.SubmitForApproval` | server/src/routes/commitments.ts:434-484 | accepted exactly for a draft with lines of an unblocked contract; both amounts become the sum of the lines, which stay |
| `CommitmentTables.Commitment.ApproveCommitment` | server/src/routes/commitments.ts:507-555 | accepted exactly when pending and unblocked, and only the status changes |
| `CommitmentTables.Commitment.CancelCommitment` | server/src/routes/commitments.ts:561-612 | accepted exactly before approval |
| `CommitmentTables.Commitment.AmendLines` | server/src/routes/commitments.ts:615-690 | accepted exactly for an active commitment of an unblocked contract and lines that all resolve; each requested line is appended with its amount, the revised amount grows by their sum, the original stays |
| `InvoicePages.FetchIsList` | server/src/routes/invoices.ts:66-84 | asking for one row more than the limit yields exactly the page and whether more follows |
| `InvoicePages.Load` | client/src/pages/Invoices.tsx:63-77 | the loop terminates for any page size of at least 1 whatever arrives or changes meanwhile and, on a stable list, returns all of it in order |
| `InvoicePages.WalkLength` | client/src/pages/Invoices.tsx:63-77 | while invoices arrive the walk still collects as many rows as the list holds at its end |
| `InvoicePages.WalkCovers` | client/src/pages/Invoices.tsx:63-77 | no invoice present at the start is missed: each is collected with the status it had then or a later one |
| `InvoicePages.WalkIsWholeListIff` | client/src/pages/Invoices.tsx:63-77 | the result is the list as the last request finds it exactly when between the requests no invoice arrived and none already fetched was sent or marked paid |
| `InvoicePages.PaidTotalsLag` | client/src/pages/Invoices.tsx:113-115 | while none arrives, the paid totals shown fall short of the list's by exactly the invoices marked paid after their page was fetched |
| `InvoicePages.ArrivalCountsTwice` | client/src/pages/Invoices.tsx:113-115 | counterexample: a draft arriving between two pages makes a paid invoice count twice |
| `InvoicePages.MarkPaidIsMissed` | server/src/routes/invoices.ts:418-440 | counterexample: an invoice marked paid after its page was fetched is missing from the totals |
| `Templates.InterpolateIsParsePrint` | client/src/i18n/I18nProvider.tsx:29-35 | the leftmost global replacement equals parsing into text and names and printing token by token |
| `Templates.UnboundIsIdentity` | client/src/i18n/I18nProvider.tsx:30 | with none of its names bound a template is unchanged |
| `Templates.ParsePrintRoundTrip` | client/src/i18n/I18nProvider.tsx:29-35 | parsing inverts printing for every brace-free token list |
| `Templates.TwoPassesAreOne` | client/src/i18n/I18nProvider.tsx:29-35 | two substitutions in turn equal one with the union when text and values are brace-free |
| `Templates.BracesInValueNest` | client/src/i18n/I18nProvider.tsx:32-33 | counterexample: a value holding a placeholder is substituted by the second pass only |
| `Translations.ResolveDotPath` | client/src/i18n/I18nProvider.tsx:19-27 | the loop follows the parts of the key through nested dictionaries to a text, or finds none |
| `Translations.FoundIff` | client/src/i18n/I18nProvider.tsx:19-27 | a text is found exactly when the parts of the key lead to it through dictionary entries one by one |
| `Translations.SplitJoin` | client/src/i18n/I18nProvider.tsx:20 | a key joined from dot-free parts is read as those parts |
| `Translations.JoinSplit` | client/src/i18n/I18nProvider.tsx:20 | joining the parts of any key gives it back |
| `Translations.Translate` | client/src/i18n/I18nProvider.tsx:76-86 | the locale's text, else the default's, else the key itself, substituted |

## Left out

- Floating point: sums, the 1e-9 overrun slack and Math.round on binary fractions are exact integer or real arithmetic here.
- Row locks a foreign key takes by itself are not in the lock model, nor are the further rows project deletion locks (server/src/routes/projects.ts:160-190) beyond the commitment and contract of `RowLocks.ProjectDeletionDeadlocks`.
- CertificationTables.Tables.AddLine: takes any line; the unlocked capacity check at line-add time (server/src/routes/ipcs.ts:211-218) only refuses more, and certify re-checks under lock.
- Referential.DeleteRow: the standard's delete, a reference; what PostgreSQL does is `DeleteQueue.DeleteRow`. Tables outside the schedule, labor-cost and platform groups are not part of this model.
- MigratedDeletes.ProjectDelete: triggers fire by their generated names, taken to sort in creation order; a database restored from a dump may have another order, for which the two project lemmas of QueuedDeletes state the outcome.
- Schedule.ProjectSchedule.Reparent: the class serves one request at a time; overlapping requests are the runs of `ScheduleRuns.RunIsForestIff` and, for dependencies, `Dependencies.RunIsAcyclicIff`.
- TaskTree.AcceptedReparentIsSafeIff: check and write see one hierarchy; `ScheduleRuns.RunIsForestIff` is the condition when others write in between.
- TaskTree.SmallProjectsAreSafe: the same; two overlapping moves can loop even with two tasks (`ScheduleRuns.OverlappingMovesLoop`).
- Referential.ProjectDeleteIff: the route's own refusal for certified certificates, approved budget revisions and open commitments (server/src/routes/projects.ts:167-190) comes before any foreign key.
- PayrollTables.Books.Change: the net amount is fixed; editing a payroll record after allocating leaves the saved amounts as they are.
- AllocationAmounts.RunHalfCentEachIff: one net amount per run, as the frozen amounts are promised against one.
- Fingerprints are compared as the requests they hash; SHA-256 collisions and extra body fields are not part of this model.
- Owner tokens, uuids and keys are fresh numbers; clocks advance by arbitrary ticks; heartbeats are renewals that may or may not come.
- Zatca.CountersAndHashesChain: documents are prepared for invoices only; no route prepares credit or debit notes, and UBL, signing and submission are outside.
- Translations.ResolveDotPath: own entries only; names found on JavaScript's object prototype are not modelled.
- Templates.UnboundIsIdentity: likewise, a placeholder such as constructor counts as unbound here.
- InvoicePages.WalkIsWholeListIff: no route deletes an invoice or changes its amounts; equal creation times, and creation times out of commit order, are not modelled.
- Permissions, tenant lookups before a transaction, audit rows, HTTP codes beyond the outcome, React rendering and transport.
- Forecasts, cash flow, backups, feature flags, plan limits, punch items and alerts: formulas over other files, external processes, or one-branch rules.
- RowLocks.PlansAreOrdered: routes that lock a single row are not listed, as they cannot extend a cycle of waits; publish also updates the superseded revision of its contract, out of id order but under the contract's lock, which every other transaction on two of its revisions needs first (server/src/routes/boq.ts:147-176); project deletion is no ordered plan (`RowLocks.ProjectDeletionDeadlocks`).
