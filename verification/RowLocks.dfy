// Row locks taken with SELECT ... FOR UPDATE and held to the end of the
// transaction. The routes planned below take theirs in one global order: documents,
// then their parent contract or commitment, then BOQ items or commitment lines by id.
// Project deletion is the exception (server/src/routes/projects.ts:160-190).
module RowLocks {

  datatype Table =
    | PayrollPeriods
    | PayrollRecords
    | Measurements
    | Ipcs
    | SubcontractIpcs
    | Contracts
    | Commitments
    | BoqRevisions
    | BoqItems
    | CommitmentLines
  {
    /** The table's place in the lock order. */
    function Rank(): nat {
      match this
      case PayrollPeriods => 0
      case PayrollRecords => 1
      case Measurements => 2
      case Ipcs => 3
      case SubcontractIpcs => 4
      case Contracts => 5
      case Commitments => 6
      case BoqRevisions => 7
      case BoqItems => 8
      case CommitmentLines => 9
    }
  }

  /** A row, named by its table and its id; ids stand for uuids in their sort order. */
  datatype Row = Row(table: Table, id: nat)

  predicate Before(a: Row, b: Row)
  {
    a.table.Rank() < b.table.Rank() || (a.table == b.table && a.id < b.id)
  }

  lemma BeforeIsStrictTotalOrder(a: Row, b: Row, c: Row)
    ensures !Before(a, a)
    ensures Before(a, b) && Before(b, c) ==> Before(a, c)
    ensures Before(a, b) || Before(b, a) || a == b
  {
    if a.table.Rank() == b.table.Rank() {
      assert a.table == b.table;
    }
  }

  ghost predicate Ordered(plan: seq<Row>)
  {
    forall i, j :: 0 <= i < j < |plan| ==> Before(plan[i], plan[j])
  }

  // ---- Transactions queueing for locks ----

  /** A transaction has taken the first `taken` locks of its plan; finished ones hold nothing. */
  datatype Transaction = Transaction(plan: seq<Row>, taken: nat, finished: bool)

  type Transactions = seq<Transaction>

  ghost predicate Holds(tx: Transaction, row: Row)
  {
    !tx.finished && tx.taken <= |tx.plan| && row in tx.plan[..tx.taken]
  }

  ghost predicate Free(txs: Transactions, row: Row)
  {
    forall t :: 0 <= t < |txs| ==> !Holds(txs[t], row)
  }

  /** What a lock manager keeps: plans in lock order, and one holder per row. */
  ghost predicate Consistent(txs: Transactions)
  {
    && (forall t :: 0 <= t < |txs| ==> txs[t].taken <= |txs[t].plan| && Ordered(txs[t].plan))
    && (forall t, u, row :: 0 <= t < |txs| && 0 <= u < |txs| && Holds(txs[t], row) && Holds(txs[u], row) ==> t == u)
  }

  /** The next lock is free, or there is none left to take and the transaction can end. */
  ghost predicate CanStep(txs: Transactions, t: nat)
    requires t < |txs|
  {
    && !txs[t].finished
    && txs[t].taken <= |txs[t].plan|
    && (txs[t].taken == |txs[t].plan| || Free(txs, txs[t].plan[txs[t].taken]))
  }

  ghost function Progress(txs: Transactions, t: nat): Transactions
    requires t < |txs| && CanStep(txs, t)
  {
    if txs[t].taken == |txs[t].plan| then txs[t := txs[t].(finished := true)]
    else txs[t := txs[t].(taken := txs[t].taken + 1)]
  }

  lemma ProgressKeepsConsistent(txs: Transactions, t: nat)
    requires t < |txs| && Consistent(txs) && CanStep(txs, t)
    ensures Consistent(Progress(txs, t))
  {
    var next := Progress(txs, t);
    forall u, v, row | 0 <= u < |next| && 0 <= v < |next| && Holds(next[u], row) && Holds(next[v], row)
      ensures u == v
    {
      OneHolderAfterStep(txs, t, u, v, row);
    }
  }

  lemma OneHolderAfterStep(txs: Transactions, t: nat, u: nat, v: nat, row: Row)
    requires t < |txs| && Consistent(txs) && CanStep(txs, t)
    requires u < |txs| && v < |txs|
    requires Holds(Progress(txs, t)[u], row) && Holds(Progress(txs, t)[v], row)
    ensures u == v
  {
    HoldsAfterStep(txs, t, u, row);
    HoldsAfterStep(txs, t, v, row);
  }

  /** A step adds at most the one lock it takes. */
  lemma HoldsAfterStep(txs: Transactions, t: nat, u: nat, row: Row)
    requires t < |txs| && Consistent(txs) && CanStep(txs, t) && u < |txs|
    requires Holds(Progress(txs, t)[u], row)
    ensures Holds(txs[u], row) || (u == t && txs[t].taken < |txs[t].plan| && row == txs[t].plan[txs[t].taken] && Free(txs, row))
  {
    if u == t {
      var k :| 0 <= k < Progress(txs, t)[u].taken && row == txs[t].plan[k];
      if k < txs[t].taken {
        assert row == txs[t].plan[..txs[t].taken][k];
      }
    }
  }

  // ---- Deadlock freedom ----

  ghost predicate Blocked(txs: Transactions, t: nat)
  {
    && t < |txs|
    && !txs[t].finished
    && txs[t].taken < |txs[t].plan|
    && !Free(txs, txs[t].plan[txs[t].taken])
  }

  /** Of the blocked transactions below `n`, one waits for the greatest row. */
  lemma {:induction false} GreatestWait(txs: Transactions, n: nat) returns (t: nat)
    requires n <= |txs|
    requires exists u :: 0 <= u < n && Blocked(txs, u)
    ensures t < n && Blocked(txs, t)
    ensures forall u :: 0 <= u < n && Blocked(txs, u) ==> !Before(txs[t].plan[txs[t].taken], txs[u].plan[txs[u].taken])
  {
    var last := n - 1;
    if exists u :: 0 <= u < last && Blocked(txs, u) {
      t := GreatestWait(txs, last);
      if Blocked(txs, last) && Before(txs[t].plan[txs[t].taken], txs[last].plan[txs[last].taken]) {
        var old_t := t;
        t := last;
        forall u | 0 <= u < n && Blocked(txs, u)
          ensures !Before(txs[t].plan[txs[t].taken], txs[u].plan[txs[u].taken])
        {
          BeforeIsStrictTotalOrder(txs[old_t].plan[txs[old_t].taken], txs[t].plan[txs[t].taken], txs[u].plan[txs[u].taken]);
          BeforeIsStrictTotalOrder(txs[t].plan[txs[t].taken], txs[u].plan[txs[u].taken], txs[u].plan[txs[u].taken]);
        }
      }
    } else {
      t := last;
      var row := txs[t].plan[txs[t].taken];
      BeforeIsStrictTotalOrder(row, row, row);
    }
  }

  /** While a transaction is unfinished, some transaction can step. */
  lemma DeadlockFree(txs: Transactions)
    requires Consistent(txs)
    requires exists t :: 0 <= t < |txs| && !txs[t].finished
    ensures exists t: nat :: t < |txs| && CanStep(txs, t)
  {
    if exists t :: 0 <= t < |txs| && Blocked(txs, t) {
      var t := GreatestWait(txs, |txs|);
      HolderOfGreatestWaitSteps(txs, t);
    } else {
      var t: nat :| t < |txs| && !txs[t].finished;
      assert !Blocked(txs, t) && CanStep(txs, t);
    }
  }

  /** Whoever holds the greatest row waited for cannot itself be waiting. */
  lemma HolderOfGreatestWaitSteps(txs: Transactions, t: nat)
    requires Consistent(txs) && Blocked(txs, t)
    requires forall u :: 0 <= u < |txs| && Blocked(txs, u) ==> !Before(txs[t].plan[txs[t].taken], txs[u].plan[txs[u].taken])
    ensures exists holder: nat :: holder < |txs| && CanStep(txs, holder)
  {
    var wanted := txs[t].plan[txs[t].taken];
    var holder: nat :| holder < |txs| && Holds(txs[holder], wanted);
    var k :| 0 <= k < txs[holder].taken && txs[holder].plan[k] == wanted;
    assert txs[holder].taken < |txs[holder].plan| ==> Before(txs[holder].plan[k], txs[holder].plan[txs[holder].taken]);
    assert CanStep(txs, holder);
  }

  // ---- Every reachable state ----

  /** A request opens a transaction; it advances; or it ends early (a failed check, an error) and lets go. */
  datatype Event = Arrive(plan: seq<Row>) | Advance(t: nat) | Abort(t: nat)

  ghost function Apply(txs: Transactions, e: Event): Transactions
  {
    match e
    case Arrive(plan) => txs + [Transaction(plan, 0, false)]
    case Advance(t) => if t < |txs| && CanStep(txs, t) then Progress(txs, t) else txs
    case Abort(t) => if t < |txs| then txs[t := txs[t].(finished := true)] else txs
  }

  ghost function RunEvents(events: seq<Event>): Transactions
  {
    if events == [] then [] else Apply(RunEvents(events[..|events| - 1]), events[|events| - 1])
  }

  lemma ApplyKeepsConsistent(txs: Transactions, e: Event)
    requires Consistent(txs) && (e.Arrive? ==> Ordered(e.plan))
    ensures Consistent(Apply(txs, e))
  {
    if e.Advance? && e.t < |txs| && CanStep(txs, e.t) {
      ProgressKeepsConsistent(txs, e.t);
    } else {
      var next := Apply(txs, e);
      assert forall t, row :: 0 <= t < |next| && Holds(next[t], row) ==> t < |txs| && Holds(txs[t], row);
    }
  }

  /** In every reachable state, whatever arrived, advanced or aborted, a waiting
      transaction implies one that can step. */
  lemma {:induction false} ReachableStatesAreDeadlockFree(events: seq<Event>)
    requires forall k :: 0 <= k < |events| && events[k].Arrive? ==> Ordered(events[k].plan)
    ensures Consistent(RunEvents(events))
    ensures (exists t :: 0 <= t < |RunEvents(events)| && !RunEvents(events)[t].finished) ==>
              exists t: nat :: t < |RunEvents(events)| && CanStep(RunEvents(events), t)
  {
    if events != [] {
      ReachableStatesAreDeadlockFree(events[..|events| - 1]);
      ApplyKeepsConsistent(RunEvents(events[..|events| - 1]), events[|events| - 1]);
    }
    if exists t :: 0 <= t < |RunEvents(events)| && !RunEvents(events)[t].finished {
      DeadlockFree(RunEvents(events));
    }
  }

  function Work(txs: Transactions): nat
    requires forall t :: 0 <= t < |txs| ==> txs[t].taken <= |txs[t].plan|
  {
    if txs == [] then 0
    else
      var tx := txs[|txs| - 1];
      Work(txs[..|txs| - 1]) + if tx.finished then 0 else |tx.plan| - tx.taken + 1
  }

  lemma {:induction false} StepDoesWork(txs: Transactions, t: nat)
    requires t < |txs| && Consistent(txs) && CanStep(txs, t)
    ensures Consistent(Progress(txs, t)) && Work(Progress(txs, t)) == Work(txs) - 1
  {
    ProgressKeepsConsistent(txs, t);
    WorkAfterUpdate(txs, t, Progress(txs, t)[t]);
  }

  lemma {:induction false} WorkAfterUpdate(txs: Transactions, t: nat, tx: Transaction)
    requires t < |txs|
    requires forall u :: 0 <= u < |txs| ==> txs[u].taken <= |txs[u].plan|
    requires tx.taken <= |tx.plan|
    ensures Work(txs[t := tx]) - Work(txs) ==
            (if tx.finished then 0 else |tx.plan| - tx.taken + 1)
            - (if txs[t].finished then 0 else |txs[t].plan| - txs[t].taken + 1)
  {
    var last := |txs| - 1;
    if t < last {
      WorkAfterUpdate(txs[..last], t, tx);
      assert txs[t := tx][..last] == txs[..last][t := tx];
    } else {
      assert txs[t := tx][..last] == txs[..last];
    }
  }

  ghost predicate Schedule(txs: Transactions, picks: seq<nat>, final: Transactions)
    decreases |picks|
  {
    if picks == [] then final == txs
    else picks[0] < |txs| && CanStep(txs, picks[0]) && Schedule(Progress(txs, picks[0]), picks[1..], final)
  }

  /** Whatever has happened so far, the waiting transactions can all be run to
      their end, and no schedule is longer than the work left. */
  lemma {:induction false} EveryTransactionCanFinish(txs: Transactions) returns (picks: seq<nat>, final: Transactions)
    requires Consistent(txs)
    ensures Schedule(txs, picks, final) && |picks| == Work(txs)
    ensures Consistent(final) && forall t :: 0 <= t < |final| ==> final[t].finished
    decreases Work(txs)
  {
    if exists t :: 0 <= t < |txs| && !txs[t].finished {
      DeadlockFree(txs);
      var t: nat :| t < |txs| && CanStep(txs, t);
      StepDoesWork(txs, t);
      picks, final := EveryTransactionCanFinish(Progress(txs, t));
      picks := [t] + picks;
      assert picks[1..] == picks[1..];
    } else {
      NothingLeft(txs);
      picks, final := [], txs;
    }
  }

  lemma {:induction false} NothingLeft(txs: Transactions)
    requires forall t :: 0 <= t < |txs| ==> txs[t].taken <= |txs[t].plan| && txs[t].finished
    ensures Work(txs) == 0
  {
    if txs != [] {
      NothingLeft(txs[..|txs| - 1]);
    }
  }

  lemma {:induction false} NoLongerSchedule(txs: Transactions, picks: seq<nat>, final: Transactions)
    requires Consistent(txs) && Schedule(txs, picks, final)
    ensures Consistent(final) && |picks| + Work(final) == Work(txs)
    decreases |picks|
  {
    if picks != [] {
      StepDoesWork(txs, picks[0]);
      NoLongerSchedule(Progress(txs, picks[0]), picks[1..], final);
    }
  }

  /** Two transactions that take the same two rows in opposite orders can get stuck. */
  lemma CrossedPlansDeadlock(a: Row, b: Row)
    requires a != b
    ensures var start := [Transaction([a, b], 0, false), Transaction([b, a], 0, false)];
            var stuck := [Transaction([a, b], 1, false), Transaction([b, a], 1, false)];
            Schedule(start, [0, 1], stuck) && forall t: nat :: t < 2 ==> !CanStep(stuck, t)
  {
    var start := [Transaction([a, b], 0, false), Transaction([b, a], 0, false)];
    var mid := [Transaction([a, b], 1, false), Transaction([b, a], 0, false)];
    var stuck := [Transaction([a, b], 1, false), Transaction([b, a], 1, false)];
    assert Progress(start, 0) == mid;
    assert mid[0].plan[..1] == [a] && mid[1].plan[..0] == [];
    assert Progress(mid, 1) == stuck;
    assert Schedule(stuck, [], stuck);
    assert Schedule(mid, [1], stuck) by { assert [1][1..] == []; }
    assert [0, 1][1..] == [1];
    assert stuck[0].plan[..1] == [a] && stuck[1].plan[..1] == [b];
    assert Holds(stuck[0], a) && Holds(stuck[1], b);
  }

  /** Without the sort two transactions over the same two items do deadlock. */
  lemma UnsortedPlansDeadlock(a: nat, b: nat)
    requires a != b
    ensures var rowA, rowB := Row(BoqItems, a), Row(BoqItems, b);
            var start := [Transaction([rowA, rowB], 0, false), Transaction([rowB, rowA], 0, false)];
            var stuck := [Transaction([rowA, rowB], 1, false), Transaction([rowB, rowA], 1, false)];
            Schedule(start, [0, 1], stuck) && forall t: nat :: t < 2 ==> !CanStep(stuck, t)
  {
    CrossedPlansDeadlock(Row(BoqItems, a), Row(BoqItems, b));
  }

  // ---- The routes' plans ----

  /** [...new Set(ids)].sort() */
  function SortedDistinct(ids: seq<nat>): (sorted: seq<nat>)
    ensures forall i, j :: 0 <= i < j < |sorted| ==> sorted[i] < sorted[j]
    ensures forall id :: id in sorted <==> id in ids
  {
    if ids == [] then [] else Insert(ids[|ids| - 1], SortedDistinct(ids[..|ids| - 1]))
  }

  lemma RisingCons(first: nat, rest: seq<nat>)
    requires forall i, j :: 0 <= i < j < |rest| ==> rest[i] < rest[j]
    requires forall x :: x in rest ==> first < x
    ensures forall i, j :: 0 <= i < j < |rest| + 1 ==> ([first] + rest)[i] < ([first] + rest)[j]
  {
    assert forall k :: 0 <= k < |rest| ==> rest[k] in rest;
  }

  lemma RisingHead(id: nat, sorted: seq<nat>, rest: seq<nat>)
    requires sorted != [] && sorted[0] < id && forall i, j :: 0 <= i < j < |sorted| ==> sorted[i] < sorted[j]
    requires forall i, j :: 0 <= i < j < |rest| ==> rest[i] < rest[j]
    requires forall x :: x in rest <==> x == id || x in sorted[1..]
    ensures forall i, j :: 0 <= i < j < |rest| + 1 ==> ([sorted[0]] + rest)[i] < ([sorted[0]] + rest)[j]
    ensures forall x :: x in [sorted[0]] + rest <==> x == id || x in sorted
  {
    assert sorted == [sorted[0]] + sorted[1..];
    RisingCons(sorted[0], rest);
  }

  function Insert(id: nat, sorted: seq<nat>): (result: seq<nat>)
    requires forall i, j :: 0 <= i < j < |sorted| ==> sorted[i] < sorted[j]
    ensures forall i, j :: 0 <= i < j < |result| ==> result[i] < result[j]
    ensures forall x :: x in result <==> x == id || x in sorted
  {
    if sorted == [] then [id]
    else if id < sorted[0] then
      RisingCons(id, sorted);
      [id] + sorted
    else if id == sorted[0] then sorted
    else
      var rest := Insert(id, sorted[1..]);
      RisingHead(id, sorted, rest);
      [sorted[0]] + rest
  }

  function RowsOf(table: Table, ids: seq<nat>): (rows: seq<Row>)
    ensures |rows| == |ids|
    ensures forall k :: 0 <= k < |rows| ==> rows[k] == Row(table, ids[k])
  {
    seq(|ids|, k requires 0 <= k < |ids| => Row(table, ids[k]))
  }

  function ApprovePlan(measurement: nat, items: seq<nat>): seq<Row>
  {
    [Row(Measurements, measurement)] + RowsOf(BoqItems, SortedDistinct(items))
  }

  function CertifyPlan(ipc: nat, contract: nat, items: seq<nat>): seq<Row>
  {
    [Row(Ipcs, ipc), Row(Contracts, contract)] + RowsOf(BoqItems, SortedDistinct(items))
  }

  function CertifySubcontractPlan(ipc: nat, commitment: nat, lines: seq<nat>): seq<Row>
  {
    [Row(SubcontractIpcs, ipc), Row(Commitments, commitment)] + RowsOf(CommitmentLines, SortedDistinct(lines))
  }

  /** submit(), approve() and amend() of a commitment under a contract. */
  function CommitmentPlan(contract: nat, commitment: nat): seq<Row>
  {
    [Row(Contracts, contract), Row(Commitments, commitment)]
  }

  function PublishPlan(contract: nat, revision: nat): seq<Row>
  {
    [Row(Contracts, contract), Row(BoqRevisions, revision)]
  }

  function AllocationPlan(period: nat, record: nat): seq<Row>
  {
    [Row(PayrollPeriods, period), Row(PayrollRecords, record)]
  }

  /** DELETE of a project locks its commitments and then, as the delete cascades, its
      contracts, the other way round from a commitment's submit. */
  function ProjectDeletionPlan(commitment: nat, contract: nat): seq<Row>
  {
    [Row(Commitments, commitment), Row(Contracts, contract)]
  }

  /** Each of these plans follows the global order, so any mix of them is deadlock free. */
  lemma PlansAreOrdered(document: nat, parent: nat, ids: seq<nat>)
    ensures Ordered(ApprovePlan(document, ids))
    ensures Ordered(CertifyPlan(document, parent, ids))
    ensures Ordered(CertifySubcontractPlan(document, parent, ids))
    ensures Ordered(CommitmentPlan(document, parent))
    ensures Ordered(PublishPlan(document, parent))
    ensures Ordered(AllocationPlan(document, parent))
  {
  }

  /** Project deletion does not: against a submit of one of its cancelled commitments, whose
      status is read only under the locks, each can end up waiting for the other. */
  lemma ProjectDeletionDeadlocks(commitment: nat, contract: nat)
    ensures !Ordered(ProjectDeletionPlan(commitment, contract))
    ensures var deletion, submit := ProjectDeletionPlan(commitment, contract), CommitmentPlan(contract, commitment);
            var start := [Transaction(deletion, 0, false), Transaction(submit, 0, false)];
            var stuck := [Transaction(deletion, 1, false), Transaction(submit, 1, false)];
            Schedule(start, [0, 1], stuck) && forall t: nat :: t < 2 ==> !CanStep(stuck, t)
  {
    var deletion := ProjectDeletionPlan(commitment, contract);
    assert !Before(deletion[0], deletion[1]);
    CrossedPlansDeadlock(Row(Commitments, commitment), Row(Contracts, contract));
  }
}
