// The allocations of one payroll record: percentages checked under the period lock,
// amounts resolved when they are saved (server/src/routes/laborAllocations.ts,
// client/src/pages/LaborAllocation.tsx).
// Percentages in the table are hundredths of a percent, amounts are cents. A request
// carries an arbitrary decimal percentage, modelled as a real.
module Allocation {

  datatype Option<T> = None | Some(value: T)

  /** `percent` and `amount` are the stored columns; `raw` is the percentage the request
      carried, which the table forgets and `amount` was computed from. */
  datatype Row = Row(id: nat, percent: int, amount: int, raw: real)

  datatype Table = Table(editable: bool, net: nat, rows: seq<Row>)

  datatype Outcome = Ok | Locked | Exceeds(remaining: int) | Invalid | NotFound

  const WHOLE := 10000

  // ---- Arithmetic of one allocation ----

  /** The scale-2 column keeps the nearest hundredth. */
  function Stored(raw: real): int {
    (raw * 100.0 + 0.5).Floor
  }

  /** The amount in cents that a percentage of `net` cents resolves to. */
  function Resolved(net: nat, raw: real): int {
    (net as real * raw / 100.0 + 0.5).Floor
  }

  /** The schema's percentage: positive and at most 100. */
  predicate ValidPercentage(raw: real) {
    0.0 < raw <= 100.0
  }

  /** The route's test, with its tolerance of 0.0001. */
  predicate WithinHundred(others: int, raw: real) {
    others as real / 100.0 + raw <= 100.0001
  }

  /** The tolerance is lost when the percentage is stored: an accepted percentage brings the stored total to
      at most exactly 100, and one of two decimals is accepted exactly then. */
  lemma AcceptedIsWithinHundred(others: int, raw: real)
    ensures WithinHundred(others, raw) ==> others + Stored(raw) <= WHOLE
    ensures raw == Stored(raw) as real / 100.0 ==> (WithinHundred(others, raw) <==> others + Stored(raw) <= WHOLE)
  {
    if raw == Stored(raw) as real / 100.0 && WithinHundred(others, raw) {
      assert (others + Stored(raw)) as real <= 10000.01;
    }
  }

  // ---- Sums over the rows ----

  function Percents(rows: seq<Row>): int {
    if rows == [] then 0 else rows[0].percent + Percents(rows[1..])
  }

  function OtherPercents(rows: seq<Row>, id: nat): int {
    if rows == [] then 0 else (if rows[0].id == id then 0 else rows[0].percent) + OtherPercents(rows[1..], id)
  }

  function Amounts(rows: seq<Row>): int {
    if rows == [] then 0 else rows[0].amount + Amounts(rows[1..])
  }

  // ---- The three writing routes, each one transaction under the period lock ----

  function Create(t: Table, id: nat, raw: real): (Table, Outcome) {
    if !ValidPercentage(raw) then (t, Invalid)
    else if !t.editable then (t, Locked)
    else if !WithinHundred(Percents(t.rows), raw) then (t, Exceeds(WHOLE - Percents(t.rows)))
    else (t.(rows := t.rows + [Row(id, Stored(raw), Resolved(t.net, raw), raw)]), Ok)
  }

  function Written(rows: seq<Row>, row: Row): seq<Row> {
    if rows == [] then [] else [if rows[0].id == row.id then row else rows[0]] + Written(rows[1..], row)
  }

  /** PATCH: `existing` was read before the transaction. Without a percentage, its own
      percentage and amount are written back. */
  function Save(t: Table, existing: Row, percentage: Option<real>): (Table, Outcome) {
    if percentage.Some? && !ValidPercentage(percentage.value) then (t, Invalid)
    else if !t.editable then (t, Locked)
    else match percentage
      case None => (t.(rows := Written(t.rows, existing)), Ok)
      case Some(raw) =>
        var others := OtherPercents(t.rows, existing.id);
        if !WithinHundred(others, raw) then (t, Exceeds(WHOLE - others))
        else (t.(rows := Written(t.rows, Row(existing.id, Stored(raw), Resolved(t.net, raw), raw))), Ok)
  }

  function Without(rows: seq<Row>, id: nat): seq<Row> {
    if rows == [] then [] else (if rows[0].id == id then [] else [rows[0]]) + Without(rows[1..], id)
  }

  function Remove(t: Table, id: nat): (Table, Outcome) {
    if !t.editable then (t, Locked) else (t.(rows := Without(t.rows, id)), Ok)
  }

  // ---- Requests interleaved ----

  /** `pending` holds, per PATCH request under way, the row it read. */
  datatype State = State(table: Table, pending: map<nat, Row>)

  datatype Action =
    | Post(id: nat, raw: real)
    | Open(request: nat, id: nat)
    | Patch(request: nat, percentage: Option<real>)
    | Delete(id: nat)
    | SetEditable(editable: bool)

  function Find(rows: seq<Row>, id: nat): (r: Option<Row>)
    ensures r.Some? ==> r.value in rows && r.value.id == id
    ensures r.None? <==> forall row :: row in rows ==> row.id != id
  {
    if rows == [] then None
    else if rows[0].id == id then Some(rows[0])
    else Find(rows[1..], id)
  }

  function Step(s: State, a: Action): State {
    match a
    case Post(id, raw) => if Find(s.table.rows, id).Some? then s else s.(table := Create(s.table, id, raw).0)
    case Open(request, id) =>
      var row := Find(s.table.rows, id);
      if row.None? then s else s.(pending := s.pending[request := row.value])
    case Patch(request, percentage) =>
      if request !in s.pending then s
      else State(Save(s.table, s.pending[request], percentage).0, s.pending - {request})
    case Delete(id) => s.(table := Remove(s.table, id).0)
    case SetEditable(b) => s.(table := s.table.(editable := b))
  }

  function Run(s: State, actions: seq<Action>): State {
    if actions == [] then s else Step(Run(s, actions[..|actions| - 1]), actions[|actions| - 1])
  }

  function Start(net: nat): State {
    State(Table(true, net, []), map[])
  }

  // ---- The period lock ----

  /** Once the period is closed for edits, no request changes the rows, until it is reopened. */
  lemma {:induction false} LockedRowsStay(s: State, actions: seq<Action>)
    requires !s.table.editable && SetEditable(true) !in actions
    ensures Run(s, actions).table == s.table
  {
    if actions != [] {
      LockedRowsStay(s, actions[..|actions| - 1]);
      assert actions[|actions| - 1] in actions;
    }
  }

  // ---- The 100% rule ----

  ghost predicate Distinct(rows: seq<Row>) {
    forall i, j :: 0 <= i < j < |rows| ==> rows[i].id != rows[j].id
  }

  lemma {:induction false} PercentsAppend(rows: seq<Row>, row: Row)
    ensures Percents(rows + [row]) == Percents(rows) + row.percent
  {
    if rows != [] {
      assert (rows + [row])[1..] == rows[1..] + [row];
      PercentsAppend(rows[1..], row);
    }
  }

  lemma {:induction false} NotThere(rows: seq<Row>, id: nat)
    requires forall row :: row in rows ==> row.id != id
    ensures OtherPercents(rows, id) == Percents(rows)
    ensures forall row: Row :: row.id == id ==> Written(rows, row) == rows
    ensures Without(rows, id) == rows
  {
    if rows != [] {
      NotThere(rows[1..], id);
    }
  }

  lemma {:induction false} WrittenShape(rows: seq<Row>, row: Row)
    ensures |Written(rows, row)| == |rows|
    ensures forall i :: 0 <= i < |rows| ==> Written(rows, row)[i] == if rows[i].id == row.id then row else rows[i]
  {
    if rows != [] {
      WrittenShape(rows[1..], row);
    }
  }

  /** Writing one row back changes the total by the difference of that row alone. */
  lemma {:induction false} WrittenPercents(rows: seq<Row>, row: Row)
    requires Distinct(rows)
    ensures Percents(Written(rows, row)) ==
            if Find(rows, row.id).Some? then OtherPercents(rows, row.id) + row.percent else Percents(rows)
  {
    if rows != [] {
      assert Written(rows, row)[1..] == Written(rows[1..], row);
      if rows[0].id == row.id {
        NotThere(rows[1..], row.id);
      } else {
        WrittenPercents(rows[1..], row);
      }
    }
  }

  lemma {:induction false} WithoutPercents(rows: seq<Row>, id: nat)
    ensures Percents(Without(rows, id)) == OtherPercents(rows, id)
  {
    if rows != [] {
      WithoutPercents(rows[1..], id);
      if rows[0].id != id {
        assert Without(rows, id)[1..] == Without(rows[1..], id);
      } else {
        assert Without(rows, id) == Without(rows[1..], id);
      }
    }
  }

  lemma {:induction false} WithoutRows(rows: seq<Row>, id: nat)
    requires Distinct(rows)
    ensures forall row :: row in Without(rows, id) <==> row in rows && row.id != id
    ensures Distinct(Without(rows, id))
  {
    if rows != [] {
      var head, rest := rows[0], Without(rows[1..], id);
      WithoutRows(rows[1..], id);
      assert rows == [head] + rows[1..];
      assert forall row :: row in rows <==> row == head || row in rows[1..];
      if head.id != id {
        assert Without(rows, id) == [head] + rest;
        assert forall k :: 0 <= k < |rest| ==> rest[k] in rows[1..] && rest[k].id != head.id;
      }
    }
  }

  lemma {:induction false} OthersAtMostTotal(rows: seq<Row>, id: nat)
    requires forall row :: row in rows ==> row.percent >= 0
    ensures 0 <= OtherPercents(rows, id) <= Percents(rows)
  {
    if rows != [] {
      OthersAtMostTotal(rows[1..], id);
    }
  }

  /** What every row of the table and every row read from it is like. */
  predicate Resolves(net: nat, row: Row) {
    ValidPercentage(row.raw) && row.percent == Stored(row.raw) && row.amount == Resolved(net, row.raw)
  }

  ghost predicate Wellformed(s: State) {
    && Distinct(s.table.rows)
    && (forall row :: row in s.table.rows ==> Resolves(s.table.net, row))
    && (forall request :: request in s.pending ==> Resolves(s.table.net, s.pending[request]))
  }

  lemma WriteKeepsWellformed(s: State, row: Row, pending: map<nat, Row>)
    requires Wellformed(s) && Resolves(s.table.net, row) && pending.Keys <= s.pending.Keys
    requires forall request :: request in pending ==> pending[request] == s.pending[request]
    ensures Wellformed(State(s.table.(rows := Written(s.table.rows, row)), pending))
  {
    WrittenShape(s.table.rows, row);
    var rows := Written(s.table.rows, row);
    forall r | r in rows
      ensures Resolves(s.table.net, r)
    {
      var i :| 0 <= i < |rows| && rows[i] == r;
      assert s.table.rows[i] in s.table.rows;
    }
  }

  lemma StepKeepsWellformed(s: State, a: Action)
    requires Wellformed(s)
    ensures Wellformed(Step(s, a)) && Step(s, a).table.net == s.table.net
  {
    match a
    case Patch(request, percentage) =>
      if request in s.pending {
        var existing, left := s.pending[request], s.pending - {request};
        WriteKeepsWellformed(s, existing, left);
        if percentage.Some? && ValidPercentage(percentage.value) {
          var raw := percentage.value;
          WriteKeepsWellformed(s, Row(existing.id, Stored(raw), Resolved(s.table.net, raw), raw), left);
        }
      }
    case Delete(id) =>
      WithoutRows(s.table.rows, id);
    case _ =>
  }

  /** The check the PATCH route makes only when a percentage is sent, made for the
      percentage it writes back when none is. */
  predicate PassesSkippedCheck(s: State, a: Action) {
    a.Patch? && a.percentage.None? && a.request in s.pending && s.table.editable ==>
      var existing := s.pending[a.request];
      Find(s.table.rows, existing.id).Some? ==> OtherPercents(s.table.rows, existing.id) + existing.percent <= WHOLE
  }

  /** From a total within 100, a step stays within 100 exactly when the check it skips,
      if it skips one, would have passed. */
  lemma StepWithinHundredIff(s: State, a: Action)
    requires Wellformed(s) && Percents(s.table.rows) <= WHOLE
    ensures Percents(Step(s, a).table.rows) <= WHOLE <==> PassesSkippedCheck(s, a)
  {
    match a
    case Post(id, raw) =>
      PercentsAppend(s.table.rows, Row(id, Stored(raw), Resolved(s.table.net, raw), raw));
      AcceptedIsWithinHundred(Percents(s.table.rows), raw);
    case Patch(request, percentage) =>
      if request in s.pending {
        var existing := s.pending[request];
        WrittenPercents(s.table.rows, existing);
        if percentage.Some? {
          var raw := percentage.value;
          WrittenPercents(s.table.rows, Row(existing.id, Stored(raw), Resolved(s.table.net, raw), raw));
          AcceptedIsWithinHundred(OtherPercents(s.table.rows, existing.id), raw);
        }
      }
    case Delete(id) =>
      OthersAtMostTotal(s.table.rows, id);
      WithoutPercents(s.table.rows, id);
    case _ =>
  }

  /** The record's percentages are within 100 at the start and after every action. */
  predicate StaysWithinHundred(s: State, actions: seq<Action>) {
    Percents(Run(s, actions).table.rows) <= WHOLE && (actions != [] ==> StaysWithinHundred(s, actions[..|actions| - 1]))
  }

  /** Every action of the run passes the check it skips. */
  predicate ChecksPass(s: State, actions: seq<Action>) {
    actions != [] ==>
      && ChecksPass(s, actions[..|actions| - 1])
      && PassesSkippedCheck(Run(s, actions[..|actions| - 1]), actions[|actions| - 1])
  }

  lemma {:induction false} RunKeepsWellformed(s: State, actions: seq<Action>)
    requires Wellformed(s)
    ensures Wellformed(Run(s, actions)) && Run(s, actions).table.net == s.table.net
  {
    if actions != [] {
      RunKeepsWellformed(s, actions[..|actions| - 1]);
      StepKeepsWellformed(Run(s, actions[..|actions| - 1]), actions[|actions| - 1]);
    }
  }

  /** Over every interleaving of creates, edits and deletes of one record, the percentages
      stay within 100 throughout exactly when no edit without a percentage writes back
      one that no longer fits. */
  lemma {:induction false} RunWithinHundredIff(net: nat, actions: seq<Action>)
    ensures StaysWithinHundred(Start(net), actions) <==> ChecksPass(Start(net), actions)
  {
    if actions != [] {
      var before := actions[..|actions| - 1];
      RunWithinHundredIff(net, before);
      RunKeepsWellformed(Start(net), before);
      if StaysWithinHundred(Start(net), before) {
        StepWithinHundredIff(Run(Start(net), before), actions[|actions| - 1]);
      }
    }
  }

  lemma {:induction false} OthersAndOwn(rows: seq<Row>, row: Row)
    requires Distinct(rows) && row in rows
    ensures OtherPercents(rows, row.id) + row.percent == Percents(rows)
  {
    if rows[0].id == row.id {
      NotThere(rows[1..], row.id);
    } else {
      OthersAndOwn(rows[1..], row);
    }
  }

  /** An edit whose row nobody changed in between writes back what is there, so it passes. */
  lemma UnchangedRowPasses(s: State, a: Action)
    requires Wellformed(s) && Percents(s.table.rows) <= WHOLE
    requires a.Patch? && a.request in s.pending && s.pending[a.request] in s.table.rows
    ensures PassesSkippedCheck(s, a)
  {
    OthersAndOwn(s.table.rows, s.pending[a.request]);
  }

  lemma RunSnoc(s: State, actions: seq<Action>, a: Action)
    ensures Run(s, actions + [a]) == Step(Run(s, actions), a)
  {
    assert (actions + [a])[..|actions + [a]| - 1] == actions;
  }

  /** Concrete run: a note is edited on an allocation read at 60%, meanwhile reduced to 10%
      with 90% given elsewhere; the write-back leaves 150%. */
  lemma StaleWriteBackExceedsHundred()
    ensures var run := [Post(1, 60.0)] + [Open(7, 1)] + [Open(8, 1)] + [Patch(8, Some(10.0))] + [Post(2, 90.0)] + [Patch(7, None)];
            Percents(Run(Start(100000), run).table.rows) == 15000
  {
    var s := Start(100000);
    var whole, small, other := Row(1, 6000, 60000, 60.0), Row(1, 1000, 10000, 10.0), Row(2, 9000, 90000, 90.0);
    var run := [Post(1, 60.0)];
    assert run[..0] == [] && [] + [whole] == [whole];
    assert Run(s, run).table.rows == [whole];
    RunSnoc(s, run, Open(7, 1));
    run := run + [Open(7, 1)];
    RunSnoc(s, run, Open(8, 1));
    run := run + [Open(8, 1)];
    RunSnoc(s, run, Patch(8, Some(10.0)));
    run := run + [Patch(8, Some(10.0))];
    assert Run(s, run).table.rows == [small];
    RunSnoc(s, run, Post(2, 90.0));
    run := run + [Post(2, 90.0)];
    assert Run(s, run).table.rows == [small, other];
    RunSnoc(s, run, Patch(7, None));
    run := run + [Patch(7, None)];
    assert Written([small, other], whole) == [whole] + Written([other], whole) == [whole, other];
  }
}
