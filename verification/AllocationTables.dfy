// The labor_allocations rows of one payroll record, updated in place by the routes of
// server/src/routes/laborAllocations.ts.
module AllocationTables {
  import opened Allocation

  // ---- What a write leaves ----

  /** The whole number nearest to a value, a tie going up. */
  predicate Nearest(whole: int, value: real)
  {
    whole as real - 0.5 <= value < whole as real + 0.5
  }

  /** The percentage in the nearest hundredths, and the nearest cents of its share as requested. */
  predicate Saves(row: Row, id: nat, net: nat, raw: real)
  {
    && row.id == id && row.raw == raw
    && Nearest(row.percent, raw * 100.0) && Nearest(row.amount, net as real * raw / 100.0)
  }

  predicate Fits(others: int, raw: real)
  {
    others as real / 100.0 + raw <= 100.0001
  }

  /** Only the row with that id is another. */
  predicate Replaced(before: seq<Row>, row: Row, after: seq<Row>)
  {
    && |after| == |before|
    && forall k :: 0 <= k < |before| ==> after[k] == if before[k].id == row.id then row else before[k]
  }

  /** Exactly the rows with that id are gone. */
  ghost predicate Dropped(before: seq<Row>, id: nat, after: seq<Row>)
  {
    forall row :: multiset(after)[row] == if row.id == id then 0 else multiset(before)[row]
  }

  lemma {:induction false} WithoutDrops(rows: seq<Row>, id: nat)
    ensures Dropped(rows, id, Without(rows, id))
  {
    if rows != [] {
      WithoutDrops(rows[1..], id);
      assert rows == [rows[0]] + rows[1..];
      if rows[0].id == id {
        assert Without(rows, id) == Without(rows[1..], id);
      }
    }
  }

  lemma SavedRow(id: nat, net: nat, raw: real)
    ensures Saves(Row(id, Stored(raw), Resolved(net, raw), raw), id, net, raw)
  {
  }

  class RecordAllocations {
    var editable: bool
    var net: nat
    var rows: seq<Row>

    function Contents(): Table
      reads this
    {
      Table(editable, net, rows)
    }

    constructor (net: nat)
      ensures Contents() == Start(net).table
    {
      this.net, editable, rows := net, true, [];
    }

    /** sumPercent over the record's rows, leaving one out when asked to. */
    method SumPercent(except: Option<nat>) returns (total: int)
      ensures total == match except { case None => Percents(rows) case Some(id) => OtherPercents(rows, id) }
    {
      total := 0;
      for k := 0 to |rows|
        invariant except.None? ==> total + Percents(rows[k..]) == Percents(rows)
        invariant except.Some? ==> total + OtherPercents(rows[k..], except.value) == OtherPercents(rows, except.value)
      {
        assert rows[k..][0] == rows[k] && rows[k..][1..] == rows[k + 1..];
        if except != Some(rows[k].id) {
          total := total + rows[k].percent;
        }
      }
    }

    /** POST /, after the lookups of record, project and cost code. */
    method Post(id: nat, raw: real) returns (outcome: Outcome)
      modifies this`rows
      ensures (Contents(), outcome) == Create(old(Contents()), id, raw)
      ensures old(Percents(rows)) <= WHOLE ==> Percents(rows) <= WHOLE
      ensures outcome == Ok <==> 0.0 < raw <= 100.0 && editable && Fits(Percents(old(rows)), raw)
      ensures outcome == Ok ==> |rows| == |old(rows)| + 1 && rows[..|old(rows)|] == old(rows) && Saves(rows[|old(rows)|], id, net, raw)
      ensures outcome != Ok ==> rows == old(rows)
      ensures outcome.Exceeds? ==> outcome.remaining == WHOLE - Percents(rows)
    {
      SavedRow(id, net, raw);
      if !ValidPercentage(raw) {
        return Invalid;
      }
      if !editable {
        return Locked;
      }
      var existing := SumPercent(None);
      if !WithinHundred(existing, raw) {
        return Exceeds(WHOLE - existing);
      }
      PercentsAppend(rows, Row(id, Stored(raw), Resolved(net, raw), raw));
      AcceptedIsWithinHundred(existing, raw);
      rows := rows + [Row(id, Stored(raw), Resolved(net, raw), raw)];
      outcome := Ok;
    }

    /** PATCH /:id; `existing` is the row as the request read it before it took the lock. */
    method Patch(existing: Row, percentage: Option<real>) returns (outcome: Outcome)
      modifies this`rows
      ensures (Contents(), outcome) == Save(old(Contents()), existing, percentage)
      ensures old(Distinct(rows)) && old(Percents(rows)) <= WHOLE && percentage.Some? ==> Percents(rows) <= WHOLE
      ensures percentage.None? ==> (outcome == Ok <==> editable) && (outcome == Ok ==> Replaced(old(rows), existing, rows))
      ensures percentage.Some? ==>
                var raw := percentage.value;
                && (outcome == Ok <==> 0.0 < raw <= 100.0 && editable && Fits(OtherPercents(old(rows), existing.id), raw))
                && (outcome == Ok ==> exists row :: Saves(row, existing.id, net, raw) && Replaced(old(rows), row, rows))
      ensures outcome != Ok ==> rows == old(rows)
    {
      if percentage.Some? && !ValidPercentage(percentage.value) {
        return Invalid;
      }
      if !editable {
        return Locked;
      }
      var row := existing;
      if percentage.Some? {
        var raw := percentage.value;
        var others := SumPercent(Some(existing.id));
        if !WithinHundred(others, raw) {
          return Exceeds(WHOLE - others);
        }
        AcceptedIsWithinHundred(others, raw);
        row := Row(existing.id, Stored(raw), Resolved(net, raw), raw);
        SavedRow(existing.id, net, raw);
      }
      if Distinct(rows) {
        WrittenPercents(rows, row);
      }
      ghost var before := rows;
      Write(row);
      WrittenShape(before, row);
      assert Replaced(before, row, rows);
      outcome := Ok;
    }

    /** UPDATE ... WHERE id = row.id. */
    method Write(row: Row)
      modifies this`rows
      ensures rows == Written(old(rows), row)
    {
      var written := [];
      for k := 0 to |rows|
        invariant rows == old(rows)
        invariant written + Written(rows[k..], row) == Written(rows, row)
      {
        assert rows[k..][0] == rows[k] && rows[k..][1..] == rows[k + 1..];
        written := written + [if rows[k].id == row.id then row else rows[k]];
      }
      rows := written;
    }

    /** DELETE /:id. */
    method Delete(id: nat) returns (outcome: Outcome)
      modifies this`rows
      ensures (Contents(), outcome) == Remove(old(Contents()), id)
      ensures outcome == Ok <==> editable
      ensures if outcome == Ok then Dropped(old(rows), id, rows) else rows == old(rows)
    {
      ghost var before := rows;
      if !editable {
        return Locked;
      }
      KeepOthers(id);
      WithoutDrops(before, id);
      outcome := Ok;
    }

    method KeepOthers(id: nat)
      modifies this`rows
      ensures rows == Without(old(rows), id)
    {
      var kept := [];
      for k := 0 to |rows|
        invariant rows == old(rows)
        invariant kept + Without(rows[k..], id) == Without(rows, id)
      {
        assert rows[k..][0] == rows[k] && rows[k..][1..] == rows[k + 1..];
        if rows[k].id != id {
          assert kept + [rows[k]] + Without(rows[k + 1..], id) == kept + ([rows[k]] + Without(rows[k + 1..], id));
          kept := kept + [rows[k]];
        } else {
          assert Without(rows[k..], id) == Without(rows[k + 1..], id);
        }
      }
      assert rows[|rows|..] == [] && kept + [] == kept;
      rows := kept;
    }
  }
}
