// What the amounts of one payroll record's allocations add up to, and the figures the
// allocation page shows (server/src/routes/laborAllocations.ts,
// client/src/pages/LaborAllocation.tsx).
module AllocationAmounts {
  import opened Allocation
  import opened Reals

  function Raws(rows: seq<Row>): seq<real> {
    if rows == [] then [] else [rows[0].raw] + Raws(rows[1..])
  }

  function Total(percentages: seq<real>): real {
    if percentages == [] then 0.0 else percentages[0] + Total(percentages[1..])
  }

  /** The amounts the percentages resolve to against one net amount, in total. */
  function ResolvedTotal(net: nat, percentages: seq<real>): int {
    if percentages == [] then 0 else Resolved(net, percentages[0]) + ResolvedTotal(net, percentages[1..])
  }

  /** The exact share, in cents. */
  function Share(net: real, percentage: real): real {
    Times(net, percentage) / 100.0
  }

  lemma ShareIsLinear(net: real, p: real, q: real)
    ensures Share(net, p + q) == Share(net, p) + Share(net, q)
  {
  }

  lemma ShareOfWhole(net: real)
    ensures Share(net, 100.0) == net
  {
  }

  lemma ResolvedNear(net: nat, percentage: real)
    ensures Share(net as real, percentage) - 0.5 <= Resolved(net, percentage) as real <= Share(net as real, percentage) + 0.5
  {
    assert Times(net as real, percentage) == net as real * percentage;
  }

  ghost predicate Near(amount: int, share: real, n: nat) {
    share - n as real / 2.0 <= amount as real <= share + n as real / 2.0
  }

  lemma NearAdd(a: int, x: real, b: int, y: real, n: nat)
    requires Near(a, x, 1) && Near(b, y, n)
    ensures Near(a + b, x + y, n + 1)
  {
  }

  /** Each allocation is within half a cent of its exact share, so n of them are within n halves. */
  lemma {:induction false} NearExactShare(net: nat, percentages: seq<real>)
    ensures Near(ResolvedTotal(net, percentages), Share(net as real, Total(percentages)), |percentages|)
  {
    if percentages == [] {
      assert Share(net as real, 0.0) == 0.0;
    } else {
      var first, rest := percentages[0], percentages[1..];
      NearExactShare(net, rest);
      ResolvedNear(net, first);
      NearAdd(Resolved(net, first), Share(net as real, first), ResolvedTotal(net, rest), Share(net as real, Total(rest)), |rest|);
      ShareIsLinear(net as real, first, Total(rest));
    }
  }

  /** At most half a cent per allocation above the net amount. */
  ghost predicate HalfCentEach(net: nat, percentages: seq<real>) {
    2 * ResolvedTotal(net, percentages) <= 2 * net + |percentages|
  }

  lemma NearAtMost(amount: int, share: real, n: nat, net: nat)
    requires Near(amount, share, n)
    ensures share <= net as real ==> 2 * amount <= 2 * net + n
    ensures share > net as real + n as real ==> 2 * amount > 2 * net + n
  {
    if share <= net as real {
      assert (2 * amount) as real <= (2 * net + n) as real;
    } else if share > net as real + n as real {
      assert (2 * amount) as real > (2 * net + n) as real;
    }
  }

  lemma ExcessBreaksBound(net: nat, percentages: seq<real>)
    requires Times(net as real, Total(percentages) - 100.0) > 100.0 * |percentages| as real
    ensures !HalfCentEach(net, percentages)
  {
    var total := Total(percentages);
    NearExactShare(net, percentages);
    ShareIsLinear(net as real, total - 100.0, 100.0);
    ShareOfWhole(net as real);
    assert Share(net as real, total - 100.0) > |percentages| as real;
    NearAtMost(ResolvedTotal(net, percentages), Share(net as real, total), |percentages|, net);
  }

  lemma FittingKeepsBound(net: nat, percentages: seq<real>)
    requires Total(percentages) <= 100.0
    ensures HalfCentEach(net, percentages)
  {
    NearExactShare(net, percentages);
    TimesAtMost(Total(percentages), 100.0, net as real);
    ShareOfWhole(net as real);
    NearAtMost(ResolvedTotal(net, percentages), Share(net as real, Total(percentages)), |percentages|, net);
  }

  /** The amounts keep within half a cent each of the net amount, whatever it is, exactly
      when the percentages as sent add up to at most 100. */
  lemma HalfCentEachIff(percentages: seq<real>)
    ensures (forall net: nat :: HalfCentEach(net, percentages)) <==> Total(percentages) <= 100.0
  {
    if Total(percentages) <= 100.0 {
      forall net: nat
        ensures HalfCentEach(net, percentages)
      {
        FittingKeepsBound(net, percentages);
      }
    } else {
      var net := Outweighing(100.0 * |percentages| as real, Total(percentages) - 100.0);
      ExcessBreaksBound(net, percentages);
    }
  }

  // ---- The same over runs ----

  lemma {:induction false} AmountsOfRows(net: nat, rows: seq<Row>)
    requires forall row :: row in rows ==> Resolves(net, row)
    ensures Amounts(rows) == ResolvedTotal(net, Raws(rows)) && |Raws(rows)| == |rows|
  {
    if rows != [] {
      AmountsOfRows(net, rows[1..]);
      assert Resolves(net, rows[0]) && Raws(rows)[0] == rows[0].raw;
      assert Raws(rows)[1..] == Raws(rows[1..]);
    }
  }

  /** The requests decide which rows there are and their percentages; the net amount only
      decides the amounts. */
  function ForNet(net: nat, row: Row): Row {
    row.(amount := Resolved(net, row.raw))
  }

  function RowsForNet(net: nat, rows: seq<Row>): (r: seq<Row>)
    ensures |r| == |rows|
  {
    if rows == [] then [] else [ForNet(net, rows[0])] + RowsForNet(net, rows[1..])
  }

  function StateForNet(net: nat, s: State): State {
    State(Table(s.table.editable, net, RowsForNet(net, s.table.rows)),
          map request | request in s.pending :: ForNet(net, s.pending[request]))
  }

  lemma {:induction false} RowsForNetSums(net: nat, rows: seq<Row>, id: nat)
    ensures Percents(RowsForNet(net, rows)) == Percents(rows)
    ensures OtherPercents(RowsForNet(net, rows), id) == OtherPercents(rows, id)
    ensures Raws(RowsForNet(net, rows)) == Raws(rows)
  {
    if rows != [] {
      RowsForNetSums(net, rows[1..], id);
      assert RowsForNet(net, rows)[1..] == RowsForNet(net, rows[1..]);
    }
  }

  lemma {:induction false} RowsForNetAppend(net: nat, rows: seq<Row>, row: Row)
    ensures RowsForNet(net, rows + [row]) == RowsForNet(net, rows) + [ForNet(net, row)]
  {
    if rows != [] {
      assert (rows + [row])[1..] == rows[1..] + [row];
      RowsForNetAppend(net, rows[1..], row);
    }
  }

  lemma {:induction false} RowsForNetEdits(net: nat, rows: seq<Row>, row: Row)
    ensures Written(RowsForNet(net, rows), ForNet(net, row)) == RowsForNet(net, Written(rows, row))
  {
    if rows != [] {
      RowsForNetEdits(net, rows[1..], row);
      assert RowsForNet(net, rows)[1..] == RowsForNet(net, rows[1..]);
      assert Written(rows, row)[1..] == Written(rows[1..], row);
    }
  }

  lemma {:induction false} RowsForNetDelete(net: nat, rows: seq<Row>, id: nat)
    ensures Without(RowsForNet(net, rows), id) == RowsForNet(net, Without(rows, id))
  {
    if rows != [] {
      RowsForNetDelete(net, rows[1..], id);
      assert RowsForNet(net, rows)[1..] == RowsForNet(net, rows[1..]);
      if rows[0].id == id {
        assert Without(rows, id) == Without(rows[1..], id);
      } else {
        assert Without(rows, id)[1..] == Without(rows[1..], id);
      }
    }
  }

  lemma {:induction false} RowsForNetFind(net: nat, rows: seq<Row>, id: nat)
    ensures Find(RowsForNet(net, rows), id) ==
            match Find(rows, id) { case None => None case Some(row) => Some(ForNet(net, row)) }
  {
    if rows != [] {
      RowsForNetFind(net, rows[1..], id);
      assert RowsForNet(net, rows)[1..] == RowsForNet(net, rows[1..]);
    }
  }

  lemma SaveForNet(net: nat, t: Table, existing: Row, percentage: Option<real>)
    ensures Save(Table(t.editable, net, RowsForNet(net, t.rows)), ForNet(net, existing), percentage).0
         == Table(t.editable, net, RowsForNet(net, Save(t, existing, percentage).0.rows))
  {
    RowsForNetSums(net, t.rows, existing.id);
    RowsForNetEdits(net, t.rows, existing);
    if percentage.Some? {
      var raw := percentage.value;
      RowsForNetEdits(net, t.rows, Row(existing.id, Stored(raw), Resolved(t.net, raw), raw));
    }
  }

  lemma PostForNet(net: nat, s: State, id: nat, raw: real)
    ensures Step(StateForNet(net, s), Post(id, raw)) == StateForNet(net, Step(s, Post(id, raw)))
  {
    RowsForNetFind(net, s.table.rows, id);
    RowsForNetSums(net, s.table.rows, id);
    RowsForNetAppend(net, s.table.rows, Row(id, Stored(raw), Resolved(s.table.net, raw), raw));
  }

  lemma PatchForNet(net: nat, s: State, request: nat, percentage: Option<real>)
    ensures Step(StateForNet(net, s), Patch(request, percentage)) == StateForNet(net, Step(s, Patch(request, percentage)))
  {
    if request in s.pending {
      SaveForNet(net, s.table, s.pending[request], percentage);
      var a := Patch(request, percentage);
      var p, q := Step(StateForNet(net, s), a).pending, StateForNet(net, Step(s, a)).pending;
      assert p.Keys == q.Keys;
      assert p == q;
    }
  }

  lemma StepForNet(net: nat, s: State, a: Action)
    ensures Step(StateForNet(net, s), a) == StateForNet(net, Step(s, a))
  {
    match a
    case Post(id, raw) =>
      PostForNet(net, s, id, raw);
    case Open(request, id) =>
      RowsForNetFind(net, s.table.rows, id);
    case Patch(request, percentage) =>
      PatchForNet(net, s, request, percentage);
    case Delete(id) =>
      RowsForNetDelete(net, s.table.rows, id);
    case SetEditable(_) =>
  }

  lemma {:induction false} RunForNet(net: nat, actions: seq<Action>)
    ensures Run(Start(net), actions) == StateForNet(net, Run(Start(0), actions))
  {
    if actions != [] {
      RunForNet(net, actions[..|actions| - 1]);
      StepForNet(net, Run(Start(0), actions[..|actions| - 1]), actions[|actions| - 1]);
    }
  }

  /** The percentages a run leaves allocated, as they were sent. */
  function Sent(actions: seq<Action>): seq<real> {
    Raws(Run(Start(0), actions).table.rows)
  }

  ghost predicate RunHalfCentEach(net: nat, actions: seq<Action>) {
    var rows := Run(Start(net), actions).table.rows;
    2 * Amounts(rows) <= 2 * net + |rows|
  }

  /** After any run of requests, the saved amounts exceed the net amount by at most half a
      cent each, whatever the net amount, exactly when the percentages as sent fit in 100.
      The stored ones always do: the difference is the decimals past the second. */
  lemma RunHalfCentEachIff(actions: seq<Action>)
    ensures (forall net: nat :: RunHalfCentEach(net, actions)) <==> Total(Sent(actions)) <= 100.0
  {
    forall net: nat
      ensures RunHalfCentEach(net, actions) <==> HalfCentEach(net, Sent(actions))
    {
      RunForNet(net, actions);
      RunKeepsWellformed(Start(net), actions);
      var rows := Run(Start(net), actions).table.rows;
      RowsForNetSums(net, Run(Start(0), actions).table.rows, 0);
      AmountsOfRows(net, rows);
    }
    HalfCentEachIff(Sent(actions));
    if forall net: nat :: RunHalfCentEach(net, actions) {
      forall net: nat
        ensures HalfCentEach(net, Sent(actions))
      {
        assert RunHalfCentEach(net, actions);
      }
    } else {
      var net: nat :| !RunHalfCentEach(net, actions);
      assert !HalfCentEach(net, Sent(actions));
    }
  }

  /** A percentage the scale-2 column holds without rounding. */
  predicate TwoDecimals(raw: real) {
    raw == Stored(raw) as real / 100.0
  }

  predicate SendsTwoDecimals(a: Action) {
    match a
    case Post(_, raw) => TwoDecimals(raw)
    case Patch(_, Some(raw)) => TwoDecimals(raw)
    case _ => true
  }

  ghost predicate AllTwoDecimals(s: State) {
    && (forall row :: row in s.table.rows ==> TwoDecimals(row.raw))
    && (forall request :: request in s.pending ==> TwoDecimals(s.pending[request].raw))
  }

  lemma {:induction false} WrittenRows(rows: seq<Row>, row: Row, r: Row)
    requires r in Written(rows, row)
    ensures r == row || r in rows
  {
    if r in Written(rows[1..], row) {
      WrittenRows(rows[1..], row, r);
    }
  }

  lemma {:induction false} WithoutIsPart(rows: seq<Row>, id: nat, r: Row)
    requires r in Without(rows, id)
    ensures r in rows
  {
    if r in Without(rows[1..], id) {
      WithoutIsPart(rows[1..], id, r);
    }
  }

  lemma {:induction false} RunTwoDecimals(net: nat, actions: seq<Action>)
    requires forall a :: a in actions ==> SendsTwoDecimals(a)
    ensures AllTwoDecimals(Run(Start(net), actions))
  {
    if actions != [] {
      RunTwoDecimals(net, actions[..|actions| - 1]);
      var s, a := Run(Start(net), actions[..|actions| - 1]), actions[|actions| - 1];
      assert SendsTwoDecimals(a);
      forall r | r in Step(s, a).table.rows
        ensures TwoDecimals(r.raw)
      {
        if a.Patch? && a.request in s.pending && r !in s.table.rows {
          var existing := s.pending[a.request];
          var raw := if a.percentage.Some? then a.percentage.value else existing.raw;
          if a.percentage.Some? {
            WrittenRows(s.table.rows, Row(existing.id, Stored(raw), Resolved(s.table.net, raw), raw), r);
          } else {
            WrittenRows(s.table.rows, existing, r);
          }
        } else if a.Delete? && s.table.editable {
          WithoutIsPart(s.table.rows, a.id, r);
        }
      }
    }
  }

  lemma {:induction false} RawsArePercents(rows: seq<Row>)
    requires forall row :: row in rows ==> TwoDecimals(row.raw) && row.percent == Stored(row.raw)
    ensures Total(Raws(rows)) == Percents(rows) as real / 100.0
  {
    if rows != [] {
      RawsArePercents(rows[1..]);
      assert Raws(rows)[1..] == Raws(rows[1..]);
    }
  }

  /** A caller that sends two decimals at most, and never lets a stale percentage be written
      back, gets the bound on every run and every net amount. */
  lemma TwoDecimalRunsStayNearNet(net: nat, actions: seq<Action>)
    requires ChecksPass(Start(net), actions)
    requires forall a :: a in actions ==> SendsTwoDecimals(a)
    ensures RunHalfCentEach(net, actions)
  {
    RunWithinHundredIff(net, actions);
    RunTwoDecimals(net, actions);
    RunKeepsWellformed(Start(net), actions);
    var rows := Run(Start(net), actions).table.rows;
    RawsArePercents(rows);
    AmountsOfRows(net, rows);
    HalfCentEachIff(Raws(rows));
    assert HalfCentEach(net, Raws(rows));
  }

  /** Concrete run: three allocations of 33.334% are stored as 99.99% in all and cost
      20 cents more than the 10,000.00 they divide. */
  lemma ThirdsExceedNet()
    ensures var run := [Post(1, 33.334)] + [Post(2, 33.334)] + [Post(3, 33.334)];
            var rows := Run(Start(1000000), run).table.rows;
            Percents(rows) == 9999 && Amounts(rows) == 1000020
  {
    var s := Start(1000000);
    var third := Row(1, 3333, 333340, 33.334);
    var run := [Post(1, 33.334)];
    assert run[..0] == [] && [] + [third] == [third];
    assert Run(s, run).table.rows == [third];
    RunSnoc(s, run, Post(2, 33.334));
    run := run + [Post(2, 33.334)];
    assert Run(s, run).table.rows == [third, third.(id := 2)];
    RunSnoc(s, run, Post(3, 33.334));
    run := run + [Post(3, 33.334)];
    var rows := Run(s, run).table.rows;
    assert rows == [third, third.(id := 2), third.(id := 3)];
    var last := [third.(id := 3)];
    assert rows[1..] == [third.(id := 2)] + last && rows[1..][1..] == last;
    assert Percents(last) == 3333 && Amounts(last) == 333340;
    assert Percents(rows[1..]) == 6666 && Amounts(rows[1..]) == 666680;
  }

  // ---- The allocation page ----

  function Max(a: int, b: int): int { if a < b then b else a }

  function RemainingPercent(rows: seq<Row>): int {
    Max(0, WHOLE - Percents(rows))
  }

  /** The limit the edit form of one row offers. */
  function OwnRemainingPercent(rows: seq<Row>, row: Row): int {
    RemainingPercent(rows) + row.percent
  }

  /** The form's limit is what the other allocations leave, and the server takes a
      two-decimal percentage exactly up to it, precisely while the record is within 100. */
  lemma OwnRemainingIff(rows: seq<Row>, row: Row)
    requires Distinct(rows) && row in rows
    ensures OwnRemainingPercent(rows, row) == WHOLE - OtherPercents(rows, row.id) <==> Percents(rows) <= WHOLE
    ensures Percents(rows) <= WHOLE ==> forall raw :: TwoDecimals(raw) ==>
              (WithinHundred(OtherPercents(rows, row.id), raw) <==> Stored(raw) <= OwnRemainingPercent(rows, row))
  {
    OthersAndOwn(rows, row);
    forall raw | TwoDecimals(raw)
      ensures WithinHundred(OtherPercents(rows, row.id), raw) <==> OtherPercents(rows, row.id) + Stored(raw) <= WHOLE
    {
      AcceptedIsWithinHundred(OtherPercents(rows, row.id), raw);
    }
  }
}
