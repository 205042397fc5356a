// The tables themselves, updated in place. Each method is one database step of a
// route and is proved to be exactly that step of the model.
module CertificationTables {
  import opened Money
  import opened RowLocks
  import opened CertificationModel
  import opened CertificationSafety
  import opened CertificationLedger
  import opened CertificationEffects

  /** The running totals of an item: what the ledger held plus the lines frozen so far. */
  ghost predicate RunningIs(items: map<Row, Item>, running: map<Row, Base>, base: map<Row, Base>, lines: seq<Line>, row: Row)
  {
    var start := if row in base then base[row] else Base(0, 0);
    var ceiling := if row in items then items[row].ceiling else Unlimited;
    var sofar := if row in running then running[row] else Base(0, 0);
    sofar == Base(start.units + Used(ceiling, lines, row), start.value + Used(Amount(0), lines, row))
  }

  ghost predicate RunningTotals(items: map<Row, Item>, running: map<Row, Base>, base: map<Row, Base>, lines: seq<Line>)
  {
    forall row :: RunningIs(items, running, base, lines, row)
  }

  /** Freezing one more line moves the running total of its item and no other. */
  lemma RunningStep(items: map<Row, Item>, running: map<Row, Base>, base: map<Row, Base>, lines: seq<Line>, line: Line,
                    next: map<Row, Base>, extended: seq<Line>)
    requires RunningTotals(items, running, base, lines) && extended == lines + [line]
    requires var ceiling := if line.item in items then items[line.item].ceiling else Unlimited;
             var sofar := if line.item in running then running[line.item] else Base(0, 0);
             next == running[line.item := Base(sofar.units + Units(ceiling, line), sofar.value + line.value)]
    ensures RunningTotals(items, next, base, extended)
  {
    assert extended[..|lines|] == lines;
    forall row: Row
      ensures RunningIs(items, next, base, extended, row)
    {
      assert RunningIs(items, running, base, lines, row);
    }
  }

  // ---- What a caller may rely on across any step ----

  /** Posted documents, their order and the prices stay, and no item is over its ceiling. */
  ghost predicate KeepsHistory(before: State, after: State)
  {
    && (forall d :: 0 <= d < |before.docs| && Posted(before.docs[d]) ==> d < |after.docs| && after.docs[d] == before.docs[d])
    && before.posted <= after.posted
    && (forall row :: row in before.items ==> row in after.items && after.items[row] == before.items[row])
    && (forall item :: item in after.items ==> NotOvercertified(after.docs, item, after.items[item].ceiling))
  }

  /** No ledger total moves, and no open transaction's document changes under its lock. */
  ghost predicate LeavesLedger(before: State, after: State)
  {
    && after.posted == before.posted
    && SameTotals(before.docs, after.docs)
    && forall t :: 0 <= t < |before.txs| && !before.txs[t].done && 0 < before.txs[t].taken ==>
         t < |after.txs| && after.txs[t] == before.txs[t] && before.txs[t].doc < |before.docs| <= |after.docs|
         && after.docs[before.txs[t].doc] == before.docs[before.txs[t].doc]
  }

  /** Every certificate in the making that holds its contract or commitment still knows
      the percentage in force. */
  ghost predicate PercentsAreLive(s: State)
  {
    forall t :: 0 <= t < |s.txs| && !s.txs[t].done && 2 <= s.txs[t].taken && s.txs[t].doc < |s.docs| ==>
      var doc := s.docs[s.txs[t].doc];
      doc.kind != Measurement && s.txs[t].taken <= |PlanOf(s, s.txs[t])| ==> s.txs[t].percent == PercentAt(s, ParentRow(doc))
  }

  ghost predicate SameLocks(before: State, after: State)
  {
    forall row :: RowFree(after, row) <==> RowFree(before, row)
  }

  lemma StepKeepsHistory(s: State, a: Action)
    requires LedgerInv(s)
    ensures LedgerInv(Step(s, a)) && KeepsHistory(s, Step(s, a))
  {
    StepKeepsLedger(s, a);
    StepKeepsPosted(s, a);
    InvNotOvercertified(Step(s, a));
  }

  lemma EditLeavesLedger(s: State, a: Action)
    requires Inv(s) && EditsDocument(a)
    ensures LeavesLedger(s, Step(s, a))
  {
    OnlyCommitPosts(s, a);
    QuietStepTotals(s, a);
    if Step(s, a) != s {
      EditIsQuiet(s, a);
      forall t | 0 <= t < |s.txs| && !s.txs[t].done && 0 < s.txs[t].taken
        ensures s.txs[t].doc != a.doc
      {
        LockedDocument(s, t);
      }
    }
  }

  lemma EditIsSafe(s: State, a: Action, next: State)
    requires LedgerInv(s) && EditsDocument(a) && next == Step(s, a)
    ensures LedgerInv(next) && KeepsHistory(s, next) && LeavesLedger(s, next)
  {
    StepKeepsHistory(s, a);
    EditLeavesLedger(s, a);
  }

  lemma InvPercentsAreLive(s: State)
    requires Inv(s)
    ensures PercentsAreLive(s)
  {
    forall t | 0 <= t < |s.txs|
      ensures TxOk(s, s.txs[t])
    {
    }
  }

  lemma BeginHoldsNothing(s: State, d: nat)
    requires Inv(s)
    ensures SameLocks(s, Step(s, Action.Begin(d))) && LeavesLedger(s, Step(s, Action.Begin(d)))
  {
    var next := Step(s, Action.Begin(d));
    assert SameTotals(s.docs, next.docs);
    forall row
      ensures RowFree(next, row) <==> RowFree(s, row)
    {
      NewTxHoldsNothing(s, d, row);
    }
  }

  lemma NewTxHoldsNothing(s: State, d: nat, row: Row)
    ensures RowFree(Step(s, Action.Begin(d)), row) <==> RowFree(s, row)
  {
    if d < |s.docs| {
      var tx := Tx(d, 0, map[], 0, false);
      var next := s.(txs := s.txs + [tx]);
      assert Step(s, Action.Begin(d)) == next;
      forall t | 0 <= t < |next.txs|
        ensures Holding(next, next.txs[t], row) <==> t < |s.txs| && Holding(s, s.txs[t], row)
      {
        if t < |s.txs| {
          SameDocumentsSameHoldings(s, next, s.txs[t], row);
        }
      }
    }
  }

  lemma SameDocumentsSameHoldings(s: State, next: State, tx: Tx, row: Row)
    requires next.docs == s.docs
    ensures Holding(next, tx, row) <==> Holding(s, tx, row)
  {
  }

  lemma BeginIsSafe(s: State, d: nat)
    requires LedgerInv(s)
    ensures var next := Step(s, Action.Begin(d));
            LedgerInv(next) && KeepsHistory(s, next) && SameLocks(s, next) && LeavesLedger(s, next)
  {
    StepKeepsHistory(s, Action.Begin(d));
    BeginHoldsNothing(s, d);
  }

  class Tables {
    var items: map<Row, Item>
    var percents: map<Row, nat>
    var docs: seq<Document>
    var posted: seq<nat>
    var txs: seq<Tx>

    function Contents(): State
      reads this
    {
      State(items, percents, docs, posted, txs)
    }

    /** Locks, checks, ceilings and the telescoping ledger (module CertificationLedger). */
    ghost predicate Valid()
      reads this
    {
      LedgerInv(Contents())
    }

    constructor ()
      ensures Contents() == INITIAL && Valid()
    {
      items, percents, docs, posted, txs := map[], map[], [], [], [];
      new;
      RunKeepsLedger([]);
      assert Contents() == Run([]);
    }

    /** POST of a BOQ item or commitment line. */
    method AddItem(item: Row, ceiling: Ceiling, rate: nat)
      requires Valid()
      modifies this
      ensures Valid() && KeepsHistory(old(Contents()), Contents())
      ensures ItemAdded(old(Contents()), item, ceiling, rate, Contents())
    {
      ghost var before := Contents();
      if item !in items && ((item.table == BoqItems && !ceiling.Amount?) || (item.table == CommitmentLines && !ceiling.Unlimited?)) {
        items := items[item := Item(ceiling, rate)];
      }
      NewRowEffects(before, item, ceiling, rate, 0);
      StepKeepsHistory(before, Action.AddItem(item, ceiling, rate));
    }

    /** PATCH of a contract's or commitment's terms: no certificate in the making loses the
        percentage it has read, and none that is certified changes. */
    method SetPercent(row: Row, percent: nat)
      requires Valid()
      modifies this
      ensures Valid() && KeepsHistory(old(Contents()), Contents())
      ensures PercentsAreLive(Contents())
      ensures Contents() == old(Contents()).(percents := if RowFree(old(Contents()), row) then old(percents)[row := percent] else old(percents))
    {
      ghost var next := Step(Contents(), Action.SetPercent(row, percent));
      StepKeepsHistory(Contents(), Action.SetPercent(row, percent));
      InvPercentsAreLive(next);
      if RowFree(Contents(), row) {
        percents := percents[row := percent];
      }
    }

    /** POST of a measurement or certificate. */
    method AddDocument(kind: Kind, parent: nat)
      requires Valid()
      modifies this
      ensures Valid() && KeepsHistory(old(Contents()), Contents())
      ensures Contents() == old(Contents()).(docs := old(docs) + [Document(kind, parent, Draft, [], [], None)])
    {
      StepKeepsHistory(Contents(), Action.AddDocument(kind, parent));
      docs := docs + [Document(kind, parent, Draft, [], [], None)];
    }

    /** An edit reaches neither a posted document nor one that a transaction has locked, and
        moves no ledger total; the same holds of the three below. */
    method AddLine(d: nat, item: Row, input: nat)
      requires Valid()
      modifies this
      ensures Valid() && KeepsHistory(old(Contents()), Contents())
      ensures LeavesLedger(old(Contents()), Contents())
      ensures LineAdded(old(Contents()), d, item, input, Contents())
    {
      ghost var before := Contents();
      if Unlocked(Contents(), d) && Editable(docs[d].status) && item in items && item.table == ItemTable(docs[d].kind) {
        var line;
        if items[item].ceiling.Amount? {
          line := Line(item, None, 0, input);
        } else {
          line := Line(item, Some(input), items[item].rate, LineValue(input, items[item].rate));
        }
        docs := docs[d := docs[d].(lines := docs[d].lines + [line])];
      }
      EditIsSafe(before, Action.AddLine(d, item, input), Contents());
      EditEffects(before, d, item, input, 0, false);
    }

    method RemoveLine(d: nat, k: nat)
      requires Valid()
      modifies this
      ensures Valid() && KeepsHistory(old(Contents()), Contents())
      ensures LeavesLedger(old(Contents()), Contents())
      ensures LineRemoved(old(Contents()), d, k, Contents())
    {
      ghost var before := Contents();
      if Unlocked(Contents(), d) && Editable(docs[d].status) && k < |docs[d].lines| {
        docs := docs[d := docs[d].(lines := docs[d].lines[..k] + docs[d].lines[k + 1..])];
      }
      EditIsSafe(before, Action.RemoveLine(d, k), Contents());
      EditEffects(before, d, Row(BoqItems, 0), 0, k, false);
    }

    method Submit(d: nat)
      requires Valid()
      modifies this
      ensures Valid() && KeepsHistory(old(Contents()), Contents())
      ensures LeavesLedger(old(Contents()), Contents())
      ensures Sent(old(Contents()), d, Contents())
    {
      ghost var before := Contents();
      if Unlocked(Contents(), d) && Editable(docs[d].status) && docs[d].lines != [] {
        docs := docs[d := docs[d].(status := Submitted)];
      }
      EditIsSafe(before, Action.Submit(d), Contents());
      EditEffects(before, d, Row(BoqItems, 0), 0, 0, false);
    }

    /** POST /approve or /reject of a certificate, POST /reject of a measurement. */
    method Review(d: nat, accept: bool)
      requires Valid()
      modifies this
      ensures Valid() && KeepsHistory(old(Contents()), Contents())
      ensures LeavesLedger(old(Contents()), Contents())
      ensures Reviewed(old(Contents()), d, accept, Contents())
    {
      ghost var before := Contents();
      if Unlocked(Contents(), d) && docs[d].status == Submitted && !(accept && docs[d].kind == Measurement) {
        docs := docs[d := docs[d].(status := if accept then Approved else Rejected)];
      }
      EditIsSafe(before, Action.Review(d, accept), Contents());
      EditEffects(before, d, Row(BoqItems, 0), 0, 0, accept);
    }

    /** The rows.reduce of one document's lines. */
    method SumLines(lines: seq<Line>, item: Row, ceiling: Ceiling) returns (sum: nat)
      ensures sum == Used(ceiling, lines, item)
    {
      sum := 0;
      for k := 0 to |lines|
        invariant sum == Used(ceiling, lines[..k], item)
      {
        assert lines[..k + 1][..k] == lines[..k];
        if lines[k].item == item {
          sum := sum + Units(ceiling, lines[k]);
        }
      }
      assert lines[..|lines|] == lines;
    }

    /** The ledger query: every line of every posted document of one kind. */
    method SumPosted(kind: Kind, item: Row, ceiling: Ceiling) returns (sum: nat)
      ensures sum == Total(docs, kind, item, ceiling)
    {
      sum := 0;
      for d := 0 to |docs|
        invariant sum == Total(docs[..d], kind, item, ceiling)
      {
        assert docs[..d + 1][..d] == docs[..d];
        if docs[d].kind == kind && Posted(docs[d]) {
          var used := SumLines(docs[d].lines, item, ceiling);
          sum := sum + used;
        }
      }
      assert docs[..|docs|] == docs;
    }

    /** A transaction opens holding nothing. */
    method Begin(d: nat)
      requires Valid()
      modifies this
      ensures Valid() && KeepsHistory(old(Contents()), Contents())
      ensures SameLocks(old(Contents()), Contents()) && LeavesLedger(old(Contents()), Contents())
      ensures Opened(old(Contents()), d, Contents())
    {
      ghost var before := Contents();
      if d < |docs| {
        txs := txs + [Tx(d, 0, map[], 0, false)];
      }
      assert Contents() == Step(before, Action.Begin(d));
      BeginIsSafe(before, d);
      NewRowEffects(before, Row(BoqItems, 0), Unlimited, 0, d);
    }

    /** Takes the next lock: on the document its status decides, on its parent the percentage is
        read, on an item row the ledger is read again and the overrun checked. */
    method Advance(t: nat)
      requires Valid()
      modifies this
      ensures Valid() && KeepsHistory(old(Contents()), Contents())
      ensures Advanced(old(Contents()), t, Contents())
      ensures !Waits(old(Contents()), t) && old(txs)[t].taken == 0 ==>
                (txs[t].done <==> docs[txs[t].doc].status != if docs[txs[t].doc].kind == Measurement then Submitted else Approved)
      ensures Contents() == Step(old(Contents()), Action.Advance(t))
    {
      ghost var before := Contents();
      TakeNextLock(t);
      StepKeepsHistory(before, Action.Advance(t));
      AdvanceEffect(before, t);
    }

    /** A failed transaction, or one that is given up, lets go of its rows and changes nothing. */
    method Abort(t: nat)
      requires Valid()
      modifies this
      ensures Valid() && KeepsHistory(old(Contents()), Contents())
      ensures Contents() == old(Contents()).(txs := if t < |old(txs)| then old(txs)[t := old(txs)[t].(done := true)] else old(txs))
    {
      StepKeepsHistory(Contents(), Action.Abort(t));
      if t < |txs| {
        txs := txs[t := txs[t].(done := true)];
      }
    }

    /** The statement and what it reads. */
    method TakeNextLock(t: nat)
      modifies this
      ensures Contents() == Step(old(Contents()), Action.Advance(t))
    {
      if t >= |txs| || txs[t].done || txs[t].taken >= |PlanOf(Contents(), txs[t])| {
        return;
      }
      var tx, doc := txs[t], docs[txs[t].doc];
      var row := PlanOf(Contents(), tx)[tx.taken];
      if !RowFree(Contents(), row) {
        return;
      }
      if tx.taken == 0 {
        if doc.status != Required(doc.kind) {
          txs := txs[t := tx.(done := true)];
        } else {
          txs := txs[t := tx.(taken := 1)];
        }
      } else if tx.taken < FirstItem(doc.kind) {
        txs := txs[t := tx.(taken := tx.taken + 1, percent := PercentAt(Contents(), row))];
      } else {
        var ceiling := CeilingOf(Contents(), row);
        var already := SumPosted(doc.kind, row, ceiling);
        var alreadyValue := SumPosted(doc.kind, row, Amount(0));
        var requested := SumLines(doc.lines, row, ceiling);
        var fits;
        if doc.kind == OwnerIpc {
          var approved := SumPosted(Measurement, row, ceiling);
          fits := already + requested <= approved;
        } else {
          fits := ceiling.Unlimited? || already + requested <= ceiling.limit;
        }
        if !fits {
          txs := txs[t := tx.(done := true)];
        } else {
          txs := txs[t := tx.(taken := tx.taken + 1, base := tx.base[row := Base(already, alreadyValue)])];
        }
      }
    }

    /** Freezes the snapshot columns with running totals per item. */
    method FreezeLines(kind: Kind, lines: seq<Line>, base: map<Row, Base>) returns (snapshots: seq<Snapshot>)
      ensures snapshots == FreezeAll(items, base, kind, lines)
    {
      snapshots := [];
      var running := base;
      for k := 0 to |lines|
        invariant |snapshots| == k
        invariant forall i :: 0 <= i < k ==> snapshots[i] == Freeze(items, base, kind, lines, i)
        invariant RunningTotals(items, running, base, lines[..k])
      {
        var line := lines[k];
        var ceiling := if line.item in items then items[line.item].ceiling else Unlimited;
        var sofar := if line.item in running then running[line.item] else Base(0, 0);
        assert RunningIs(items, running, base, lines[..k], line.item);
        var cumulative := sofar.units + Units(ceiling, line);
        var snapshot;
        if kind == OwnerIpc {
          snapshot := Snapshot(Some(sofar.units), Some(cumulative), LineValue(sofar.units, line.rate), None);
        } else if ceiling.Amount? {
          snapshot := Snapshot(None, None, sofar.value, Some(sofar.value + line.value));
        } else {
          snapshot := Snapshot(Some(sofar.units), Some(cumulative), sofar.value, Some(sofar.value + line.value));
        }
        snapshots := snapshots + [snapshot];
        ghost var before := running;
        running := running[line.item := Base(cumulative, sofar.value + line.value)];
        assert lines[..k + 1] == lines[..k] + [line];
        RunningStep(items, before, base, lines[..k], line, running, lines[..k + 1]);
      }
    }

    /** sumMoney over the line values. */
    method SumValues(lines: seq<Line>) returns (gross: nat)
      ensures gross == Gross(lines)
    {
      gross := 0;
      for k := 0 to |lines|
        invariant gross == Gross(lines[..k])
      {
        assert lines[..k + 1][..k] == lines[..k];
        gross := gross + lines[k].value;
      }
      assert lines[..|lines|] == lines;
    }

    /** The closing statements: snapshots, totals, and the status flip, all or nothing. */
    method Commit(t: nat)
      requires Valid()
      modifies this
      ensures Valid() && KeepsHistory(old(Contents()), Contents())
      ensures Closed(old(Contents()), t, Contents())
      ensures Contents() == Step(old(Contents()), Action.Commit(t))
    {
      ghost var before := Contents();
      Post(t);
      StepKeepsHistory(before, Action.Commit(t));
      CommitEffects(before, t);
    }

    /** Measurements are approved; certificates get their snapshots and totals as well. */
    method Post(t: nat)
      modifies this
      ensures Contents() == Step(old(Contents()), Action.Commit(t))
    {
      if !ReadyToCommit(Contents(), t) {
        return;
      }
      var tx, doc := txs[t], docs[txs[t].doc];
      txs := txs[t := tx.(done := true)];
      if doc.kind == Measurement {
        docs := docs[tx.doc := doc.(status := Approved)];
        posted := posted + [tx.doc];
      } else {
        var snapshots := FreezeLines(doc.kind, doc.lines, tx.base);
        var gross := SumValues(doc.lines);
        var retention := PercentOf(gross, tx.percent);
        var net := gross as int - retention as int;
        if net >= 0 {
          docs := docs[tx.doc := doc.(status := Certified, snapshots := snapshots, totals := Some(Totals(tx.percent, gross, retention, net)))];
          posted := posted + [tx.doc];
        }
      }
    }
  }
}
