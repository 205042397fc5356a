// What each step of the certification routes does to the tables, said of the rows themselves:
// which statuses it starts from, what it refuses, and what it leaves.
module CertificationEffects {
  import opened Money
  import opened RowLocks
  import opened CertificationModel
  import opened CertificationSafety
  import opened CertificationLedger

  // ---- Edits of a document ----

  /** Lines are edited, and the document is submitted, only as a draft or after a rejection,
      while no transaction has its row. */
  predicate MayEdit(s: State, d: nat)
  {
    && d < |s.docs| && (s.docs[d].status == Draft || s.docs[d].status == Rejected)
    && RowFree(s, Row(TableOf(s.docs[d].kind), d))
  }

  predicate OnlyDocument(before: State, d: nat, doc: Document, after: State)
    requires d < |before.docs|
  {
    after == before.(docs := before.docs[d := doc])
  }

  /** The line takes the item's rate at that moment; an amount line takes the money as it is. */
  predicate LineAdded(before: State, d: nat, item: Row, input: nat, after: State)
  {
    if MayEdit(before, d) && item in before.items
       && item.table == (if before.docs[d].kind == SubcontractIpc then CommitmentLines else BoqItems) then
      var rate := before.items[item].rate;
      var line := if before.items[item].ceiling.Amount? then Line(item, None, 0, input)
                  else Line(item, Some(input), rate, LineValue(input, rate));
      OnlyDocument(before, d, before.docs[d].(lines := before.docs[d].lines + [line]), after)
    else after == before
  }

  predicate LineRemoved(before: State, d: nat, k: nat, after: State)
  {
    if MayEdit(before, d) && k < |before.docs[d].lines| then
      var lines := before.docs[d].lines;
      OnlyDocument(before, d, before.docs[d].(lines := lines[..k] + lines[k + 1..]), after)
    else after == before
  }

  predicate Sent(before: State, d: nat, after: State)
  {
    if MayEdit(before, d) && before.docs[d].lines != [] then
      OnlyDocument(before, d, before.docs[d].(status := Submitted), after)
    else after == before
  }

  /** A submitted document is rejected, or, unless it is a measurement, approved. */
  predicate Reviewed(before: State, d: nat, accept: bool, after: State)
  {
    if d < |before.docs| && RowFree(before, Row(TableOf(before.docs[d].kind), d)) && before.docs[d].status == Submitted
       && !(accept && before.docs[d].kind == Measurement) then
      OnlyDocument(before, d, before.docs[d].(status := if accept then Approved else Rejected), after)
    else after == before
  }

  lemma EditEffects(s: State, d: nat, item: Row, input: nat, k: nat, accept: bool)
    ensures LineAdded(s, d, item, input, Step(s, AddLine(d, item, input)))
    ensures LineRemoved(s, d, k, Step(s, RemoveLine(d, k)))
    ensures Sent(s, d, Step(s, Submit(d)))
    ensures Reviewed(s, d, accept, Step(s, Review(d, accept)))
  {
  }

  // ---- New rows ----

  predicate ItemAdded(before: State, item: Row, ceiling: Ceiling, rate: nat, after: State)
  {
    if item !in before.items && ((item.table == BoqItems && !ceiling.Amount?) || (item.table == CommitmentLines && !ceiling.Unlimited?))
    then after == before.(items := before.items[item := Item(ceiling, rate)])
    else after == before
  }

  predicate Opened(before: State, d: nat, after: State)
  {
    after == before.(txs := before.txs + if d < |before.docs| then [Tx(d, 0, map[], 0, false)] else [])
  }

  lemma NewRowEffects(s: State, item: Row, ceiling: Ceiling, rate: nat, d: nat)
    ensures ItemAdded(s, item, ceiling, rate, Step(s, AddItem(item, ceiling, rate)))
    ensures Opened(s, d, Step(s, Action.Begin(d)))
  {
    assert s.txs + [] == s.txs;
  }

  // ---- Locks and checks ----

  /** A measurement is approved from submitted; a certificate is certified from approved. */
  predicate MayPost(doc: Document)
  {
    match doc.kind
    case Measurement => doc.status == Submitted
    case OwnerIpc => doc.status == Approved
    case SubcontractIpc => doc.status == Approved
  }

  function PercentRow(doc: Document): Row
  {
    match doc.kind
    case SubcontractIpc => Row(Commitments, doc.parent)
    case _ => Row(Contracts, doc.parent)
  }

  /** What is posted of the item, with this document's lines on it, passes what may be: the BOQ
      quantity, what has been measured, or what is committed. */
  predicate Overruns(s: State, doc: Document, item: Row)
  {
    var ceiling := CeilingOf(s, item);
    var posted := Total(s.docs, doc.kind, item, ceiling) + Used(ceiling, doc.lines, item);
    match doc.kind
    case OwnerIpc => posted > Total(s.docs, Measurement, item, ceiling)
    case _ => !ceiling.Unlimited? && posted > ceiling.limit
  }

  /** How a transaction goes on when it gets the next row of its plan. */
  predicate GoesOn(s: State, tx: Tx, row: Row, next: Tx)
    requires tx.doc < |s.docs|
  {
    var doc := s.docs[tx.doc];
    if tx.taken == 0 then next == if MayPost(doc) then tx.(taken := 1) else tx.(done := true)
    else if tx.taken == 1 && doc.kind != Measurement then
      next == tx.(taken := 2, percent := if PercentRow(doc) in s.percents then s.percents[PercentRow(doc)] else 0)
    else if Overruns(s, doc, row) then next == tx.(done := true)
    else
      var ceiling := CeilingOf(s, row);
      next == tx.(taken := tx.taken + 1,
                  base := tx.base[row := Base(Total(s.docs, doc.kind, row, ceiling), Total(s.docs, doc.kind, row, Amount(0)))])
  }

  predicate Waits(s: State, t: nat)
  {
    || t >= |s.txs| || s.txs[t].done || s.txs[t].taken >= |PlanOf(s, s.txs[t])|
    || !RowFree(s, PlanOf(s, s.txs[t])[s.txs[t].taken])
  }

  ghost predicate Advanced(before: State, t: nat, after: State)
  {
    if Waits(before, t) then after == before
    else
      var tx := before.txs[t];
      && tx.doc < |before.docs|
      && t < |after.txs| && after == before.(txs := before.txs[t := after.txs[t]])
      && GoesOn(before, tx, PlanOf(before, tx)[tx.taken], after.txs[t])
  }

  lemma AdvanceEffect(s: State, t: nat)
    requires WellFormed(s)
    ensures Advanced(s, t, Step(s, Action.Advance(t)))
  {
    if !Waits(s, t) {
      PlanHead(s.txs[t].doc, s.docs[s.txs[t].doc]);
    }
  }

  // ---- The end ----

  /** With every row of the plan taken, a measurement is approved; a certificate is certified,
      with the percentage of its parent in force, unless its net were negative. */
  ghost predicate Closed(before: State, t: nat, after: State)
  {
    if t >= |before.txs| || before.txs[t].done || before.txs[t].doc >= |before.docs|
       || before.txs[t].taken != |PlanOf(before, before.txs[t])| then after == before
    else
      var tx := before.txs[t];
      var doc := before.docs[tx.doc];
      var ended := before.(txs := before.txs[t := tx.(done := true)]);
      var gross, retention := Gross(doc.lines), PercentOf(Gross(doc.lines), tx.percent);
      if doc.kind == Measurement then
        after == ended.(docs := before.docs[tx.doc := doc.(status := Approved)], posted := before.posted + [tx.doc])
      else if gross < retention then after == ended
      else
        && tx.percent == (if PercentRow(doc) in before.percents then before.percents[PercentRow(doc)] else 0)
        && |after.docs| == |before.docs|
        && var certified := after.docs[tx.doc];
           && |certified.snapshots| == |doc.lines|
           && certified == doc.(status := Certified, snapshots := certified.snapshots,
                                totals := Some(Totals(tx.percent, gross, retention, gross - retention)))
           && after == ended.(docs := before.docs[tx.doc := certified], posted := before.posted + [tx.doc])
  }

  lemma CommitEffects(s: State, t: nat)
    requires Inv(s)
    ensures Closed(s, t, Step(s, Commit(t)))
  {
    if ReadyToCommit(s, t) {
      PlanHead(s.txs[t].doc, s.docs[s.txs[t].doc]);
      assert TxOk(s, s.txs[t]);
    }
  }

  // ---- What the sums are sums of ----

  /** A line's share of an item's ledger: its money under an amount ceiling, else its quantity. */
  function Share(ceiling: Ceiling, line: Line, item: Row): int
  {
    if line.item != item then 0
    else match ceiling
      case Amount(_) => line.value
      case _ => if line.quantity.Some? then line.quantity.value else 0
  }

  function Shares(ceiling: Ceiling, lines: seq<Line>, item: Row): (shares: seq<int>)
    ensures |shares| == |lines| && forall k :: 0 <= k < |lines| ==> shares[k] == Share(ceiling, lines[k], item)
  {
    seq(|lines|, k requires 0 <= k < |lines| => Share(ceiling, lines[k], item))
  }

  function Values(lines: seq<Line>): (values: seq<int>)
    ensures |values| == |lines| && forall k :: 0 <= k < |lines| ==> values[k] == lines[k].value
  {
    seq(|lines|, k requires 0 <= k < |lines| => lines[k].value)
  }

  /** What a document adds to a ledger: its shares once it is approved, if a measurement, or
      certified, if a certificate. */
  function Adds(doc: Document, kind: Kind, item: Row, ceiling: Ceiling): int
  {
    if doc.kind == kind && doc.status == (if kind == Measurement then Approved else Certified)
    then Sum(Shares(ceiling, doc.lines, item)) else 0
  }

  function AllAdd(docs: seq<Document>, kind: Kind, item: Row, ceiling: Ceiling): (added: seq<int>)
    ensures |added| == |docs| && forall d :: 0 <= d < |docs| ==> added[d] == Adds(docs[d], kind, item, ceiling)
  {
    seq(|docs|, d requires 0 <= d < |docs| => Adds(docs[d], kind, item, ceiling))
  }

  lemma {:induction false} LineSums(lines: seq<Line>, item: Row, ceiling: Ceiling)
    ensures Gross(lines) == Sum(Values(lines))
    ensures Used(ceiling, lines, item) == Sum(Shares(ceiling, lines, item))
  {
    if lines != [] {
      var n := |lines| - 1;
      LineSums(lines[..n], item, ceiling);
      SumOneMore(Values(lines[..n]), lines[n].value);
      SumOneMore(Shares(ceiling, lines[..n], item), Share(ceiling, lines[n], item));
      assert Values(lines) == Values(lines[..n]) + [lines[n].value as int];
      assert Shares(ceiling, lines, item) == Shares(ceiling, lines[..n], item) + [Share(ceiling, lines[n], item)];
    }
  }

  /** The ledger's total is the sum, over the posted documents of the kind, of their lines' shares. */
  lemma {:induction false} LedgerSums(docs: seq<Document>, kind: Kind, item: Row, ceiling: Ceiling)
    ensures Total(docs, kind, item, ceiling) == Sum(AllAdd(docs, kind, item, ceiling))
  {
    if docs != [] {
      var n := |docs| - 1;
      LedgerSums(docs[..n], kind, item, ceiling);
      LineSums(docs[n].lines, item, ceiling);
      SumOneMore(AllAdd(docs[..n], kind, item, ceiling), Adds(docs[n], kind, item, ceiling));
      assert AllAdd(docs, kind, item, ceiling) == AllAdd(docs[..n], kind, item, ceiling) + [Adds(docs[n], kind, item, ceiling)];
    }
  }

  // ---- Over runs: nothing is posted that was not reviewed ----

  /** Every way a document's status can change. */
  lemma StatusMoves(s: State, a: Action, d: nat)
    requires Inv(s) && d < |s.docs|
    ensures d < |Step(s, a).docs| && Step(s, a).docs[d].kind == s.docs[d].kind
    ensures var kind, was, now := s.docs[d].kind, s.docs[d].status, Step(s, a).docs[d].status;
            was == now ||
            match now
            case Draft => false
            case Submitted => a == Submit(d) && (was == Draft || was == Rejected) && s.docs[d].lines != []
            case Rejected => a == Review(d, false) && was == Submitted
            case Approved => was == Submitted && if kind == Measurement then a.Commit? else a == Review(d, true)
            case Certified => was == Approved && kind != Measurement && a.Commit?
  {
    if a.Commit? {
      if ReadyToCommit(s, a.t) {
        PlanHead(s.txs[a.t].doc, s.docs[s.txs[a.t].doc]);
        assert TxOk(s, s.txs[a.t]);
      }
    } else if !EditsDocument(a) && !a.AddDocument? {
      OtherStepsKeepDocuments(s, a);
    }
  }

  lemma NewDocumentIsDraft(s: State, a: Action, d: nat)
    requires |s.docs| <= d < |Step(s, a).docs|
    ensures Step(s, a).docs[d].status == Draft
  {
  }

  predicate Accepted(s: State, d: nat)
  {
    d < |s.docs| && s.docs[d].kind != Measurement && (s.docs[d].status == Approved || s.docs[d].status == Certified)
  }

  lemma BecomesAccepted(s: State, a: Action, d: nat)
    requires Inv(s) && !Accepted(s, d) && Accepted(Step(s, a), d)
    ensures a == Review(d, true) && d < |s.docs| && s.docs[d].status == Submitted && Step(s, a).docs[d].status == Approved
  {
    if d < |s.docs| {
      StatusMoves(s, a, d);
    } else {
      NewDocumentIsDraft(s, a, d);
    }
  }

  /** The n-th action is the review that accepted the document. */
  predicate AcceptedAt(actions: seq<Action>, d: nat, n: nat)
  {
    && n < |actions| && actions[n] == Review(d, true)
    && d < |Run(actions[..n]).docs| && Run(actions[..n]).docs[d].status == Submitted
    && d < |Run(actions[..n + 1]).docs| && Run(actions[..n + 1]).docs[d].status == Approved
  }

  lemma AcceptedEarlier(actions: seq<Action>, m: nat, d: nat, n: nat)
    requires m <= |actions| && AcceptedAt(actions[..m], d, n)
    ensures AcceptedAt(actions, d, n)
  {
    assert actions[..m][..n] == actions[..n] && actions[..m][..n + 1] == actions[..n + 1];
  }

  lemma AcceptedLast(actions: seq<Action>, d: nat)
    requires actions != [] && Accepted(Run(actions), d) && !Accepted(Run(actions[..|actions| - 1]), d)
    ensures AcceptedAt(actions, d, |actions| - 1)
  {
    RunKeepsInv(actions[..|actions| - 1]);
    BecomesAccepted(Run(actions[..|actions| - 1]), actions[|actions| - 1], d);
    assert actions[..|actions| - 1 + 1] == actions;
  }

  /** Whoever finds a certificate approved or certified finds the review that accepted it. */
  lemma {:induction false} ApprovedWasReviewed(actions: seq<Action>, d: nat) returns (n: nat)
    requires Accepted(Run(actions), d)
    ensures AcceptedAt(actions, d, n)
  {
    if Accepted(Run(actions[..|actions| - 1]), d) {
      n := ApprovedWasReviewed(actions[..|actions| - 1], d);
      AcceptedEarlier(actions, |actions| - 1, d, n);
    } else {
      AcceptedLast(actions, d);
      n := |actions| - 1;
    }
  }

  /** Every certificate in the ledger was submitted and then accepted by a review. */
  lemma PostedWasReviewed(actions: seq<Action>, j: nat) returns (n: nat)
    requires j < |Run(actions).posted|
    ensures Run(actions).posted[j] < |Run(actions).docs|
    ensures var d := Run(actions).posted[j];
            Run(actions).docs[d].kind != Measurement ==> AcceptedAt(actions, d, n)
  {
    RunKeepsLedger(actions);
    var d := Run(actions).posted[j];
    n := 0;
    if Run(actions).docs[d].kind != Measurement {
      n := ApprovedWasReviewed(actions, d);
    }
  }
}
