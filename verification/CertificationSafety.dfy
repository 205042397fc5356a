// Safety of certification under every interleaving: no BOQ item is measured past
// its quantity, no owner certificate claims more than has been measured, and no
// subcontract certificate claims more than was committed.
module CertificationSafety {
  import opened RowLocks
  import opened CertificationModel

  // ---- Sums ----

  lemma {:induction false} TotalUpdate(docs: seq<Document>, d: nat, doc: Document, kind: Kind, item: Row, ceiling: Ceiling)
    requires d < |docs|
    ensures Total(docs[d := doc], kind, item, ceiling) + Contribution(docs[d], kind, item, ceiling)
         == Total(docs, kind, item, ceiling) + Contribution(doc, kind, item, ceiling)
  {
    var last := |docs| - 1;
    if d < last {
      TotalUpdate(docs[..last], d, doc, kind, item, ceiling);
      assert docs[d := doc][..last] == docs[..last][d := doc];
    } else {
      assert docs[d := doc][..last] == docs[..last];
    }
  }

  lemma TotalAppend(docs: seq<Document>, doc: Document, kind: Kind, item: Row, ceiling: Ceiling)
    ensures Total(docs + [doc], kind, item, ceiling)
         == Total(docs, kind, item, ceiling) + Contribution(doc, kind, item, ceiling)
  {
    assert (docs + [doc])[..|docs|] == docs;
  }

  lemma {:induction false} UnusedItem(ceiling: Ceiling, lines: seq<Line>, item: Row)
    requires forall k :: 0 <= k < |lines| ==> lines[k].item != item
    ensures Used(ceiling, lines, item) == 0
  {
    if lines != [] {
      UnusedItem(ceiling, lines[..|lines| - 1], item);
    }
  }

  lemma {:induction false} UsedItem(ceiling: Ceiling, lines: seq<Line>, item: Row) returns (k: nat)
    requires Used(ceiling, lines, item) > 0
    ensures k < |lines| && lines[k].item == item
  {
    if lines[|lines| - 1].item == item {
      k := |lines| - 1;
    } else {
      k := UsedItem(ceiling, lines[..|lines| - 1], item);
    }
  }

  lemma {:induction false} UnusedTotal(docs: seq<Document>, kind: Kind, item: Row, ceiling: Ceiling)
    requires forall d, k :: 0 <= d < |docs| && 0 <= k < |docs[d].lines| ==> docs[d].lines[k].item != item
    ensures Total(docs, kind, item, ceiling) == 0
  {
    if docs != [] {
      UnusedTotal(docs[..|docs| - 1], kind, item, ceiling);
      UnusedItem(ceiling, docs[|docs| - 1].lines, item);
    }
  }

  ghost predicate SameTotals(docs: seq<Document>, next: seq<Document>)
  {
    forall kind, item, ceiling :: Total(next, kind, item, ceiling) == Total(docs, kind, item, ceiling)
  }

  /** Editing or reviewing a document that is not posted, before or after, moves no ledger. */
  lemma UnpostedUpdate(docs: seq<Document>, d: nat, doc: Document)
    requires d < |docs| && !Posted(docs[d]) && !Posted(doc)
    ensures SameTotals(docs, docs[d := doc])
  {
    forall kind, item, ceiling
      ensures Total(docs[d := doc], kind, item, ceiling) == Total(docs, kind, item, ceiling)
    {
      TotalUpdate(docs, d, doc, kind, item, ceiling);
    }
  }

  lemma UnpostedAppend(docs: seq<Document>, doc: Document)
    requires !Posted(doc)
    ensures SameTotals(docs, docs + [doc])
  {
    forall kind, item, ceiling
      ensures Total(docs + [doc], kind, item, ceiling) == Total(docs, kind, item, ceiling)
    {
      TotalAppend(docs, doc, kind, item, ceiling);
    }
  }

  // ---- Invariants ----

  ghost predicate ItemsOk(items: map<Row, Item>)
  {
    forall row :: row in items ==>
      && (row.table == BoqItems || row.table == CommitmentLines)
      && (row.table == BoqItems ==> !items[row].ceiling.Amount?)
      && (row.table == CommitmentLines ==> !items[row].ceiling.Unlimited?)
  }

  ghost predicate LinesOk(items: map<Row, Item>, doc: Document)
  {
    forall k :: 0 <= k < |doc.lines| ==>
      doc.lines[k].item in items && doc.lines[k].item.table == ItemTable(doc.kind)
  }

  ghost predicate WellFormed(s: State)
  {
    && ItemsOk(s.items)
    && (forall d :: 0 <= d < |s.docs| ==> LinesOk(s.items, s.docs[d]))
    && (forall t :: 0 <= t < |s.txs| ==> s.txs[t].doc < |s.docs|)
    && (forall t :: 0 <= t < |s.txs| && !s.txs[t].done ==> s.txs[t].taken <= |PlanOf(s, s.txs[t])|)
  }

  ghost predicate OneHolder(s: State)
  {
    forall t, u, row :: 0 <= t < |s.txs| && 0 <= u < |s.txs| && Holding(s, s.txs[t], row) && Holding(s, s.txs[u], row) ==> t == u
  }

  /** The overrun check of one locked item still holds, on the figures it was made with. */
  ghost predicate Checked(s: State, tx: Tx, row: Row)
    requires tx.doc < |s.docs|
  {
    var doc := s.docs[tx.doc];
    && row in tx.base
    && tx.base[row] == BaseOf(s, doc.kind, row)
    && Fits(s, doc.kind, row, tx.base[row].units, Used(CeilingOf(s, row), doc.lines, row))
  }

  ghost predicate TxOk(s: State, tx: Tx)
    requires tx.doc < |s.docs|
  {
    var doc := s.docs[tx.doc];
    !tx.done && 0 < tx.taken <= |PlanOf(s, tx)| ==>
      && doc.status == Required(doc.kind)
      && (doc.kind != Measurement && 2 <= tx.taken ==> tx.percent == PercentAt(s, ParentRow(doc)))
      && (forall j :: FirstItem(doc.kind) <= j < tx.taken ==> Checked(s, tx, PlanOf(s, tx)[j]))
  }

  ghost predicate WithinCeilings(s: State)
  {
    forall row :: row in s.items ==> CapsHold(s, row)
  }

  ghost predicate CapsHold(s: State, row: Row)
  {
    var c := CeilingOf(s, row);
    && (row.table == BoqItems ==> Total(s.docs, OwnerIpc, row, c) <= Total(s.docs, Measurement, row, c))
    && (row.table == BoqItems && !c.Unlimited? ==> Total(s.docs, Measurement, row, c) <= c.limit)
    && (row.table == CommitmentLines && !c.Unlimited? ==> Total(s.docs, SubcontractIpc, row, c) <= c.limit)
  }

  ghost predicate Inv(s: State)
  {
    && WellFormed(s)
    && OneHolder(s)
    && (forall t :: 0 <= t < |s.txs| ==> TxOk(s, s.txs[t]))
    && WithinCeilings(s)
  }

  // ---- Plans ----

  lemma PlanHead(d: nat, doc: Document)
    ensures var plan := Plan(d, doc);
            && FirstItem(doc.kind) <= |plan| && plan[0] == Row(TableOf(doc.kind), d)
            && (doc.kind != Measurement ==> plan[1] == ParentRow(doc))
  {
  }

  lemma PlanOrdered(d: nat, doc: Document)
    ensures Ordered(Plan(d, doc))
  {
    PlansAreOrdered(d, doc.parent, ItemIds(doc.lines));
  }

  /** From the third lock on (the second for a measurement) the plan is the items' rows in order. */
  lemma PlanAt(d: nat, doc: Document, i: nat)
    requires i < |SortedDistinct(ItemIds(doc.lines))|
    ensures FirstItem(doc.kind) + i < |Plan(d, doc)|
    ensures Plan(d, doc)[FirstItem(doc.kind) + i] == Row(ItemTable(doc.kind), SortedDistinct(ItemIds(doc.lines))[i])
  {
  }

  lemma PlanLength(d: nat, doc: Document)
    ensures |Plan(d, doc)| == FirstItem(doc.kind) + |SortedDistinct(ItemIds(doc.lines))|
  {
  }

  lemma SortedIdIsItem(items: map<Row, Item>, doc: Document, id: nat)
    requires LinesOk(items, doc) && id in SortedDistinct(ItemIds(doc.lines))
    ensures Row(ItemTable(doc.kind), id) in items
  {
    var ids := ItemIds(doc.lines);
    assert id in ids;
    var k :| 0 <= k < |ids| && ids[k] == id;
    assert doc.lines[k].item == Row(ItemTable(doc.kind), id);
  }

  lemma IdOfLine(lines: seq<Line>, k: nat) returns (i: nat)
    requires k < |lines|
    ensures i < |SortedDistinct(ItemIds(lines))| && SortedDistinct(ItemIds(lines))[i] == lines[k].item.id
  {
    var sorted := SortedDistinct(ItemIds(lines));
    assert ItemIds(lines)[k] in ItemIds(lines);
    assert lines[k].item.id in sorted;
    i :| 0 <= i < |sorted| && sorted[i] == lines[k].item.id;
  }

  lemma PlanItem(items: map<Row, Item>, d: nat, doc: Document, j: nat)
    requires LinesOk(items, doc) && FirstItem(doc.kind) <= j < |Plan(d, doc)|
    ensures Plan(d, doc)[j] in items
  {
    PlanLength(d, doc);
    var i := j - FirstItem(doc.kind);
    PlanAt(d, doc, i);
    SortedIdIsItem(items, doc, SortedDistinct(ItemIds(doc.lines))[i]);
  }

  lemma PlanCovers(items: map<Row, Item>, d: nat, doc: Document, k: nat) returns (j: nat)
    requires LinesOk(items, doc) && k < |doc.lines|
    ensures FirstItem(doc.kind) <= j < |Plan(d, doc)| && Plan(d, doc)[j] == doc.lines[k].item
  {
    var i := IdOfLine(doc.lines, k);
    PlanAt(d, doc, i);
    j := FirstItem(doc.kind) + i;
  }

  /** Only the holder of its row changes a document that a transaction is posting. */
  lemma LockedDocument(s: State, t: nat)
    requires WellFormed(s) && t < |s.txs| && !s.txs[t].done && 0 < s.txs[t].taken
    ensures Holding(s, s.txs[t], Row(TableOf(s.docs[s.txs[t].doc].kind), s.txs[t].doc))
  {
    PlanHead(s.txs[t].doc, s.docs[s.txs[t].doc]);
    assert PlanOf(s, s.txs[t])[..s.txs[t].taken][0] == PlanOf(s, s.txs[t])[0];
  }

  // ---- A transaction keeps what it has checked ----

  /** Steps that leave the transaction's document, percentages and ledgers alone. */
  lemma TxFrame(s: State, next: State, tx: Tx)
    requires ItemsOk(s.items) && tx.doc < |s.docs| <= |next.docs| && LinesOk(s.items, s.docs[tx.doc])
    requires !tx.done && 0 < tx.taken ==> next.docs[tx.doc] == s.docs[tx.doc]
    requires forall row :: row in s.items ==> row in next.items && next.items[row] == s.items[row]
    requires SameTotals(s.docs, next.docs)
    requires (!tx.done && s.docs[tx.doc].kind != Measurement && 2 <= tx.taken) ==>
               PercentAt(next, ParentRow(s.docs[tx.doc])) == PercentAt(s, ParentRow(s.docs[tx.doc]))
    requires TxOk(s, tx)
    ensures TxOk(next, tx)
  {
    if !tx.done && 0 < tx.taken <= |PlanOf(s, tx)| {
      forall j | FirstItem(s.docs[tx.doc].kind) <= j < tx.taken
        ensures Checked(next, tx, PlanOf(next, tx)[j])
      {
        assert Checked(s, tx, PlanOf(s, tx)[j]);
        PlanItem(s.items, tx.doc, s.docs[tx.doc], j);
      }
    }
  }

  lemma CapsFrame(s: State, next: State)
    requires Inv(s) && SameTotals(s.docs, next.docs)
    requires forall row :: row in s.items ==> row in next.items && next.items[row] == s.items[row]
    requires forall row :: row in next.items && row !in s.items ==> forall kind :: Total(s.docs, kind, row, CeilingOf(next, row)) == 0
    ensures WithinCeilings(next)
  {
    forall row | row in next.items
      ensures CapsHold(next, row)
    {
      if row in s.items {
        assert CapsHold(s, row) && CeilingOf(next, row) == CeilingOf(s, row);
      } else {
        var c := CeilingOf(next, row);
        assert Total(s.docs, OwnerIpc, row, c) == 0 && Total(s.docs, Measurement, row, c) == 0 && Total(s.docs, SubcontractIpc, row, c) == 0;
      }
    }
  }

  /** Holdings after a step that replaces one document that nobody holds. */
  lemma FreeDocumentHoldings(s: State, d: nat, doc: Document, tx: Tx, row: Row)
    requires WellFormed(s) && Unlocked(s, d) && doc.kind == s.docs[d].kind && LinesOk(s.items, doc)
    requires tx in s.txs
    requires Holding(SetDoc(s, d, doc), tx, row)
    ensures Holding(s, tx, row)
  {
    var t :| 0 <= t < |s.txs| && s.txs[t] == tx;
    if tx.doc == d {
      if 0 < tx.taken {
        LockedDocument(s, t);
      }
    }
  }

  lemma QuietDocumentStep(s: State, d: nat, doc: Document)
    requires Inv(s) && Unlocked(s, d) && doc.kind == s.docs[d].kind && LinesOk(s.items, doc)
    requires !Posted(s.docs[d]) && !Posted(doc)
    ensures Inv(SetDoc(s, d, doc))
  {
    var next := SetDoc(s, d, doc);
    UnpostedUpdate(s.docs, d, doc);
    forall t | 0 <= t < |s.txs|
      ensures TxOk(next, s.txs[t])
      ensures !s.txs[t].done ==> s.txs[t].taken <= |PlanOf(next, s.txs[t])|
    {
      if s.txs[t].doc == d && !s.txs[t].done && 0 < s.txs[t].taken {
        LockedDocument(s, t);
      }
      TxFrame(s, next, s.txs[t]);
    }
    forall t, u, row | 0 <= t < |s.txs| && 0 <= u < |s.txs| && Holding(next, s.txs[t], row) && Holding(next, s.txs[u], row)
      ensures t == u
    {
      FreeDocumentHoldings(s, d, doc, s.txs[t], row);
      FreeDocumentHoldings(s, d, doc, s.txs[u], row);
    }
    CapsFrame(s, next);
  }

  /** Replacing one transaction record, its document untouched. */
  lemma TxStep(s: State, t: nat, tx: Tx)
    requires Inv(s) && t < |s.txs| && tx.doc == s.txs[t].doc
    requires !tx.done ==> tx.taken <= |PlanOf(s, tx)|
    requires TxOk(SetTx(s, t, tx), tx)
    requires forall u, row :: 0 <= u < |s.txs| && u != t && Holding(s, tx, row) ==> !Holding(s, s.txs[u], row)
    ensures Inv(SetTx(s, t, tx))
  {
    var next := SetTx(s, t, tx);
    forall u | 0 <= u < |s.txs| && u != t
      ensures TxOk(next, next.txs[u])
    {
      TxFrame(s, next, s.txs[u]);
    }
    forall u, v, row | 0 <= u < |s.txs| && 0 <= v < |s.txs| && Holding(next, next.txs[u], row) && Holding(next, next.txs[v], row)
      ensures u == v
    {
      assert Holding(s, next.txs[u], row) && Holding(s, next.txs[v], row);
    }
    CapsFrame(s, next);
  }

  lemma EndTx(s: State, t: nat)
    requires Inv(s) && t < |s.txs|
    ensures Inv(SetTx(s, t, s.txs[t].(done := true)))
  {
    TxStep(s, t, s.txs[t].(done := true));
  }

  lemma InLonger(plan: seq<Row>, n: nat, row: Row)
    requires n < |plan| && row in plan[..n + 1]
    ensures row in plan[..n] || row == plan[n]
  {
    assert plan[..n + 1] == plan[..n] + [plan[n]];
  }

  lemma NewlyHeld(s: State, t: nat, tx: Tx, row: Row)
    requires t < |s.txs| && !s.txs[t].done && s.txs[t].doc < |s.docs| && tx.doc == s.txs[t].doc
    requires s.txs[t].taken < |PlanOf(s, s.txs[t])| && tx.taken == s.txs[t].taken + 1
    requires Holding(s, tx, row)
    ensures Holding(s, s.txs[t], row) || row == PlanOf(s, s.txs[t])[s.txs[t].taken]
  {
    InLonger(PlanOf(s, tx), s.txs[t].taken, row);
  }

  /** One more lock: what a transaction newly holds nobody else did. */
  lemma TakeLock(s: State, t: nat, tx: Tx)
    requires Inv(s) && t < |s.txs| && !s.txs[t].done
    requires s.txs[t].taken < |PlanOf(s, s.txs[t])| && RowFree(s, PlanOf(s, s.txs[t])[s.txs[t].taken])
    requires tx.doc == s.txs[t].doc && tx.taken == s.txs[t].taken + 1 && !tx.done
    requires TxOk(SetTx(s, t, tx), tx)
    ensures Inv(SetTx(s, t, tx))
  {
    forall u, row | 0 <= u < |s.txs| && u != t && Holding(s, tx, row)
      ensures !Holding(s, s.txs[u], row)
    {
      NewlyHeld(s, t, tx, row);
    }
    TxStep(s, t, tx);
  }

  /** The document row, and the contract or commitment row after it. */
  lemma TakeHead(s: State, t: nat)
    requires Inv(s) && t < |s.txs| && !s.txs[t].done
    requires s.txs[t].taken < FirstItem(s.docs[s.txs[t].doc].kind) && s.txs[t].taken < |PlanOf(s, s.txs[t])|
    requires RowFree(s, PlanOf(s, s.txs[t])[s.txs[t].taken])
    ensures Inv(AdvanceTx(s, t))
  {
    var tx := s.txs[t];
    var doc := s.docs[tx.doc];
    PlanHead(tx.doc, doc);
    if tx.taken == 0 {
      if doc.status != Required(doc.kind) {
        EndTx(s, t);
      } else {
        TakeLock(s, t, tx.(taken := 1));
      }
    } else {
      TakeLock(s, t, tx.(taken := tx.taken + 1, percent := PercentAt(s, PlanOf(s, tx)[tx.taken])));
    }
  }

  lemma AdvanceKeepsInv(s: State, t: nat)
    requires Inv(s) && t < |s.txs|
    ensures Inv(AdvanceTx(s, t))
  {
    var tx := s.txs[t];
    var plan := PlanOf(s, tx);
    if !tx.done && tx.taken < |plan| && RowFree(s, plan[tx.taken]) {
      if tx.taken < FirstItem(s.docs[tx.doc].kind) {
        TakeHead(s, t);
      } else {
        CheckItem(s, t);
      }
    }
  }

  lemma CheckStays(s: State, t: nat, after: Tx, next: State, row: Row)
    requires t < |s.txs| && after.doc == s.txs[t].doc < |s.docs| && next == SetTx(s, t, after)
    requires row in after.base && row in s.txs[t].base && after.base[row] == s.txs[t].base[row]
    requires Checked(s, s.txs[t], row)
    ensures Checked(next, after, row)
  {
    assert CeilingOf(next, row) == CeilingOf(s, row);
  }

  lemma CheckIsMade(s: State, t: nat, after: Tx, next: State, row: Row)
    requires t < |s.txs| && after.doc == s.txs[t].doc < |s.docs| && next == SetTx(s, t, after)
    requires var kind, base := s.docs[after.doc].kind, BaseOf(s, s.docs[after.doc].kind, row);
             && row in after.base && after.base[row] == base
             && Fits(s, kind, row, base.units, Used(CeilingOf(s, row), s.docs[after.doc].lines, row))
    ensures Checked(next, after, row)
  {
    assert CeilingOf(next, row) == CeilingOf(s, row);
  }

  /** The checks made so far, with one more. */
  lemma OneMoreChecked(s: State, t: nat, after: Tx, next: State)
    requires t < |s.txs| && s.txs[t].doc < |s.docs| && s.txs[t].taken < |PlanOf(s, s.txs[t])|
    requires forall j :: FirstItem(s.docs[s.txs[t].doc].kind) <= j < s.txs[t].taken ==> Checked(s, s.txs[t], PlanOf(s, s.txs[t])[j])
    requires var kind, row := s.docs[s.txs[t].doc].kind, PlanOf(s, s.txs[t])[s.txs[t].taken];
             && after == s.txs[t].(taken := s.txs[t].taken + 1, base := s.txs[t].base[row := BaseOf(s, kind, row)])
             && Fits(s, kind, row, BaseOf(s, kind, row).units, Used(CeilingOf(s, row), s.docs[s.txs[t].doc].lines, row))
    requires next == SetTx(s, t, after)
    ensures forall j :: FirstItem(s.docs[after.doc].kind) <= j < after.taken ==> Checked(next, after, PlanOf(next, after)[j])
  {
    var tx, plan := s.txs[t], PlanOf(s, s.txs[t]);
    assert PlanOf(next, after) == plan;
    forall j | FirstItem(s.docs[tx.doc].kind) <= j < after.taken
      ensures Checked(next, after, plan[j])
    {
      if j < tx.taken {
        PlanRowsDiffer(tx.doc, s.docs[tx.doc], j, tx.taken);
        assert Checked(s, tx, plan[j]) && after.base[plan[j]] == tx.base[plan[j]];
        CheckStays(s, t, after, next, plan[j]);
      } else {
        CheckIsMade(s, t, after, next, plan[j]);
      }
    }
  }

  lemma PlanRowsDiffer(d: nat, doc: Document, i: nat, j: nat)
    requires i < j < |Plan(d, doc)|
    ensures Plan(d, doc)[i] != Plan(d, doc)[j]
  {
    PlanOrdered(d, doc);
    assert Before(Plan(d, doc)[i], Plan(d, doc)[j]);
  }

  /** The transaction after a check that passed. */
  function Passed(s: State, t: nat): Tx
    requires t < |s.txs| && s.txs[t].doc < |s.docs| && s.txs[t].taken < |PlanOf(s, s.txs[t])|
  {
    var row := PlanOf(s, s.txs[t])[s.txs[t].taken];
    s.txs[t].(taken := s.txs[t].taken + 1, base := s.txs[t].base[row := BaseOf(s, s.docs[s.txs[t].doc].kind, row)])
  }

  predicate NextFits(s: State, t: nat)
    requires t < |s.txs| && s.txs[t].doc < |s.docs| && s.txs[t].taken < |PlanOf(s, s.txs[t])|
  {
    var doc, row := s.docs[s.txs[t].doc], PlanOf(s, s.txs[t])[s.txs[t].taken];
    Fits(s, doc.kind, row, BaseOf(s, doc.kind, row).units, Used(CeilingOf(s, row), doc.lines, row))
  }

  lemma PassedIsOk(s: State, t: nat)
    requires t < |s.txs| && !s.txs[t].done && s.txs[t].doc < |s.docs| && TxOk(s, s.txs[t])
    requires FirstItem(s.docs[s.txs[t].doc].kind) <= s.txs[t].taken < |PlanOf(s, s.txs[t])| && NextFits(s, t)
    ensures TxOk(SetTx(s, t, Passed(s, t)), Passed(s, t))
  {
    OneMoreChecked(s, t, Passed(s, t), SetTx(s, t, Passed(s, t)));
  }

  lemma CheckItem(s: State, t: nat)
    requires Inv(s) && t < |s.txs| && !s.txs[t].done
    requires FirstItem(s.docs[s.txs[t].doc].kind) <= s.txs[t].taken < |PlanOf(s, s.txs[t])|
    requires RowFree(s, PlanOf(s, s.txs[t])[s.txs[t].taken])
    ensures Inv(AdvanceTx(s, t))
  {
    if NextFits(s, t) {
      PassedIsOk(s, t);
      TakeLock(s, t, Passed(s, t));
      assert AdvanceTx(s, t) == SetTx(s, t, Passed(s, t));
    } else {
      EndTx(s, t);
    }
  }

  // ---- Commit ----

  /** Committing adds the document's own lines to its own kind of ledger, nothing else. */
  lemma CommitTotals(s: State, t: nat, kind: Kind, item: Row, ceiling: Ceiling)
    requires Inv(s) && ReadyToCommit(s, t)
    ensures var doc := s.docs[s.txs[t].doc];
            Total(s.docs[s.txs[t].doc := PostedDocument(s, s.txs[t])], kind, item, ceiling)
            == Total(s.docs, kind, item, ceiling) + if kind == doc.kind then Used(ceiling, doc.lines, item) else 0
  {
    var tx := s.txs[t];
    PlanHead(tx.doc, s.docs[tx.doc]);
    assert TxOk(s, tx) && !Posted(s.docs[tx.doc]);
    TotalUpdate(s.docs, tx.doc, PostedDocument(s, tx), kind, item, ceiling);
  }

  /** A check that another transaction has made survives the commit. */
  lemma CheckSurvivesCommit(s: State, t: nat, u: nat, next: State, row: Row)
    requires Inv(s) && ReadyToCommit(s, t) && u < |s.txs| && u != t && s.txs[u].doc != s.txs[t].doc
    requires next.items == s.items && next.docs == s.docs[s.txs[t].doc := PostedDocument(s, s.txs[t])]
    requires Holding(s, s.txs[u], row) && Checked(s, s.txs[u], row)
    ensures Checked(next, s.txs[u], row)
  {
    NotMyItem(s, t, u, row);
    var kind := s.docs[s.txs[u].doc].kind;
    CommitTotals(s, t, kind, row, CeilingOf(s, row));
    CommitTotals(s, t, kind, row, Amount(0));
    CommitTotals(s, t, Measurement, row, CeilingOf(s, row));
    assert CeilingOf(next, row) == CeilingOf(s, row);
    assert BaseOf(next, kind, row) == BaseOf(s, kind, row);
  }

  /** Another open transaction holds none of the committed document's items. */
  lemma CommitLeavesOthersChecked(s: State, t: nat, u: nat, next: State)
    requires Inv(s) && ReadyToCommit(s, t) && u < |s.txs| && u != t
    requires next == SetDoc(SetTx(s, t, s.txs[t].(done := true)), s.txs[t].doc, PostedDocument(s, s.txs[t])).(posted := s.posted + [s.txs[t].doc])
    ensures TxOk(next, s.txs[u])
    ensures !s.txs[u].done ==> PlanOf(next, s.txs[u]) == PlanOf(s, s.txs[u])
  {
    var tx, other := s.txs[t], s.txs[u];
    var doc := s.docs[tx.doc];
    PlanHead(tx.doc, doc);
    PlanHead(other.doc, s.docs[other.doc]);
    if !other.done && 0 < other.taken {
      LockedDocument(s, t);
      LockedDocument(s, u);
      assert other.doc != tx.doc;
      forall j | FirstItem(s.docs[other.doc].kind) <= j < other.taken
        ensures Checked(next, other, PlanOf(next, other)[j])
      {
        var row := PlanOf(s, other)[j];
        assert Checked(s, other, row);
        assert PlanOf(s, other)[..other.taken][j] == row && Holding(s, other, row);
        CheckSurvivesCommit(s, t, u, next, row);
      }
    }
  }

  lemma NotMyItem(s: State, t: nat, u: nat, row: Row)
    requires Inv(s) && ReadyToCommit(s, t) && u < |s.txs| && u != t && Holding(s, s.txs[u], row)
    ensures forall ceiling :: Used(ceiling, s.docs[s.txs[t].doc].lines, row) == 0
  {
    var tx := s.txs[t];
    var doc := s.docs[tx.doc];
    assert PlanOf(s, tx)[..tx.taken] == PlanOf(s, tx);
    forall k | 0 <= k < |doc.lines|
      ensures doc.lines[k].item != row
    {
      var j := PlanCovers(s.items, tx.doc, doc, k);
      assert Holding(s, tx, doc.lines[k].item);
    }
    forall ceiling
      ensures Used(ceiling, doc.lines, row) == 0
    {
      UnusedItem(ceiling, doc.lines, row);
    }
  }

  lemma CommitKeepsCaps(s: State, t: nat, next: State, row: Row)
    requires Inv(s) && ReadyToCommit(s, t) && row in s.items && next.items == s.items
    requires next.docs == s.docs[s.txs[t].doc := PostedDocument(s, s.txs[t])]
    ensures CapsHold(next, row)
  {
    var tx := s.txs[t];
    var doc := s.docs[tx.doc];
    var c := CeilingOf(s, row);
    assert CapsHold(s, row);
    CommitTotals(s, t, Measurement, row, c);
    CommitTotals(s, t, OwnerIpc, row, c);
    CommitTotals(s, t, SubcontractIpc, row, c);
    if Used(c, doc.lines, row) > 0 {
      var k := UsedItem(c, doc.lines, row);
      var j := PlanCovers(s.items, tx.doc, doc, k);
      assert TxOk(s, tx) && Checked(s, tx, PlanOf(s, tx)[j]);
    }
  }

  lemma CommitKeepsInv(s: State, t: nat)
    requires Inv(s) && ReadyToCommit(s, t)
    ensures Inv(CommitTx(s, t))
  {
    var tx := s.txs[t];
    var doc := PostedDocument(s, tx);
    if doc.kind != Measurement && doc.totals.Some? && doc.totals.value.net < 0 {
      EndTx(s, t);
    } else {
      PostingKeepsInv(s, t, CommitTx(s, t));
    }
  }

  lemma PostingKeepsInv(s: State, t: nat, next: State)
    requires Inv(s) && ReadyToCommit(s, t)
    requires next == SetDoc(SetTx(s, t, s.txs[t].(done := true)), s.txs[t].doc, PostedDocument(s, s.txs[t])).(posted := s.posted + [s.txs[t].doc])
    ensures Inv(next)
  {
    forall u | 0 <= u < |s.txs| && u != t
      ensures TxOk(next, s.txs[u]) && (!s.txs[u].done ==> PlanOf(next, s.txs[u]) == PlanOf(s, s.txs[u]))
    {
      CommitLeavesOthersChecked(s, t, u, next);
    }
    forall u, v, row | 0 <= u < |s.txs| && 0 <= v < |s.txs| && Holding(next, next.txs[u], row) && Holding(next, next.txs[v], row)
      ensures u == v
    {
      assert Holding(s, s.txs[u], row) && Holding(s, s.txs[v], row);
    }
    forall row | row in next.items
      ensures CapsHold(next, row)
    {
      CommitKeepsCaps(s, t, next, row);
    }
    assert forall d :: 0 <= d < |s.docs| ==> LinesOk(s.items, s.docs[d]);
  }

  // ---- Every step, every run ----

  lemma NewItemKeepsInv(s: State, item: Row, entry: Item)
    requires Inv(s) && item !in s.items && ItemsOk(s.items[item := entry])
    ensures Inv(s.(items := s.items[item := entry]))
  {
    var next := s.(items := s.items[item := entry]);
    forall t | 0 <= t < |s.txs|
      ensures TxOk(next, s.txs[t])
    {
      TxFrame(s, next, s.txs[t]);
    }
    forall kind
      ensures Total(s.docs, kind, item, entry.ceiling) == 0
    {
      assert forall d :: 0 <= d < |s.docs| ==> LinesOk(s.items, s.docs[d]);
      UnusedTotal(s.docs, kind, item, entry.ceiling);
    }
    assert forall t, row :: 0 <= t < |s.txs| ==> Holding(next, s.txs[t], row) == Holding(s, s.txs[t], row);
    forall d | 0 <= d < |s.docs|
      ensures LinesOk(next.items, s.docs[d])
    {
      assert LinesOk(s.items, s.docs[d]);
    }
    CapsFrame(s, next);
  }

  lemma NewPercentKeepsInv(s: State, parent: Row, percent: nat)
    requires Inv(s) && RowFree(s, parent)
    ensures Inv(s.(percents := s.percents[parent := percent]))
  {
    var next := s.(percents := s.percents[parent := percent]);
    forall t | 0 <= t < |s.txs|
      ensures TxOk(next, s.txs[t])
    {
      var tx := s.txs[t];
      var doc := s.docs[tx.doc];
      PlanHead(tx.doc, doc);
      if !tx.done && doc.kind != Measurement && 2 <= tx.taken {
        assert PlanOf(s, tx)[..tx.taken][1] == ParentRow(doc);
        assert Holding(s, tx, ParentRow(doc));
      }
      TxFrame(s, next, tx);
    }
    assert forall t, row :: 0 <= t < |s.txs| ==> Holding(next, s.txs[t], row) == Holding(s, s.txs[t], row);
    CapsFrame(s, next);
  }

  lemma NewDocumentKeepsInv(s: State, doc: Document)
    requires Inv(s) && LinesOk(s.items, doc) && !Posted(doc)
    ensures Inv(s.(docs := s.docs + [doc]))
  {
    var next := s.(docs := s.docs + [doc]);
    UnpostedAppend(s.docs, doc);
    forall t | 0 <= t < |s.txs|
      ensures TxOk(next, s.txs[t])
    {
      TxFrame(s, next, s.txs[t]);
    }
    assert forall t, row :: 0 <= t < |s.txs| ==> Holding(next, s.txs[t], row) == Holding(s, s.txs[t], row);
    CapsFrame(s, next);
  }

  lemma BeginKeepsInv(s: State, d: nat)
    requires Inv(s) && d < |s.docs|
    ensures Inv(s.(txs := s.txs + [Tx(d, 0, map[], 0, false)]))
  {
    var next := s.(txs := s.txs + [Tx(d, 0, map[], 0, false)]);
    forall t | 0 <= t < |s.txs|
      ensures TxOk(next, s.txs[t])
    {
      TxFrame(s, next, s.txs[t]);
    }
    assert forall t, row :: 0 <= t < |next.txs| && Holding(next, next.txs[t], row) ==> t < |s.txs| && Holding(s, s.txs[t], row);
    CapsFrame(s, next);
  }

  predicate EditsDocument(a: Action) {
    a.AddLine? || a.RemoveLine? || a.Submit? || a.Review?
  }

  lemma EditIsQuiet(s: State, a: Action)
    requires Inv(s) && EditsDocument(a) && Step(s, a) != s
    ensures a.doc < |s.docs| && Unlocked(s, a.doc)
    ensures var doc := Step(s, a).docs[a.doc];
            && Step(s, a) == SetDoc(s, a.doc, doc) && doc.kind == s.docs[a.doc].kind && LinesOk(s.items, doc)
            && !Posted(s.docs[a.doc]) && !Posted(doc)
  {
    assert LinesOk(s.items, s.docs[a.doc]);
  }

  lemma StepKeepsInv(s: State, a: Action)
    requires Inv(s)
    ensures Inv(Step(s, a))
  {
    if EditsDocument(a) {
      if Step(s, a) != s {
        EditIsQuiet(s, a);
        QuietDocumentStep(s, a.doc, Step(s, a).docs[a.doc]);
      }
      return;
    }
    match a
    case AddItem(item, ceiling, rate) =>
      if Step(s, a) != s {
        NewItemKeepsInv(s, item, Item(ceiling, rate));
      }
    case SetPercent(row, percent) =>
      if RowFree(s, row) {
        NewPercentKeepsInv(s, row, percent);
      }
    case AddDocument(kind, parent) =>
      NewDocumentKeepsInv(s, Document(kind, parent, Draft, [], [], None));
    case Begin(d) =>
      if d < |s.docs| {
        BeginKeepsInv(s, d);
      }
    case Advance(t) =>
      if t < |s.txs| {
        AdvanceKeepsInv(s, t);
      }
    case Commit(t) =>
      if ReadyToCommit(s, t) {
        CommitKeepsInv(s, t);
      }
    case Abort(t) =>
      if t < |s.txs| {
        EndTx(s, t);
      }
    case _ =>
  }

  lemma {:induction false} RunKeepsInv(actions: seq<Action>)
    ensures Inv(Run(actions))
  {
    if actions != [] {
      RunKeepsInv(actions[..|actions| - 1]);
      StepKeepsInv(Run(actions[..|actions| - 1]), actions[|actions| - 1]);
    }
  }

  /** The three promises about one item's ledgers. */
  ghost predicate NotOvercertified(docs: seq<Document>, item: Row, ceiling: Ceiling)
  {
    && (item.table == BoqItems ==> Total(docs, OwnerIpc, item, ceiling) <= Total(docs, Measurement, item, ceiling))
    && (item.table == BoqItems && ceiling.Quantity? ==> Total(docs, Measurement, item, ceiling) <= ceiling.limit)
    && (item.table == CommitmentLines ==> !ceiling.Unlimited? && Total(docs, SubcontractIpc, item, ceiling) <= ceiling.limit)
  }

  /** In every run, however the transactions interleave: certified <= measured <= the
      BOQ quantity, and certified <= committed, by quantity or by amount. */
  lemma NeverOvercertified(actions: seq<Action>)
    ensures var s := Run(actions);
            forall item :: item in s.items ==> NotOvercertified(s.docs, item, s.items[item].ceiling)
  {
    RunKeepsInv(actions);
    InvNotOvercertified(Run(actions));
  }

  lemma InvNotOvercertified(s: State)
    requires Inv(s)
    ensures forall item :: item in s.items ==> NotOvercertified(s.docs, item, s.items[item].ceiling)
  {
    forall item | item in s.items
      ensures NotOvercertified(s.docs, item, s.items[item].ceiling)
    {
      assert CapsHold(s, item);
    }
  }

  // ---- No certification deadlock ----

  /** The open transactions as the lock manager sees them. */
  function Locks(s: State): (txs: Transactions)
    ensures |txs| == |s.txs|
    ensures forall t :: 0 <= t < |txs| ==>
              txs[t] == if s.txs[t].done then Transaction([], 0, true) else Transaction(PlanOf(s, s.txs[t]), s.txs[t].taken, false)
  {
    seq(|s.txs|, t requires 0 <= t < |s.txs| =>
      if s.txs[t].done then Transaction([], 0, true) else Transaction(PlanOf(s, s.txs[t]), s.txs[t].taken, false))
  }

  lemma LocksAreConsistent(s: State)
    requires Inv(s)
    ensures Consistent(Locks(s))
    ensures forall t, row :: 0 <= t < |s.txs| ==> Holds(Locks(s)[t], row) == Holding(s, s.txs[t], row)
  {
    forall t | 0 <= t < |s.txs|
      ensures Ordered(Locks(s)[t].plan)
    {
      PlanOrdered(s.txs[t].doc, s.docs[s.txs[t].doc]);
    }
    var locks := Locks(s);
    forall t, u, row | 0 <= t < |locks| && 0 <= u < |locks| && Holds(locks[t], row) && Holds(locks[u], row)
      ensures t == u
    {
      assert Holding(s, s.txs[t], row) && Holding(s, s.txs[u], row);
    }
  }

  /** In every reachable state with an open transaction, some open transaction
      can take its next lock or commit. */
  lemma CertificationNeverDeadlocks(actions: seq<Action>)
    requires exists t :: 0 <= t < |Run(actions).txs| && !Run(actions).txs[t].done
    ensures var s := Run(actions);
            exists t: nat :: t < |s.txs| && !s.txs[t].done &&
              (ReadyToCommit(s, t) || (s.txs[t].taken < |PlanOf(s, s.txs[t])| && RowFree(s, PlanOf(s, s.txs[t])[s.txs[t].taken])))
  {
    RunKeepsInv(actions);
    SomeTransactionMoves(Run(actions));
  }

  lemma SomeTransactionMoves(s: State)
    requires Inv(s) && exists t :: 0 <= t < |s.txs| && !s.txs[t].done
    ensures exists t: nat :: t < |s.txs| && !s.txs[t].done &&
              (ReadyToCommit(s, t) || (s.txs[t].taken < |PlanOf(s, s.txs[t])| && RowFree(s, PlanOf(s, s.txs[t])[s.txs[t].taken])))
  {
    LocksAreConsistent(s);
    var open :| 0 <= open < |s.txs| && !s.txs[open].done;
    assert !Locks(s)[open].finished;
    DeadlockFree(Locks(s));
    var t: nat :| t < |Locks(s)| && CanStep(Locks(s), t);
    if s.txs[t].taken < |PlanOf(s, s.txs[t])| {
      assert Free(Locks(s), PlanOf(s, s.txs[t])[s.txs[t].taken]);
      forall u | 0 <= u < |s.txs|
        ensures !Holding(s, s.txs[u], PlanOf(s, s.txs[t])[s.txs[t].taken])
      {
        assert !Holds(Locks(s)[u], PlanOf(s, s.txs[t])[s.txs[t].taken]);
      }
    }
  }
}
