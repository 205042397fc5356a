// The certified ledger in certification order: snapshots telescope, totals add
// up to the cent, and nothing posted ever changes.
module CertificationLedger {
  import opened Money
  import opened RowLocks
  import opened CertificationModel
  import opened CertificationSafety

  /** The sum over the posted documents of one kind, in posting order. */
  function PostedTotal(docs: seq<Document>, order: seq<nat>, kind: Kind, item: Row, ceiling: Ceiling): nat
  {
    if order == [] then 0
    else
      var d := order[|order| - 1];
      PostedTotal(docs, order[..|order| - 1], kind, item, ceiling)
        + if d < |docs| then Contribution(docs[d], kind, item, ceiling) else 0
  }

  /** Units certified for an item before line `k` of the `j`-th posted document. */
  function Earlier(s: State, j: nat, k: nat, ceiling: Ceiling): nat
    requires j < |s.posted| && s.posted[j] < |s.docs| && k < |s.docs[s.posted[j]].lines|
  {
    var doc := s.docs[s.posted[j]];
    var item := doc.lines[k].item;
    PostedTotal(s.docs, s.posted[..j], doc.kind, item, ceiling) + Used(ceiling, doc.lines[..k], item)
  }

  /** What a certificate line must show when `units` and `value` were certified before it. */
  ghost predicate Shows(kind: Kind, ceiling: Ceiling, line: Line, snapshot: Snapshot, units: nat, value: nat)
  {
    if ceiling.Amount? then
      && snapshot.previousQuantity.None? && snapshot.cumulativeQuantity.None?
      && snapshot.previousValue == value && snapshot.cumulativeValue == Some(value + line.value)
    else
      && snapshot.previousQuantity == Some(units)
      && snapshot.cumulativeQuantity == Some(units + Units(ceiling, line))
      && (kind == OwnerIpc ==> snapshot.previousValue == LineValue(units, line.rate))
      && (kind == SubcontractIpc ==> snapshot.previousValue == value && snapshot.cumulativeValue == Some(value + line.value))
  }

  /** The certificate of line `k` shows everything certified before it, and itself. */
  ghost predicate Telescopes(s: State, j: nat, k: nat)
    requires j < |s.posted| && s.posted[j] < |s.docs|
    requires k < |s.docs[s.posted[j]].lines| == |s.docs[s.posted[j]].snapshots|
  {
    var doc := s.docs[s.posted[j]];
    var ceiling := CeilingOf(s, doc.lines[k].item);
    Shows(doc.kind, ceiling, doc.lines[k], doc.snapshots[k], Earlier(s, j, k, ceiling), Earlier(s, j, k, Amount(0)))
  }

  ghost predicate Balanced(doc: Document)
  {
    && doc.totals.Some?
    && var t := doc.totals.value;
       && t.gross == Gross(doc.lines)
       && t.gross == t.net + t.retention
       && t.retention == PercentOf(t.gross, t.percent)
       && 0 <= t.net
  }

  ghost predicate CertificateOk(s: State, j: nat)
    requires j < |s.posted| && s.posted[j] < |s.docs|
  {
    var doc := s.docs[s.posted[j]];
    doc.kind != Measurement ==>
      && Balanced(doc)
      && |doc.snapshots| == |doc.lines|
      && forall k :: 0 <= k < |doc.lines| ==> Telescopes(s, j, k)
  }

  ghost predicate OrderOk(docs: seq<Document>, order: seq<nat>)
  {
    && (forall j :: 0 <= j < |order| ==> order[j] < |docs| && Posted(docs[order[j]]))
    && (forall i, j :: 0 <= i < j < |order| ==> order[i] != order[j])
    && (forall kind, item, ceiling :: Total(docs, kind, item, ceiling) == PostedTotal(docs, order, kind, item, ceiling))
  }

  /** A line is priced when it is added: quantity times the item's rate, rounded once. */
  ghost predicate Priced(items: map<Row, Item>, line: Line)
  {
    line.item in items && exists input :: line == NewLine(items[line.item], line.item, input)
  }

  ghost predicate LedgerInv(s: State)
  {
    && Inv(s)
    && OrderOk(s.docs, s.posted)
    && (forall j :: 0 <= j < |s.posted| ==> CertificateOk(s, j))
    && (forall d :: 0 <= d < |s.docs| ==> AllPriced(s.items, s.docs[d].lines))
  }

  ghost predicate AllPriced(items: map<Row, Item>, lines: seq<Line>)
  {
    forall k :: 0 <= k < |lines| ==> Priced(items, lines[k])
  }

  // ---- Posted documents are final ----

  lemma CommitKeepsPosted(s: State, t: nat)
    requires Inv(s) && ReadyToCommit(s, t)
    ensures |CommitTx(s, t).docs| == |s.docs| && CommitTx(s, t).items == s.items && s.posted <= CommitTx(s, t).posted
    ensures forall d :: 0 <= d < |s.docs| && Posted(s.docs[d]) ==> CommitTx(s, t).docs[d] == s.docs[d]
  {
    PlanHead(s.txs[t].doc, s.docs[s.txs[t].doc]);
    assert TxOk(s, s.txs[t]);
  }

  lemma StepKeepsItems(s: State, a: Action)
    ensures forall row :: row in s.items ==> row in Step(s, a).items && Step(s, a).items[row] == s.items[row]
  {
  }

  /** No step of any route changes a posted document, and the posting order only grows. */
  lemma StepKeepsPosted(s: State, a: Action)
    requires Inv(s)
    ensures |s.docs| <= |Step(s, a).docs|
    ensures forall d :: 0 <= d < |s.docs| && Posted(s.docs[d]) ==> Step(s, a).docs[d] == s.docs[d]
    ensures s.posted <= Step(s, a).posted
    ensures forall row :: row in s.items ==> row in Step(s, a).items && Step(s, a).items[row] == s.items[row]
  {
    StepKeepsItems(s, a);
    if a.Commit? {
      if ReadyToCommit(s, a.t) {
        CommitKeepsPosted(s, a.t);
      }
    } else if EditsDocument(a) {
      if Step(s, a) != s {
        EditIsQuiet(s, a);
      }
    }
  }

  /** A later retention rate, a later certificate, a late line edit: none reaches back. */
  lemma {:induction false} RunKeepsPosted(actions: seq<Action>, n: nat, d: nat)
    requires n <= |actions| && d < |Run(actions[..n]).docs| && Posted(Run(actions[..n]).docs[d])
    ensures d < |Run(actions).docs| && Run(actions).docs[d] == Run(actions[..n]).docs[d]
    decreases |actions|
  {
    if n == |actions| {
      assert actions[..n] == actions;
    } else {
      var before := actions[..|actions| - 1];
      assert before[..n] == actions[..n];
      RunKeepsPosted(before, n, d);
      RunKeepsInv(before);
      StepKeepsPosted(Run(before), actions[|actions| - 1]);
    }
  }

  // ---- Ledger invariants over steps ----

  lemma {:induction false} PostedTotalFrame(docs: seq<Document>, next: seq<Document>, order: seq<nat>, kind: Kind, item: Row, ceiling: Ceiling)
    requires forall j :: 0 <= j < |order| ==> order[j] < |docs| && order[j] < |next| && next[order[j]] == docs[order[j]]
    ensures PostedTotal(next, order, kind, item, ceiling) == PostedTotal(docs, order, kind, item, ceiling)
  {
    if order != [] {
      PostedTotalFrame(docs, next, order[..|order| - 1], kind, item, ceiling);
    }
  }

  /** A step that posts nothing leaves every certificate as right as it was. */
  lemma CertificatesFrame(s: State, next: State, j: nat)
    requires j < |s.posted| <= |next.posted| && next.posted[..|s.posted|] == s.posted
    requires forall i :: 0 <= i < |s.posted| ==> s.posted[i] < |s.docs| && s.posted[i] < |next.docs| && next.docs[s.posted[i]] == s.docs[s.posted[i]]
    requires WellFormed(s)
    requires forall row :: row in s.items ==> row in next.items && next.items[row] == s.items[row]
    requires CertificateOk(s, j)
    ensures next.posted[j] < |next.docs| && CertificateOk(next, j)
  {
    assert next.posted[j] == next.posted[..|s.posted|][j];
    var doc := s.docs[s.posted[j]];
    assert next.posted[..j] == s.posted[..j];
    if doc.kind != Measurement {
      assert LinesOk(s.items, doc);
      forall k | 0 <= k < |doc.lines|
        ensures Telescopes(next, j, k)
      {
        var item := doc.lines[k].item;
        assert Telescopes(s, j, k);
        PostedTotalFrame(s.docs, next.docs, s.posted[..j], doc.kind, item, CeilingOf(s, item));
        PostedTotalFrame(s.docs, next.docs, s.posted[..j], doc.kind, item, Amount(0));
      }
    }
  }

  /** What one commit does to the tables. */
  lemma CommitEffect(s: State, t: nat)
    requires LedgerInv(s) && ReadyToCommit(s, t) && CommitTx(s, t).posted != s.posted
    ensures var next, d := CommitTx(s, t), s.txs[t].doc;
            && next.posted == s.posted + [d] && d !in s.posted
            && next.docs == s.docs[d := PostedDocument(s, s.txs[t])]
            && next.items == s.items
            && !Posted(s.docs[d]) && Posted(next.docs[d])
            && (forall j :: 0 <= j < |s.posted| ==> s.posted[j] < |s.docs| && next.docs[s.posted[j]] == s.docs[s.posted[j]])
  {
    var tx := s.txs[t];
    PlanHead(tx.doc, s.docs[tx.doc]);
    assert TxOk(s, tx) && !Posted(s.docs[tx.doc]);
  }

  /** The figures read under the item's lock are still the ledger's at commit. */
  lemma CommittedBaseIsLedger(s: State, t: nat, k: nat)
    requires LedgerInv(s) && ReadyToCommit(s, t) && k < |s.docs[s.txs[t].doc].lines|
    ensures var tx, kind, item := s.txs[t], s.docs[s.txs[t].doc].kind, s.docs[s.txs[t].doc].lines[k].item;
            && item in tx.base && item in s.items && item.table == ItemTable(kind)
            && tx.base[item].units == PostedTotal(s.docs, s.posted, kind, item, CeilingOf(s, item))
            && tx.base[item].value == PostedTotal(s.docs, s.posted, kind, item, Amount(0))
  {
    var tx := s.txs[t];
    var doc := s.docs[tx.doc];
    var item := doc.lines[k].item;
    assert LinesOk(s.items, doc);
    var p := PlanCovers(s.items, tx.doc, doc, k);
    assert TxOk(s, tx) && Checked(s, tx, PlanOf(s, tx)[p]);
    assert Total(s.docs, doc.kind, item, CeilingOf(s, item)) == PostedTotal(s.docs, s.posted, doc.kind, item, CeilingOf(s, item));
    assert Total(s.docs, doc.kind, item, Amount(0)) == PostedTotal(s.docs, s.posted, doc.kind, item, Amount(0));
  }

  /** `next` is `s` with document `d` posted as `posted`. */
  ghost predicate PostsNext(s: State, d: nat, posted: Document, next: State)
  {
    && d < |s.docs| && d !in s.posted && (forall i :: 0 <= i < |s.posted| ==> s.posted[i] < |s.docs|)
    && next.posted == s.posted + [d] && next.docs == s.docs[d := posted] && next.items == s.items
    && posted.kind == s.docs[d].kind && posted.lines == s.docs[d].lines
  }

  lemma EarlierWhenPosted(s: State, d: nat, posted: Document, next: State, k: nat, ceiling: Ceiling)
    requires PostsNext(s, d, posted, next) && k < |posted.lines|
    ensures Earlier(next, |s.posted|, k, ceiling)
         == PostedTotal(s.docs, s.posted, posted.kind, posted.lines[k].item, ceiling) + Used(ceiling, posted.lines[..k], posted.lines[k].item)
  {
    assert next.posted[..|s.posted|] == s.posted;
    PostedTotalFrame(s.docs, next.docs, s.posted, posted.kind, posted.lines[k].item, ceiling);
  }

  lemma FreezeShows(items: map<Row, Item>, base: map<Row, Base>, kind: Kind, lines: seq<Line>, k: nat)
    requires k < |lines| && lines[k].item in base && lines[k].item in items && kind != Measurement
    requires kind == OwnerIpc ==> !items[lines[k].item].ceiling.Amount?
    ensures var item := lines[k].item;
            var ceiling := items[item].ceiling;
            Shows(kind, ceiling, lines[k], Freeze(items, base, kind, lines, k),
                  base[item].units + Used(ceiling, lines[..k], item), base[item].value + Used(Amount(0), lines[..k], item))
  {
  }

  lemma PostedSnapshot(s: State, tx: Tx, k: nat)
    requires tx.doc < |s.docs| && s.docs[tx.doc].kind != Measurement && k < |s.docs[tx.doc].lines|
    ensures var doc, posted := s.docs[tx.doc], PostedDocument(s, tx);
            |posted.snapshots| == |doc.lines| && posted.snapshots[k] == Freeze(s.items, tx.base, doc.kind, doc.lines, k)
  {
  }

  /** The figures read at the lock are those of the certified ledger. */
  ghost predicate BaseIsLedger(s: State, base: map<Row, Base>, kind: Kind, item: Row)
  {
    && item in base && item in s.items
    && (kind == OwnerIpc ==> !s.items[item].ceiling.Amount?)
    && base[item].units == PostedTotal(s.docs, s.posted, kind, item, s.items[item].ceiling)
    && base[item].value == PostedTotal(s.docs, s.posted, kind, item, Amount(0))
  }

  /** A frozen line was computed from what the ledger held all along. */
  lemma PostedLineTelescopes(s: State, d: nat, base: map<Row, Base>, posted: Document, next: State, k: nat)
    requires PostsNext(s, d, posted, next)
    requires posted.kind != Measurement && k < |posted.lines| == |posted.snapshots|
    requires BaseIsLedger(s, base, posted.kind, posted.lines[k].item)
    requires posted.snapshots[k] == Freeze(s.items, base, posted.kind, posted.lines, k)
    ensures Telescopes(next, |s.posted|, k)
  {
    var item := posted.lines[k].item;
    FreezeShows(s.items, base, posted.kind, posted.lines, k);
    EarlierWhenPosted(s, d, posted, next, k, CeilingOf(s, item));
    EarlierWhenPosted(s, d, posted, next, k, Amount(0));
  }

  lemma CommitCertifies(s: State, t: nat)
    requires LedgerInv(s) && ReadyToCommit(s, t) && CommitTx(s, t).posted != s.posted
    ensures var next := CommitTx(s, t);
            |s.posted| < |next.posted| && next.posted[|s.posted|] < |next.docs| && CertificateOk(next, |s.posted|)
  {
    CommitEffect(s, t);
    var next, posted := CommitTx(s, t), PostedDocument(s, s.txs[t]);
    if posted.kind != Measurement {
      forall k | 0 <= k < |posted.lines|
        ensures |posted.snapshots| == |posted.lines| && Telescopes(next, |s.posted|, k)
      {
        PostedSnapshot(s, s.txs[t], k);
        CommittedBaseIsLedger(s, t, k);
        PostedLineTelescopes(s, s.txs[t].doc, s.txs[t].base, posted, next, k);
      }
    }
  }

  lemma CommitKeepsOrder(s: State, t: nat)
    requires LedgerInv(s) && ReadyToCommit(s, t) && CommitTx(s, t).posted != s.posted
    ensures OrderOk(CommitTx(s, t).docs, CommitTx(s, t).posted)
  {
    CommitEffect(s, t);
    var next := CommitTx(s, t);
    assert next.posted[..|s.posted|] == s.posted;
    forall kind, item, ceiling
      ensures Total(next.docs, kind, item, ceiling) == PostedTotal(next.docs, next.posted, kind, item, ceiling)
    {
      CommitTotals(s, t, kind, item, ceiling);
      PostedTotalFrame(s.docs, next.docs, s.posted, kind, item, ceiling);
      assert Total(s.docs, kind, item, ceiling) == PostedTotal(s.docs, s.posted, kind, item, ceiling);
    }
  }

  lemma CommitKeepsLedger(s: State, t: nat)
    requires LedgerInv(s) && ReadyToCommit(s, t) && CommitTx(s, t).posted != s.posted
    ensures LedgerInv(CommitTx(s, t))
  {
    CommitEffect(s, t);
    var next := CommitTx(s, t);
    CommitKeepsInv(s, t);
    CommitKeepsOrder(s, t);
    assert next.posted[..|s.posted|] == s.posted;
    forall j | 0 <= j < |next.posted|
      ensures CertificateOk(next, j)
    {
      if j < |s.posted| {
        CertificatesFrame(s, next, j);
      } else {
        CommitCertifies(s, t);
      }
    }
    forall d | 0 <= d < |next.docs|
      ensures AllPriced(next.items, next.docs[d].lines)
    {
      assert next.docs[d].lines == s.docs[d].lines;
    }
  }

  lemma PricedFrame(items: map<Row, Item>, more: map<Row, Item>, lines: seq<Line>)
    requires AllPriced(items, lines)
    requires forall row :: row in items ==> row in more && more[row] == items[row]
    ensures AllPriced(more, lines)
  {
    forall k | 0 <= k < |lines|
      ensures Priced(more, lines[k])
    {
      assert Priced(items, lines[k]);
      var input :| lines[k] == NewLine(items[lines[k].item], lines[k].item, input);
      assert lines[k] == NewLine(more[lines[k].item], lines[k].item, input);
    }
  }

  lemma OtherStepsKeepDocuments(s: State, a: Action)
    requires !EditsDocument(a) && !a.Commit? && !a.AddDocument?
    ensures Step(s, a).docs == s.docs
  {
  }

  /** No step but a line edit touches the lines of a document. */
  lemma LinesFrame(s: State, a: Action, d: nat)
    requires d < |s.docs| && !((a.AddLine? || a.RemoveLine?) && a.doc == d)
    ensures d < |Step(s, a).docs| && Step(s, a).docs[d].lines == s.docs[d].lines
  {
    match a
    case AddLine(_, _, _) =>
    case RemoveLine(_, _) =>
    case Submit(_) =>
    case Review(_, _) =>
    case Commit(_) =>
    case AddDocument(_, _) =>
    case _ => OtherStepsKeepDocuments(s, a);
  }

  lemma StepKeepsPriced(s: State, a: Action, d: nat)
    requires LedgerInv(s) && d < |Step(s, a).docs|
    ensures AllPriced(Step(s, a).items, Step(s, a).docs[d].lines)
  {
    if d >= |s.docs| {
      assert a.AddDocument?;
    } else if (a.AddLine? || a.RemoveLine?) && a.doc == d {
      if Step(s, a) != s {
        EditKeepsPriced(s, a);
      }
    } else {
      UntouchedIsPriced(s, a, d);
    }
  }

  lemma UntouchedIsPriced(s: State, a: Action, d: nat)
    requires d < |s.docs| && AllPriced(s.items, s.docs[d].lines) && !((a.AddLine? || a.RemoveLine?) && a.doc == d)
    ensures d < |Step(s, a).docs| && AllPriced(Step(s, a).items, Step(s, a).docs[d].lines)
  {
    StepKeepsItems(s, a);
    LinesFrame(s, a, d);
    PricedFrame(s.items, Step(s, a).items, s.docs[d].lines);
  }

  lemma LongerIsPriced(items: map<Row, Item>, lines: seq<Line>, line: Line)
    requires AllPriced(items, lines) && Priced(items, line)
    ensures AllPriced(items, lines + [line])
  {
  }

  lemma ShorterIsPriced(items: map<Row, Item>, lines: seq<Line>, n: nat)
    requires AllPriced(items, lines) && n < |lines|
    ensures AllPriced(items, lines[..n] + lines[n + 1..])
  {
    var after := lines[..n] + lines[n + 1..];
    forall k | 0 <= k < |after|
      ensures Priced(items, after[k])
    {
      assert after[k] == lines[if k < n then k else k + 1];
    }
  }

  lemma EditKeepsPriced(s: State, a: Action)
    requires LedgerInv(s) && (a.AddLine? || a.RemoveLine?) && Step(s, a) != s
    ensures a.doc < |Step(s, a).docs| && AllPriced(Step(s, a).items, Step(s, a).docs[a.doc].lines)
  {
    var lines := s.docs[a.doc].lines;
    assert AllPriced(s.items, lines);
    if a.AddLine? {
      assert Priced(s.items, NewLine(s.items[a.item], a.item, a.input));
      LongerIsPriced(s.items, lines, NewLine(s.items[a.item], a.item, a.input));
    } else {
      ShorterIsPriced(s.items, lines, a.k);
    }
  }

  lemma QuietStepTotals(s: State, a: Action)
    requires Inv(s) && Step(s, a).posted == s.posted
    ensures SameTotals(s.docs, Step(s, a).docs)
  {
    var next := Step(s, a);
    if |next.docs| > |s.docs| {
      UnpostedAppend(s.docs, next.docs[|s.docs|]);
    } else if next.docs != s.docs {
      if !EditsDocument(a) && !a.Commit? && !a.AddDocument? {
        OtherStepsKeepDocuments(s, a);
      }
      assert EditsDocument(a);
      EditIsQuiet(s, a);
      UnpostedUpdate(s.docs, a.doc, next.docs[a.doc]);
    }
  }

  lemma QuietStepKeepsOrder(s: State, a: Action)
    requires LedgerInv(s) && Step(s, a).posted == s.posted
    ensures OrderOk(Step(s, a).docs, s.posted)
  {
    var next := Step(s, a);
    StepKeepsPosted(s, a);
    QuietStepTotals(s, a);
    forall kind, item, ceiling
      ensures Total(next.docs, kind, item, ceiling) == PostedTotal(next.docs, s.posted, kind, item, ceiling)
    {
      PostedTotalFrame(s.docs, next.docs, s.posted, kind, item, ceiling);
      assert Total(s.docs, kind, item, ceiling) == PostedTotal(s.docs, s.posted, kind, item, ceiling);
    }
  }

  lemma QuietStepKeepsLedger(s: State, a: Action)
    requires LedgerInv(s) && Step(s, a).posted == s.posted
    ensures LedgerInv(Step(s, a))
  {
    var next := Step(s, a);
    StepKeepsInv(s, a);
    StepKeepsPosted(s, a);
    QuietStepKeepsOrder(s, a);
    forall j | 0 <= j < |s.posted|
      ensures CertificateOk(next, j)
    {
      CertificatesFrame(s, next, j);
    }
    forall d | 0 <= d < |next.docs|
      ensures AllPriced(next.items, next.docs[d].lines)
    {
      StepKeepsPriced(s, a, d);
    }
  }

  lemma OnlyCommitPosts(s: State, a: Action)
    ensures Step(s, a).posted != s.posted ==> a.Commit? && ReadyToCommit(s, a.t) && Step(s, a) == CommitTx(s, a.t)
  {
  }

  lemma StepKeepsLedger(s: State, a: Action)
    requires LedgerInv(s)
    ensures LedgerInv(Step(s, a))
  {
    OnlyCommitPosts(s, a);
    if Step(s, a).posted != s.posted {
      CommitKeepsLedger(s, a.t);
    } else {
      QuietStepKeepsLedger(s, a);
    }
  }

  lemma {:induction false} RunKeepsLedger(actions: seq<Action>)
    ensures LedgerInv(Run(actions))
  {
    if actions != [] {
      RunKeepsLedger(actions[..|actions| - 1]);
      StepKeepsLedger(Run(actions[..|actions| - 1]), actions[|actions| - 1]);
    }
  }

  /** In every run each certificate telescopes against the ones certified before it,
      and its gross is the sum of its lines and splits exactly into net and retention. */
  lemma EveryRunTelescopes(actions: seq<Action>, j: nat)
    requires j < |Run(actions).posted|
    ensures var s := Run(actions);
            && s.posted[j] < |s.docs| && Posted(s.docs[s.posted[j]])
            && CertificateOk(s, j)
  {
    RunKeepsLedger(actions);
  }

  /** The retention percentage frozen at commit is the one in force at that moment. */
  lemma CommitFreezesLivePercent(s: State, t: nat)
    requires LedgerInv(s) && ReadyToCommit(s, t) && CommitTx(s, t).posted != s.posted
    requires s.docs[s.txs[t].doc].kind != Measurement
    ensures var doc, parent := s.docs[s.txs[t].doc], ParentRow(s.docs[s.txs[t].doc]);
            var percent := if parent in s.percents then s.percents[parent] else 0;
            var gross := Gross(doc.lines);
            CommitTx(s, t).docs[s.txs[t].doc].totals ==
            Some(Totals(percent, gross, PercentOf(gross, percent), gross - PercentOf(gross, percent)))
  {
    PlanHead(s.txs[t].doc, s.docs[s.txs[t].doc]);
    assert TxOk(s, s.txs[t]);
  }

  /** A retention of at most the whole never leaves a negative net. */
  lemma NetIsNotNegative(lines: seq<Line>, percent: nat)
    requires percent <= 10000
    ensures 0 <= TotalsOf(lines, percent).net
  {
    PercentOfAtMostWhole(Gross(lines), percent);
  }

  // ---- Rounding drift of a ledger ----

  function LinesOn(lines: seq<Line>, item: Row): nat
  {
    if lines == [] then 0
    else LinesOn(lines[..|lines| - 1], item) + if lines[|lines| - 1].item == item then 1 else 0
  }

  function PostedLines(docs: seq<Document>, order: seq<nat>, kind: Kind, item: Row): nat
  {
    if order == [] then 0
    else
      var d := order[|order| - 1];
      PostedLines(docs, order[..|order| - 1], kind, item)
        + if d < |docs| && docs[d].kind == kind && Posted(docs[d]) then LinesOn(docs[d].lines, item) else 0
  }

  /** n lines rounded one by one stay within n/2 cents of the exact product. */
  ghost predicate Near(quantity: nat, rate: nat, value: nat, n: nat)
  {
    2 * (quantity * rate) - 1000 * n <= 2000 * value <= 2 * (quantity * rate) + 1000 * n
  }

  lemma NearAdd(q1: nat, q2: nat, rate: nat, v1: nat, v2: nat, n1: nat, n2: nat)
    requires Near(q1, rate, v1, n1) && Near(q2, rate, v2, n2)
    ensures Near(q1 + q2, rate, v1 + v2, n1 + n2)
  {
    assert (q1 + q2) * rate == q1 * rate + q2 * rate;
  }

  lemma {:induction false} LinesNear(items: map<Row, Item>, lines: seq<Line>, item: Row)
    requires item in items && !items[item].ceiling.Amount?
    requires AllPriced(items, lines)
    ensures Near(Used(items[item].ceiling, lines, item), items[item].rate, Used(Amount(0), lines, item), LinesOn(lines, item))
  {
    if lines == [] {
    } else {
      var last := lines[|lines| - 1];
      LinesNear(items, lines[..|lines| - 1], item);
      assert Priced(items, last);
      if last.item == item {
        var rest := lines[..|lines| - 1];
        NearAdd(Used(items[item].ceiling, rest, item), last.quantity.value, items[item].rate,
                Used(Amount(0), rest, item), last.value, LinesOn(rest, item), 1);
      }
    }
  }

  lemma LedgerNearLast(items: map<Row, Item>, docs: seq<Document>, order: seq<nat>, kind: Kind, item: Row)
    requires item in items && !items[item].ceiling.Amount?
    requires order != [] && order[|order| - 1] < |docs| && AllPriced(items, docs[order[|order| - 1]].lines)
    requires var before := order[..|order| - 1];
             Near(PostedTotal(docs, before, kind, item, items[item].ceiling), items[item].rate,
                  PostedTotal(docs, before, kind, item, Amount(0)), PostedLines(docs, before, kind, item))
    ensures Near(PostedTotal(docs, order, kind, item, items[item].ceiling), items[item].rate,
                 PostedTotal(docs, order, kind, item, Amount(0)), PostedLines(docs, order, kind, item))
  {
    var before, doc, c := order[..|order| - 1], docs[order[|order| - 1]], items[item].ceiling;
    if doc.kind == kind && Posted(doc) {
      LinesNear(items, doc.lines, item);
      NearAdd(PostedTotal(docs, before, kind, item, c), Used(c, doc.lines, item), items[item].rate,
              PostedTotal(docs, before, kind, item, Amount(0)), Used(Amount(0), doc.lines, item),
              PostedLines(docs, before, kind, item), LinesOn(doc.lines, item));
    }
  }

  lemma {:induction false} LedgerNear(s: State, n: nat, kind: Kind, item: Row)
    requires LedgerInv(s) && n <= |s.posted| && item in s.items && !s.items[item].ceiling.Amount?
    ensures Near(PostedTotal(s.docs, s.posted[..n], kind, item, s.items[item].ceiling), s.items[item].rate,
                 PostedTotal(s.docs, s.posted[..n], kind, item, Amount(0)), PostedLines(s.docs, s.posted[..n], kind, item))
  {
    if n > 0 {
      LedgerNear(s, n - 1, kind, item);
      assert s.posted[..n][..n - 1] == s.posted[..n - 1];
      LedgerNearLast(s.items, s.docs, s.posted[..n], kind, item);
    }
  }

  lemma NearCommitted(quantity: nat, limit: nat, rate: nat, value: nat, n: nat)
    requires Near(quantity, rate, value, n) && quantity <= limit
    ensures 2 * (value - LineValue(limit, rate)) <= n
    ensures quantity == limit ==> 2 * (LineValue(limit, rate) - value) <= n + 1
  {
    assert quantity * rate <= limit * rate;
  }

  /** A quantity line certified by n certificate lines: the money certified exceeds the
      line's amount (its full quantity at the stored rate) by at most n/2 cents, and once
      the quantity is used up it falls short by at most (n+1)/2. */
  lemma CertifiedValueNearCommitted(s: State, item: Row)
    requires LedgerInv(s) && item in s.items && item.table == CommitmentLines && s.items[item].ceiling.Quantity?
    ensures var c := s.items[item].ceiling;
            var amount := LineValue(c.limit, s.items[item].rate);
            var value := Total(s.docs, SubcontractIpc, item, Amount(0));
            var n := PostedLines(s.docs, s.posted, SubcontractIpc, item);
            && 2 * (value - amount) <= n
            && (Total(s.docs, SubcontractIpc, item, c) == c.limit ==> 2 * (amount - value) <= n + 1)
  {
    var c, rate := s.items[item].ceiling, s.items[item].rate;
    LedgerNear(s, |s.posted|, SubcontractIpc, item);
    assert s.posted[..|s.posted|] == s.posted;
    var quantity := Total(s.docs, SubcontractIpc, item, c);
    var value := Total(s.docs, SubcontractIpc, item, Amount(0));
    assert quantity == PostedTotal(s.docs, s.posted, SubcontractIpc, item, c);
    assert value == PostedTotal(s.docs, s.posted, SubcontractIpc, item, Amount(0));
    assert CapsHold(s, item);
    NearCommitted(quantity, c.limit, rate, value, PostedLines(s.docs, s.posted, SubcontractIpc, item));
  }

  /** The owner certificate's previousCertifiedValue is rounded once from the running
      quantity; the line values it summarises were rounded one by one. The two figures
      differ by at most half a cent per earlier line, plus half a cent. */
  lemma PreviousValueNearEarlierValues(s: State, j: nat, k: nat)
    requires LedgerInv(s) && j < |s.posted| && s.docs[s.posted[j]].kind == OwnerIpc && k < |s.docs[s.posted[j]].lines|
    ensures var doc := s.docs[s.posted[j]];
            var earlier := Earlier(s, j, k, Amount(0));
            var n := PostedLines(s.docs, s.posted[..j], OwnerIpc, doc.lines[k].item) + LinesOn(doc.lines[..k], doc.lines[k].item);
            && |doc.snapshots| == |doc.lines|
            && 2 * (earlier - doc.snapshots[k].previousValue) <= n
            && 2 * (doc.snapshots[k].previousValue - earlier) <= n + 1
  {
    var doc := s.docs[s.posted[j]];
    assert CertificateOk(s, j) && Telescopes(s, j, k) && LinesOk(s.items, doc);
    assert AllPriced(s.items, doc.lines) && Priced(s.items, doc.lines[k]);
    EarlierIsNear(s, j, k);
  }

  lemma EarlierIsNear(s: State, j: nat, k: nat)
    requires LedgerInv(s) && j < |s.posted| && s.docs[s.posted[j]].kind == OwnerIpc && k < |s.docs[s.posted[j]].lines|
    requires s.docs[s.posted[j]].lines[k].item in s.items && !s.items[s.docs[s.posted[j]].lines[k].item].ceiling.Amount?
    ensures var doc, item := s.docs[s.posted[j]], s.docs[s.posted[j]].lines[k].item;
            Near(Earlier(s, j, k, s.items[item].ceiling), s.items[item].rate, Earlier(s, j, k, Amount(0)),
                 PostedLines(s.docs, s.posted[..j], OwnerIpc, item) + LinesOn(doc.lines[..k], item))
  {
    var doc, item := s.docs[s.posted[j]], s.docs[s.posted[j]].lines[k].item;
    var c := s.items[item].ceiling;
    LedgerNear(s, j, OwnerIpc, item);
    LinesNear(s.items, doc.lines[..k], item);
    NearAdd(PostedTotal(s.docs, s.posted[..j], OwnerIpc, item, c), Used(c, doc.lines[..k], item), s.items[item].rate,
            PostedTotal(s.docs, s.posted[..j], OwnerIpc, item, Amount(0)), Used(Amount(0), doc.lines[..k], item),
            PostedLines(s.docs, s.posted[..j], OwnerIpc, item), LinesOn(doc.lines[..k], item));
  }
}
