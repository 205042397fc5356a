// Measurements, owner IPCs and subcontract IPCs: what one database step of any
// of their routes does (server/src/routes/measurements.ts, ipcs.ts,
// subcontractIpcs.ts). Approving a measurement and certifying either kind of IPC
// are transactions of several steps, one per row lock, and interleave freely.
module CertificationModel {
  import opened Money
  import opened RowLocks

  datatype Option<+T> = None | Some(value: T)

  datatype Kind = Measurement | OwnerIpc | SubcontractIpc

  datatype Status = Draft | Submitted | Approved | Certified | Rejected

  /** BOQ items carry a quantity or none; commitment lines a quantity or a bare amount. */
  datatype Ceiling = Unlimited | Quantity(limit: nat) | Amount(limit: nat)

  datatype Item = Item(ceiling: Ceiling, rate: nat)

  datatype Line = Line(item: Row, quantity: Option<nat>, rate: nat, value: nat)

  /** The columns that stay NULL until a certificate is certified. */
  datatype Snapshot = Snapshot(
    previousQuantity: Option<nat>,
    cumulativeQuantity: Option<nat>,
    previousValue: nat,
    cumulativeValue: Option<nat>)

  datatype Totals = Totals(percent: nat, gross: nat, retention: nat, net: int)

  datatype Document = Document(
    kind: Kind,
    parent: nat,
    status: Status,
    lines: seq<Line>,
    snapshots: seq<Snapshot>,
    totals: Option<Totals>)

  /** What a transaction read when it locked an item: units and value already posted. */
  datatype Base = Base(units: nat, value: nat)

  /** An approve or certify transaction on document `doc`, holding `taken` locks. */
  datatype Tx = Tx(doc: nat, taken: nat, base: map<Row, Base>, percent: nat, done: bool)

  datatype State = State(
    items: map<Row, Item>,
    percents: map<Row, nat>,
    docs: seq<Document>,
    posted: seq<nat>,
    txs: seq<Tx>)

  // ---- Columns derived from lines ----

  function TableOf(kind: Kind): Table
  {
    match kind
    case Measurement => Measurements
    case OwnerIpc => Ipcs
    case SubcontractIpc => SubcontractIpcs
  }

  function ItemTable(kind: Kind): Table
  {
    if kind == SubcontractIpc then CommitmentLines else BoqItems
  }

  function ParentRow(doc: Document): Row
  {
    Row(if doc.kind == SubcontractIpc then Commitments else Contracts, doc.parent)
  }

  predicate Posted(doc: Document)
  {
    doc.status == if doc.kind == Measurement then Approved else Certified
  }

  /** The status from which the posting transaction may start. */
  function Required(kind: Kind): Status
  {
    if kind == Measurement then Submitted else Approved
  }

  predicate Editable(status: Status)
  {
    status == Draft || status == Rejected
  }

  /** What a line takes from a ceiling: money for an amount-only ceiling, quantity otherwise. */
  function Units(ceiling: Ceiling, line: Line): nat
  {
    if ceiling.Amount? then line.value
    else if line.quantity.Some? then line.quantity.value
    else 0
  }

  function Used(ceiling: Ceiling, lines: seq<Line>, item: Row): nat
  {
    if lines == [] then 0
    else
      var last := lines[|lines| - 1];
      Used(ceiling, lines[..|lines| - 1], item) + if last.item == item then Units(ceiling, last) else 0
  }

  function Contribution(doc: Document, kind: Kind, item: Row, ceiling: Ceiling): nat
  {
    if doc.kind == kind && Posted(doc) then Used(ceiling, doc.lines, item) else 0
  }

  /** The ledger query: the sum over every posted document of one kind. */
  function Total(docs: seq<Document>, kind: Kind, item: Row, ceiling: Ceiling): nat
  {
    if docs == [] then 0
    else Total(docs[..|docs| - 1], kind, item, ceiling) + Contribution(docs[|docs| - 1], kind, item, ceiling)
  }

  function CeilingOf(s: State, item: Row): Ceiling
  {
    if item in s.items then s.items[item].ceiling else Unlimited
  }

  function PercentAt(s: State, parent: Row): nat
  {
    if parent in s.percents then s.percents[parent] else 0
  }

  function ItemIds(lines: seq<Line>): (ids: seq<nat>)
    ensures |ids| == |lines|
    ensures forall k :: 0 <= k < |lines| ==> ids[k] == lines[k].item.id
  {
    seq(|lines|, k requires 0 <= k < |lines| => lines[k].item.id)
  }

  // ---- Lock plans ----

  function Plan(d: nat, doc: Document): seq<Row>
  {
    match doc.kind
    case Measurement => ApprovePlan(d, ItemIds(doc.lines))
    case OwnerIpc => CertifyPlan(d, doc.parent, ItemIds(doc.lines))
    case SubcontractIpc => CertifySubcontractPlan(d, doc.parent, ItemIds(doc.lines))
  }

  function PlanOf(s: State, tx: Tx): seq<Row>
  {
    if tx.doc < |s.docs| then Plan(tx.doc, s.docs[tx.doc]) else []
  }

  predicate Holding(s: State, tx: Tx, row: Row)
  {
    !tx.done && tx.taken <= |PlanOf(s, tx)| && row in PlanOf(s, tx)[..tx.taken]
  }

  predicate RowFree(s: State, row: Row)
  {
    forall t :: 0 <= t < |s.txs| ==> !Holding(s, s.txs[t], row)
  }

  function FirstItem(kind: Kind): nat
  {
    if kind == Measurement then 1 else 2
  }

  // ---- The posting transaction ----

  function BaseOf(s: State, kind: Kind, item: Row): Base
  {
    Base(Total(s.docs, kind, item, CeilingOf(s, item)), Total(s.docs, kind, item, Amount(0)))
  }

  /** The overrun check made right after locking an item. */
  predicate Fits(s: State, kind: Kind, item: Row, already: nat, requested: nat)
  {
    match kind
    case Measurement => CeilingOf(s, item).Unlimited? || already + requested <= CeilingOf(s, item).limit
    case OwnerIpc => already + requested <= Total(s.docs, Measurement, item, CeilingOf(s, item))
    case SubcontractIpc => CeilingOf(s, item).Unlimited? || already + requested <= CeilingOf(s, item).limit
  }

  /** The frozen columns of line `k`: earlier lines of the same certificate on the
      same item count as already certified. */
  function Freeze(items: map<Row, Item>, base: map<Row, Base>, kind: Kind, lines: seq<Line>, k: nat): Snapshot
    requires k < |lines|
  {
    var line := lines[k];
    var start := if line.item in base then base[line.item] else Base(0, 0);
    var ceiling := if line.item in items then items[line.item].ceiling else Unlimited;
    var quantity := start.units + Used(ceiling, lines[..k], line.item);
    if kind == OwnerIpc then
      Snapshot(Some(quantity), Some(quantity + Units(ceiling, line)), LineValue(quantity, line.rate), None)
    else
      var value := start.value + Used(Amount(0), lines[..k], line.item);
      if ceiling.Amount? then Snapshot(None, None, value, Some(value + line.value))
      else Snapshot(Some(quantity), Some(quantity + Units(ceiling, line)), value, Some(value + line.value))
  }

  function FreezeAll(items: map<Row, Item>, base: map<Row, Base>, kind: Kind, lines: seq<Line>): (snapshots: seq<Snapshot>)
    ensures |snapshots| == |lines|
    ensures forall k :: 0 <= k < |lines| ==> snapshots[k] == Freeze(items, base, kind, lines, k)
  {
    seq(|lines|, k requires 0 <= k < |lines| => Freeze(items, base, kind, lines, k))
  }

  function Gross(lines: seq<Line>): nat
  {
    if lines == [] then 0 else Gross(lines[..|lines| - 1]) + lines[|lines| - 1].value
  }

  function TotalsOf(lines: seq<Line>, percent: nat): Totals
  {
    var gross := Gross(lines);
    var retention := PercentOf(gross, percent);
    Totals(percent, gross, retention, gross - retention)
  }

  /** The document as the last statement of its transaction leaves it. */
  function PostedDocument(s: State, tx: Tx): Document
    requires tx.doc < |s.docs|
  {
    var doc := s.docs[tx.doc];
    if doc.kind == Measurement then doc.(status := Approved)
    else
      doc.(status := Certified,
           snapshots := FreezeAll(s.items, tx.base, doc.kind, doc.lines),
           totals := Some(TotalsOf(doc.lines, tx.percent)))
  }

  // ---- Steps ----

  datatype Action =
    | AddItem(item: Row, ceiling: Ceiling, rate: nat)
    | SetPercent(row: Row, percent: nat)
    | AddDocument(kind: Kind, parent: nat)
    | AddLine(doc: nat, item: Row, input: nat)
    | RemoveLine(doc: nat, k: nat)
    | Submit(doc: nat)
    | Review(doc: nat, accept: bool)
    | Begin(doc: nat)
    | Advance(t: nat)
    | Commit(t: nat)
    | Abort(t: nat)

  /** A document whose row no transaction has locked. */
  predicate Unlocked(s: State, d: nat)
  {
    d < |s.docs| && RowFree(s, Row(TableOf(s.docs[d].kind), d))
  }

  function NewLine(entry: Item, item: Row, input: nat): Line
  {
    if entry.ceiling.Amount? then Line(item, None, 0, input)
    else Line(item, Some(input), entry.rate, LineValue(input, entry.rate))
  }

  function SetDoc(s: State, d: nat, doc: Document): State
    requires d < |s.docs|
  {
    s.(docs := s.docs[d := doc])
  }

  function SetTx(s: State, t: nat, tx: Tx): State
    requires t < |s.txs|
  {
    s.(txs := s.txs[t := tx])
  }

  /** Takes the next lock of the plan and does the work that follows it. */
  function AdvanceTx(s: State, t: nat): State
    requires t < |s.txs|
  {
    var tx := s.txs[t];
    var plan := PlanOf(s, tx);
    if tx.done || tx.taken >= |plan| || !RowFree(s, plan[tx.taken]) then s
    else
      var kind := s.docs[tx.doc].kind;
      var row := plan[tx.taken];
      if tx.taken == 0 then
        if s.docs[tx.doc].status != Required(kind) then SetTx(s, t, tx.(done := true))
        else SetTx(s, t, tx.(taken := 1))
      else if tx.taken < FirstItem(kind) then
        SetTx(s, t, tx.(taken := tx.taken + 1, percent := PercentAt(s, row)))
      else
        var base := BaseOf(s, kind, row);
        if !Fits(s, kind, row, base.units, Used(CeilingOf(s, row), s.docs[tx.doc].lines, row))
        then SetTx(s, t, tx.(done := true))
        else SetTx(s, t, tx.(taken := tx.taken + 1, base := tx.base[row := base]))
  }

  predicate ReadyToCommit(s: State, t: nat)
  {
    && t < |s.txs|
    && !s.txs[t].done
    && s.txs[t].doc < |s.docs|
    && s.txs[t].taken == |PlanOf(s, s.txs[t])|
  }

  function CommitTx(s: State, t: nat): State
    requires ReadyToCommit(s, t)
  {
    var tx := s.txs[t];
    var doc := PostedDocument(s, tx);
    var ended := SetTx(s, t, tx.(done := true));
    if doc.kind != Measurement && doc.totals.Some? && doc.totals.value.net < 0 then ended
    else SetDoc(ended, tx.doc, doc).(posted := s.posted + [tx.doc])
  }

  /** One step of the database; a step whose guard fails changes nothing. */
  function Step(s: State, a: Action): State
  {
    match a
    case AddItem(item, ceiling, rate) =>
      if item in s.items || (item.table == BoqItems && ceiling.Amount?)
         || (item.table == CommitmentLines && ceiling.Unlimited?) || item.table.Rank() < BoqItems.Rank() then s
      else s.(items := s.items[item := Item(ceiling, rate)])
    case SetPercent(row, percent) =>
      if RowFree(s, row) then s.(percents := s.percents[row := percent]) else s
    case AddDocument(kind, parent) =>
      s.(docs := s.docs + [Document(kind, parent, Draft, [], [], None)])
    case AddLine(d, item, input) =>
      if !Unlocked(s, d) || !Editable(s.docs[d].status) || item !in s.items || item.table != ItemTable(s.docs[d].kind) then s
      else SetDoc(s, d, s.docs[d].(lines := s.docs[d].lines + [NewLine(s.items[item], item, input)]))
    case RemoveLine(d, k) =>
      if !Unlocked(s, d) || !Editable(s.docs[d].status) || k >= |s.docs[d].lines| then s
      else SetDoc(s, d, s.docs[d].(lines := s.docs[d].lines[..k] + s.docs[d].lines[k + 1..]))
    case Submit(d) =>
      if !Unlocked(s, d) || !Editable(s.docs[d].status) || s.docs[d].lines == [] then s
      else SetDoc(s, d, s.docs[d].(status := Submitted))
    case Review(d, accept) =>
      if !Unlocked(s, d) || s.docs[d].status != Submitted || (accept && s.docs[d].kind == Measurement) then s
      else SetDoc(s, d, s.docs[d].(status := if accept then Approved else Rejected))
    case Begin(d) =>
      if d < |s.docs| then s.(txs := s.txs + [Tx(d, 0, map[], 0, false)]) else s
    case Advance(t) =>
      if t < |s.txs| then AdvanceTx(s, t) else s
    case Commit(t) =>
      if ReadyToCommit(s, t) then CommitTx(s, t) else s
    case Abort(t) =>
      if t < |s.txs| then SetTx(s, t, s.txs[t].(done := true)) else s
  }

  const INITIAL := State(map[], map[], [], [], [])

  function Run(actions: seq<Action>): State
  {
    if actions == [] then INITIAL
    else Step(Run(actions[..|actions| - 1]), actions[|actions| - 1])
  }
}
