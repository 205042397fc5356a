// A purchase order or subcontract: its derived amounts over submit, approve and amend, and
// how the amount of a quantity line relates to what certificates pay for it
// (server/src/routes/commitments.ts, server/src/routes/subcontractIpcs.ts:183-206).
// Quantities are thousandths, amounts cents; a request's rate is an arbitrary decimal.
module Commitments {
  import opened Money
  import opened Reals

  datatype Option<T> = None | Some(value: T)

  datatype Status = Draft | Pending | Active | Cancelled

  /** What a request says about a line; the quantity is normalized to thousandths already. */
  datatype LineData = LineData(quantity: Option<nat>, rate: Option<real>, amount: Option<nat>)

  datatype Line = Line(quantity: Option<nat>, rate: Option<int>, amount: int)

  datatype State = State(status: Status, original: Option<int>, revised: Option<int>, lines: seq<Line>)

  datatype Outcome = Ok | Blocked | Conflict | NoLines | Unresolved | NotFound

  // ---- One line ----

  /** The scale-2 column of a rate. */
  function StoredRate(rate: real): int {
    (rate * 100.0 + 0.5).Floor
  }

  /** roundMoney(quantity * rate), with the rate as the request carries it. */
  function RawAmount(quantity: nat, rate: real): int {
    (Times(quantity as real, rate) / 10.0 + 0.5).Floor
  }

  function Resolve(data: LineData): Option<Line> {
    var rate := match data.rate case None => None case Some(r) => Some(StoredRate(r));
    if data.quantity.Some? && data.rate.Some?
    then Some(Line(data.quantity, rate, RawAmount(data.quantity.value, data.rate.value)))
    else if data.amount.Some? then Some(Line(None, rate, data.amount.value))
    else None
  }

  function ResolveAll(data: seq<LineData>): Option<seq<Line>> {
    if data == [] then Some([])
    else
      var n := |data| - 1;
      var init, last := ResolveAll(data[..n]), Resolve(data[n]);
      if init.Some? && last.Some? then Some(init.value + [last.value]) else None
  }

  function AmountsOf(lines: seq<Line>): seq<int> {
    seq(|lines|, k requires 0 <= k < |lines| => lines[k].amount)
  }

  // ---- The routes; `blocked` says that the contract is completed or terminated ----

  function AddLine(s: State, data: LineData): (State, Outcome) {
    if s.status != Draft then (s, Conflict)
    else match Resolve(data)
      case None => (s, Unresolved)
      case Some(line) => (s.(lines := s.lines + [line]), Ok)
  }

  function RemoveLine(s: State, k: nat): (State, Outcome) {
    if s.status != Draft then (s, Conflict)
    else if k >= |s.lines| then (s, NotFound)
    else (s.(lines := s.lines[..k] + s.lines[k + 1..]), Ok)
  }

  function Submit(s: State, blocked: bool): (State, Outcome) {
    if blocked then (s, Blocked)
    else if s.status != Draft then (s, Conflict)
    else if s.lines == [] then (s, NoLines)
    else
      var total := Sum(AmountsOf(s.lines));
      (State(Pending, Some(total), Some(total), s.lines), Ok)
  }

  function Approve(s: State, blocked: bool): (State, Outcome) {
    if blocked then (s, Blocked)
    else if s.status != Pending then (s, Conflict)
    else (s.(status := Active), Ok)
  }

  function Cancel(s: State): (State, Outcome) {
    if s.status != Draft && s.status != Pending then (s, Conflict) else (s.(status := Cancelled), Ok)
  }

  /** The total is recomputed from all lines, old and new. */
  function Amend(s: State, data: seq<LineData>, blocked: bool): (State, Outcome) {
    match ResolveAll(data)
    case None => (s, Unresolved)
    case Some(added) =>
      if blocked then (s, Blocked)
      else if s.status != Active then (s, Conflict)
      else (s.(lines := s.lines + added, revised := Some(Sum(AmountsOf(s.lines + added)))), Ok)
  }

  datatype Action =
    | DoAddLine(data: LineData)
    | DoRemoveLine(k: nat)
    | DoSubmit(blocked: bool)
    | DoApprove(blocked: bool)
    | DoCancel
    | DoAmend(lines: seq<LineData>, blocked: bool)

  function Step(s: State, a: Action): State {
    match a
    case DoAddLine(data) => AddLine(s, data).0
    case DoRemoveLine(k) => RemoveLine(s, k).0
    case DoSubmit(blocked) => Submit(s, blocked).0
    case DoApprove(blocked) => Approve(s, blocked).0
    case DoCancel => Cancel(s).0
    case DoAmend(lines, blocked) => Amend(s, lines, blocked).0
  }

  function Run(s: State, actions: seq<Action>): State {
    if actions == [] then s else Step(Run(s, actions[..|actions| - 1]), actions[|actions| - 1])
  }

  const EMPTY := State(Draft, None, None, [])

  // ---- The derived amounts never disagree with the lines ----

  predicate Inv(s: State) {
    && (s.status == Draft ==> s.original.None?)
    && (s.status == Pending || s.status == Active ==> s.original.Some?)
    && (s.original.Some? <==> s.revised.Some?)
    && (s.revised.Some? ==> s.revised.value == Sum(AmountsOf(s.lines)))
  }

  lemma {:induction false} RunKeepsInv(actions: seq<Action>)
    ensures Inv(Run(EMPTY, actions))
  {
    if actions != [] {
      RunKeepsInv(actions[..|actions| - 1]);
    }
  }

  /** What holds of every state after a submit that left `submitted`. */
  predicate Since(submitted: State, t: State) {
    && t.original == submitted.original && t.revised.Some? && t.status != Draft
    && submitted.lines <= t.lines
    && t.revised.value == Sum(AmountsOf(t.lines))
  }

  lemma {:induction false} RunSince(submitted: State, actions: seq<Action>)
    requires Since(submitted, submitted)
    ensures Since(submitted, Run(submitted, actions))
  {
    if actions != [] {
      RunSince(submitted, actions[..|actions| - 1]);
    }
  }

  /** From a submit on, whatever is approved, amended, cancelled or refused: the original
      amount stays the sum of the lines submitted, the revised amount is the sum of all
      lines, and the difference is exactly the lines amendments added. */
  lemma AmountsFollowLines(before: seq<Action>, blocked: bool, after: seq<Action>)
    requires Submit(Run(EMPTY, before), blocked).1 == Ok
    ensures var s := Run(EMPTY, before);
            var t := Run(Submit(s, blocked).0, after);
            && t.original == Some(Sum(AmountsOf(s.lines)))
            && t.revised == Some(Sum(AmountsOf(t.lines)))
            && s.lines <= t.lines
            && t.revised.value == t.original.value + Sum(AmountsOf(t.lines[|s.lines|..]))
  {
    var s := Run(EMPTY, before);
    var submitted := Submit(s, blocked).0;
    RunSince(submitted, after);
    var t := Run(submitted, after);
    var added := t.lines[|s.lines|..];
    SumConcat(AmountsOf(s.lines), AmountsOf(added));
    assert AmountsOf(t.lines) == AmountsOf(s.lines) + AmountsOf(added);
  }

  // ---- A line's amount against the certificates on it ----

  /** What n certificates of the given quantities pay in all: each at the stored rate,
      each rounded (resolveCurrentValue of the subcontract certificates). */
  function Certified(quantities: seq<nat>, rate: real): int
    requires rate >= 0.0
  {
    Sum(LineValues(quantities, StoredRate(rate)))
  }

  /** At most half a cent per certificate above the line's amount. */
  ghost predicate StaysWithin(quantities: seq<nat>, limit: nat, rate: real)
    requires rate >= 0.0
  {
    2 * Certified(quantities, rate) <= 2 * RawAmount(limit, rate) + |quantities|
  }

  /** At most that, and half a cent, below it, the whole quantity being certified. */
  ghost predicate UsesUp(quantities: seq<nat>, limit: nat, rate: real)
    requires rate >= 0.0
  {
    2 * RawAmount(limit, rate) <= 2 * Certified(quantities, rate) + |quantities| + 1
  }

  lemma RawAmountNear(quantity: nat, rate: real)
    ensures Times(quantity as real, rate) - 5.0 < 10.0 * RawAmount(quantity, rate) as real <= Times(quantity as real, rate) + 5.0
  {
  }

  lemma ProductInReals(a: int, b: int)
    ensures (a * b) as real == Times(a as real, b as real)
  {
  }

  lemma InReals(quantity: int, rate: int, n: nat, value: int)
    requires 2 * (quantity * rate) - 1000 * n <= 2000 * value <= 2 * (quantity * rate) + 1000 * n
    ensures var whole := Times(quantity as real, rate as real);
            whole - 500.0 * n as real <= 1000.0 * value as real <= whole + 500.0 * n as real
  {
    ProductInReals(quantity, rate);
  }

  lemma CertifiedNear(quantities: seq<nat>, rate: real)
    requires rate >= 0.0
    ensures var whole := Times(Sum(quantities) as real, StoredRate(rate) as real);
            && whole - 500.0 * |quantities| as real <= 1000.0 * Certified(quantities, rate) as real
            && 1000.0 * Certified(quantities, rate) as real <= whole + 500.0 * |quantities| as real
  {
    SplitLinesDrift(quantities, StoredRate(rate));
    InReals(Sum(quantities), StoredRate(rate), |quantities|, Certified(quantities, rate));
  }

  lemma {:induction false} SumNotNegative(quantities: seq<nat>)
    ensures Sum(quantities) >= 0
  {
    if quantities != [] {
      SumNotNegative(quantities[..|quantities| - 1]);
    }
  }

  lemma Scale(quantity: real, rate: real)
    ensures Times(quantity, 100.0 * rate) == 100.0 * Times(quantity, rate)
  {
  }

  lemma NotRoundedUpStaysWithin(quantities: seq<nat>, limit: nat, rate: real)
    requires rate >= 0.0 && StoredRate(rate) as real <= 100.0 * rate && Sum(quantities) <= limit
    ensures StaysWithin(quantities, limit, rate)
  {
    var c := StoredRate(rate) as real;
    SumNotNegative(quantities);
    CertifiedNear(quantities, rate);
    RawAmountNear(limit, rate);
    TimesAtMost(Sum(quantities) as real, limit as real, c);
    TimesAtMost(c, 100.0 * rate, limit as real);
    Scale(limit as real, rate);
    assert Times(Sum(quantities) as real, c) <= Times(limit as real, c);
  }

  lemma NotRoundedDownUsesUp(quantities: seq<nat>, rate: real)
    requires rate >= 0.0 && StoredRate(rate) as real >= 100.0 * rate
    ensures Sum(quantities) >= 0 && UsesUp(quantities, Sum(quantities), rate)
  {
    var c := StoredRate(rate) as real;
    SumNotNegative(quantities);
    var whole: nat := Sum(quantities);
    CertifiedNear(quantities, rate);
    RawAmountNear(whole, rate);
    TimesAtMost(100.0 * rate, c, whole as real);
    Scale(whole as real, rate);
  }

  lemma Difference(quantity: real, a: real, b: real)
    ensures Times(quantity, a - b) == Times(quantity, a) - Times(quantity, b)
  {
  }

  /** A quantity so large that one certificate of it all shows a rate rounded up. */
  lemma RoundedUpExceeds(rate: real) returns (quantity: nat)
    requires rate >= 0.0 && StoredRate(rate) as real > 100.0 * rate
    ensures Sum([quantity]) == quantity && !StaysWithin([quantity], quantity, rate)
  {
    var c := StoredRate(rate) as real;
    quantity := Outweighing(2000.0, c - 100.0 * rate);
    SumOne(quantity);
    CertifiedNear([quantity], rate);
    RawAmountNear(quantity, rate);
    Difference(quantity as real, c, 100.0 * rate);
    Scale(quantity as real, rate);
  }

  lemma RoundedDownFallsShort(rate: real) returns (quantity: nat)
    requires rate >= 0.0 && StoredRate(rate) as real < 100.0 * rate
    ensures Sum([quantity]) == quantity && !UsesUp([quantity], quantity, rate)
  {
    var c := StoredRate(rate) as real;
    quantity := Outweighing(2000.0, 100.0 * rate - c);
    SumOne(quantity);
    CertifiedNear([quantity], rate);
    RawAmountNear(quantity, rate);
    Difference(quantity as real, 100.0 * rate, c);
    Scale(quantity as real, rate);
  }

  /** However the quantity is split over certificates, they never pay more than the line's
      amount by over half a cent each, exactly when storing the rate did not round it up. */
  lemma StaysWithinIff(rate: real)
    requires rate >= 0.0
    ensures (forall quantities: seq<nat>, limit: nat :: Sum(quantities) <= limit ==> StaysWithin(quantities, limit, rate))
        <==> StoredRate(rate) as real <= 100.0 * rate
  {
    if StoredRate(rate) as real <= 100.0 * rate {
      forall quantities: seq<nat>, limit: nat | Sum(quantities) <= limit
        ensures StaysWithin(quantities, limit, rate)
      {
        NotRoundedUpStaysWithin(quantities, limit, rate);
      }
    } else {
      var quantity := RoundedUpExceeds(rate);
    }
  }

  /** And the line's amount is paid out to within that, whatever the split, exactly when the
      stored rate is the rate of the request: a whole number of cents. */
  lemma UsedUpIff(rate: real)
    requires rate >= 0.0
    ensures (forall quantities: seq<nat>, limit: nat :: Sum(quantities) == limit ==>
               StaysWithin(quantities, limit, rate) && UsesUp(quantities, limit, rate))
        <==> StoredRate(rate) as real == 100.0 * rate
  {
    var c := StoredRate(rate) as real;
    if c == 100.0 * rate {
      forall quantities: seq<nat>, limit: nat | Sum(quantities) == limit
        ensures StaysWithin(quantities, limit, rate) && UsesUp(quantities, limit, rate)
      {
        NotRoundedUpStaysWithin(quantities, limit, rate);
        NotRoundedDownUsesUp(quantities, rate);
      }
    } else if c > 100.0 * rate {
      var quantity := RoundedUpExceeds(rate);
    } else {
      var quantity := RoundedDownFallsShort(rate);
    }
  }

  /** Concrete line: 1000 units at 0.005 are a commitment of 5.00, and one certificate for
      them pays 10.00. */
  lemma HalfCentRateDoubles()
    ensures Resolve(LineData(Some(1000000), Some(0.005), None)) == Some(Line(Some(1000000), Some(1), 500))
    ensures Certified([1000000], 0.005) == 1000
  {
    assert [1000000][..0] == [];
    RoundDivUnique(1000000 * 1, 1000, 1000);
  }
}
