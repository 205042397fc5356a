// One commitment and its lines, updated in place by server/src/routes/commitments.ts.
module CommitmentTables {
  import opened Commitments
  import opened Money
  import opened Reals

  // ---- What a stored line says of the one requested ----

  /** A quantity with a rate, or else an amount. */
  predicate Resolvable(data: LineData)
  {
    (data.quantity.Some? && data.rate.Some?) || data.amount.Some?
  }

  /** The whole number nearest to a value, a tie going up. */
  predicate Nearest(whole: int, value: real)
  {
    whole as real - 0.5 <= value < whole as real + 0.5
  }

  /** The rate in the nearest cents; the amount the nearest cents of quantity times the rate as
      requested, or the amount requested. */
  predicate Stores(line: Line, data: LineData)
  {
    && (line.rate.Some? <==> data.rate.Some?)
    && (data.rate.Some? ==> Nearest(line.rate.value, data.rate.value * 100.0))
    && if data.quantity.Some? && data.rate.Some?
       then line.quantity == data.quantity && Nearest(line.amount, Times(data.quantity.value as real, data.rate.value) / 10.0)
       else line.quantity.None? && data.amount.Some? && line.amount == data.amount.value
  }

  lemma ResolveStores(data: LineData)
    ensures Resolve(data).Some? <==> Resolvable(data)
    ensures Resolve(data).Some? ==> Stores(Resolve(data).value, data)
  {
  }

  lemma {:induction false} ResolveAllStores(data: seq<LineData>)
    ensures ResolveAll(data).Some? <==> forall k :: 0 <= k < |data| ==> Resolvable(data[k])
    ensures ResolveAll(data).Some? ==>
              |ResolveAll(data).value| == |data| && forall k :: 0 <= k < |data| ==> Stores(ResolveAll(data).value[k], data[k])
  {
    if data != [] {
      var n := |data| - 1;
      ResolveAllStores(data[..n]);
      ResolveStores(data[n]);
      assert data == data[..n] + [data[n]];
      assert (forall k :: 0 <= k < |data| ==> Resolvable(data[k])) <==>
          (forall k :: 0 <= k < n ==> Resolvable(data[..n][k])) && Resolvable(data[n]);
    }
  }

  /** The old lines stay, and each requested line is stored after them, in order. */
  ghost predicate Adds(before: seq<Line>, data: seq<LineData>, after: seq<Line>)
  {
    && |after| == |before| + |data| && before <= after
    && forall k :: 0 <= k < |data| ==> Stores(after[|before| + k], data[k])
  }

  lemma AmendEffect(s: State, data: seq<LineData>, blocked: bool)
    requires Inv(s)
    ensures var (t, outcome) := Amend(s, data, blocked);
            && Inv(t) && t.status == s.status && t.original == s.original
            && (outcome == Ok <==> !blocked && s.status == Active && forall k :: 0 <= k < |data| ==> Resolvable(data[k]))
            && (outcome != Ok ==> t == s)
            && (outcome == Ok ==>
                  && Adds(s.lines, data, t.lines) && s.revised.Some?
                  && t.revised == Some(Sum(AmountsOf(t.lines)))
                  && t.revised == Some(s.revised.value + Sum(AmountsOf(t.lines[|s.lines|..]))))
  {
    ResolveAllStores(data);
    var resolved := ResolveAll(data);
    if resolved.Some? {
      AmountsJoin(s.lines, resolved.value);
      assert (s.lines + resolved.value)[|s.lines|..] == resolved.value;
    }
  }

  lemma AmountsJoin(a: seq<Line>, b: seq<Line>)
    ensures Sum(AmountsOf(a + b)) == Sum(AmountsOf(a)) + Sum(AmountsOf(b))
  {
    SumConcat(AmountsOf(a), AmountsOf(b));
    assert AmountsOf(a + b) == AmountsOf(a) + AmountsOf(b);
  }

  class Commitment {
    var status: Status
    var original: Option<int>
    var revised: Option<int>
    var lines: seq<Line>

    function Contents(): State
      reads this
    {
      State(status, original, revised, lines)
    }

    ghost predicate Valid()
      reads this
    {
      Inv(Contents())
    }

    constructor ()
      ensures Valid() && Contents() == EMPTY
    {
      status, original, revised, lines := Draft, None, None, [];
    }

    /** sumMoney over the current lines. */
    method LinesTotal() returns (total: int)
      ensures total == Sum(AmountsOf(lines))
    {
      total := 0;
      for k := 0 to |lines|
        invariant total == Sum(AmountsOf(lines)[..k])
      {
        assert AmountsOf(lines)[..k + 1][..k] == AmountsOf(lines)[..k];
        total := total + lines[k].amount;
      }
      assert AmountsOf(lines)[..|lines|] == AmountsOf(lines);
    }

    method AddItem(data: LineData) returns (outcome: Outcome)
      requires Valid()
      modifies this`lines
      ensures Valid() && (Contents(), outcome) == AddLine(old(Contents()), data)
      ensures outcome == Ok <==> status == Draft && Resolvable(data)
      ensures if outcome == Ok then Adds(old(lines), [data], lines) else lines == old(lines)
    {
      ResolveStores(data);
      if status != Draft {
        return Conflict;
      }
      var line := Resolve(data);
      if line.None? {
        return Unresolved;
      }
      lines := lines + [line.value];
      outcome := Ok;
    }

    method RemoveItem(k: nat) returns (outcome: Outcome)
      requires Valid()
      modifies this`lines
      ensures Valid() && (Contents(), outcome) == RemoveLine(old(Contents()), k)
      ensures outcome == Ok <==> status == Draft && k < |old(lines)|
      ensures lines == if outcome == Ok then old(lines)[..k] + old(lines)[k + 1..] else old(lines)
    {
      if status != Draft {
        return Conflict;
      }
      if k >= |lines| {
        return NotFound;
      }
      lines := lines[..k] + lines[k + 1..];
      outcome := Ok;
    }

    /** POST /approve: only the status changes. */
    method ApproveCommitment(blocked: bool) returns (outcome: Outcome)
      requires Valid()
      modifies this`status
      ensures Valid() && (Contents(), outcome) == Approve(old(Contents()), blocked)
      ensures outcome == Ok <==> !blocked && old(status) == Pending
      ensures status == if outcome == Ok then Active else old(status)
    {
      if blocked {
        return Blocked;
      }
      if status != Pending {
        return Conflict;
      }
      status := Active;
      outcome := Ok;
    }

    /** POST /cancel: before approval only. */
    method CancelCommitment() returns (outcome: Outcome)
      requires Valid()
      modifies this`status
      ensures Valid() && (Contents(), outcome) == Cancel(old(Contents()))
      ensures outcome == Ok <==> old(status) == Draft || old(status) == Pending
      ensures status == if outcome == Ok then Cancelled else old(status)
    {
      if status != Draft && status != Pending {
        return Conflict;
      }
      status := Cancelled;
      outcome := Ok;
    }

    /** POST /submit: both amounts are frozen from the lines read under the lock. */
    method SubmitForApproval(blocked: bool) returns (outcome: Outcome)
      requires Valid()
      modifies this
      ensures Valid() && (Contents(), outcome) == Submit(old(Contents()), blocked)
      ensures outcome == Ok ==> original == revised == Some(Sum(AmountsOf(lines)))
      ensures outcome == Ok <==> !blocked && old(status) == Draft && lines != []
      ensures lines == old(lines)
      ensures outcome == Ok ==> status == Pending
      ensures outcome != Ok ==> status == old(status) && original == old(original) && revised == old(revised)
    {
      if blocked {
        return Blocked;
      }
      if status != Draft {
        return Conflict;
      }
      if lines == [] {
        return NoLines;
      }
      var total := LinesTotal();
      status, original, revised := Pending, Some(total), Some(total);
      outcome := Ok;
    }

    /** POST /amend: the lines are resolved first, the total recomputed from the table. */
    method AmendLines(data: seq<LineData>, blocked: bool) returns (outcome: Outcome)
      requires Valid()
      modifies this`lines, this`revised
      ensures Valid() && (Contents(), outcome) == Amend(old(Contents()), data, blocked)
      ensures outcome == Ok ==> original == old(original) && revised == Some(Sum(AmountsOf(lines)))
      ensures outcome == Ok <==> !blocked && status == Active && forall k :: 0 <= k < |data| ==> Resolvable(data[k])
      ensures outcome == Ok ==> Adds(old(lines), data, lines)
      ensures outcome == Ok ==> old(revised).Some? && revised == Some(old(revised).value + Sum(AmountsOf(lines[|old(lines)|..])))
      ensures outcome != Ok ==> lines == old(lines) && revised == old(revised)
    {
      ghost var before := Contents();
      outcome := AppendLines(data, blocked);
      AmendEffect(before, data, blocked);
    }

    method AppendLines(data: seq<LineData>, blocked: bool) returns (outcome: Outcome)
      modifies this`lines, this`revised
      ensures (Contents(), outcome) == Amend(old(Contents()), data, blocked)
    {
      var resolved := ResolveLines(data);
      if resolved.None? {
        return Unresolved;
      }
      if blocked {
        return Blocked;
      }
      if status != Active {
        return Conflict;
      }
      lines := lines + resolved.value;
      var total := LinesTotal();
      revised := Some(total);
      outcome := Ok;
    }
  }

  method ResolveLines(data: seq<LineData>) returns (resolved: Option<seq<Line>>)
    ensures resolved == ResolveAll(data)
  {
    var done := [];
    for k := 0 to |data|
      invariant ResolveAll(data[..k]) == Some(done)
    {
      assert data[..k + 1][..k] == data[..k];
      var line := Resolve(data[k]);
      if line.None? {
        UnresolvedStays(data, k + 1);
        return None;
      }
      done := done + [line.value];
    }
    assert data[..|data|] == data;
    resolved := Some(done);
  }

  lemma {:induction false} UnresolvedStays(data: seq<LineData>, k: nat)
    requires k <= |data| && ResolveAll(data[..k]).None?
    ensures ResolveAll(data).None?
    decreases |data|
  {
    if k < |data| {
      assert data[..|data| - 1][..k] == data[..k];
      UnresolvedStays(data[..|data| - 1], k);
    } else {
      assert data[..k] == data;
    }
  }
}
