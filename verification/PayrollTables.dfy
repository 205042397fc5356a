// The payroll, allocation, expense and posting tables, updated in place by the routes of
// server/src/routes/payrollPeriods.ts, laborCostPostings.ts, laborAllocations.ts and budget.ts.
module PayrollTables {
  import opened Payroll
  import opened PayrollProofs
  import opened PayrollEffects

  /** The opposite amount on the same project, and a row that names the posting it takes back. */
  predicate TakesBack(before: State, posting: nat, after: State)
  {
    && posting < |before.postings|
    && var row := before.postings[posting];
       && row.expense < |before.expenses| && before.expenses[row.expense].Some?
       && var booked := before.expenses[row.expense].value;
          && after.expenses == before.expenses + [Some(Expense(booked.project, -booked.amount))]
          && after.postings == before.postings + [Row(row.period, row.allocation, |before.expenses|, Reversal(posting))]
  }

  class Books {
    var periods: map<nat, Status>
    var allocations: seq<Option<Allocation>>
    var expenses: seq<Option<Expense>>
    var postings: seq<Row>

    function Contents(): State
      reads this
    {
      State(periods, allocations, expenses, postings)
    }

    ghost predicate Valid()
      reads this
    {
      Inv(Contents()) && Balanced(Contents())
    }

    constructor ()
      ensures Valid() && Contents() == EMPTY
    {
      periods, allocations, expenses, postings := map[], [], [], [];
    }

    method CreatePeriod(period: nat)
      requires Valid() && period !in periods
      modifies this`periods
      ensures Valid() && periods == old(periods)[period := Draft]
    {
      PeriodChangeKeeps(Contents(), period, Draft);
      periods := periods[period := Draft];
    }

    /** POST /:id/submit: a draft or rejected period that has records. */
    method SubmitPeriod(period: nat, hasRecords: bool) returns (outcome: Outcome)
      requires Valid()
      modifies this`periods
      ensures Valid() && (Contents(), outcome) == Submit(old(Contents()), period, hasRecords)
      ensures outcome == Ok <==> period in old(periods) && (old(periods)[period] == Draft || old(periods)[period] == Rejected) && hasRecords
      ensures periods == if outcome == Ok then old(periods)[period := Submitted] else old(periods)
    {
      if period !in periods {
        return NotFound;
      }
      if periods[period] != Draft && periods[period] != Rejected {
        return Conflict;
      }
      if !hasRecords {
        return NoRecords;
      }
      PeriodChangeKeeps(Contents(), period, Submitted);
      periods := periods[period := Submitted];
      outcome := Ok;
    }

    /** POST /:id/approve and /:id/reject. */
    method ReviewPeriod(period: nat, approve: bool) returns (outcome: Outcome)
      requires Valid()
      modifies this`periods
      ensures Valid() && (Contents(), outcome) == Review(old(Contents()), period, if approve then Approved else Rejected)
      ensures outcome == Ok <==> period in old(periods) && old(periods)[period] == Submitted
      ensures periods == if outcome == Ok then old(periods)[period := if approve then Approved else Rejected] else old(periods)
    {
      if period !in periods {
        return NotFound;
      }
      if periods[period] != Submitted {
        return Conflict;
      }
      PeriodChangeKeeps(Contents(), period, if approve then Approved else Rejected);
      periods := periods[period := if approve then Approved else Rejected];
      outcome := Ok;
    }

    /** POST /:id/post: one expense and one posting per allocation of an approved period. */
    method PostPeriod(period: nat) returns (outcome: Outcome)
      requires Valid()
      modifies this
      ensures Valid() && PostsPeriod(old(Contents()), period, outcome, Contents())
      ensures outcome == Ok <==>
                period in old(periods) && old(periods)[period] == Approved && HasAllocation(old(Contents()), period)
      ensures (Contents(), outcome) == Post(old(Contents()), period)
      ensures outcome == Ok ==> Ledger(postings, expenses, OfPeriod(period)) == Preview(old(allocations), period)
    {
      ghost var before := Contents();
      outcome := BookPeriod(period);
      PostKeeps(before, period);
      PostEffect(before, period);
      if outcome == Ok {
        PostBooksPreview(before, period);
      }
    }

    method BookPeriod(period: nat) returns (outcome: Outcome)
      modifies this
      ensures (Contents(), outcome) == Post(old(Contents()), period)
    {
      if period !in periods {
        return NotFound;
      }
      if periods[period] != Approved {
        return Conflict;
      }
      ghost var before := Contents();
      if forall k :: 0 <= k < |allocations| ==> !ToPost(Contents(), period, k) {
        return NoAllocations;
      }
      var already := postings;
      periods := periods[period := Posted];
      ghost var start := Contents();
      for k := 0 to |allocations|
        invariant allocations == before.allocations
        invariant Contents() == PostUpTo(start, period, k)
      {
        var a := allocations[k];
        if a.Some? && a.value.period == period && !HasPosting(already, k) {
          postings := postings + [Row(period, k, |expenses|, Posting)];
          expenses := expenses + [Some(Expense(a.value.project, a.value.amount))];
        }
      }
      outcome := Ok;
    }

    method FindReversal(posting: nat) returns (found: bool)
      ensures found <==> HasReversal(postings, posting)
    {
      for i := 0 to |postings|
        invariant forall j :: 0 <= j < i ==> postings[j].kind != Reversal(posting)
      {
        if postings[i].kind == Reversal(posting) {
          return true;
        }
      }
      found := false;
    }

    /** POST /:id/reverse: a negative expense and a reversal row, nothing rewritten. */
    method ReversePosting(posting: nat) returns (outcome: Outcome)
      requires Valid()
      modifies this`expenses, this`postings
      ensures Valid()
      ensures (Contents(), outcome) == Reverse(old(Contents()), posting)
      ensures old(postings) <= postings && old(expenses) <= expenses
      ensures outcome == Ok <==> OffersReversal(old(postings), posting)
      ensures outcome == Ok <==> posting < |old(postings)| && old(postings)[posting].kind == Posting
                                 && forall i :: 0 <= i < |old(postings)| ==> old(postings)[i].kind != Reversal(posting)
      ensures outcome != Ok ==> postings == old(postings) && expenses == old(expenses)
      ensures outcome == Ok ==> TakesBack(old(Contents()), posting, Contents())
    {
      ReverseKeeps(Contents(), posting);
      OffersExactlyReversible(Contents(), posting);
      ghost var next := Reverse(Contents(), posting);
      if posting >= |postings| {
        return NotFound;
      }
      var row := postings[posting];
      if row.kind != Posting {
        return NotAPosting;
      }
      var reversed := FindReversal(posting);
      if reversed {
        return AlreadyReversed;
      }
      assert RowOk(Contents(), row);
      var original := expenses[row.expense].value;
      postings := postings + [Row(row.period, row.allocation, |expenses|, Reversal(posting))];
      expenses := expenses + [Some(Expense(original.project, -original.amount))];
      outcome := Ok;
      assert Contents() == next.0;
    }

    /** DELETE /expenses/:expenseId: refused by the foreign key exactly for a labor-posted expense. */
    method Delete(expense: nat) returns (outcome: Outcome)
      requires Valid()
      modifies this`expenses
      ensures Valid()
      ensures (Contents(), outcome) == DeleteExpense(old(Contents()), expense)
      ensures outcome == Ok <==> expense < |old(expenses)| && old(expenses)[expense].Some?
                                 && forall i :: 0 <= i < |postings| ==> postings[i].expense != expense
      ensures expenses == if outcome == Ok then old(expenses)[expense := None] else old(expenses)
    {
      DeleteExpenseKeeps(Contents(), expense);
      if expense >= |expenses| || expenses[expense].None? {
        return NotFound;
      }
      for i := 0 to |postings|
        invariant forall j :: 0 <= j < i ==> postings[j].expense != expense
      {
        if postings[i].expense == expense {
          return Referenced;
        }
      }
      expenses := expenses[expense := None];
      outcome := Ok;
    }

    /** Allocations can be written while their period is a draft or has been rejected. */
    predicate OpenPeriod(period: nat)
      reads this
    {
      period in periods && (periods[period] == Draft || periods[period] == Rejected)
    }

    method AddExpense(expense: Expense)
      requires Valid()
      modifies this`expenses
      ensures Valid() && expenses == old(expenses) + [Some(expense)]
    {
      AddExpenseKeeps(Contents(), expense);
      expenses := expenses + [Some(expense)];
    }

    /** POST of an allocation under the period lock. */
    method Allocate(a: Allocation) returns (outcome: Outcome)
      requires Valid()
      modifies this`allocations
      ensures Valid() && (Contents(), outcome) == AddAllocation(old(Contents()), a)
      ensures outcome == Ok <==> OpenPeriod(a.period)
      ensures allocations == if outcome == Ok then old(allocations) + [Some(a)] else old(allocations)
    {
      AddAllocationKeeps(Contents(), a);
      if !OpenPeriod(a.period) {
        return Conflict;
      }
      allocations := allocations + [Some(a)];
      outcome := Ok;
    }

    /** PATCH or DELETE of an allocation, guarded by the period lock. */
    method Change(k: nat, amount: Option<int>) returns (outcome: Outcome)
      requires Valid()
      modifies this`allocations
      ensures Valid()
      ensures (Contents(), outcome) == ChangeAllocation(old(Contents()), k, amount)
      ensures outcome == Ok <==> k < |old(allocations)| && old(allocations)[k].Some? && OpenPeriod(old(allocations)[k].value.period)
      ensures outcome == Ok ==>
                allocations == old(allocations)[k := if amount.Some? then Some(old(allocations)[k].value.(amount := amount.value)) else None]
      ensures outcome != Ok ==> allocations == old(allocations)
      ensures forall i :: 0 <= i < |allocations| && HasPosting(postings, i) ==> allocations[i] == old(allocations)[i]
    {
      ChangeAllocationKeeps(Contents(), k, amount);
      if k >= |allocations| || allocations[k].None? {
        return NotFound;
      }
      var a := allocations[k].value;
      NotYetPosted(Contents(), k);
      if a.period !in periods || (periods[a.period] != Draft && periods[a.period] != Rejected) {
        return Conflict;
      }
      allocations := allocations[k := if amount.Some? then Some(a.(amount := amount.value)) else None];
      outcome := Ok;
    }

    /** The page's total: the fold of reduce over the period's rows. */
    method TotalPosted(period: nat) returns (total: int)
      requires Valid()
      ensures total == Contributions(allocations, postings, OfPeriod(period))
    {
      total := 0;
      for i := 0 to |postings|
        invariant total == Ledger(postings[..i], expenses, OfPeriod(period))
      {
        assert postings[..i + 1][..i] == postings[..i] && RowOk(Contents(), postings[i]);
        if postings[i].period == period {
          total := total + expenses[postings[i].expense].value.amount;
        }
      }
      assert postings[..|postings|] == postings;
      assert Ledger(postings, expenses, OfPeriod(period)) == Contributions(allocations, postings, OfPeriod(period));
    }
  }
}
