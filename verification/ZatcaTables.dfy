// The EGS unit, counter and submission tables, and the prepare requests under way, updated
// in place (server/src/routes/zatca.ts:903-1008).
module ZatcaTables {
  import opened Zatca

  /** What a commit leaves: the document's own hash in the submission and in the pointer, linked
      to the hash before it; or, when the pair has a submission by now, only the lock released. */
  ghost predicate Prepared(before: State, request: nat, hash: Hash, created: bool, after: State)
    requires request in before.requests && before.requests[request].unit in before.units
  {
    var r := before.requests[request];
    var last, n := before.units[r.unit].last, |Chain(before.submissions, r.unit)|;
    && request in after.requests && after.requests[request].phase.Replied?
    && after.requests == before.requests[request := r.(phase := after.requests[request].phase)]
    && if created then
         && after.submissions == before.submissions +
              [Submission(r.unit, r.invoice, n + 1, if last.Some? then last.value else GENESIS, hash)]
         && after.units == before.units[r.unit := Unit(None, Some(hash), n + 1)]
       else
         && after.submissions == before.submissions
         && after.units == before.units[r.unit := Unit(None, last, n)]
  }

  lemma CommitPrepares(s: State, request: nat, hash: Hash)
    requires Inv(s) && Enabled(s, Commit(request, hash))
    ensures Prepared(s, request, hash, Find(s.submissions, s.requests[request].unit, s.requests[request].invoice).None?,
                     Step(s, Commit(request, hash)))
  {
    assert RequestOk(s, request) && UnitOk(s, s.requests[request].unit);
  }

  /** Only a request between its lock and its commit holds a unit, and then its own. */
  lemma HoldersAreBusy(s: State, request: nat, u: nat)
    requires Inv(s) && request in s.requests && u in s.units
    ensures var r := s.requests[request];
            s.units[u].holder == Some(request) <==> u == r.unit && (r.phase.Locked? || r.phase.Claimed?)
  {
    assert RequestOk(s, request) && UnitOk(s, u);
  }

  ghost predicate LetGo(before: State, request: nat, after: State)
    requires request in before.requests
  {
    && after.requests == before.requests[request := before.requests[request].(phase := Failed)]
    && after.submissions == before.submissions && after.units.Keys == before.units.Keys
    && forall u :: u in before.units ==>
         after.units[u] == if before.units[u].holder == Some(request) then before.units[u].(holder := None) else before.units[u]
  }

  lemma CrashLetsGo(s: State, request: nat)
    requires Inv(s) && Enabled(s, Crash(request))
    ensures Inv(Step(s, Crash(request))) && LetGo(s, request, Step(s, Crash(request)))
  {
    StepKeepsInv(s, Crash(request));
    forall u | u in s.units
      ensures Step(s, Crash(request)).units[u] == if s.units[u].holder == Some(request) then s.units[u].(holder := None) else s.units[u]
    {
      HoldersAreBusy(s, request, u);
    }
  }

  class EgsTables {
    var units: map<nat, Unit>
    var submissions: seq<Submission>
    var requests: map<nat, Request>

    function Contents(): State
      reads this
    {
      State(units, submissions, requests)
    }

    ghost predicate Valid()
      reads this
    {
      Inv(Contents())
    }

    constructor ()
      ensures Valid() && Contents() == EMPTY
    {
      units, submissions, requests := map[], [], map[];
    }

    /** The committed submission of a unit and invoice, if any. */
    method FindSubmission(unit: nat, invoice: nat) returns (found: Option<nat>)
      requires Valid()
      ensures found == Find(submissions, unit, invoice)
    {
      for i := 0 to |submissions|
        invariant forall j :: 0 <= j < i ==> submissions[j].unit != unit || submissions[j].invoice != invoice
      {
        if submissions[i].unit == unit && submissions[i].invoice == invoice {
          return Some(i);
        }
      }
      found := None;
    }

    /** A new EGS unit has no chain yet. */
    method RegisterUnit(unit: nat)
      requires Valid() && unit !in units
      modifies this`units
      ensures Valid() && units == old(units)[unit := Unit(None, None, 0)]
    {
      StepKeepsInv(Contents(), Register(unit));
      units := units[unit := Unit(None, None, 0)];
    }

    /** The check before the transaction: the reply is there already exactly when the pair has a
        submission. */
    method StartPrepare(request: nat, unit: nat, invoice: nat)
      requires Valid() && request !in requests && unit in units
      modifies this`requests
      ensures Valid() && Contents() == Step(old(Contents()), Start(request, unit, invoice))
      ensures requests.Keys == old(requests).Keys + {request}
      ensures forall other :: other in old(requests) ==> requests[other] == old(requests)[other]
      ensures requests[request].unit == unit && requests[request].invoice == invoice
      ensures if exists i :: 0 <= i < |submissions| && submissions[i].unit == unit && submissions[i].invoice == invoice
              then requests[request].phase.Replied? && RequestOk(Contents(), request)
              else requests[request].phase == Checked
    {
      StepKeepsInv(Contents(), Start(request, unit, invoice));
      var existing := FindSubmission(unit, invoice);
      requests := requests[request := Request(unit, invoice, if existing.Some? then Replied(existing.value) else Checked)];
    }

    /** Takes the unit's row lock and reads the chain pointer; waits (returns false) while another holds it. */
    method LockAndReadPih(request: nat) returns (locked: bool)
      requires Valid() && request in requests && requests[request].phase.Checked?
      modifies this
      ensures Valid() && Contents() == Step(old(Contents()), Lock(request))
      ensures locked <==> old(units[requests[request].unit].holder).None?
      ensures locked ==>
                var u := old(units[requests[request].unit]);
                && units == old(units)[old(requests[request].unit) := Unit(Some(request), u.last, u.counter)]
                && requests == old(requests)[request := old(requests[request]).(phase := Phase.Locked(if u.last.Some? then u.last.value else GENESIS))]
      ensures !locked ==> units == old(units) && requests == old(requests)
      ensures submissions == old(submissions)
    {
      assert RequestOk(Contents(), request);
      StepKeepsInv(Contents(), Lock(request));
      var r := requests[request];
      var unit := units[r.unit];
      if unit.holder.Some? {
        return false;
      }
      var pih := if unit.last.Some? then unit.last.value else GENESIS;
      units := units[r.unit := unit.(holder := Some(request))];
      requests := requests[request := r.(phase := Phase.Locked(pih))];
      locked := true;
    }

    /** The counter's upsert inside the transaction. */
    method ClaimNextIcv(request: nat) returns (icv: nat)
      requires Valid() && request in requests && requests[request].phase.Locked?
      modifies this`requests
      ensures Valid() && Contents() == Step(old(Contents()), Claim(request))
      ensures icv == |Chain(submissions, requests[request].unit)| + 1
      ensures requests == old(requests)[request := old(requests[request]).(phase := Claimed(old(requests[request].phase.pih), icv))]
    {
      assert RequestOk(Contents(), request);
      assert UnitOk(Contents(), requests[request].unit);
      StepKeepsInv(Contents(), Claim(request));
      ghost var next := Step(Contents(), Claim(request));
      var r := requests[request];
      icv := units[r.unit].counter + 1;
      requests := requests[request := r.(phase := Claimed(r.phase.pih, icv))];
      assert Contents() == next;
    }

    /** Pointer, counter and submission together, all three of this document; on the unique
        index, nothing but the reply. */
    method CommitPrepare(request: nat, hash: Hash) returns (created: bool)
      requires Valid() && request in requests && requests[request].phase.Claimed?
      modifies this
      ensures Valid() && Contents() == Step(old(Contents()), Commit(request, hash))
      ensures created <==> old(Find(submissions, requests[request].unit, requests[request].invoice)).None?
      ensures Prepared(old(Contents()), request, hash, created, Contents())
    {
      ghost var before := Contents();
      assert RequestOk(before, request);
      CommitPrepares(before, request, hash);
      created := WriteAll(request, hash);
      StepKeepsInv(before, Commit(request, hash));
    }

    /** A transaction that dies takes nothing with it but its lock. */
    method Abandon(request: nat)
      requires Valid() && request in requests && !requests[request].phase.Replied?
      modifies this`units, this`requests
      ensures Valid() && LetGo(old(Contents()), request, Contents())
    {
      ghost var before := Contents();
      assert RequestOk(before, request);
      var r := requests[request];
      if r.phase.Locked? || r.phase.Claimed? {
        units := units[r.unit := units[r.unit].(holder := None)];
      }
      requests := requests[request := r.(phase := Failed)];
      assert Contents() == Step(before, Crash(request));
      CrashLetsGo(before, request);
    }

    /** The statements after signing, up to the commit or the rollback. */
    method WriteAll(request: nat, hash: Hash) returns (created: bool)
      requires Valid() && Enabled(Contents(), Commit(request, hash))
      modifies this
      ensures Contents() == Step(old(Contents()), Commit(request, hash))
      ensures created <==> old(Find(submissions, requests[request].unit, requests[request].invoice)).None?
    {
      assert RequestOk(Contents(), request);
      ghost var next := Step(Contents(), Commit(request, hash));
      var r := requests[request];
      var winner := FindSubmission(r.unit, r.invoice);
      created := winner.None?;
      if winner.Some? {
        units := units[r.unit := units[r.unit].(holder := None)];
        requests := requests[request := r.(phase := Replied(winner.value))];
      } else {
        units := units[r.unit := Unit(None, Some(hash), r.phase.icv)];
        requests := requests[request := r.(phase := Replied(|submissions|))];
        submissions := submissions + [Submission(r.unit, r.invoice, r.phase.icv, r.phase.pih, hash)];
      }
      assert Contents() == next;
    }
  }
}
