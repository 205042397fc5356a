// Preparing e-invoices on one EGS unit or several at once: the invoice counter and the
// previous-invoice-hash chain (server/src/routes/zatca.ts, server/src/lib/zatca/domain/icv.ts,
// pih.ts and submissions.ts).
module Zatca {

  datatype Option<T> = None | Some(value: T)

  /** A document hash; nothing is known about its value. */
  type Hash = nat

  const GENESIS: Hash := 0

  datatype Submission = Submission(unit: nat, invoice: nat, icv: nat, pih: Hash, hash: Hash)

  /** The EGS row's lock holder and chain pointer, and the unit's counter row. */
  datatype Unit = Unit(holder: Option<nat>, last: Option<Hash>, counter: nat)

  /** How far a prepare request has come; what a transaction has read or claimed is its own until it commits. */
  datatype Phase =
    | Checked
    | Locked(pih: Hash)
    | Claimed(pih: Hash, icv: nat)
    | Replied(submission: nat)
    | Failed

  datatype Request = Request(unit: nat, invoice: nat, phase: Phase)

  datatype State = State(units: map<nat, Unit>, submissions: seq<Submission>, requests: map<nat, Request>)

  /** findSubmissionForInvoice: the committed submission of the pair, if there is one. */
  function Find(submissions: seq<Submission>, unit: nat, invoice: nat): (r: Option<nat>)
    ensures r.Some? ==> r.value < |submissions| && submissions[r.value].unit == unit && submissions[r.value].invoice == invoice
    ensures r.None? <==> forall i :: 0 <= i < |submissions| ==> submissions[i].unit != unit || submissions[i].invoice != invoice
  {
    if submissions == [] then None
    else
      var n := |submissions| - 1;
      if submissions[n].unit == unit && submissions[n].invoice == invoice then Some(n)
      else Find(submissions[..n], unit, invoice)
  }

  datatype Action =
    | Register(unit: nat)
    | Start(request: nat, unit: nat, invoice: nat)
    | Lock(request: nat)
    | Claim(request: nat)
    | Commit(request: nat, hash: Hash)
    | Crash(request: nat)

  /** The unlocked idempotency check before the transaction. */
  function DoStart(s: State, request: nat, unit: nat, invoice: nat): State {
    var phase := match Find(s.submissions, unit, invoice) case Some(i) => Replied(i) case None => Checked;
    s.(requests := s.requests[request := Request(unit, invoice, phase)])
  }

  /** SELECT last_document_hash ... FOR UPDATE. */
  function DoLock(s: State, request: nat, r: Request): State
    requires r.unit in s.units
  {
    var unit := s.units[r.unit];
    var pih := match unit.last case None => GENESIS case Some(hash) => hash;
    State(s.units[r.unit := unit.(holder := Some(request))], s.submissions, s.requests[request := r.(phase := Locked(pih))])
  }

  /** The counter's upsert; the new value is seen by nobody else before the commit. */
  function DoClaim(s: State, request: nat, r: Request): State
    requires r.unit in s.units && r.phase.Locked?
  {
    s.(requests := s.requests[request := r.(phase := Claimed(r.phase.pih, s.units[r.unit].counter + 1))])
  }

  /** The insert: refused by the unique index when the pair has a submission by now, which
      undoes counter and pointer and replies with the winner; otherwise everything commits. */
  function DoCommit(s: State, request: nat, r: Request, hash: Hash): State
    requires r.unit in s.units && r.phase.Claimed?
  {
    match Find(s.submissions, r.unit, r.invoice)
    case Some(winner) =>
      State(s.units[r.unit := s.units[r.unit].(holder := None)], s.submissions, s.requests[request := r.(phase := Replied(winner))])
    case None =>
      State(s.units[r.unit := Unit(None, Some(hash), r.phase.icv)],
            s.submissions + [Submission(r.unit, r.invoice, r.phase.icv, r.phase.pih, hash)],
            s.requests[request := r.(phase := Replied(|s.submissions|))])
  }

  /** The transaction dies at any point and is rolled back. */
  function DoCrash(s: State, request: nat, r: Request): State
    requires r.unit in s.units
  {
    var units := if r.phase.Locked? || r.phase.Claimed? then s.units[r.unit := s.units[r.unit].(holder := None)] else s.units;
    State(units, s.submissions, s.requests[request := r.(phase := Failed)])
  }

  /** Whether the action can happen: a request that wants a held row lock waits. */
  predicate Enabled(s: State, a: Action) {
    match a
    case Register(unit) => unit !in s.units
    case Start(request, unit, _) => request !in s.requests && unit in s.units
    case Lock(request) =>
      && request in s.requests && s.requests[request].phase.Checked?
      && s.requests[request].unit in s.units && s.units[s.requests[request].unit].holder.None?
    case Claim(request) => request in s.requests && s.requests[request].phase.Locked? && s.requests[request].unit in s.units
    case Commit(request, _) => request in s.requests && s.requests[request].phase.Claimed? && s.requests[request].unit in s.units
    case Crash(request) => request in s.requests && !s.requests[request].phase.Replied? && s.requests[request].unit in s.units
  }

  function Step(s: State, a: Action): State {
    if !Enabled(s, a) then s
    else match a
      case Register(unit) => s.(units := s.units[unit := Unit(None, None, 0)])
      case Start(request, unit, invoice) => DoStart(s, request, unit, invoice)
      case Lock(request) => DoLock(s, request, s.requests[request])
      case Claim(request) => DoClaim(s, request, s.requests[request])
      case Commit(request, hash) => DoCommit(s, request, s.requests[request], hash)
      case Crash(request) => DoCrash(s, request, s.requests[request])
  }

  function Run(s: State, actions: seq<Action>): State {
    if actions == [] then s else Step(Run(s, actions[..|actions| - 1]), actions[|actions| - 1])
  }

  const EMPTY := State(map[], [], map[])

  // ---- The chain of one unit ----

  function Chain(submissions: seq<Submission>, unit: nat): seq<Submission> {
    if submissions == [] then []
    else
      var n := |submissions| - 1;
      Chain(submissions[..n], unit) + if submissions[n].unit == unit then [submissions[n]] else []
  }

  function LastHash(chain: seq<Submission>): Hash {
    if chain == [] then GENESIS else chain[|chain| - 1].hash
  }

  /** Counters 1, 2, ... and each previous-invoice hash the hash before it. */
  predicate IsChain(chain: seq<Submission>) {
    forall i :: 0 <= i < |chain| ==> chain[i].icv == i + 1 && chain[i].pih == LastHash(chain[..i])
  }

  ghost predicate UnitOk(s: State, unit: nat)
    requires unit in s.units
  {
    var chain, u := Chain(s.submissions, unit), s.units[unit];
    && IsChain(chain) && u.counter == |chain|
    && u.last == (if chain == [] then None else Some(LastHash(chain)))
    && (u.holder.Some? ==> u.holder.value in s.requests && s.requests[u.holder.value].unit == unit
                           && (s.requests[u.holder.value].phase.Locked? || s.requests[u.holder.value].phase.Claimed?))
  }

  ghost predicate RequestOk(s: State, request: nat)
    requires request in s.requests
  {
    var r := s.requests[request];
    && r.unit in s.units
    && var chain := Chain(s.submissions, r.unit);
       match r.phase
       case Locked(pih) => s.units[r.unit].holder == Some(request) && pih == LastHash(chain)
       case Claimed(pih, icv) => s.units[r.unit].holder == Some(request) && pih == LastHash(chain) && icv == |chain| + 1
       case Replied(i) => i < |s.submissions| && s.submissions[i].unit == r.unit && s.submissions[i].invoice == r.invoice
       case _ => true
  }

  ghost predicate OnePerInvoice(submissions: seq<Submission>) {
    forall i, j :: 0 <= i < j < |submissions| ==>
                     submissions[i].unit != submissions[j].unit || submissions[i].invoice != submissions[j].invoice
  }

  ghost predicate Inv(s: State) {
    && (forall i :: 0 <= i < |s.submissions| ==> s.submissions[i].unit in s.units)
    && (forall unit :: unit in s.units ==> UnitOk(s, unit))
    && (forall request :: request in s.requests ==> RequestOk(s, request))
    && OnePerInvoice(s.submissions)
  }

  lemma ChainAppend(submissions: seq<Submission>, one: Submission, unit: nat)
    ensures Chain(submissions + [one], unit) == Chain(submissions, unit) + if one.unit == unit then [one] else []
  {
    assert (submissions + [one])[..|submissions|] == submissions;
  }

  lemma IsChainAppend(chain: seq<Submission>, one: Submission)
    requires IsChain(chain) && one.icv == |chain| + 1 && one.pih == LastHash(chain)
    ensures IsChain(chain + [one]) && LastHash(chain + [one]) == one.hash
  {
    var after := chain + [one];
    forall i | 0 <= i < |after|
      ensures after[i].icv == i + 1 && after[i].pih == LastHash(after[..i])
    {
      if i < |chain| {
        assert after[..i] == chain[..i];
      } else {
        assert after[..i] == chain;
      }
    }
  }

  lemma {:induction false} EmptyChain(submissions: seq<Submission>, unit: nat)
    requires forall i :: 0 <= i < |submissions| ==> submissions[i].unit != unit
    ensures Chain(submissions, unit) == []
  {
    if submissions != [] {
      EmptyChain(submissions[..|submissions| - 1], unit);
    }
  }

  // ---- Every step keeps it ----

  lemma RegisterKeeps(s: State, unit: nat)
    requires Inv(s) && unit !in s.units
    ensures Inv(Step(s, Register(unit)))
  {
    var t := Step(s, Register(unit));
    EmptyChain(s.submissions, unit);
    forall u | u in t.units
      ensures UnitOk(t, u)
    {
      if u != unit {
        assert UnitOk(s, u);
      }
    }
    forall request | request in t.requests
      ensures RequestOk(t, request)
    {
      assert RequestOk(s, request);
    }
  }

  /** A change of one request and of its unit's lock, the tables' contents staying. */
  lemma RequestChangeKeeps(s: State, request: nat, r: Request, holder: Option<nat>, t: State)
    requires Inv(s) && r.unit in s.units
    requires t == State(s.units[r.unit := s.units[r.unit].(holder := holder)], s.submissions, s.requests[request := r])
    requires request in s.requests ==> s.requests[request].unit == r.unit
    requires RequestOk(t, request)
    requires (r.phase.Locked? || r.phase.Claimed?) ==> holder == Some(request)
    requires holder == Some(request) ==> r.phase.Locked? || r.phase.Claimed?
    requires holder == Some(request) || holder == s.units[r.unit].holder || (holder.None? && s.units[r.unit].holder == Some(request))
    requires holder == Some(request) ==> s.units[r.unit].holder.None? || s.units[r.unit].holder == Some(request)
    ensures Inv(t)
  {
    forall u | u in t.units
      ensures UnitOk(t, u)
    {
      assert UnitOk(s, u);
      assert request in s.requests ==> RequestOk(s, request);
    }
    forall other | other in t.requests
      ensures RequestOk(t, other)
    {
      if other != request {
        assert RequestOk(s, other);
      }
    }
  }

  lemma InsertKeepsUnits(s: State, request: nat, one: Submission, t: State)
    requires Inv(s) && one.unit in s.units && IsSuccessor(s, request, one)
    requires t.units == s.units[one.unit := Unit(None, Some(one.hash), one.icv)] && t.submissions == s.submissions + [one]
    requires t.requests == s.requests[request := Request(one.unit, one.invoice, Replied(|s.submissions|))]
    ensures forall u :: u in t.units ==> UnitOk(t, u)
  {
    forall u | u in t.units
      ensures UnitOk(t, u)
    {
      assert UnitOk(s, u);
      ChainAppend(s.submissions, one, u);
      if u == one.unit {
        IsChainAppend(Chain(s.submissions, u), one);
      }
    }
  }

  lemma InsertKeepsRequests(s: State, request: nat, one: Submission, t: State)
    requires Inv(s) && one.unit in s.units && IsSuccessor(s, request, one)
    requires t.units == s.units[one.unit := Unit(None, Some(one.hash), one.icv)] && t.submissions == s.submissions + [one]
    requires t.requests == s.requests[request := Request(one.unit, one.invoice, Replied(|s.submissions|))]
    ensures forall other :: other in t.requests ==> RequestOk(t, other)
  {
    forall other | other in t.requests
      ensures RequestOk(t, other)
    {
      if other != request {
        assert RequestOk(s, other);
        ChainAppend(s.submissions, one, s.requests[other].unit);
      }
    }
  }

  /** The submission continues its unit's chain, for the request that holds the unit's lock. */
  predicate IsSuccessor(s: State, request: nat, one: Submission) {
    && one.unit in s.units && request in s.requests && s.units[one.unit].holder == Some(request)
    && s.requests[request].unit == one.unit
    && var chain := Chain(s.submissions, one.unit);
       one.icv == |chain| + 1 && one.pih == LastHash(chain)
  }

  lemma InsertKeeps(s: State, request: nat, hash: Hash)
    requires Inv(s) && Enabled(s, Commit(request, hash))
    requires Find(s.submissions, s.requests[request].unit, s.requests[request].invoice).None?
    ensures Inv(Step(s, Commit(request, hash)))
  {
    var r := s.requests[request];
    assert RequestOk(s, request);
    var one := Submission(r.unit, r.invoice, r.phase.icv, r.phase.pih, hash);
    var t := Step(s, Commit(request, hash));
    assert t.submissions == s.submissions + [one];
    InsertKeepsUnits(s, request, one, t);
    InsertKeepsRequests(s, request, one, t);
  }

  lemma StartKeeps(s: State, request: nat, unit: nat, invoice: nat)
    requires Inv(s) && Enabled(s, Start(request, unit, invoice))
    ensures Inv(Step(s, Start(request, unit, invoice)))
  {
    var t := Step(s, Start(request, unit, invoice));
    assert UnitOk(s, unit);
    assert t.units == s.units[unit := s.units[unit].(holder := s.units[unit].holder)];
    RequestChangeKeeps(s, request, t.requests[request], s.units[unit].holder, t);
  }

  lemma LockKeeps(s: State, request: nat)
    requires Inv(s) && Enabled(s, Lock(request))
    ensures Inv(Step(s, Lock(request)))
  {
    var t := Step(s, Lock(request));
    assert UnitOk(s, s.requests[request].unit);
    RequestChangeKeeps(s, request, t.requests[request], Some(request), t);
  }

  lemma ClaimKeeps(s: State, request: nat)
    requires Inv(s) && Enabled(s, Claim(request))
    ensures Inv(Step(s, Claim(request)))
  {
    var t, r := Step(s, Claim(request)), s.requests[request];
    assert UnitOk(s, r.unit) && RequestOk(s, request);
    assert t.units == s.units[r.unit := s.units[r.unit].(holder := Some(request))];
    RequestChangeKeeps(s, request, t.requests[request], Some(request), t);
  }

  lemma CommitKeeps(s: State, request: nat, hash: Hash)
    requires Inv(s) && Enabled(s, Commit(request, hash))
    ensures Inv(Step(s, Commit(request, hash)))
  {
    var t, r := Step(s, Commit(request, hash)), s.requests[request];
    if Find(s.submissions, r.unit, r.invoice).None? {
      InsertKeeps(s, request, hash);
    } else {
      assert RequestOk(s, request);
      RequestChangeKeeps(s, request, t.requests[request], None, t);
    }
  }

  lemma CrashKeeps(s: State, request: nat)
    requires Inv(s) && Enabled(s, Crash(request))
    ensures Inv(Step(s, Crash(request)))
  {
    var t, r := Step(s, Crash(request)), s.requests[request];
    assert RequestOk(s, request) && UnitOk(s, r.unit);
    var holder := if r.phase.Locked? || r.phase.Claimed? then None else s.units[r.unit].holder;
    assert t.units == s.units[r.unit := s.units[r.unit].(holder := holder)];
    RequestChangeKeeps(s, request, t.requests[request], holder, t);
  }

  lemma StepKeepsInv(s: State, a: Action)
    requires Inv(s)
    ensures Inv(Step(s, a))
  {
    if Enabled(s, a) {
      match a
      case Register(unit) => RegisterKeeps(s, unit);
      case Start(request, unit, invoice) => StartKeeps(s, request, unit, invoice);
      case Lock(request) => LockKeeps(s, request);
      case Claim(request) => ClaimKeeps(s, request);
      case Commit(request, hash) => CommitKeeps(s, request, hash);
      case Crash(request) => CrashKeeps(s, request);
    }
  }

  lemma {:induction false} RunKeepsInv(actions: seq<Action>)
    ensures Inv(Run(EMPTY, actions))
  {
    if actions != [] {
      RunKeepsInv(actions[..|actions| - 1]);
      StepKeepsInv(Run(EMPTY, actions[..|actions| - 1]), actions[|actions| - 1]);
    }
  }

  // ---- What holds in every run ----

  lemma ChainLinks(chain: seq<Submission>)
    requires IsChain(chain)
    ensures forall i :: 0 < i < |chain| ==> chain[i].pih == chain[i - 1].hash
    ensures chain != [] ==> chain[0].pih == GENESIS
  {
    forall i | 0 <= i < |chain|
      ensures chain[i].pih == if i == 0 then GENESIS else chain[i - 1].hash
    {
      assert chain[i].pih == LastHash(chain[..i]);
    }
  }

  /** Whatever the interleaving of prepares, races lost and crashes: the unit's submissions
      carry counters 1 to n without gap or repeat, each linked to the one before, and the
      unit's counter and pointer are those of the last. */
  lemma CountersAndHashesChain(actions: seq<Action>, unit: nat)
    requires unit in Run(EMPTY, actions).units
    ensures var s := Run(EMPTY, actions);
            var chain := Chain(s.submissions, unit);
            && (forall i :: 0 <= i < |chain| ==> chain[i].icv == i + 1)
            && (forall i :: 0 < i < |chain| ==> chain[i].pih == chain[i - 1].hash)
            && (chain != [] ==> chain[0].pih == GENESIS && s.units[unit].last == Some(chain[|chain| - 1].hash))
            && s.units[unit].counter == |chain|
  {
    RunKeepsInv(actions);
    assert UnitOk(Run(EMPTY, actions), unit);
    ChainLinks(Chain(Run(EMPTY, actions).submissions, unit));
  }

  /** Two requests for the same invoice on the same unit that get an answer get the same one,
      however they raced, and it is a submission of that invoice. */
  lemma PrepareIsIdempotent(actions: seq<Action>, a: nat, b: nat)
    requires var s := Run(EMPTY, actions);
             && a in s.requests && b in s.requests
             && s.requests[a].phase.Replied? && s.requests[b].phase.Replied?
             && s.requests[a].unit == s.requests[b].unit && s.requests[a].invoice == s.requests[b].invoice
    ensures var s := Run(EMPTY, actions);
            var i := s.requests[a].phase.submission;
            && i == s.requests[b].phase.submission && i < |s.submissions|
            && s.submissions[i].unit == s.requests[a].unit && s.submissions[i].invoice == s.requests[a].invoice
  {
    RunKeepsInv(actions);
    var s := Run(EMPTY, actions);
    assert RequestOk(s, a) && RequestOk(s, b);
  }

  /** Committed submissions are never changed or dropped. */
  lemma {:induction false} SubmissionsOnlyGrow(s: State, actions: seq<Action>)
    ensures s.submissions <= Run(s, actions).submissions
  {
    if actions != [] {
      SubmissionsOnlyGrow(s, actions[..|actions| - 1]);
      var t := Run(s, actions[..|actions| - 1]);
      assert t.submissions <= Step(t, actions[|actions| - 1]).submissions;
    }
  }

  /** The one way a submission comes about: a commit with that hash, for its invoice on its unit. */
  lemma StepInserts(s: State, a: Action)
    ensures Step(s, a).submissions == s.submissions ||
            (a.Commit? && a.request in s.requests && |Step(s, a).submissions| == |s.submissions| + 1
             && s.submissions <= Step(s, a).submissions
             && var one := Step(s, a).submissions[|s.submissions|];
                one.hash == a.hash && one.unit == s.requests[a.request].unit && one.invoice == s.requests[a.request].invoice)
  {
  }

  /** Every submission stores the hash that its own commit computed, and stands where the table
      ended then. */
  lemma {:induction false} HashIsItsDocuments(actions: seq<Action>, i: nat) returns (n: nat)
    requires i < |Run(EMPTY, actions).submissions|
    ensures n < |actions| && actions[n].Commit? && actions[n].hash == Run(EMPTY, actions).submissions[i].hash
    ensures var s, one := Run(EMPTY, actions[..n]), Run(EMPTY, actions).submissions[i];
            && |s.submissions| == i && actions[n].request in s.requests
            && s.requests[actions[n].request].unit == one.unit && s.requests[actions[n].request].invoice == one.invoice
  {
    var before := actions[..|actions| - 1];
    StepInserts(Run(EMPTY, before), actions[|actions| - 1]);
    if i < |Run(EMPTY, before).submissions| {
      n := HashIsItsDocuments(before, i);
      assert before[..n] == actions[..n];
    } else {
      n := |actions| - 1;
    }
  }

  /** A request blocked on a unit's lock waits for one that can itself always move on: no wait is circular. */
  lemma HolderCanMove(actions: seq<Action>, unit: nat, hash: Hash)
    requires var s := Run(EMPTY, actions); unit in s.units && s.units[unit].holder.Some?
    ensures var s := Run(EMPTY, actions);
            var holder := s.units[unit].holder.value;
            Enabled(s, Claim(holder)) || (Enabled(s, Commit(holder, hash)) && Step(s, Commit(holder, hash)).units[unit].holder.None?)
  {
    RunKeepsInv(actions);
    assert UnitOk(Run(EMPTY, actions), unit);
  }

  // ---- What the chain is for ----

  /** Each hash covers its document, its counter and the hash before it. */
  ghost predicate Hashes(h: (nat, nat, Hash) -> Hash, chain: seq<Submission>) {
    forall i :: 0 <= i < |chain| ==> chain[i].hash == h(chain[i].invoice, chain[i].icv, chain[i].pih)
  }

  /** A collision-free hash that never hits the genesis value. */
  ghost predicate CollisionFree(h: (nat, nat, Hash) -> Hash) {
    && (forall d, n, p, e, m, q :: h(d, n, p) == h(e, m, q) ==> d == e && n == m && p == q)
    && (forall d, n, p :: h(d, n, p) != GENESIS)
  }

  lemma ShorterChain(h: (nat, nat, Hash) -> Hash, chain: seq<Submission>)
    requires IsChain(chain) && Hashes(h, chain) && chain != []
    ensures var n := |chain| - 1;
            && IsChain(chain[..n]) && Hashes(h, chain[..n])
            && chain[n].icv == n + 1 && chain[n].pih == LastHash(chain[..n])
            && LastHash(chain) == h(chain[n].invoice, n + 1, LastHash(chain[..n]))
  {
    var n := |chain| - 1;
    forall i | 0 <= i < n
      ensures chain[..n][i].icv == i + 1 && chain[..n][i].pih == LastHash(chain[..n][..i])
    {
      assert chain[..n][..i] == chain[..i];
    }
  }

  predicate SameHistory(a: seq<Submission>, b: seq<Submission>) {
    |a| == |b| && forall i :: 0 <= i < |a| ==> a[i].invoice == b[i].invoice && a[i].pih == b[i].pih && a[i].hash == b[i].hash
  }

  lemma SameHistoryGrows(a: seq<Submission>, b: seq<Submission>, n: nat)
    requires |a| == |b| == n + 1 && SameHistory(a[..n], b[..n])
    requires a[n].invoice == b[n].invoice && a[n].pih == b[n].pih && a[n].hash == b[n].hash
    ensures SameHistory(a, b)
  {
    forall i | 0 <= i < |a|
      ensures a[i].invoice == b[i].invoice && a[i].pih == b[i].pih && a[i].hash == b[i].hash
    {
      if i < n {
        assert a[..n][i] == a[i] && b[..n][i] == b[i];
      }
    }
  }

  /** With such a hash, the last hash of a unit fixes its whole history: two valid chains
      that end in the same hash hold the same documents with the same links. */
  lemma {:induction false} LastHashFixesHistory(h: (nat, nat, Hash) -> Hash, a: seq<Submission>, b: seq<Submission>)
    requires CollisionFree(h) && IsChain(a) && IsChain(b) && Hashes(h, a) && Hashes(h, b)
    requires LastHash(a) == LastHash(b)
    ensures SameHistory(a, b)
    decreases |a|
  {
    if a != [] {
      ShorterChain(h, a);
    }
    if b != [] {
      ShorterChain(h, b);
    }
    if a != [] {
      var n := |a| - 1;
      LastHashFixesHistory(h, a[..n], b[..|b| - 1]);
      SameHistoryGrows(a, b, n);
    }
  }
}
