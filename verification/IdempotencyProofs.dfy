// What the lease and the fencing token guarantee in every run.
module IdempotencyProofs {
  import opened IdempotencyModel

  // ---- Orders only move forward ----

  /** Pending may become anything, rejected may be deleted, approved is final. */
  ghost predicate Later(before: OrderStatus, after: OrderStatus)
  {
    before == after || before == Pending || (before == Rejected && after == Deleted)
  }

  ghost predicate OrdersGrow(before: seq<Order>, after: seq<Order>)
  {
    && |before| <= |after|
    && forall o :: 0 <= o < |before| ==> after[o].delta == before[o].delta && Later(before[o].status, after[o].status)
  }

  /** What a response claims about the order it was given for. */
  ghost predicate Truthful(orders: seq<Order>, request: Request, response: Response)
  {
    match response
    case Decided =>
      && request.order < |orders|
      && if request.decision == Approve then orders[request.order].status == Approved
         else orders[request.order].status == Rejected || orders[request.order].status == Deleted
    case AlreadyDecided => request.order < |orders| && orders[request.order].status != Pending
    case NotFound => true
  }

  lemma TruthLasts(before: seq<Order>, after: seq<Order>, request: Request, response: Response)
    requires OrdersGrow(before, after) && Truthful(before, request, response)
    ensures Truthful(after, request, response)
  {
  }

  lemma {:induction false} ApprovedSumUpdate(orders: seq<Order>, o: nat, order: Order)
    requires o < |orders|
    ensures ApprovedSum(orders[o := order]) ==
            ApprovedSum(orders) - (if orders[o].status == Approved then orders[o].delta else 0)
                                + (if order.status == Approved then order.delta else 0)
  {
    var last := |orders| - 1;
    if o < last {
      ApprovedSumUpdate(orders[..last], o, order);
      assert orders[o := order][..last] == orders[..last][o := order];
    } else {
      assert orders[o := order][..last] == orders[..last];
    }
  }

  ghost predicate BooksOk(opening: int, books: Books)
  {
    books.budget == opening + ApprovedSum(books.orders)
  }

  /** A decision keeps the books, tells the truth, and decides only a pending order. */
  lemma DecideKeepsBooks(opening: int, books: Books, request: Request)
    requires BooksOk(opening, books)
    ensures var (after, response) := Decide(books, request);
            && BooksOk(opening, after) && OrdersGrow(books.orders, after.orders)
            && (request.order < |books.orders| ==> Truthful(after.orders, request, response))
            && (response == Decided ==> request.order < |books.orders| && books.orders[request.order].status == Pending)
  {
    var o := request.order;
    if o < |books.orders| && books.orders[o].status == Pending {
      ApprovedSumUpdate(books.orders, o, books.orders[o].(status := StatusFor(request.decision)));
    }
  }

  // ---- Invariant ----

  /** The token a worker leads with was made for it: a claim carrying that token is
      the worker's own claim, made for the worker's own request. */
  ghost predicate TokenIsOwn(s: State, w: Worker)
  {
    w.phase.Leads() ==>
      && w.phase.token < s.nextToken
      && forall key :: key in s.claims && s.claims[key].owner == w.phase.token ==>
           key == w.key && s.claims[key].id == w.phase.id && s.claims[key].fingerprint == w.request
  }

  /** An answer this worker's own handler produced, or is about to record. */
  predicate OwnDecision(w: Worker)
  {
    (w.phase.Completing? && w.phase.outcome == Decided) || (w.phase.Answered? && !w.phase.replayed && w.phase.answer == Decided)
  }

  ghost predicate WorkerOk(s: State, w: Worker)
  {
    && TokenIsOwn(s, w)
    && (w.phase.Deciding? ==> w.request.order < |s.books.orders|)
    && (w.phase.Completing? ==> Truthful(s.books.orders, w.request, w.phase.outcome))
    && (w.phase.Answered? ==> Truthful(s.books.orders, w.request, w.phase.answer))
  }

  ghost predicate ClaimOk(s: State, key: nat)
    requires key in s.claims
  {
    var claim := s.claims[key];
    && claim.id < s.nextId && claim.owner < s.nextToken
    && (claim.completed ==> Truthful(s.books.orders, claim.fingerprint, claim.response))
    && (claim.completed ==> forall i :: 0 <= i < |s.workers| && s.workers[i].phase.Leads() && s.workers[i].phase.token == claim.owner
                              ==> s.workers[i].phase.Releasing?)
  }

  ghost predicate Distinct(s: State)
  {
    && (forall i, j :: 0 <= i < j < |s.workers| && s.workers[i].phase.Leads() && s.workers[j].phase.Leads()
          ==> s.workers[i].phase.token != s.workers[j].phase.token)
    && (forall i, j :: 0 <= i < j < |s.workers| && OwnDecision(s.workers[i]) && OwnDecision(s.workers[j])
          ==> s.workers[i].request.order != s.workers[j].request.order)
  }

  ghost predicate Inv(s: State)
  {
    && BooksOk(s.opening, s.books)
    && (forall i :: 0 <= i < |s.workers| ==> WorkerOk(s, s.workers[i]))
    && (forall key :: key in s.claims ==> ClaimOk(s, key))
    && Distinct(s)
  }

  // ---- Steps that touch no claim ----

  lemma BooksStep(s: State, books: Books)
    requires Inv(s) && BooksOk(s.opening, books) && OrdersGrow(s.books.orders, books.orders)
    ensures Inv(s.(books := books))
  {
    var next := s.(books := books);
    forall i | 0 <= i < |s.workers|
      ensures WorkerOk(next, s.workers[i])
    {
      assert WorkerOk(s, s.workers[i]);
      if s.workers[i].phase.Completing? {
        TruthLasts(s.books.orders, books.orders, s.workers[i].request, s.workers[i].phase.outcome);
      }
      if s.workers[i].phase.Answered? {
        TruthLasts(s.books.orders, books.orders, s.workers[i].request, s.workers[i].phase.answer);
      }
    }
    forall key | key in s.claims
      ensures ClaimOk(next, key)
    {
      assert ClaimOk(s, key);
      if s.claims[key].completed {
        TruthLasts(s.books.orders, books.orders, s.claims[key].fingerprint, s.claims[key].response);
      }
    }
  }

  /** A worker that changes phase without touching a claim or taking a token. */
  lemma PhaseStep(s: State, i: nat, phase: Phase)
    requires Inv(s) && i < |s.workers|
    requires phase.Leads() ==> s.workers[i].phase.Leads() && phase.id == s.workers[i].phase.id && phase.token == s.workers[i].phase.token
    requires phase.Leads() && !phase.Releasing? ==> !s.workers[i].phase.Releasing?
    requires WorkerOk(s, s.workers[i].(phase := phase))
    requires OwnDecision(s.workers[i].(phase := phase)) ==>
               OwnDecision(s.workers[i]) || forall j :: 0 <= j < |s.workers| && OwnDecision(s.workers[j]) ==> s.workers[j].request.order != s.workers[i].request.order
    ensures Inv(Move(s, i, phase))
  {
    var next := Move(s, i, phase);
    forall j | 0 <= j < |next.workers|
      ensures WorkerOk(next, next.workers[j])
    {
      assert j != i ==> WorkerOk(s, s.workers[j]);
    }
    forall key | key in next.claims
      ensures ClaimOk(next, key)
    {
      assert ClaimOk(s, key);
    }
  }

  lemma ArriveStep(s: State, key: nat, request: Request)
    requires Inv(s)
    ensures Inv(Step(s, Arrive(key, request)))
  {
    var next := Step(s, Arrive(key, request));
    forall i | 0 <= i < |next.workers|
      ensures WorkerOk(next, next.workers[i])
    {
      assert i < |s.workers| ==> WorkerOk(s, s.workers[i]);
    }
    forall k | k in next.claims
      ensures ClaimOk(next, k)
    {
      assert ClaimOk(s, k);
    }
  }

  // ---- Steps that touch a claim ----

  /** A claim made or stolen with a fresh token. */
  lemma TakeClaim(s: State, i: nat, id: nat, claim: Claim, nextId: nat)
    requires Inv(s) && i < |s.workers| && !s.workers[i].phase.Leads()
    requires claim.owner == s.nextToken && claim.id == id < nextId && s.nextId <= nextId && !claim.completed
    requires claim.fingerprint == s.workers[i].request
    ensures Inv(Move(s, i, Leading(id, s.nextToken)).(claims := s.claims[s.workers[i].key := claim], nextId := nextId, nextToken := s.nextToken + 1))
  {
    var next := Move(s, i, Leading(id, s.nextToken)).(claims := s.claims[s.workers[i].key := claim], nextId := nextId, nextToken := s.nextToken + 1);
    forall key | key in next.claims
      ensures ClaimOk(next, key)
    {
      assert key != s.workers[i].key ==> ClaimOk(s, key);
    }
    forall j | 0 <= j < |next.workers|
      ensures WorkerOk(next, next.workers[j])
    {
      assert j != i ==> WorkerOk(s, s.workers[j]);
      forall key | key in s.claims
        ensures s.claims[key].owner < s.nextToken
      {
        assert ClaimOk(s, key);
      }
    }
  }

  /** The owner renews or completes its own claim. */
  lemma UpdateOwnClaim(s: State, i: nat, claim: Claim, phase: Phase)
    requires Inv(s) && i < |s.workers| && s.workers[i].phase.Leads() && Owns(s, s.workers[i])
    requires claim.id == s.workers[i].phase.id && claim.owner == s.workers[i].phase.token && claim.fingerprint == s.workers[i].request
    requires claim.completed ==> Truthful(s.books.orders, claim.fingerprint, claim.response)
    requires claim.completed ==> !phase.Leads() || phase.Releasing?
    requires phase.Leads() ==> phase.id == s.workers[i].phase.id && phase.token == s.workers[i].phase.token
    requires phase.Leads() && !phase.Releasing? ==> phase == s.workers[i].phase
    requires phase.Answered? ==> Truthful(s.books.orders, s.workers[i].request, phase.answer)
    requires OwnDecision(s.workers[i].(phase := phase)) ==> OwnDecision(s.workers[i])
    ensures Inv(Move(s, i, phase).(claims := s.claims[s.workers[i].key := claim]))
  {
    var key := s.workers[i].key;
    var next := Move(s, i, phase).(claims := s.claims[key := claim]);
    assert WorkerOk(s, s.workers[i]) && ClaimOk(s, key);
    forall k | k in next.claims
      ensures ClaimOk(next, k)
    {
      assert ClaimOk(s, k);
    }
    forall j | 0 <= j < |next.workers|
      ensures WorkerOk(next, next.workers[j])
    {
      assert WorkerOk(s, s.workers[j]);
    }
  }

  lemma DropOwnClaim(s: State, i: nat)
    requires Inv(s) && i < |s.workers|
    ensures Inv(Move(s, i, Failed).(claims := s.claims - {s.workers[i].key}))
  {
    var next := Move(s, i, Failed).(claims := s.claims - {s.workers[i].key});
    forall k | k in next.claims
      ensures ClaimOk(next, k)
    {
      assert ClaimOk(s, k);
    }
    forall j | 0 <= j < |next.workers|
      ensures WorkerOk(next, next.workers[j])
    {
      assert WorkerOk(s, s.workers[j]);
    }
  }

  /** The handler's transaction: a decision nobody else has made. */
  lemma HandlerStep(s: State, i: nat, fault: Fault)
    requires Inv(s) && i < |s.workers| && s.workers[i].phase.Deciding? && fault != Error
    ensures Inv(WorkStep(s, i, fault))
  {
    var w := s.workers[i];
    var (books, response) := Decide(s.books, w.request);
    assert WorkerOk(s, w);
    DecideKeepsBooks(s.opening, s.books, w.request);
    BooksStep(s, books);
    var mid := s.(books := books);
    if fault == LostReply {
      PhaseStep(mid, i, Releasing(w.phase.id, w.phase.token));
    } else {
      if response == Decided {
        forall j | 0 <= j < |s.workers| && OwnDecision(s.workers[j])
          ensures s.workers[j].request.order != w.request.order
        {
          assert WorkerOk(s, s.workers[j]);
        }
      }
      assert WorkerOk(mid, w);
      PhaseStep(mid, i, Completing(w.phase.id, w.phase.token, response));
    }
  }

  lemma ClaimKeepsInv(s: State, i: nat, attempt: nat)
    requires Inv(s) && i < |s.workers| && s.workers[i].phase.Claiming?
    ensures Inv(ClaimStep(s, i, attempt))
  {
    var w := s.workers[i];
    if attempt >= CLAIM_ATTEMPTS {
      PhaseStep(s, i, Failed);
    } else if w.key in s.claims {
      PhaseStep(s, i, Polling(attempt, 0));
    } else {
      TakeClaim(s, i, s.nextId, Claim(s.nextId, w.request, false, NotFound, s.nextToken, s.now + LEASE_DURATION_MS), s.nextId + 1);
    }
  }

  lemma PollKeepsInv(s: State, i: nat, attempt: nat, poll: nat)
    requires Inv(s) && i < |s.workers| && s.workers[i].phase.Polling?
    ensures Inv(PollStep(s, i, attempt, poll))
  {
    var w := s.workers[i];
    if poll >= POLL_ATTEMPTS || w.key !in s.claims {
      PhaseStep(s, i, Claiming(attempt + 1));
    } else {
      assert ClaimOk(s, w.key);
      PhaseStep(s, i, PollStep(s, i, attempt, poll).workers[i].phase);
    }
  }

  lemma StealKeepsInv(s: State, i: nat, attempt: nat, poll: nat, id: nat)
    requires Inv(s) && i < |s.workers| && s.workers[i].phase.Stealing?
    ensures Inv(StealStep(s, i, attempt, poll, id))
  {
    var w := s.workers[i];
    if w.key in s.claims && s.claims[w.key].id == id && !s.claims[w.key].completed && s.claims[w.key].lease < s.now {
      assert ClaimOk(s, w.key);
      TakeClaim(s, i, id, s.claims[w.key].(owner := s.nextToken, lease := s.now + LEASE_DURATION_MS, fingerprint := w.request), s.nextId);
    } else {
      PhaseStep(s, i, Polling(attempt, poll + 1));
    }
  }

  lemma CompleteKeepsInv(s: State, i: nat, fault: Fault)
    requires Inv(s) && i < |s.workers| && s.workers[i].phase.Completing?
    ensures Inv(CompleteStep(s, i, fault))
  {
    var w := s.workers[i];
    assert WorkerOk(s, w);
    if fault == Error || !Owns(s, w) {
      PhaseStep(s, i, Releasing(w.phase.id, w.phase.token));
    } else {
      UpdateOwnClaim(s, i, s.claims[w.key].(completed := true, response := w.phase.outcome),
                     if fault == LostReply then Releasing(w.phase.id, w.phase.token) else Answered(w.phase.outcome, false));
    }
  }

  lemma WorkKeepsInv(s: State, i: nat, fault: Fault)
    requires Inv(s) && i < |s.workers|
    ensures Inv(WorkStep(s, i, fault))
  {
    var w := s.workers[i];
    assert WorkerOk(s, w);
    match w.phase
    case Claiming(attempt) => ClaimKeepsInv(s, i, attempt);
    case Polling(attempt, poll) => PollKeepsInv(s, i, attempt, poll);
    case Stealing(attempt, poll, id) => StealKeepsInv(s, i, attempt, poll, id);
    case Leading(id, token) => PhaseStep(s, i, WorkStep(s, i, fault).workers[i].phase);
    case Deciding(id, token) =>
      if fault == Error {
        PhaseStep(s, i, Releasing(id, token));
      } else {
        HandlerStep(s, i, fault);
      }
    case Completing(id, token, outcome) => CompleteKeepsInv(s, i, fault);
    case Releasing(id, token) =>
      if fault == Error || !Owns(s, w) {
        PhaseStep(s, i, Failed);
      } else {
        DropOwnClaim(s, i);
      }
    case _ =>
  }

  lemma DeleteOrderKeepsInv(s: State, o: nat)
    requires Inv(s)
    ensures Inv(Step(s, DeleteOrder(o))) && Step(s, DeleteOrder(o)).opening == s.opening
  {
    if Exists(s.books.orders, o) && s.books.orders[o].status != Approved {
      ApprovedSumUpdate(s.books.orders, o, s.books.orders[o].(status := Deleted));
      BooksStep(s, s.books.(orders := s.books.orders[o := s.books.orders[o].(status := Deleted)]));
    }
  }

  lemma OrderStepKeepsInv(s: State, a: Action)
    requires Inv(s) && (a.CreateOrder? || a.DeleteOrder? || a.PlainDecide?)
    ensures Inv(Step(s, a)) && Step(s, a).opening == s.opening
  {
    match a
    case CreateOrder(delta) =>
      assert (s.books.orders + [Order(delta, Pending)])[..|s.books.orders|] == s.books.orders;
      BooksStep(s, s.books.(orders := s.books.orders + [Order(delta, Pending)]));
    case DeleteOrder(o) =>
      DeleteOrderKeepsInv(s, o);
    case PlainDecide(request) =>
      DecideKeepsBooks(s.opening, s.books, request);
      BooksStep(s, Decide(s.books, request).0);
  }

  lemma TickKeepsInv(s: State, ms: nat)
    requires Inv(s)
    ensures Inv(Step(s, Tick(ms)))
  {
    var next := Step(s, Tick(ms));
    assert forall i :: 0 <= i < |s.workers| ==> WorkerOk(s, s.workers[i]) == WorkerOk(next, s.workers[i]);
    assert forall key :: key in s.claims ==> ClaimOk(s, key) == ClaimOk(next, key);
  }

  lemma BeatKeepsInv(s: State, i: nat)
    requires Inv(s)
    ensures Inv(Step(s, Beat(i))) && Step(s, Beat(i)).opening == s.opening
  {
    if i < |s.workers| && s.workers[i].phase.Leads() && Owns(s, s.workers[i]) && !s.claims[s.workers[i].key].completed {
      assert WorkerOk(s, s.workers[i]);
      UpdateOwnClaim(s, i, s.claims[s.workers[i].key].(lease := s.now + LEASE_DURATION_MS), s.workers[i].phase);
      assert Move(s, i, s.workers[i].phase) == s;
    }
  }

  lemma StepKeepsInv(s: State, a: Action)
    requires Inv(s)
    ensures Inv(Step(s, a)) && Step(s, a).opening == s.opening
  {
    match a
    case Tick(ms) =>
      TickKeepsInv(s, ms);
    case Arrive(key, request) =>
      ArriveStep(s, key, request);
    case Work(i, fault) =>
      if i < |s.workers| {
        WorkKeepsInv(s, i, fault);
      }
    case Beat(i) =>
      BeatKeepsInv(s, i);
    case Crash(i) =>
      if i < |s.workers| {
        PhaseStep(s, i, Crashed);
      }
    case _ =>
      OrderStepKeepsInv(s, a);
  }

  lemma {:induction false} RunKeepsInv(opening: int, actions: seq<Action>)
    ensures Inv(Run(opening, actions)) && Run(opening, actions).opening == opening
  {
    if actions != [] {
      RunKeepsInv(opening, actions[..|actions| - 1]);
      StepKeepsInv(Run(opening, actions[..|actions| - 1]), actions[|actions| - 1]);
    }
  }
}
