// Change-order decisions under the idempotency lease (server/src/lib/idempotency.ts,
// server/src/routes/changeOrders.ts). Each request is a worker that runs one
// database statement at a time; workers interleave, stall, fail and crash freely.
module IdempotencyModel {

  // ---- Change orders and the budget they move ----

  datatype OrderStatus = Pending | Approved | Rejected | Deleted

  datatype Order = Order(delta: int, status: OrderStatus)

  datatype Decision = Approve | Reject

  /** A decision request. Its fingerprint covers exactly these two fields. */
  datatype Request = Request(order: nat, decision: Decision)

  /** HTTP 200, 404 and 409 of decideChangeOrder. */
  datatype Response = Decided | NotFound | AlreadyDecided

  predicate Exists(orders: seq<Order>, o: nat)
  {
    o < |orders| && orders[o].status != Deleted
  }

  function StatusFor(decision: Decision): OrderStatus
  {
    if decision == Approve then Approved else Rejected
  }

  datatype Books = Books(orders: seq<Order>, budget: int)

  /** The transaction: an UPDATE conditioned on `pending`, and an atomic budget increment. */
  function Decide(books: Books, request: Request): (result: (Books, Response))
  {
    var o := request.order;
    if o >= |books.orders| || books.orders[o].status != Pending then (books, AlreadyDecided)
    else
      var order := books.orders[o];
      (Books(books.orders[o := order.(status := StatusFor(request.decision))],
             books.budget + if request.decision == Approve then order.delta else 0),
       Decided)
  }

  function ApprovedSum(orders: seq<Order>): int
  {
    if orders == [] then 0
    else
      var last := orders[|orders| - 1];
      ApprovedSum(orders[..|orders| - 1]) + if last.status == Approved then last.delta else 0
  }

  // ---- The idempotency_keys table ----

  /** One claim. `fingerprint` is the request it was claimed or stolen for. */
  datatype Claim = Claim(id: nat, fingerprint: Request, completed: bool, response: Response, owner: nat, lease: nat)

  const CLAIM_ATTEMPTS: nat := 3
  const POLL_ATTEMPTS: nat := 40
  const LEASE_DURATION_MS: nat := 10000

  datatype Phase =
    | Claiming(attempt: nat)
    | Polling(attempt: nat, poll: nat)
    | Stealing(attempt: nat, poll: nat, id: nat)
    | Leading(id: nat, token: nat)
    | Deciding(id: nat, token: nat)
    | Completing(id: nat, token: nat, outcome: Response)
    | Releasing(id: nat, token: nat)
    | Answered(answer: Response, replayed: bool)
    | Conflict
    | Failed
    | Crashed
  {
    /** Holds an owner token: the statements of runAsLeader. */
    predicate Leads()
    {
      Leading? || Deciding? || Completing? || Releasing?
    }
  }

  datatype Worker = Worker(key: nat, request: Request, phase: Phase)

  datatype State = State(
    now: nat,
    opening: int,
    books: Books,
    claims: map<nat, Claim>,
    nextId: nat,
    nextToken: nat,
    workers: seq<Worker>)

  predicate Owns(s: State, w: Worker)
    requires w.phase.Leads()
  {
    w.key in s.claims && s.claims[w.key].id == w.phase.id && s.claims[w.key].owner == w.phase.token
  }

  /** Whether a statement worked, failed, or worked while its reply was lost. */
  datatype Fault = NoFault | Error | LostReply

  function Move(s: State, i: nat, phase: Phase): State
    requires i < |s.workers|
  {
    s.(workers := s.workers[i := s.workers[i].(phase := phase)])
  }

  /** INSERT ... ON CONFLICT DO NOTHING. */
  function ClaimStep(s: State, i: nat, attempt: nat): State
    requires i < |s.workers|
  {
    var w := s.workers[i];
    if attempt >= CLAIM_ATTEMPTS then Move(s, i, Failed)
    else if w.key in s.claims then Move(s, i, Polling(attempt, 0))
    else
      var claim := Claim(s.nextId, w.request, false, NotFound, s.nextToken, s.now + LEASE_DURATION_MS);
      Move(s, i, Leading(s.nextId, s.nextToken))
        .(claims := s.claims[w.key := claim], nextId := s.nextId + 1, nextToken := s.nextToken + 1)
  }

  /** One read of the claim by a follower. */
  function PollStep(s: State, i: nat, attempt: nat, poll: nat): State
    requires i < |s.workers|
  {
    var w := s.workers[i];
    if poll >= POLL_ATTEMPTS || w.key !in s.claims then Move(s, i, Claiming(attempt + 1))
    else
      var claim := s.claims[w.key];
      if claim.completed then
        Move(s, i, if claim.fingerprint != w.request then Conflict else Answered(claim.response, true))
      else if claim.lease <= s.now then Move(s, i, Stealing(attempt, poll, claim.id))
      else Move(s, i, Polling(attempt, poll + 1))
  }

  /** The conditional UPDATE that takes over an expired claim. */
  function StealStep(s: State, i: nat, attempt: nat, poll: nat, id: nat): State
    requires i < |s.workers|
  {
    var w := s.workers[i];
    if w.key in s.claims && s.claims[w.key].id == id && !s.claims[w.key].completed && s.claims[w.key].lease < s.now then
      var claim := s.claims[w.key].(owner := s.nextToken, lease := s.now + LEASE_DURATION_MS, fingerprint := w.request);
      Move(s, i, Leading(id, s.nextToken)).(claims := s.claims[w.key := claim], nextToken := s.nextToken + 1)
    else Move(s, i, Polling(attempt, poll + 1))
  }

  /** The completion UPDATE, conditioned on still holding the owner token. */
  function CompleteStep(s: State, i: nat, fault: Fault): State
    requires i < |s.workers| && s.workers[i].phase.Completing?
  {
    var w := s.workers[i];
    var lost := Releasing(w.phase.id, w.phase.token);
    if fault == Error || !Owns(s, w) then Move(s, i, lost)
    else
      var claim := s.claims[w.key].(completed := true, response := w.phase.outcome);
      Move(s, i, if fault == LostReply then lost else Answered(w.phase.outcome, false))
        .(claims := s.claims[w.key := claim])
  }

  /** The catch block's conditional DELETE; the request then fails. */
  function ReleaseStep(s: State, i: nat, fault: Fault): State
    requires i < |s.workers| && s.workers[i].phase.Releasing?
  {
    var w := s.workers[i];
    if fault == Error || !Owns(s, w) then Move(s, i, Failed)
    else Move(s, i, Failed).(claims := s.claims - {w.key})
  }

  /** The next statement of worker `i`. */
  function WorkStep(s: State, i: nat, fault: Fault): State
    requires i < |s.workers|
  {
    var w := s.workers[i];
    match w.phase
    case Claiming(attempt) => ClaimStep(s, i, attempt)
    case Polling(attempt, poll) => PollStep(s, i, attempt, poll)
    case Stealing(attempt, poll, id) => StealStep(s, i, attempt, poll, id)
    case Leading(id, token) =>
      Move(s, i,
           if fault != NoFault then Releasing(id, token)
           else if Exists(s.books.orders, w.request.order) then Deciding(id, token)
           else Completing(id, token, NotFound))
    case Deciding(id, token) =>
      var (books, response) := Decide(s.books, w.request);
      if fault == Error then Move(s, i, Releasing(id, token))
      else Move(s, i, if fault == LostReply then Releasing(id, token) else Completing(id, token, response)).(books := books)
    case Completing(id, token, outcome) => CompleteStep(s, i, fault)
    case Releasing(id, token) => ReleaseStep(s, i, fault)
    case _ => s
  }

  /** The holder's heartbeat: renews the lease while the claim is still its own and pending. */
  function BeatStep(s: State, i: nat): State
    requires i < |s.workers|
  {
    var w := s.workers[i];
    if w.phase.Leads() && Owns(s, w) && !s.claims[w.key].completed
    then s.(claims := s.claims[w.key := s.claims[w.key].(lease := s.now + LEASE_DURATION_MS)])
    else s
  }

  datatype Action =
    | Tick(ms: nat)
    | CreateOrder(delta: int)
    | DeleteOrder(order: nat)
    | PlainDecide(request: Request)
    | Arrive(key: nat, request: Request)
    | Work(i: nat, fault: Fault)
    | Beat(i: nat)
    | Crash(i: nat)

  function Step(s: State, a: Action): State
  {
    match a
    case Tick(ms) => s.(now := s.now + ms)
    case CreateOrder(delta) => s.(books := s.books.(orders := s.books.orders + [Order(delta, Pending)]))
    case DeleteOrder(o) =>
      if Exists(s.books.orders, o) && s.books.orders[o].status != Approved
      then s.(books := s.books.(orders := s.books.orders[o := s.books.orders[o].(status := Deleted)]))
      else s
    case PlainDecide(request) => if Exists(s.books.orders, request.order) then s.(books := Decide(s.books, request).0) else s
    case Arrive(key, request) => s.(workers := s.workers + [Worker(key, request, Claiming(0))])
    case Work(i, fault) => if i < |s.workers| then WorkStep(s, i, fault) else s
    case Beat(i) => if i < |s.workers| then BeatStep(s, i) else s
    case Crash(i) => if i < |s.workers| then Move(s, i, Crashed) else s
  }

  function Initial(opening: int): State
  {
    State(0, opening, Books([], opening), map[], 0, 0, [])
  }

  function Run(opening: int, actions: seq<Action>): State
  {
    if actions == [] then Initial(opening)
    else Step(Run(opening, actions[..|actions| - 1]), actions[|actions| - 1])
  }
}
