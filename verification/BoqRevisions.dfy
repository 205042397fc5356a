// The bill-of-quantities revisions of one contract; create and publish run under the
// contract's row lock, item edits under the revision's (server/src/routes/boq.ts).
module BoqRevisions {

  datatype Option<T> = None | Some(value: T)

  datatype Status = Draft | Published | Superseded

  /** Quantity in thousandths and rate in cents, as stored. */
  datatype Item = Item(quantity: nat, rate: nat)

  datatype Revision = Revision(number: nat, status: Status, publishedAt: nat, supersedes: Option<nat>, items: seq<Item>)

  /** The revisions are in creation order and referred to by position; none is ever deleted. */
  datatype State = State(blocked: bool, now: nat, revisions: seq<Revision>)

  datatype Outcome = Ok | Blocked | Conflict | NotFound

  /** COALESCE(MAX(revision_number), 0). */
  function MaxNumber(revisions: seq<Revision>): nat {
    if revisions == [] then 0
    else
      var n := |revisions| - 1;
      var rest := MaxNumber(revisions[..n]);
      if rest < revisions[n].number then revisions[n].number else rest
  }

  /** Whether the contract is blocked was read before its row was locked, and may be so no longer
      or only now. */
  function Create(s: State, seenBlocked: bool): (State, Outcome) {
    if seenBlocked then (s, Blocked)
    else (s.(revisions := s.revisions + [Revision(MaxNumber(s.revisions) + 1, Draft, 0, None, [])]), Ok)
  }

  /** The most recently published among the revisions a publish of `i` supersedes. */
  function Predecessor(revisions: seq<Revision>, i: nat): (p: Option<nat>)
    ensures p.Some? ==> p.value < |revisions| && p.value != i && revisions[p.value].status == Published
    ensures p.None? <==> forall k :: 0 <= k < |revisions| ==> k == i || revisions[k].status != Published
  {
    if revisions == [] then None
    else
      var n := |revisions| - 1;
      var rest := Predecessor(revisions[..n], i);
      if n != i && revisions[n].status == Published && (rest.None? || revisions[rest.value].publishedAt < revisions[n].publishedAt)
      then Some(n) else rest
  }

  function Publish(s: State, i: nat): (State, Outcome) {
    if i >= |s.revisions| then (s, NotFound)
    else if s.blocked then (s, Blocked)
    else if s.revisions[i].status != Draft then (s, Conflict)
    else
      var p := Predecessor(s.revisions, i);
      var revisions := seq(|s.revisions|, k requires 0 <= k < |s.revisions| =>
        if k == i then s.revisions[k].(status := Published, publishedAt := s.now,
                                       supersedes := if p.Some? then p else s.revisions[k].supersedes)
        else if s.revisions[k].status == Published then s.revisions[k].(status := Superseded)
        else s.revisions[k]);
      (s.(revisions := revisions), Ok)
  }

  function AddItem(s: State, i: nat, item: Item): (State, Outcome) {
    if i >= |s.revisions| then (s, NotFound)
    else if s.revisions[i].status != Draft then (s, Conflict)
    else (s.(revisions := s.revisions[i := s.revisions[i].(items := s.revisions[i].items + [item])]), Ok)
  }

  function RemoveItem(s: State, i: nat, k: nat): (State, Outcome) {
    if i >= |s.revisions| then (s, NotFound)
    else if s.revisions[i].status != Draft then (s, Conflict)
    else if k >= |s.revisions[i].items| then (s, NotFound)
    else
      var items := s.revisions[i].items;
      (s.(revisions := s.revisions[i := s.revisions[i].(items := items[..k] + items[k + 1..])]), Ok)
  }

  datatype Action =
    | DoCreate(seenBlocked: bool)
    | DoPublish(i: nat)
    | DoAddItem(i: nat, item: Item)
    | DoRemoveItem(i: nat, k: nat)
    | SetBlocked(blocked: bool)

  /** Time passes with every action. */
  function Step(s: State, a: Action): State {
    var t := match a
      case DoCreate(seenBlocked) => Create(s, seenBlocked).0
      case DoPublish(i) => Publish(s, i).0
      case DoAddItem(i, item) => AddItem(s, i, item).0
      case DoRemoveItem(i, k) => RemoveItem(s, i, k).0
      case SetBlocked(b) => s.(blocked := b);
    t.(now := s.now + 1)
  }

  function Run(s: State, actions: seq<Action>): State {
    if actions == [] then s else Step(Run(s, actions[..|actions| - 1]), actions[|actions| - 1])
  }

  const EMPTY := State(false, 0, [])

  // ---- One chain ----

  /** The revisions the run published, in that order. */
  function Order(actions: seq<Action>): seq<nat> {
    if actions == [] then []
    else
      var n := |actions| - 1;
      Order(actions[..n]) + Newly(Run(EMPTY, actions[..n]), actions[n])
  }

  predicate Numbered(revisions: seq<Revision>) {
    forall i :: 0 <= i < |revisions| ==> revisions[i].number == i + 1
  }

  /** The k-th of the chain is superseded, or published if it is the last, and supersedes the one before. */
  predicate LinkOk(revisions: seq<Revision>, order: seq<nat>, k: nat)
    requires k < |order|
  {
    && order[k] < |revisions|
    && revisions[order[k]].status == (if k == |order| - 1 then Published else Superseded)
    && revisions[order[k]].supersedes == (if k == 0 then None else Some(order[k - 1]))
  }

  /** `order` is the one chain: every other revision is an unlinked draft. */
  ghost predicate OneChain(revisions: seq<Revision>, order: seq<nat>) {
    && (forall k :: 0 <= k < |order| ==> LinkOk(revisions, order, k))
    && (forall i :: 0 <= i < |revisions| && i !in order ==> revisions[i].status == Draft && revisions[i].supersedes == None)
  }

  lemma {:induction false} MaxOfNumbered(revisions: seq<Revision>)
    requires Numbered(revisions)
    ensures MaxNumber(revisions) == |revisions|
  {
    if revisions != [] {
      MaxOfNumbered(revisions[..|revisions| - 1]);
    }
  }

  /** A revision that is not a draft has its place in the chain; the published one is its last. */
  lemma PlaceInChain(revisions: seq<Revision>, order: seq<nat>, i: nat) returns (k: nat)
    requires OneChain(revisions, order) && i < |revisions|
    requires revisions[i].status != Draft || revisions[i].supersedes.Some?
    ensures k < |order| && order[k] == i && LinkOk(revisions, order, k)
    ensures revisions[i].status == Published ==> k == |order| - 1
    ensures k > 0 ==> order[k - 1] < |revisions|
  {
    assert i in order;
    k :| 0 <= k < |order| && order[k] == i;
    assert LinkOk(revisions, order, k);
    if k > 0 {
      assert LinkOk(revisions, order, k - 1);
    }
  }

  /** In a chain the predecessor is its last revision: the tie-break by date is never needed. */
  lemma PredecessorIsLast(revisions: seq<Revision>, order: seq<nat>, i: nat)
    requires OneChain(revisions, order) && i < |revisions| && revisions[i].status == Draft
    ensures Predecessor(revisions, i) == if order == [] then None else Some(order[|order| - 1])
  {
    var p := Predecessor(revisions, i);
    assert order != [] ==> LinkOk(revisions, order, |order| - 1);
    if p.Some? {
      var k := PlaceInChain(revisions, order, p.value);
    }
  }

  lemma DraftIsOutside(revisions: seq<Revision>, order: seq<nat>, i: nat)
    requires OneChain(revisions, order) && i < |revisions| && revisions[i].status == Draft
    ensures i !in order && revisions[i].supersedes == None
  {
    forall k | 0 <= k < |order|
      ensures order[k] != i
    {
      assert LinkOk(revisions, order, k);
    }
  }

  lemma PublishExtendsChain(s: State, order: seq<nat>, i: nat)
    requires OneChain(s.revisions, order) && Publish(s, i).1 == Ok
    ensures OneChain(Publish(s, i).0.revisions, order + [i])
  {
    PredecessorIsLast(s.revisions, order, i);
    DraftIsOutside(s.revisions, order, i);
    var after, longer := Publish(s, i).0.revisions, order + [i];
    forall k | 0 <= k < |longer|
      ensures LinkOk(after, longer, k)
    {
      if k < |order| {
        assert LinkOk(s.revisions, order, k);
        assert longer[k] in order;
      }
    }
    forall k | 0 <= k < |after| && k !in longer
      ensures after[k].status == Draft && after[k].supersedes == None
    {
      assert i in longer;
      assert forall j :: 0 <= j < |order| ==> longer[j] == order[j];
      assert k !in order && k != i;
    }
  }

  lemma EditKeepsChain(before: seq<Revision>, after: seq<Revision>, order: seq<nat>)
    requires OneChain(before, order) && |before| <= |after|
    requires forall i :: 0 <= i < |before| ==> after[i].status == before[i].status && after[i].supersedes == before[i].supersedes
    requires forall i :: |before| <= i < |after| ==> after[i].status == Draft && after[i].supersedes == None
    ensures OneChain(after, order)
  {
    forall k | 0 <= k < |order|
      ensures LinkOk(after, order, k)
    {
      assert LinkOk(before, order, k);
    }
  }

  lemma EditStepKeepsChain(s: State, a: Action, order: seq<nat>)
    requires Numbered(s.revisions) && OneChain(s.revisions, order)
    requires a.DoPublish? ==> Publish(s, a.i).1 != Ok
    ensures Numbered(Step(s, a).revisions) && OneChain(Step(s, a).revisions, order)
  {
    if a.DoCreate? {
      MaxOfNumbered(s.revisions);
    }
    EditKeepsChain(s.revisions, Step(s, a).revisions, order);
  }

  /** What an action adds to the chain. */
  function Newly(s: State, a: Action): seq<nat> {
    if a.DoPublish? && Publish(s, a.i).1 == Ok then [a.i] else []
  }

  lemma StepExtendsChain(s: State, a: Action, order: seq<nat>)
    requires Numbered(s.revisions) && OneChain(s.revisions, order)
    ensures Numbered(Step(s, a).revisions) && OneChain(Step(s, a).revisions, order + Newly(s, a))
  {
    if Newly(s, a) == [] {
      assert order + [] == order;
      EditStepKeepsChain(s, a, order);
    } else {
      PublishExtendsChain(s, order, a.i);
    }
  }

  lemma {:induction false} RunIsOneChain(actions: seq<Action>)
    ensures Numbered(Run(EMPTY, actions).revisions) && OneChain(Run(EMPTY, actions).revisions, Order(actions))
  {
    if actions != [] {
      var n := |actions| - 1;
      RunIsOneChain(actions[..n]);
      StepExtendsChain(Run(EMPTY, actions[..n]), actions[n], Order(actions[..n]));
    }
  }

  /** In every run the revisions are numbered 1 to n and at most one is published. */
  lemma NumberedAndOnePublished(actions: seq<Action>)
    ensures var revisions := Run(EMPTY, actions).revisions;
            && (forall i :: 0 <= i < |revisions| ==> revisions[i].number == i + 1)
            && (forall i, j :: 0 <= i < j < |revisions| ==> revisions[i].status != Published || revisions[j].status != Published)
  {
    RunIsOneChain(actions);
    var revisions, order := Run(EMPTY, actions).revisions, Order(actions);
    forall i | 0 <= i < |revisions| && revisions[i].status == Published
      ensures order != [] && i == order[|order| - 1]
    {
      var k := PlaceInChain(revisions, order, i);
    }
  }

  // ---- Immutability ----

  /** From its publication on, a revision's number, date, link and items never change. */
  lemma {:induction false} PublishedIsImmutable(s: State, actions: seq<Action>, i: nat)
    requires i < |s.revisions| && s.revisions[i].status != Draft
    ensures var t := Run(s, actions);
            && i < |t.revisions| && t.revisions[i].status != Draft
            && t.revisions[i] == s.revisions[i].(status := t.revisions[i].status)
            && (s.revisions[i].status == Superseded ==> t.revisions[i].status == Superseded)
  {
    if actions != [] {
      PublishedIsImmutable(s, actions[..|actions| - 1], i);
    }
  }

  // ---- Do the links fall? ----

  predicate Falls(revisions: seq<Revision>, i: nat)
    requires i < |revisions|
  {
    match revisions[i].supersedes
    case None => true
    case Some(older) => older < |revisions| && revisions[older].number < revisions[i].number
  }

  /** Every link leads to a smaller revision number. */
  predicate LinksFall(revisions: seq<Revision>) {
    forall i :: 0 <= i < |revisions| ==> Falls(revisions, i)
  }

  /** What a caller would check before publishing: nothing newer is published. */
  predicate NewerThanPublished(s: State, i: nat) {
    forall k :: 0 <= k < |s.revisions| && i < |s.revisions| && s.revisions[k].status == Published ==>
                  s.revisions[k].number < s.revisions[i].number
  }

  /** Every publish of the run that goes through picks a revision newer than the published one. */
  predicate PublishesInOrder(actions: seq<Action>) {
    actions != [] ==>
      var n := |actions| - 1;
      var s := Run(EMPTY, actions[..n]);
      && PublishesInOrder(actions[..n])
      && (actions[n].DoPublish? && Publish(s, actions[n].i).1 == Ok ==> NewerThanPublished(s, actions[n].i))
  }

  lemma PublishFallsIff(s: State, order: seq<nat>, i: nat)
    requires Numbered(s.revisions) && OneChain(s.revisions, order) && Publish(s, i).1 == Ok
    ensures LinksFall(Publish(s, i).0.revisions) <==> LinksFall(s.revisions) && NewerThanPublished(s, i)
  {
    PredecessorIsLast(s.revisions, order, i);
    DraftIsOutside(s.revisions, order, i);
    LinksInRange(s.revisions, order);
    var after := Publish(s, i).0.revisions;
    assert forall k :: 0 <= k < |after| ==> after[k].number == s.revisions[k].number;
    assert forall k :: 0 <= k < |after| && k != i ==> after[k].supersedes == s.revisions[k].supersedes;
    LinksFallByOne(s.revisions, after, i);
    forall k | 0 <= k < |s.revisions| && s.revisions[k].status == Published
      ensures after[i].supersedes == Some(k)
    {
      var j := PlaceInChain(s.revisions, order, k);
    }
    if order != [] {
      assert LinkOk(s.revisions, order, |order| - 1);
    }
  }

  /** One new link falls or does not; the others are as they were. */
  lemma LinksFallByOne(before: seq<Revision>, after: seq<Revision>, i: nat)
    requires |before| == |after| && i < |after| && before[i].supersedes == None
    requires forall k :: 0 <= k < |after| ==> after[k].number == before[k].number
    requires forall k :: 0 <= k < |after| && k != i ==> after[k].supersedes == before[k].supersedes
    ensures LinksFall(after) <==> LinksFall(before) && Falls(after, i)
  {
    assert forall k :: 0 <= k < |after| && k != i ==> (Falls(after, k) <==> Falls(before, k));
  }

  lemma OtherStepsKeepLinks(s: State, a: Action)
    requires !a.DoPublish? || Publish(s, a.i).1 != Ok
    requires Numbered(s.revisions) && forall k :: 0 <= k < |s.revisions| && s.revisions[k].supersedes.Some? ==> s.revisions[k].supersedes.value < |s.revisions|
    ensures LinksFall(Step(s, a).revisions) <==> LinksFall(s.revisions)
  {
    var t := Step(s, a);
    assert forall k :: 0 <= k < |s.revisions| ==>
                         t.revisions[k].number == s.revisions[k].number && t.revisions[k].supersedes == s.revisions[k].supersedes;
    assert forall k :: 0 <= k < |s.revisions| ==> (Falls(t.revisions, k) <==> Falls(s.revisions, k));
    assert forall k :: |s.revisions| <= k < |t.revisions| ==> Falls(t.revisions, k);
  }

  /** The links of the one chain fall in number exactly when every publish was of a revision
      newer than the one published at the time; the route itself does not ask for that. */
  lemma {:induction false} LinksFallIff(actions: seq<Action>)
    ensures LinksFall(Run(EMPTY, actions).revisions) <==> PublishesInOrder(actions)
  {
    if actions != [] {
      var n := |actions| - 1;
      LinksFallIff(actions[..n]);
      RunIsOneChain(actions[..n]);
      var s, a := Run(EMPTY, actions[..n]), actions[n];
      if a.DoPublish? && Publish(s, a.i).1 == Ok {
        PublishFallsIff(s, Order(actions[..n]), a.i);
      } else {
        LinksInRange(s.revisions, Order(actions[..n]));
        OtherStepsKeepLinks(s, a);
      }
    }
  }

  lemma LinksInRange(revisions: seq<Revision>, order: seq<nat>)
    requires OneChain(revisions, order)
    ensures forall k :: 0 <= k < |revisions| && revisions[k].supersedes.Some? ==> revisions[k].supersedes.value < |revisions|
  {
    forall k | 0 <= k < |revisions| && revisions[k].supersedes.Some?
      ensures revisions[k].supersedes.value < |revisions|
    {
      var j := PlaceInChain(revisions, order, k);
    }
  }

  lemma RunSnoc(actions: seq<Action>, a: Action)
    ensures Run(EMPTY, actions + [a]) == Step(Run(EMPTY, actions), a)
  {
    assert (actions + [a])[..|actions + [a]| - 1] == actions;
  }

  /** Concrete run: two drafts, the second published before the first; the first then
      supersedes the second. */
  lemma OlderDraftSupersedesNewer()
    ensures var revisions := Run(EMPTY, [DoCreate(false)] + [DoCreate(false)] + [DoPublish(1)] + [DoPublish(0)]).revisions;
            && |revisions| == 2 && revisions[0].number == 1 && revisions[0].status == Published
            && revisions[0].supersedes == Some(1) && revisions[1].number == 2
  {
    var run := [DoCreate(false)];
    assert run[..0] == [];
    assert Run(EMPTY, run).revisions == [Revision(1, Draft, 0, None, [])];
    RunSnoc(run, DoCreate(false));
    run := run + [DoCreate(false)];
    RunIsOneChain(run);
    assert Run(EMPTY, run).revisions == [Revision(1, Draft, 0, None, []), Revision(2, Draft, 0, None, [])];
    RunSnoc(run, DoPublish(1));
    run := run + [DoPublish(1)];
    RunSnoc(run, DoPublish(0));
  }
}
