// One contract's boq_revisions and boq_items, updated in place by server/src/routes/boq.ts.
module BoqTables {
  import opened BoqRevisions

  /** What a publish of another revision makes of this one. */
  function Replaced(r: Revision, affected: bool): Revision {
    if affected && r.status == Published then r.(status := Superseded) else r
  }

  lemma {:induction false} PredecessorIgnores(revisions: seq<Revision>, i: nat, r: Revision)
    requires i < |revisions|
    ensures Predecessor(revisions[i := r], i) == Predecessor(revisions, i)
  {
    var n := |revisions| - 1;
    if i < n {
      assert revisions[i := r][..n] == revisions[..n][i := r];
      PredecessorIgnores(revisions[..n], i, r);
    } else {
      assert revisions[i := r][..n] == revisions[..n];
    }
  }

  /** The draft is published with its number and items as they were, in place of the one
      published last; every other revision stays, or goes from published to superseded. */
  ghost predicate IsPublished(before: seq<Revision>, i: nat, now: nat, predecessor: Option<nat>, after: seq<Revision>)
    requires i < |before|
  {
    && |after| == |before|
    && after[i] == Revision(before[i].number, Published, now, predecessor, before[i].items)
    && forall k :: 0 <= k < |before| && k != i ==>
         after[k] == if before[k].status == Published then before[k].(status := Superseded) else before[k]
  }

  lemma PublishEffect(s: State, i: nat, order: seq<nat>)
    requires Numbered(s.revisions) && OneChain(s.revisions, order)
    ensures Publish(s, i).1 == Ok <==> i < |s.revisions| && !s.blocked && s.revisions[i].status == Draft
    ensures Publish(s, i).1 == NotFound <==> i >= |s.revisions|
    ensures Publish(s, i).1 != Ok ==> Publish(s, i).0 == s
    ensures Publish(s, i).1 == Ok ==>
              IsPublished(s.revisions, i, s.now, if order == [] then None else Some(order[|order| - 1]), Publish(s, i).0.revisions)
  {
    if i < |s.revisions| && !s.blocked && s.revisions[i].status == Draft {
      PredecessorIsLast(s.revisions, order, i);
      DraftIsOutside(s.revisions, order, i);
    }
  }

  class ContractRevisions {
    var blocked: bool
    var now: nat
    var revisions: seq<Revision>
    /** The positions published so far, in order. */
    ghost var published: seq<nat>

    function Contents(): State
      reads this
    {
      State(blocked, now, revisions)
    }

    /** Numbered 1 to n, and one supersedes chain through all that were ever published. */
    ghost predicate Valid()
      reads this
    {
      Numbered(revisions) && OneChain(revisions, published)
    }

    constructor ()
      ensures Contents() == EMPTY && Valid() && published == []
    {
      blocked, now, revisions, published := false, 0, [], [];
    }

    /** POST /: MAX + 1 under the contract's lock is the next number. */
    method CreateRevision(seenBlocked: bool) returns (outcome: Outcome)
      requires Valid()
      modifies this`revisions
      ensures Valid()
      ensures (Contents(), outcome) == Create(old(Contents()), seenBlocked)
      ensures outcome == Ok <==> !seenBlocked
      ensures outcome == Ok ==> revisions == old(revisions) + [Revision(|old(revisions)| + 1, Draft, 0, None, [])]
      ensures outcome != Ok ==> revisions == old(revisions)
    {
      EditStepKeepsChain(Contents(), DoCreate(seenBlocked), published);
      if seenBlocked {
        return Blocked;
      }
      var max := 0;
      for k := 0 to |revisions|
        invariant max == MaxNumber(revisions[..k])
      {
        assert revisions[..k + 1][..k] == revisions[..k];
        if max < revisions[k].number {
          max := revisions[k].number;
        }
      }
      assert revisions[..|revisions|] == revisions;
      MaxOfNumbered(revisions);
      revisions := revisions + [Revision(max + 1, Draft, 0, None, [])];
      outcome := Ok;
    }

    /** POST /:revisionId/publish: the three updates of the transaction, in the route's order. */
    method PublishRevision(i: nat) returns (outcome: Outcome)
      requires Valid()
      modifies this`revisions, this`published
      ensures Valid() && published == old(published) + if outcome == Ok then [i] else []
      ensures outcome == Ok <==> i < |old(revisions)| && !blocked && old(revisions)[i].status == Draft
      ensures outcome == NotFound <==> i >= |old(revisions)|
      ensures outcome != Ok ==> revisions == old(revisions)
      ensures outcome == Ok ==>
                IsPublished(old(revisions), i, now, if old(published) == [] then None else Some(old(published)[|old(published)| - 1]), revisions)
      ensures (Contents(), outcome) == Publish(old(Contents()), i)
    {
      ghost var before := Contents();
      outcome := UpdateRevisions(i);
      StepExtendsChain(before, DoPublish(i), published);
      PublishEffect(before, i, published);
      published := published + if outcome == Ok then [i] else [];
    }

    method UpdateRevisions(i: nat) returns (outcome: Outcome)
      modifies this`revisions
      ensures (Contents(), outcome) == Publish(old(Contents()), i)
    {
      if i >= |revisions| {
        return NotFound;
      }
      if blocked {
        return Blocked;
      }
      if revisions[i].status != Draft {
        return Conflict;
      }
      PredecessorIgnores(revisions, i, revisions[i].(status := Published, publishedAt := now));
      revisions := revisions[i := revisions[i].(status := Published, publishedAt := now)];
      var predecessor := SupersedeOthers(i);
      if predecessor.Some? {
        revisions := revisions[i := revisions[i].(supersedes := predecessor)];
      }
      outcome := Ok;
      assert revisions == Publish(old(Contents()), i).0.revisions;
    }

    /** UPDATE ... SET status = 'superseded' on the other published revisions, and the most
        recently published of them. */
    method SupersedeOthers(i: nat) returns (predecessor: Option<nat>)
      modifies this`revisions
      ensures predecessor == Predecessor(old(revisions), i)
      ensures |revisions| == |old(revisions)|
      ensures forall j :: 0 <= j < |revisions| ==> revisions[j] == Replaced(old(revisions)[j], j != i)
    {
      ghost var before := revisions;
      predecessor := None;
      for k := 0 to |revisions|
        invariant |revisions| == |before|
        invariant predecessor == Predecessor(before[..k], i)
        invariant forall j :: 0 <= j < |before| ==> revisions[j] == Replaced(before[j], j < k && j != i)
      {
        assert before[..k + 1][..k] == before[..k];
        if k != i && revisions[k].status == Published {
          if predecessor.None? || revisions[predecessor.value].publishedAt < revisions[k].publishedAt {
            predecessor := Some(k);
          }
          revisions := revisions[k := revisions[k].(status := Superseded)];
        }
      }
      assert before[..|before|] == before;
    }

    /** POST /:revisionId/items, under the revision's lock: drafts take items, and nothing that
        was ever published changes. */
    method AddBoqItem(i: nat, item: Item) returns (outcome: Outcome)
      requires Valid()
      modifies this`revisions
      ensures Valid() && |revisions| == |old(revisions)|
      ensures outcome == Ok <==> i < |revisions| && old(revisions)[i].status == Draft
      ensures forall k :: 0 <= k < |revisions| && (k != i || old(revisions)[k].status != Draft) ==> revisions[k] == old(revisions)[k]
      ensures outcome == Ok ==> revisions[i].items == old(revisions)[i].items + [item] && revisions[i].status == Draft
      ensures (Contents(), outcome) == AddItem(old(Contents()), i, item)
    {
      EditStepKeepsChain(Contents(), DoAddItem(i, item), published);
      if i >= |revisions| {
        return NotFound;
      }
      if revisions[i].status != Draft {
        return Conflict;
      }
      revisions := revisions[i := revisions[i].(items := revisions[i].items + [item])];
      outcome := Ok;
    }

    /** DELETE of an item, under the revision's lock. */
    method RemoveBoqItem(i: nat, k: nat) returns (outcome: Outcome)
      requires Valid()
      modifies this`revisions
      ensures Valid() && |revisions| == |old(revisions)|
      ensures outcome == Ok <==> i < |revisions| && old(revisions)[i].status == Draft && k < |old(revisions)[i].items|
      ensures revisions ==
              if outcome == Ok
              then old(revisions)[i := old(revisions)[i].(items := old(revisions)[i].items[..k] + old(revisions)[i].items[k + 1..])]
              else old(revisions)
      ensures (Contents(), outcome) == RemoveItem(old(Contents()), i, k)
    {
      EditStepKeepsChain(Contents(), DoRemoveItem(i, k), published);
      if i >= |revisions| {
        return NotFound;
      }
      if revisions[i].status != Draft {
        return Conflict;
      }
      var items := revisions[i].items;
      if k >= |items| {
        return NotFound;
      }
      revisions := revisions[i := revisions[i].(items := items[..k] + items[k + 1..])];
      outcome := Ok;
    }
  }
}
