// The WBS hierarchy: parent links between schedule tasks, and the bounded ancestor
// walk that guards a reparenting (server/src/routes/projectSchedule.ts).
module TaskTree {

  datatype Option<+T> = None | Some(value: T)

  type Parents = map<nat, Option<nat>>

  const WALK_LIMIT: nat := 1000

  /** The k-th ancestor of a task, itself for k = 0. */
  function Up(parents: Parents, task: nat, k: nat): Option<nat>
    decreases k
  {
    if k == 0 then Some(task)
    else if task in parents && parents[task].Some? then Up(parents, parents[task].value, k - 1)
    else None
  }

  /** Every parent exists, and no task is its own ancestor. */
  ghost predicate Forest(parents: Parents)
  {
    && (forall t :: t in parents && parents[t].Some? ==> parents[t].value in parents)
    && (forall t: nat, k: nat :: k > 0 ==> Up(parents, t, k) != Some(t))
  }

  // ---- resolveParent ----

  datatype Resolution = Accepted(parent: Option<nat>) | OwnParent | NoSuchParent | WouldLoop

  ghost predicate SeenWithin(parents: Parents, parent: nat, self: nat, limit: nat)
  {
    exists k: nat :: 1 <= k <= limit && Up(parents, parent, k) == Some(self)
  }

  lemma {:induction false} UpOneMore(parents: Parents, task: nat, k: nat)
    ensures Up(parents, task, k + 1) ==
            if Up(parents, task, k).Some? && Up(parents, task, k).value in parents then parents[Up(parents, task, k).value]
            else None
    decreases k
  {
    if k > 0 && task in parents && parents[task].Some? {
      UpOneMore(parents, parents[task].value, k - 1);
    }
  }

  /** The route's check. The walk looks at the first thousand ancestors of the
      candidate parent, and at no more. */
  method ResolveParent(parents: Parents, candidate: Option<nat>, self: Option<nat>) returns (r: Resolution)
    ensures candidate.None? ==> r == Accepted(None)
    ensures candidate.Some? && candidate == self ==> r == OwnParent
    ensures candidate.Some? && candidate != self && candidate.value !in parents ==> r == NoSuchParent
    ensures candidate.Some? && candidate != self && candidate.value in parents ==>
              r == if self.Some? && SeenWithin(parents, candidate.value, self.value, WALK_LIMIT) then WouldLoop else Accepted(candidate)
  {
    if candidate.None? {
      return Accepted(None);
    }
    var parent := candidate.value;
    if candidate == self {
      return OwnParent;
    }
    if parent !in parents {
      return NoSuchParent;
    }
    if self.Some? {
      var current: Option<nat> := Some(parent);
      var steps: nat := 0;
      while current.Some? && current.value in parents && parents[current.value].Some? && steps < WALK_LIMIT
        invariant steps <= WALK_LIMIT
        invariant current == Up(parents, parent, steps)
        invariant forall k: nat :: 1 <= k <= steps ==> Up(parents, parent, k) != Some(self.value)
        decreases WALK_LIMIT - steps
      {
        UpOneMore(parents, parent, steps);
        if parents[current.value] == self {
          assert Up(parents, parent, steps + 1) == self;
          return WouldLoop;
        }
        current := parents[current.value];
        steps := steps + 1;
      }
      if steps < WALK_LIMIT {
        forall k: nat | 1 <= k <= WALK_LIMIT
          ensures Up(parents, parent, k) != Some(self.value)
        {
          if k > steps {
            WalkEnded(parents, parent, steps, k);
          }
        }
      }
    }
    r := Accepted(Some(parent));
  }

  lemma {:induction false} WalkEnded(parents: Parents, task: nat, n: nat, k: nat)
    requires n < k
    requires Up(parents, task, n).Some? ==>
               Up(parents, task, n).value !in parents || parents[Up(parents, task, n).value].None?
    ensures Up(parents, task, k).None?
  {
    UpOneMore(parents, task, k - 1);
    if n < k - 1 {
      WalkEnded(parents, task, n, k - 1);
    }
  }

  // ---- When a new parent keeps the forest ----

  lemma {:induction false} UpAdd(parents: Parents, task: nat, a: nat, b: nat)
    requires Up(parents, task, a).Some?
    ensures Up(parents, task, a + b) == Up(parents, Up(parents, task, a).value, b)
    decreases a
  {
    if a > 0 {
      UpAdd(parents, parents[task].value, a - 1, b);
    }
  }

  /** Until the walk meets the reparented task it goes as before. */
  lemma {:induction false} UpUnaffected(parents: Parents, self: nat, link: Option<nat>, task: nat, k: nat)
    requires forall j: nat :: j < k ==> Up(parents, task, j) != Some(self)
    ensures Up(parents[self := link], task, k) == Up(parents, task, k)
    decreases k
  {
    if k > 0 {
      assert Up(parents, task, 0) == Some(task);
      if task in parents && parents[task].Some? {
        forall j: nat | j < k - 1
          ensures Up(parents, parents[task].value, j) != Some(self)
        {
          assert Up(parents, task, j + 1) == Up(parents, parents[task].value, j);
        }
        UpUnaffected(parents, self, link, parents[task].value, k - 1);
      }
    }
  }

  ghost predicate IsAncestor(parents: Parents, task: nat, above: nat)
  {
    exists k: nat :: Up(parents, task, k) == Some(above)
  }

  lemma {:induction false} FirstMeeting(parents: Parents, task: nat, self: nat, k: nat) returns (m: nat)
    requires Up(parents, task, k) == Some(self)
    ensures m <= k && Up(parents, task, m) == Some(self)
    ensures forall j: nat :: j < m ==> Up(parents, task, j) != Some(self)
  {
    if j: nat :| j < k && Up(parents, task, j) == Some(self) {
      m := FirstMeeting(parents, task, self, j);
    } else {
      m := k;
    }
  }

  /** A loop through any task of the new links passes through the reparented task. */
  lemma LoopPassesSelf(parents: Parents, self: nat, parent: nat, task: nat, k: nat)
    requires Forest(parents) && k > 0 && Up(parents[self := Some(parent)], task, k) == Some(task)
    ensures Up(parents[self := Some(parent)], self, k) == Some(self)
  {
    var next := parents[self := Some(parent)];
    if forall j: nat :: j < k ==> Up(parents, task, j) != Some(self) {
      UpUnaffected(parents, self, Some(parent), task, k);
    }
    var n: nat :| n < k && Up(parents, task, n) == Some(self);
    var j := FirstMeeting(parents, task, self, n);
    UpUnaffected(parents, self, Some(parent), task, j);
    UpAdd(next, task, j, k);
    UpAdd(next, task, k, j);
  }

  /** Moving a task under a new parent keeps a forest exactly when the task is not
      already the parent or one of its ancestors, at any distance. */
  lemma ReparentIsSafeIff(parents: Parents, self: nat, parent: nat)
    requires Forest(parents) && self in parents && parent in parents
    ensures Forest(parents[self := Some(parent)]) <==> !IsAncestor(parents, parent, self)
  {
    var next := parents[self := Some(parent)];
    if k: nat :| Up(parents, parent, k) == Some(self) {
      var m := FirstMeeting(parents, parent, self, k);
      UpUnaffected(parents, self, Some(parent), parent, m);
      assert Up(next, self, m + 1) == Some(self);
    } else {
      forall t: nat, k: nat | k > 0
        ensures Up(next, t, k) != Some(t)
      {
        if Up(next, t, k) == Some(t) {
          LoopPassesSelf(parents, self, parent, t, k);
          ReturnMeetsSelf(parents, self, parent, k);
        }
      }
    }
  }

  lemma ReturnMeetsSelf(parents: Parents, self: nat, parent: nat, k: nat)
    requires k > 0 && Up(parents[self := Some(parent)], self, k) == Some(self)
    ensures IsAncestor(parents, parent, self)
  {
    var next := parents[self := Some(parent)];
    assert Up(next, parent, k - 1) == Some(self);
    var m := FirstMeeting(next, parent, self, k - 1);
    BackToOld(parents, next, self, parent, m);
  }

  lemma {:induction false} BackToOld(parents: Parents, next: Parents, self: nat, task: nat, m: nat)
    requires self in next && next == parents[self := next[self]]
    requires forall j: nat :: j < m ==> Up(next, task, j) != Some(self)
    ensures Up(parents, task, m) == Up(next, task, m)
    decreases m
  {
    if m > 0 {
      assert Up(next, task, 0) == Some(task);
      if task in parents && parents[task].Some? {
        forall j: nat | j < m - 1
          ensures Up(next, parents[task].value, j) != Some(self)
        {
          assert Up(next, task, j + 1) == Up(next, parents[task].value, j);
        }
        BackToOld(parents, next, self, parents[task].value, m - 1);
      }
    }
  }

  /** Is `self` an ancestor the walk never looks at? */
  ghost predicate BeyondWalk(parents: Parents, parent: nat, self: nat)
  {
    exists k: nat :: WALK_LIMIT < k && Up(parents, parent, k) == Some(self)
  }

  /** What the route accepts keeps the forest exactly when the moved task is not a more
      than thousandth ancestor of its new parent. */
  lemma AcceptedReparentIsSafeIff(parents: Parents, self: nat, parent: nat)
    requires Forest(parents) && self in parents && parent in parents && self != parent
    requires !SeenWithin(parents, parent, self, WALK_LIMIT)
    ensures Forest(parents[self := Some(parent)]) <==> !BeyondWalk(parents, parent, self)
  {
    ReparentIsSafeIff(parents, self, parent);
    if IsAncestor(parents, parent, self) {
      var k: nat :| Up(parents, parent, k) == Some(self);
      assert Up(parents, parent, 0) == Some(parent);
      assert k > WALK_LIMIT;
    }
  }

  // ---- The walk is long enough up to 1001 tasks, and not beyond ----

  ghost function Line(parents: Parents, task: nat, k: nat): (line: set<nat>)
  {
    if k == 0 then {task}
    else Line(parents, task, k - 1) + if Up(parents, task, k).Some? then {Up(parents, task, k).value} else {}
  }

  lemma {:induction false} InLine(parents: Parents, task: nat, k: nat, t: nat)
    requires t in Line(parents, task, k)
    ensures exists j: nat :: j <= k && Up(parents, task, j) == Some(t)
  {
    if k > 0 && t in Line(parents, task, k - 1) {
      InLine(parents, task, k - 1, t);
    } else {
      assert Up(parents, task, k) == Some(t);
    }
  }

  lemma NextIsNew(parents: Parents, task: nat, k: nat)
    requires Forest(parents) && Up(parents, task, k + 1).Some?
    ensures Up(parents, task, k + 1).value !in Line(parents, task, k)
  {
    var top := Up(parents, task, k + 1).value;
    if top in Line(parents, task, k) {
      InLine(parents, task, k, top);
      var j: nat :| j <= k && Up(parents, task, j) == Some(top);
      UpAdd(parents, task, j, k + 1 - j);
    }
  }

  lemma {:induction false} LineIsDistinct(parents: Parents, task: nat, k: nat)
    requires Forest(parents) && task in parents && Up(parents, task, k).Some?
    ensures |Line(parents, task, k)| == k + 1 && Line(parents, task, k) <= parents.Keys
    ensures Up(parents, task, k).value in parents
  {
    if k > 0 {
      UpOneMore(parents, task, k - 1);
      LineIsDistinct(parents, task, k - 1);
      NextIsNew(parents, task, k - 1);
    }
  }

  lemma SubsetSize(a: set<nat>, b: set<nat>)
    requires a <= b
    ensures |a| <= |b|
  {
    assert b == a + (b - a);
  }

  /** In a project of at most 1001 tasks the bounded walk misses nothing. */
  lemma SmallProjectsAreSafe(parents: Parents, self: nat, parent: nat)
    requires Forest(parents) && self in parents && parent in parents && self != parent
    requires |parents| <= WALK_LIMIT + 1
    requires !SeenWithin(parents, parent, self, WALK_LIMIT)
    ensures Forest(parents[self := Some(parent)])
  {
    AcceptedReparentIsSafeIff(parents, self, parent);
    if k: nat :| WALK_LIMIT < k && Up(parents, parent, k) == Some(self) {
      LineIsDistinct(parents, parent, k);
      SubsetSize(Line(parents, parent, k), parents.Keys);
    }
  }

  /** n tasks, each the parent of the next. */
  ghost predicate IsChain(parents: Parents, n: nat) {
    && (forall t: nat :: t in parents <==> t < n)
    && (forall t: nat :: t in parents ==> parents[t] == if t == 0 then None else Some(t - 1))
  }

  /** There is such a chain of every length. */
  lemma {:induction false} MakeChain(n: nat) returns (parents: Parents)
    ensures IsChain(parents, n) && |parents| == n
  {
    if n == 0 {
      parents := map[];
    } else {
      var shorter := MakeChain(n - 1);
      assert n - 1 !in shorter;
      parents := shorter[n - 1 := if n == 1 then None else Some(n - 2)];
    }
  }

  lemma {:induction false} ChainUp(parents: Parents, n: nat, t: nat, k: nat)
    requires IsChain(parents, n)
    ensures k > 0 ==> Up(parents, t, k) == if k <= t < n then Some(t - k) else None
    decreases k
  {
    if k > 1 && 0 < t < n {
      ChainUp(parents, n, t - 1, k - 1);
    }
  }

  lemma ChainIsForest(parents: Parents, n: nat)
    requires IsChain(parents, n)
    ensures Forest(parents)
  {
    forall t: nat, k: nat | k > 0
      ensures Up(parents, t, k) != Some(t)
    {
      ChainUp(parents, n, t, k);
    }
  }

  lemma WalkMissesRoot(parents: Parents, n: nat, last: nat)
    requires IsChain(parents, n) && last == n - 1 > WALK_LIMIT
    ensures !SeenWithin(parents, last, 0, WALK_LIMIT)
  {
    forall k: nat | 1 <= k <= WALK_LIMIT
      ensures Up(parents, last, k) != Some(0)
    {
      ChainUp(parents, n, last, k);
    }
  }

  lemma {:induction false} MovedChainUp(parents: Parents, n: nat, last: nat, t: nat, k: nat)
    requires IsChain(parents, n) && k <= t < n && last < n
    ensures Up(parents[0 := Some(last)], t, k) == Some(t - k)
    decreases k
  {
    if k > 0 {
      MovedChainUp(parents, n, last, t - 1, k - 1);
    }
  }

  lemma MovedRootLoops(parents: Parents, n: nat)
    requires IsChain(parents, n) && n > 0
    ensures !Forest(parents[0 := Some(n - 1)])
  {
    MovedChainUp(parents, n, n - 1, n - 1, n - 1);
    assert Up(parents[0 := Some(n - 1)], 0, n) == Some(0);
  }

  /** There is a forest of every size, and of that depth. */
  lemma DeepForest(n: nat) returns (parents: Parents)
    ensures IsChain(parents, n) && |parents| == n && Forest(parents)
  {
    parents := MakeChain(n);
    ChainIsForest(parents, n);
  }

  lemma DeepMoveAccepted(parents: Parents, n: nat)
    requires IsChain(parents, n) && n > WALK_LIMIT + 1
    ensures 0 in parents && n - 1 in parents && !SeenWithin(parents, n - 1, 0, WALK_LIMIT)
    ensures !Forest(parents[0 := Some(n - 1)])
  {
    WalkMissesRoot(parents, n, n - 1);
    MovedRootLoops(parents, n);
  }

  /** For every number of tasks past the walk's reach there is a forest in which putting a
      root under one of the other tasks is accepted, and leaves a loop. */
  lemma DeepChainsLoop(n: nat) returns (parents: Parents)
    requires n > WALK_LIMIT + 1
    ensures |parents| == n && Forest(parents) && 0 in parents && n - 1 in parents
    ensures !SeenWithin(parents, n - 1, 0, WALK_LIMIT)
    ensures !Forest(parents[0 := Some(n - 1)])
  {
    parents := DeepForest(n);
    DeepMoveAccepted(parents, n);
  }

  // ---- Create and delete ----

  /** ON DELETE SET NULL: children of the deleted task become top-level. */
  function Deleted(parents: Parents, task: nat): Parents
  {
    map t | t in parents && t != task :: if parents[t] == Some(task) then None else parents[t]
  }

  lemma {:induction false} UpAfterDelete(parents: Parents, task: nat, t: nat, k: nat)
    requires t != task
    ensures Up(Deleted(parents, task), t, k).Some? ==> Up(Deleted(parents, task), t, k) == Up(parents, t, k)
    decreases k
  {
    if k > 0 && t in parents && parents[t].Some? && parents[t].value != task {
      UpAfterDelete(parents, task, parents[t].value, k - 1);
    }
  }

  /** Deleting a task leaves a forest, loses no other task, and promotes its children. */
  lemma DeleteKeepsForest(parents: Parents, task: nat)
    requires Forest(parents)
    ensures var after := Deleted(parents, task);
            && Forest(after)
            && after.Keys == parents.Keys - {task}
            && (forall t :: t in after ==> after[t] == if parents[t] == Some(task) then None else parents[t])
  {
    var after := Deleted(parents, task);
    forall t: nat, k: nat | k > 0
      ensures Up(after, t, k) != Some(t)
    {
      if t != task {
        UpAfterDelete(parents, task, t, k);
      }
    }
  }

  lemma {:induction false} UpAfterCreate(parents: Parents, task: nat, link: Option<nat>, t: nat, k: nat)
    requires Forest(parents) && task !in parents && t in parents
    ensures Up(parents[task := link], t, k) == Up(parents, t, k)
    decreases k
  {
    if k > 0 && parents[t].Some? {
      UpAfterCreate(parents, task, link, parents[t].value, k - 1);
    }
  }

  lemma CreateKeepsForest(parents: Parents, task: nat, link: Option<nat>)
    requires Forest(parents) && task !in parents && (link.Some? ==> link.value in parents)
    ensures Forest(parents[task := link])
  {
    var after := parents[task := link];
    forall t: nat, k: nat | k > 0
      ensures Up(after, t, k) != Some(t)
    {
      if t == task {
        if link.Some? && k > 1 {
          UpAfterCreate(parents, task, link, link.value, k - 1);
          UpStaysInside(parents, link.value, k - 1);
        }
      } else if t in parents {
        UpAfterCreate(parents, task, link, t, k);
      }
    }
  }

  lemma {:induction false} UpStaysInside(parents: Parents, t: nat, k: nat)
    requires Forest(parents) && t in parents
    ensures Up(parents, t, k).Some? ==> Up(parents, t, k).value in parents
    decreases k
  {
    if k > 0 && parents[t].Some? {
      UpStaysInside(parents, parents[t].value, k - 1);
    }
  }
}
