// The task hierarchy under overlapping requests: every read and every write of the task
// routes is a step of its own, since none of them takes a lock
// (server/src/routes/projectSchedule.ts:111-256).
module ScheduleRuns {
  import opened TaskTree
  import opened Schedule

  /** A PATCH under way: walking up from the candidate parent, holding the last row's own
      parent link, or about to write the parent it settled on. */
  datatype Request =
    | Looking(task: nat, parent: nat, link: Option<nat>, steps: nat)
    | Ready(task: nat, read: Option<nat>)

  datatype State = State(parents: Parents, pending: seq<Request>)

  datatype Action =
    | CreateTask(task: nat, parent: Option<nat>)
    | Read(task: nat)
    | Check(task: nat, parent: Option<nat>)
    | Look(k: nat)
    | Write(k: nat)
    | DeleteTask(task: nat)

  /** One more round of the ancestor walk; None refuses the request. */
  function Onward(parents: Parents, r: Request): Option<Request>
  {
    if r.Ready? then Some(r)
    else if r.link.None? || r.steps >= WALK_LIMIT then Some(Ready(r.task, Some(r.parent)))
    else if r.link == Some(r.task) then None
    else if r.link.value in parents then Some(Looking(r.task, r.parent, parents[r.link.value], r.steps + 1))
    else Some(Ready(r.task, Some(r.parent)))
  }

  /** What a PATCH starts as: without a parent it will write back the one just read. */
  function Started(parents: Parents, a: Action): Option<Request>
    requires a.Read? || a.Check?
  {
    if a.task !in parents then None
    else if a.Read? then Some(Ready(a.task, parents[a.task]))
    else if a.parent.None? then Some(Ready(a.task, None))
    else if a.parent == Some(a.task) || a.parent.value !in parents then None
    else Some(Looking(a.task, a.parent.value, parents[a.parent.value], 0))
  }

  predicate Exists(parents: Parents, parent: Option<nat>)
  {
    parent.Some? ==> parent.value in parents
  }

  /** The update finds its row and passes the foreign key; it checks nothing else. */
  predicate Writes(s: State, a: Action)
  {
    && a.Write? && a.k < |s.pending| && s.pending[a.k].Ready?
    && s.pending[a.k].task in s.parents && Exists(s.parents, s.pending[a.k].read)
  }

  function Without(pending: seq<Request>, k: nat): seq<Request>
    requires k < |pending|
  {
    pending[..k] + pending[k + 1..]
  }

  function Step(s: State, a: Action): State
  {
    match a
    case CreateTask(task, parent) =>
      if task !in s.parents && Exists(s.parents, parent) then s.(parents := s.parents[task := parent]) else s
    case Read(_) | Check(_, _) =>
      var r := Started(s.parents, a);
      if r.Some? then s.(pending := s.pending + [r.value]) else s
    case Look(k) =>
      if k >= |s.pending| then s
      else
        var r := Onward(s.parents, s.pending[k]);
        s.(pending := if r.Some? then s.pending[k := r.value] else Without(s.pending, k))
    case Write(k) =>
      if k >= |s.pending| || !s.pending[k].Ready? then s
      else State(if Writes(s, a) then s.parents[s.pending[k].task := s.pending[k].read] else s.parents,
                 Without(s.pending, k))
    case DeleteTask(task) => s.(parents := Deleted(s.parents, task))
  }

  const EMPTY := State(map[], [])

  function Run(actions: seq<Action>): State
  {
    if actions == [] then EMPTY else Step(Run(actions[..|actions| - 1]), actions[|actions| - 1])
  }

  /** Does a write, when it is made, put a task under no parent, or under one that is
      neither the task itself nor below it at that moment? */
  ghost predicate WritesClear(s: State, a: Action)
  {
    Writes(s, a) ==>
      var r := s.pending[a.k];
      r.read.None? || !IsAncestor(s.parents, r.read.value, r.task)
  }

  lemma EmptyIsForest()
    ensures Forest(map[])
  {
    assert forall t: nat, k: nat :: k > 0 ==> Up(map[], t, k).None?;
  }

  /** One step keeps the forest exactly when it is not a write under a task of one's own. */
  lemma StepIsForestIff(s: State, a: Action)
    requires Forest(s.parents)
    ensures Forest(Step(s, a).parents) <==> WritesClear(s, a)
  {
    match a
    case CreateTask(task, parent) =>
      if task !in s.parents && Exists(s.parents, parent) {
        CreateKeepsForest(s.parents, task, parent);
      }
    case Read(_) =>
    case Check(_, _) =>
    case Look(_) =>
    case Write(k) =>
      if Writes(s, a) {
        StaleParentIsSafeIff(s.parents, s.pending[k].task, s.pending[k].read);
      }
    case DeleteTask(task) =>
      DeleteKeepsForest(s.parents, task);
  }

  ghost predicate AlwaysForest(actions: seq<Action>)
  {
    && Forest(Run(actions).parents)
    && (actions != [] ==> AlwaysForest(actions[..|actions| - 1]))
  }

  ghost predicate AlwaysClear(actions: seq<Action>)
  {
    actions != [] ==>
      var before := actions[..|actions| - 1];
      WritesClear(Run(before), actions[|actions| - 1]) && AlwaysClear(before)
  }

  /** However creates, reads, walks, writes and deletes interleave, the hierarchy is a forest
      throughout exactly when no write puts a task under itself or under a task that is below
      it at that moment. */
  lemma {:induction false} RunIsForestIff(actions: seq<Action>)
    ensures AlwaysForest(actions) <==> AlwaysClear(actions)
  {
    if actions == [] {
      EmptyIsForest();
    } else {
      var before := actions[..|actions| - 1];
      RunIsForestIff(before);
      if AlwaysForest(before) {
        assert Forest(Run(before).parents);
        StepIsForestIff(Run(before), actions[|actions| - 1]);
      }
    }
  }

  // ---- The walk, while nobody writes ----

  /** Where the walk ends when the hierarchy does not change under it. */
  function Settled(parents: Parents, r: Request): Option<Request>
    decreases if r.Looking? then 1 + WALK_LIMIT - r.steps else 0
  {
    if r.Ready? then Some(r)
    else if r.steps > WALK_LIMIT then Some(Ready(r.task, Some(r.parent)))
    else
      var next := Onward(parents, r);
      if next.None? then None else Settled(parents, next.value)
  }

  ghost predicate MeetsFrom(parents: Parents, parent: nat, self: nat, from: nat)
  {
    exists k: nat :: from < k <= WALK_LIMIT && Up(parents, parent, k) == Some(self)
  }

  /** Undisturbed, the walk refuses exactly what the single-request check refuses. */
  lemma {:induction false} UndisturbedWalk(parents: Parents, task: nat, parent: nat, at: nat, steps: nat)
    requires steps <= WALK_LIMIT && at in parents && Up(parents, parent, steps) == Some(at)
    ensures Settled(parents, Looking(task, parent, parents[at], steps)) ==
            if MeetsFrom(parents, parent, task, steps) then None else Some(Ready(task, Some(parent)))
    decreases WALK_LIMIT - steps
  {
    var link := parents[at];
    UpOneMore(parents, parent, steps);
    if link.None? {
      assert Up(parents, parent, steps + 1).None?;
      NothingAbove(parents, parent, task, steps);
    } else if steps < WALK_LIMIT && link != Some(task) {
      assert Up(parents, parent, steps + 1) == link;
      if link.value in parents {
        UndisturbedWalk(parents, task, parent, link.value, steps + 1);
        if k: nat :| steps < k <= WALK_LIMIT && Up(parents, parent, k) == Some(task) {
          assert k > steps + 1;
        }
      } else {
        UpOneMore(parents, parent, steps + 1);
        NothingAbove(parents, parent, task, steps + 1);
      }
    }
  }

  lemma NothingAbove(parents: Parents, parent: nat, task: nat, steps: nat)
    requires Up(parents, parent, steps + 1).None?
    ensures !MeetsFrom(parents, parent, task, steps)
  {
    forall k: nat | steps < k <= WALK_LIMIT
      ensures Up(parents, parent, k) != Some(task)
    {
      if k > steps + 1 {
        WalkEnded(parents, parent, steps + 1, k);
      }
    }
  }

  lemma UndisturbedCheck(parents: Parents, task: nat, parent: nat)
    requires task in parents && parent in parents && task != parent
    ensures Started(parents, Check(task, Some(parent))).Some?
    ensures Settled(parents, Started(parents, Check(task, Some(parent))).value) ==
            if SeenWithin(parents, parent, task, WALK_LIMIT) then None else Some(Ready(task, Some(parent)))
  {
    UndisturbedWalk(parents, task, parent, parent, 0);
    assert MeetsFrom(parents, parent, task, 0) <==> SeenWithin(parents, parent, task, WALK_LIMIT);
  }

  // ---- One request by itself ----

  /** So many reads of the first request under way. */
  function LookOn(s: State, n: nat): State
    decreases n
  {
    if n == 0 then s else LookOn(Step(s, Look(0)), n - 1)
  }

  function Left(r: Request): nat
  {
    if r.Looking? && r.steps <= WALK_LIMIT then 2 + WALK_LIMIT - r.steps else 0
  }

  lemma {:induction false} NothingToLookAt(parents: Parents, n: nat)
    ensures LookOn(State(parents, []), n) == State(parents, [])
  {
    if n > 0 {
      NothingToLookAt(parents, n - 1);
    }
  }

  /** Enough reads in a row bring the walk to its end. */
  lemma {:induction false} LookingSettles(parents: Parents, r: Request, n: nat)
    requires Left(r) <= n && (r.Looking? ==> r.steps <= WALK_LIMIT)
    ensures LookOn(State(parents, [r]), n) == State(parents, if Settled(parents, r).Some? then [Settled(parents, r).value] else [])
    decreases n
  {
    if n > 0 {
      var next := Onward(parents, r);
      if next.None? {
        assert Without([r], 0) == [];
        NothingToLookAt(parents, n - 1);
      } else {
        assert [r][0 := next.value] == [next.value];
        LookingSettles(parents, next.value, n - 1);
      }
    }
  }

  /** A move with no other request under way does what the one-request route does: refused
      for a missing or own parent or one the walk finds below the task, else written. */
  lemma MoveAlone(parents: Parents, task: nat, parent: nat)
    ensures var accepted := task in parents && parent in parents && task != parent && !SeenWithin(parents, parent, task, WALK_LIMIT);
            Step(LookOn(Step(State(parents, []), Check(task, Some(parent))), WALK_LIMIT + 2), Write(0)) ==
            State(if accepted then parents[task := Some(parent)] else parents, [])
  {
    if task in parents && parent in parents && task != parent {
      UndisturbedCheck(parents, task, parent);
      var r := Started(parents, Check(task, Some(parent))).value;
      assert Step(State(parents, []), Check(task, Some(parent))) == State(parents, [r]);
      LookingSettles(parents, r, WALK_LIMIT + 2);
      assert Without([Ready(task, Some(parent))], 0) == [];
    } else {
      NothingToLookAt(parents, WALK_LIMIT + 2);
    }
  }

  /** So do detaching a task, an edit of other fields, a create and a delete. */
  lemma OthersAlone(parents: Parents, task: nat, parent: Option<nat>)
    ensures Step(Step(State(parents, []), Check(task, None)), Write(0)) ==
            State(if task in parents then parents[task := None] else parents, [])
    ensures task in parents && Exists(parents, parents[task]) ==>
              Step(Step(State(parents, []), Read(task)), Write(0)) == State(parents, [])
    ensures Step(State(parents, []), CreateTask(task, parent)) ==
            State(if task !in parents && (parent.Some? ==> parent.value in parents) then parents[task := parent] else parents, [])
    ensures forall t :: t in Step(State(parents, []), DeleteTask(task)).parents <==> t in parents && t != task
    ensures forall t :: t in parents && t != task ==>
              Step(State(parents, []), DeleteTask(task)).parents[t] == if parents[t] == Some(task) then None else parents[t]
  {
    assert Without([Ready(task, None)], 0) == [];
    if task in parents && Exists(parents, parents[task]) {
      assert Without([Ready(task, parents[task])], 0) == [];
      assert parents[task := parents[task]] == parents;
    }
  }

  // ---- Two moves that overlap ----

  lemma RunOneMore(actions: seq<Action>, a: Action)
    ensures Run(actions + [a]) == Step(Run(actions), a)
  {
    assert (actions + [a])[..|actions|] == actions;
  }

  function BothChecked(a: nat, b: nat): seq<Action> {
    [CreateTask(a, None)] + [CreateTask(b, None)] + [Check(a, Some(b))] + [Check(b, Some(a))]
  }

  lemma BothCheckedRun(a: nat, b: nat)
    requires a != b
    ensures Run(BothChecked(a, b)) == State(map[a := None, b := None], [Looking(a, b, None, 0), Looking(b, a, None, 0)])
  {
    var top: Parents := map[a := None, b := None];
    var created := [CreateTask(a, None)] + [CreateTask(b, None)];
    assert [] + [CreateTask(a, None)] == [CreateTask(a, None)];
    RunOneMore([], CreateTask(a, None));
    RunOneMore([CreateTask(a, None)], CreateTask(b, None));
    assert Run(created) == State(top, []);
    RunOneMore(created, Check(a, Some(b)));
    RunOneMore(created + [Check(a, Some(b))], Check(b, Some(a)));
  }

  lemma BothLookedRun(a: nat, b: nat)
    requires a != b
    ensures Run(BothChecked(a, b) + [Look(0)] + [Look(1)]) ==
            State(map[a := None, b := None], [Ready(a, Some(b)), Ready(b, Some(a))])
  {
    BothCheckedRun(a, b);
    RunOneMore(BothChecked(a, b), Look(0));
    RunOneMore(BothChecked(a, b) + [Look(0)], Look(1));
  }

  lemma TwoTaskLoop(a: nat, b: nat)
    ensures !Forest(map[a := Some(b), b := Some(a)])
  {
    var loop: Parents := map[a := Some(b), b := Some(a)];
    assert Up(loop, a, 2) == Up(loop, b, 1) == Up(loop, a, 0) == Some(a);
  }

  /** Concrete run: two top-level tasks, each moved under the other, both walks done before
      either write. Both moves are accepted and the two tasks form a loop. */
  lemma OverlappingMovesLoop(a: nat, b: nat)
    requires a != b
    ensures var moves := BothChecked(a, b) + [Look(0)] + [Look(1)] + [Write(0)] + [Write(0)];
            Run(moves) == State(map[a := Some(b), b := Some(a)], []) && !Forest(Run(moves).parents)
  {
    var looked := BothChecked(a, b) + [Look(0)] + [Look(1)];
    BothLookedRun(a, b);
    RunOneMore(looked, Write(0));
    RunOneMore(looked + [Write(0)], Write(0));
    TwoTaskLoop(a, b);
  }

  function ReadUnder(a: nat, b: nat): seq<Action> {
    [CreateTask(b, None)] + [CreateTask(a, Some(b))] + [Read(a)]
  }

  lemma ReadUnderRun(a: nat, b: nat)
    requires a != b
    ensures Run(ReadUnder(a, b)) == State(map[b := None, a := Some(b)], [Ready(a, Some(b))])
  {
    assert [] + [CreateTask(b, None)] == [CreateTask(b, None)];
    RunOneMore([], CreateTask(b, None));
    RunOneMore([CreateTask(b, None)], CreateTask(a, Some(b)));
    RunOneMore([CreateTask(b, None)] + [CreateTask(a, Some(b))], Read(a));
  }

  /** Meanwhile the task is made top-level. */
  lemma DetachedMeanwhile(a: nat, b: nat)
    requires a != b
    ensures Run(ReadUnder(a, b) + [Check(a, None)] + [Write(1)]) == State(map[b := None, a := None], [Ready(a, Some(b))])
  {
    ReadUnderRun(a, b);
    RunOneMore(ReadUnder(a, b), Check(a, None));
    RunOneMore(ReadUnder(a, b) + [Check(a, None)], Write(1));
    assert Without([Ready(a, Some(b)), Ready(a, None)], 1) == [Ready(a, Some(b))];
  }

  /** And its old parent put under it. */
  lemma MovedMeanwhile(a: nat, b: nat)
    requires a != b
    ensures Run(ReadUnder(a, b) + [Check(a, None)] + [Write(1)] + [Check(b, Some(a))] + [Look(1)] + [Write(1)]) ==
            State(map[b := Some(a), a := None], [Ready(a, Some(b))])
  {
    var detached := ReadUnder(a, b) + [Check(a, None)] + [Write(1)];
    DetachedMeanwhile(a, b);
    RunOneMore(detached, Check(b, Some(a)));
    RunOneMore(detached + [Check(b, Some(a))], Look(1));
    RunOneMore(detached + [Check(b, Some(a))] + [Look(1)], Write(1));
    assert Without([Ready(a, Some(b)), Ready(b, Some(a))], 1) == [Ready(a, Some(b))];
  }

  /** Concrete run: a task under another is renamed; between the rename's read and its write
      both moves are made and accepted, and the write closes a loop. */
  lemma StaleRenameLoops(a: nat, b: nat)
    requires a != b
    ensures var rename := ReadUnder(a, b) + [Check(a, None)] + [Write(1)] + [Check(b, Some(a))] + [Look(1)] + [Write(1)] + [Write(0)];
            Run(rename) == State(map[a := Some(b), b := Some(a)], []) && !Forest(Run(rename).parents)
  {
    MovedMeanwhile(a, b);
    RunOneMore(ReadUnder(a, b) + [Check(a, None)] + [Write(1)] + [Check(b, Some(a))] + [Look(1)] + [Write(1)], Write(0));
    assert Without([Ready(a, Some(b))], 0) == [];
    TwoTaskLoop(a, b);
  }
}
