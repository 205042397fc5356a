// The project_tasks and project_task_dependencies tables of one project, updated
// in place by the schedule routes (server/src/routes/projectSchedule.ts).
module Schedule {
  import opened Dependencies
  import opened TaskTree

  datatype Reply = Created | Updated | Removed | BadRequest | Missing | Duplicate

  class ProjectSchedule {
    var parents: Parents
    var rows: seq<Edge>

    /** A forest, and an acyclic, duplicate-free edge list over its tasks. */
    ghost predicate Valid()
      reads this
    {
      && Forest(parents)
      && Acyclic(EdgeSet(rows))
      && (forall e :: e in rows ==> e.predecessor in parents && e.successor in parents)
      && (forall i, j :: 0 <= i < j < |rows| ==> rows[i] != rows[j])
    }

    constructor ()
      ensures Valid() && parents == map[] && rows == []
    {
      parents, rows := map[], [];
      new;
      assert forall t: nat, k: nat :: k > 0 ==> Up(parents, t, k).None?;
      EmptyIsAcyclic();
      assert EdgeSet(rows) == {};
    }

    /** POST /tasks; `task` is the new row's generated id. */
    method CreateTask(task: nat, parent: Option<nat>) returns (reply: Reply)
      requires Valid() && task !in parents
      modifies this`parents
      ensures Valid()
      ensures reply == if parent.Some? && parent.value !in old(parents) then BadRequest else Created
      ensures parents == if reply == Created then old(parents)[task := parent] else old(parents)
    {
      var r := ResolveParent(parents, parent, None);
      if !r.Accepted? {
        return BadRequest;
      }
      CreateKeepsForest(parents, task, parent);
      parents := parents[task := r.parent];
      reply := Created;
    }

    /** PATCH /tasks/:taskId with a parentTaskId. The reply is a refusal exactly for a missing
        or own parent and for one within the walk's reach below the task; what is left a forest
        is exactly what does not loop beyond that reach, which in a project of up to 1001
        tasks is everything. */
    method Reparent(task: nat, parent: Option<nat>) returns (reply: Reply)
      requires Valid()
      modifies this`parents
      ensures task !in old(parents) <==> reply == Missing
      ensures task in old(parents) ==>
                (reply == Updated <==> parent.None? || (parent.value in old(parents) && parent.value != task
                                                        && !SeenWithin(old(parents), parent.value, task, WALK_LIMIT)))
      ensures parents == if reply == Updated then old(parents)[task := parent] else old(parents)
      ensures Valid() <==> !(reply == Updated && parent.Some? && BeyondWalk(old(parents), parent.value, task))
      ensures |old(parents)| <= WALK_LIMIT + 1 ==> Valid()
    {
      if task !in parents {
        return Missing;
      }
      var r := ResolveParent(parents, parent, Some(task));
      if !r.Accepted? {
        return BadRequest;
      }
      ReparentOutcome(parents, task, parent);
      parents := parents[task := r.parent];
      reply := Updated;
    }

    /** DELETE /tasks/:taskId: children are promoted, the task's own edges go with it. */
    method DeleteTask(task: nat) returns (reply: Reply)
      requires Valid()
      modifies this
      ensures Valid()
      ensures task !in old(parents) <==> reply == Missing
      ensures parents == if reply == Removed then Deleted(old(parents), task) else old(parents)
      ensures EdgeSet(rows) == if reply == Removed then WithoutTask(old(EdgeSet(rows)), task) else old(EdgeSet(rows))
    {
      if task !in parents {
        return Missing;
      }
      DeleteKeepsForest(parents, task);
      ghost var before := rows;
      var kept := [];
      for k := 0 to |rows|
        invariant forall e :: e in kept <==> e in rows[..k] && e.predecessor != task && e.successor != task
        invariant forall i, j :: 0 <= i < j < |kept| ==> kept[i] != kept[j]
      {
        assert rows[..k + 1] == rows[..k] + [rows[k]];
        if rows[k].predecessor != task && rows[k].successor != task {
          assert forall i :: 0 <= i < k ==> rows[..k][i] == rows[i] && rows[i] != rows[k];
          assert rows[k] !in rows[..k];
          kept := kept + [rows[k]];
        }
      }
      assert rows[..|rows|] == rows;
      FewerEdgesStayAcyclic(EdgeSet(rows), EdgeSet(kept));
      parents, rows := Deleted(parents, task), kept;
      assert EdgeSet(rows) == WithoutTask(EdgeSet(before), task);
      reply := Removed;
    }

    /** DELETE /dependencies/:dependencyId. */
    method DeleteDependency(edge: Edge) returns (reply: Reply)
      requires Valid()
      modifies this`rows
      ensures Valid()
      ensures reply == if edge in old(rows) then Removed else Missing
      ensures EdgeSet(rows) == old(EdgeSet(rows)) - {edge}
    {
      if edge !in rows {
        return Missing;
      }
      ghost var before := rows;
      var kept := [];
      for k := 0 to |rows|
        invariant forall e :: e in kept <==> e in rows[..k] && e != edge
        invariant forall i, j :: 0 <= i < j < |kept| ==> kept[i] != kept[j]
      {
        assert rows[..k + 1] == rows[..k] + [rows[k]];
        if rows[k] != edge {
          assert forall i :: 0 <= i < k ==> rows[..k][i] == rows[i] && rows[i] != rows[k];
          assert rows[k] !in rows[..k];
          kept := kept + [rows[k]];
        }
      }
      assert rows[..|rows|] == rows;
      FewerEdgesStayAcyclic(EdgeSet(rows), EdgeSet(kept));
      rows := kept;
      assert EdgeSet(rows) == EdgeSet(before) - {edge};
      reply := Removed;
    }

    /** POST /dependencies, as one request among no others: refused exactly when an
        endpoint is missing, the tasks are the same, or the edge would close a cycle. */
    method AddDependency(predecessor: nat, successor: nat) returns (reply: Reply)
      requires Valid()
      modifies this`rows
      ensures Valid()
      ensures reply == BadRequest <==>
                || predecessor == successor || predecessor !in parents || successor !in parents
                || !Acyclic(old(EdgeSet(rows)) + {Edge(predecessor, successor)})
      ensures reply == Duplicate <==> Edge(predecessor, successor) in old(rows)
      ensures reply == BadRequest || reply == Duplicate || reply == Created
      ensures rows == if reply == Created then old(rows) + [Edge(predecessor, successor)] else old(rows)
    {
      assert Edge(predecessor, predecessor) in rows ==>
          Joins(EdgeSet(rows), [predecessor, predecessor], predecessor, predecessor);
      assert Edge(predecessor, successor) in rows ==> EdgeSet(rows) + {Edge(predecessor, successor)} == EdgeSet(rows);
      if predecessor == successor || predecessor !in parents || successor !in parents {
        return BadRequest;
      }
      EdgeIsSafeIff(EdgeSet(rows), Edge(predecessor, successor));
      var cycle := WouldCreateCycle(rows, predecessor, successor);
      if cycle {
        return BadRequest;
      }
      if Edge(predecessor, successor) in rows {
        return Duplicate;
      }
      assert EdgeSet(rows + [Edge(predecessor, successor)]) == EdgeSet(rows) + {Edge(predecessor, successor)};
      rows := rows + [Edge(predecessor, successor)];
      reply := Created;
    }
  }

  lemma ReparentOutcome(parents: Parents, task: nat, parent: Option<nat>)
    requires Forest(parents) && task in parents
    requires parent.Some? ==> parent.value in parents && parent.value != task && !SeenWithin(parents, parent.value, task, WALK_LIMIT)
    ensures Forest(parents[task := parent]) <==> !(parent.Some? && BeyondWalk(parents, parent.value, task))
    ensures |parents| <= WALK_LIMIT + 1 ==> Forest(parents[task := parent])
  {
    if parent.Some? {
      AcceptedReparentIsSafeIff(parents, task, parent.value);
      if |parents| <= WALK_LIMIT + 1 {
        SmallProjectsAreSafe(parents, task, parent.value);
      }
    } else {
      DetachKeepsForest(parents, task);
    }
  }

  /** Making a task top-level cannot create a loop. */
  lemma DetachKeepsForest(parents: Parents, task: nat)
    requires Forest(parents) && task in parents
    ensures Forest(parents[task := None])
  {
    var after := parents[task := None];
    forall t: nat, k: nat | k > 0
      ensures Up(after, t, k) != Some(t)
    {
      DetachedUp(parents, task, t, k);
    }
  }

  lemma {:induction false} DetachedUp(parents: Parents, task: nat, t: nat, k: nat)
    ensures Up(parents[task := None], t, k).Some? ==> Up(parents[task := None], t, k) == Up(parents, t, k)
    decreases k
  {
    if k > 0 && t != task && t in parents && parents[t].Some? {
      DetachedUp(parents, task, parents[t].value, k - 1);
    }
  }

  // ---- Edits that carry no parent ----

  /** PATCH without a parentTaskId writes back the parent it read before: that keeps a
      forest exactly when the task has not meanwhile become that parent's ancestor. */
  lemma StaleParentIsSafeIff(parents: Parents, task: nat, read: Option<nat>)
    requires Forest(parents) && task in parents && (read.Some? ==> read.value in parents)
    ensures Forest(parents[task := read]) <==> read.None? || !IsAncestor(parents, read.value, task)
  {
    if read.Some? {
      ReparentIsSafeIff(parents, task, read.value);
    } else {
      DetachKeepsForest(parents, task);
    }
  }

  /** Concrete run: task 1 is renamed while under task 2; between its read and its write 1 is
      made top-level and 2 is moved under 1, both accepted. The rename closes a loop. */
  lemma StaleParentClosesLoop()
    ensures var read, detached, moved := map[1 := Some(2), 2 := None], map[1 := None, 2 := None], map[1 := None, 2 := Some(1)];
            && detached == read[1 := None] && !SeenWithin(detached, 1, 2, WALK_LIMIT) && moved == detached[2 := Some(1)]
            && Forest(read) && Forest(moved) && !Forest(moved[1 := read[1]])
  {
    var read, detached, moved := map[1 := Some(2), 2 := None], map[1 := None, 2 := None], map[1 := None, 2 := Some(1)];
    TwoTaskForest(read, 2, 1);
    TwoTaskForest(moved, 1, 2);
    assert forall k: nat :: k > 0 ==> Up(detached, 1, k) == None;
    var loop := moved[1 := read[1]];
    assert Up(loop, 1, 2) == Up(loop, 2, 1) == Up(loop, 1, 0) == Some(1);
  }

  lemma TwoTaskForest(parents: Parents, top: nat, child: nat)
    requires top != child && parents == map[top := None, child := Some(top)]
    ensures Forest(parents)
  {
    forall t: nat, k: nat | k > 0
      ensures Up(parents, t, k) != Some(t)
    {
      assert Up(parents, top, k - 1) == if k == 1 then Some(top) else None;
    }
  }
}
