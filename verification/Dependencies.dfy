// Finish-to-start dependencies between schedule tasks, and the search that rejects
// an edge closing a cycle (server/src/routes/projectSchedule.ts).
module Dependencies {

  datatype Edge = Edge(predecessor: nat, successor: nat)

  // ---- Reachability ----

  ghost predicate IsPath(edges: set<Edge>, path: seq<nat>)
  {
    path != [] && forall i :: 0 <= i < |path| - 1 ==> Edge(path[i], path[i + 1]) in edges
  }

  ghost predicate Joins(edges: set<Edge>, path: seq<nat>, a: nat, b: nat)
  {
    IsPath(edges, path) && path[0] == a && path[|path| - 1] == b
  }

  ghost predicate Reach(edges: set<Edge>, a: nat, b: nat)
  {
    exists path :: Joins(edges, path, a, b)
  }

  ghost predicate Acyclic(edges: set<Edge>)
  {
    forall path, a :: Joins(edges, path, a, a) ==> |path| == 1
  }

  lemma ReachSelf(edges: set<Edge>, a: nat)
    ensures Reach(edges, a, a)
  {
    assert Joins(edges, [a], a, a);
  }

  lemma ReachStep(edges: set<Edge>, a: nat, b: nat, c: nat)
    requires Edge(a, b) in edges && Reach(edges, b, c)
    ensures Reach(edges, a, c)
  {
    var path :| Joins(edges, path, b, c);
    assert Joins(edges, [a] + path, a, c);
  }

  lemma ReachEdge(edges: set<Edge>, a: nat, b: nat, c: nat)
    requires Reach(edges, a, b) && Edge(b, c) in edges
    ensures Reach(edges, a, c)
  {
    var path :| Joins(edges, path, a, b);
    assert Joins(edges, path + [c], a, c);
  }

  lemma ReachTransitive(edges: set<Edge>, a: nat, b: nat, c: nat)
    requires Reach(edges, a, b) && Reach(edges, b, c)
    ensures Reach(edges, a, c)
  {
    var first :| Joins(edges, first, a, b);
    var second :| Joins(edges, second, b, c);
    var path := first + second[1..];
    forall i | 0 <= i < |path| - 1
      ensures Edge(path[i], path[i + 1]) in edges
    {
      if i >= |first| - 1 {
        assert path[i] == second[i + 1 - |first|] && path[i + 1] == second[i + 2 - |first|];
      }
    }
    assert Joins(edges, path, a, c);
  }

  lemma FewerEdgesStayAcyclic(edges: set<Edge>, fewer: set<Edge>)
    requires Acyclic(edges) && fewer <= edges
    ensures Acyclic(fewer)
  {
    forall path, a | Joins(fewer, path, a, a)
      ensures |path| == 1
    {
      assert Joins(edges, path, a, a);
    }
  }

  // ---- One more edge ----

  /** A path over one more edge either avoids it, or gets to its tail and on from its head. */
  lemma {:induction false} PathOverNewEdge(edges: set<Edge>, e: Edge, path: seq<nat>, a: nat, b: nat)
    requires Joins(edges + {e}, path, a, b)
    ensures Reach(edges, a, b) || (Reach(edges, a, e.predecessor) && Reach(edges, e.successor, b))
    decreases |path|
  {
    if |path| == 1 {
      ReachSelf(edges, a);
    } else {
      var rest := path[1..];
      assert Joins(edges + {e}, rest, path[1], b);
      PathOverNewEdge(edges, e, rest, path[1], b);
      assert Edge(path[0], path[1]) in edges + {e};
      if Edge(a, path[1]) in edges {
        if Reach(edges, path[1], b) {
          ReachStep(edges, a, path[1], b);
        } else {
          ReachStep(edges, a, path[1], e.predecessor);
        }
      } else {
        ReachSelf(edges, a);
      }
    }
  }

  /** Adding an edge to an acyclic graph keeps it acyclic exactly when its successor
      does not already lead back to its predecessor. */
  lemma EdgeIsSafeIff(edges: set<Edge>, e: Edge)
    requires Acyclic(edges)
    ensures Acyclic(edges + {e}) <==> !Reach(edges, e.successor, e.predecessor)
  {
    if Reach(edges, e.successor, e.predecessor) {
      var back :| Joins(edges, back, e.successor, e.predecessor);
      assert Joins(edges + {e}, [e.predecessor] + back, e.predecessor, e.predecessor);
    } else {
      forall path, a | Joins(edges + {e}, path, a, a)
        ensures |path| == 1
      {
        if |path| > 1 {
          NoCycleThroughNewEdge(edges, e, path, a);
        }
      }
    }
  }

  lemma NoCycleThroughNewEdge(edges: set<Edge>, e: Edge, path: seq<nat>, a: nat)
    requires Acyclic(edges) && Joins(edges + {e}, path, a, a) && |path| > 1
    ensures Reach(edges, e.successor, e.predecessor)
  {
    var b := path[1];
    assert Joins(edges + {e}, path[1..], b, a);
    assert Edge(path[0], path[1]) in edges + {e};
    PathOverNewEdge(edges, e, path[1..], b, a);
    if Edge(a, b) in edges {
      if Reach(edges, b, a) {
        var back :| Joins(edges, back, b, a);
        assert Joins(edges, [a] + back, a, a);
      } else {
        ReachStep(edges, a, b, e.predecessor);
        ReachTransitive(edges, e.successor, a, e.predecessor);
      }
    }
  }

  // ---- wouldCreateCycle ----

  function EdgeSet(rows: seq<Edge>): set<Edge>
  {
    set e | e in rows
  }

  function Next(successorsOf: map<nat, seq<nat>>, task: nat): seq<nat>
  {
    if task in successorsOf then successorsOf[task] else []
  }

  method SuccessorLists(rows: seq<Edge>) returns (successorsOf: map<nat, seq<nat>>)
    ensures forall a, b :: b in Next(successorsOf, a) <==> Edge(a, b) in rows
  {
    successorsOf := map[];
    for k := 0 to |rows|
      invariant forall a, b :: b in Next(successorsOf, a) <==> Edge(a, b) in rows[..k]
    {
      var e := rows[k];
      successorsOf := successorsOf[e.predecessor := Next(successorsOf, e.predecessor) + [e.successor]];
      assert rows[..k + 1] == rows[..k] + [e];
    }
    assert rows[..|rows|] == rows;
  }

  /** The stack search over the project's edges: it ends, and it answers true exactly
      when the predecessor is already reachable from the successor. */
  method WouldCreateCycle(rows: seq<Edge>, predecessor: nat, successor: nat) returns (cycle: bool)
    ensures cycle <==> Reach(EdgeSet(rows), successor, predecessor)
  {
    ghost var edges := EdgeSet(rows);
    var successorsOf := SuccessorLists(rows);
    ghost var nodes := {successor} + (set e | e in rows :: e.successor);
    var stack := [successor];
    var visited := {};
    ReachSelf(edges, successor);
    while stack != []
      invariant forall x :: x in stack ==> x in nodes && Reach(edges, successor, x)
      invariant visited <= nodes && predecessor !in visited
      invariant successor in visited || successor in stack
      invariant forall a, b :: a in visited && Edge(a, b) in edges ==> b in visited || b in stack
      decreases nodes - visited, |stack|
    {
      var current := stack[|stack| - 1];
      var rest := stack[..|stack| - 1];
      assert stack == rest + [current];
      if current == predecessor {
        return true;
      }
      if current in visited {
        stack := rest;
        continue;
      }
      visited := visited + {current};
      forall b | b in Next(successorsOf, current)
        ensures b in nodes && Reach(edges, successor, b)
      {
        assert Edge(current, b) in edges;
        ReachEdge(edges, successor, current, b);
      }
      stack := rest + Next(successorsOf, current);
    }
    if Reach(edges, successor, predecessor) {
      var path :| Joins(edges, path, successor, predecessor);
      ClosedContainsPath(edges, visited, path, |path| - 1);
    }
    cycle := false;
  }

  lemma {:induction false} ClosedContainsPath(edges: set<Edge>, visited: set<nat>, path: seq<nat>, n: nat)
    requires IsPath(edges, path) && n < |path| && path[0] in visited
    requires forall a, b :: a in visited && Edge(a, b) in edges ==> b in visited
    ensures path[n] in visited
  {
    if n > 0 {
      ClosedContainsPath(edges, visited, path, n - 1);
      assert Edge(path[n - 1], path[n - 1 + 1]) in edges;
    }
  }

  // ---- The dependency routes, check and insert as separate steps ----

  /** `passed` are requests whose check has succeeded and whose insert is still to come. */
  datatype State = State(tasks: set<nat>, edges: set<Edge>, passed: seq<Edge>)

  datatype Action =
    | CreateTask(task: nat)
    | DeleteTask(task: nat)
    | Check(edge: Edge)
    | Insert(k: nat)
    | DeleteEdge(edge: Edge)

  ghost predicate Allowed(s: State, e: Edge)
  {
    && e.predecessor != e.successor
    && e.predecessor in s.tasks && e.successor in s.tasks
    && !Reach(s.edges, e.successor, e.predecessor)
  }

  /** The insert passes the foreign keys and the unique index; it checks nothing else. */
  predicate Inserts(s: State, a: Action)
  {
    && a.Insert? && a.k < |s.passed|
    && s.passed[a.k].predecessor in s.tasks && s.passed[a.k].successor in s.tasks
    && s.passed[a.k] !in s.edges
  }

  function WithoutTask(edges: set<Edge>, task: nat): (kept: set<Edge>)
    ensures kept <= edges
    ensures forall e :: e in kept <==> e in edges && e.predecessor != task && e.successor != task
  {
    set e | e in edges && e.predecessor != task && e.successor != task
  }

  ghost function Step(s: State, a: Action): State
  {
    match a
    case CreateTask(task) => s.(tasks := s.tasks + {task})
    case DeleteTask(task) => s.(tasks := s.tasks - {task}, edges := WithoutTask(s.edges, task))
    case Check(e) => if Allowed(s, e) then s.(passed := s.passed + [e]) else s
    case Insert(k) =>
      if k >= |s.passed| then s
      else s.(edges := if Inserts(s, a) then s.edges + {s.passed[k]} else s.edges,
              passed := s.passed[..k] + s.passed[k + 1..])
    case DeleteEdge(e) => s.(edges := s.edges - {e})
  }

  const EMPTY := State({}, {}, [])

  ghost function Run(actions: seq<Action>): State
  {
    if actions == [] then EMPTY else Step(Run(actions[..|actions| - 1]), actions[|actions| - 1])
  }

  /** Whatever the interleaving, no edge ever points at a missing task. */
  lemma {:induction false} NoOrphanEdge(actions: seq<Action>)
    ensures forall e :: e in Run(actions).edges ==> e.predecessor in Run(actions).tasks && e.successor in Run(actions).tasks
  {
    if actions != [] {
      NoOrphanEdge(actions[..|actions| - 1]);
    }
  }

  /** The task was created and has not been deleted since. */
  predicate TaskStands(actions: seq<Action>, task: nat)
  {
    actions != [] &&
      var a := actions[|actions| - 1];
      a == CreateTask(task) || (TaskStands(actions[..|actions| - 1], task) && a != DeleteTask(task))
  }

  /** A request that had passed its check inserted the edge between two existing tasks, and
      neither the edge nor one of its tasks has been deleted since. */
  ghost predicate EdgeStands(actions: seq<Action>, e: Edge)
  {
    actions != [] &&
      var before, a := actions[..|actions| - 1], actions[|actions| - 1];
      var s := Run(before);
      || (a.Insert? && a.k < |s.passed| && s.passed[a.k] == e && e.predecessor in s.tasks && e.successor in s.tasks)
      || (EdgeStands(before, e) && a != DeleteEdge(e) && a != DeleteTask(e.predecessor) && a != DeleteTask(e.successor))
  }

  /** What is there at the end of a run is exactly what was put there and not taken away. */
  lemma {:induction false} WhatStands(actions: seq<Action>, task: nat, e: Edge)
    ensures task in Run(actions).tasks <==> TaskStands(actions, task)
    ensures e in Run(actions).edges <==> EdgeStands(actions, e)
  {
    if actions != [] {
      WhatStands(actions[..|actions| - 1], task, e);
    }
  }

  /** One step keeps the graph acyclic unless it inserts an edge whose check would now fail. */
  lemma StepIsSafeIff(s: State, a: Action)
    requires Acyclic(s.edges)
    ensures Acyclic(Step(s, a).edges) <==>
            (Inserts(s, a) ==> !Reach(s.edges, s.passed[a.k].successor, s.passed[a.k].predecessor))
  {
    if Inserts(s, a) {
      EdgeIsSafeIff(s.edges, s.passed[a.k]);
    } else {
      FewerEdgesStayAcyclic(s.edges, Step(s, a).edges);
    }
  }

  lemma EmptyIsAcyclic()
    ensures Acyclic({})
  {
    forall path, a | Joins({}, path, a, a)
      ensures |path| == 1
    {
      PathUsesEdge({}, path);
    }
  }

  lemma PathUsesEdge(edges: set<Edge>, path: seq<nat>)
    requires IsPath(edges, path)
    ensures |path| == 1 || edges != {}
  {
    assert |path| > 1 ==> Edge(path[0], path[0 + 1]) in edges;
  }

  /** Does every insert of the run re-pass the check at the moment it is made? */
  ghost predicate InsertsRecheck(actions: seq<Action>)
  {
    forall n :: 0 <= n < |actions| ==> RechecksAt(actions, n)
  }

  ghost predicate RechecksAt(actions: seq<Action>, n: nat)
    requires n < |actions|
  {
    var s := Run(actions[..n]);
    Inserts(s, actions[n]) ==> !Reach(s.edges, s.passed[actions[n].k].successor, s.passed[actions[n].k].predecessor)
  }

  ghost predicate AlwaysAcyclic(actions: seq<Action>)
  {
    forall n :: 0 <= n <= |actions| ==> Acyclic(Run(actions[..n]).edges)
  }

  /** A run of interleaved requests stays acyclic throughout exactly when every insert
      would still pass its check: the route checks earlier, and takes no lock. */
  lemma {:induction false} RunIsAcyclicIff(actions: seq<Action>)
    ensures AlwaysAcyclic(actions) <==> InsertsRecheck(actions)
  {
    if actions == [] {
      EmptyIsAcyclic();
    } else {
      var before := actions[..|actions| - 1];
      RunIsAcyclicIff(before);
      forall n | 0 <= n < |before|
        ensures RechecksAt(actions, n) == RechecksAt(before, n)
      {
        assert actions[..n] == before[..n];
      }
      forall n | 0 <= n <= |before|
        ensures Run(actions[..n]) == Run(before[..n])
      {
        assert actions[..n] == before[..n];
      }
      assert actions[..|actions|] == actions && before[..|before|] == before;
      if Acyclic(Run(before).edges) {
        StepIsSafeIff(Run(before), actions[|actions| - 1]);
      }
      assert AlwaysAcyclic(actions) <==> AlwaysAcyclic(before) && Acyclic(Run(actions).edges);
      assert InsertsRecheck(actions) <==> InsertsRecheck(before) && RechecksAt(actions, |before|);
      assert AlwaysAcyclic(before) ==> Acyclic(Run(before[..|before|]).edges);
    }
  }

  /** Two requests, each checked before the other inserts, close a cycle. */
  lemma ConcurrentChecksCloseCycle(a: nat, b: nat)
    requires a != b
    ensures !Acyclic(Run([CreateTask(a), CreateTask(b), Check(Edge(a, b)), Check(Edge(b, a)), Insert(0), Insert(0)]).edges)
  {
    var actions := [CreateTask(a), CreateTask(b), Check(Edge(a, b)), Check(Edge(b, a)), Insert(0), Insert(0)];
    NoEdgesNoReach(a, b);
    NoEdgesNoReach(b, a);
    assert actions[..1][..0] == [];
    assert actions[..2][..1] == actions[..1];
    assert actions[..3][..2] == actions[..2];
    assert actions[..4][..3] == actions[..3];
    assert actions[..5][..4] == actions[..4];
    assert actions[..6][..5] == actions[..5] && actions[..6] == actions;
    assert Run(actions[..1]) == State({a}, {}, []);
    assert Run(actions[..2]) == Step(Run(actions[..1]), CreateTask(b)) == State({a, b}, {}, []);
    assert Run(actions[..3]) == State({a, b}, {}, [Edge(a, b)]);
    assert Run(actions[..4]) == State({a, b}, {}, [Edge(a, b), Edge(b, a)]);
    assert Run(actions[..5]) == State({a, b}, {Edge(a, b)}, [Edge(b, a)]);
    assert Run(actions[..6]).edges == {Edge(a, b), Edge(b, a)};
    assert Joins(Run(actions).edges, [a, b, a], a, a);
  }

  lemma NoEdgesNoReach(a: nat, b: nat)
    requires a != b
    ensures !Reach({}, a, b)
  {
    if path :| Joins({}, path, a, b) {
      PathUsesEdge({}, path);
    }
  }

  // ---- One request at a time ----

  /** Check immediately followed by its own insert. */
  ghost predicate OneAtATime(actions: seq<Action>)
  {
    forall n :: 0 <= n < |actions| ==>
      && (actions[n].Insert? ==> actions[n].k == 0 && 0 < n && actions[n - 1].Check?)
      && (actions[n].Check? ==> n + 1 < |actions| && actions[n + 1] == Insert(0))
  }

  ghost predicate SoloOk(s: State, last: bool)
  {
    && Acyclic(s.edges)
    && |s.passed| <= 1
    && (s.passed != [] ==> last && Allowed(s, s.passed[0]))
  }

  lemma {:induction false} SoloPrefix(actions: seq<Action>, n: nat)
    requires OneAtATime(actions) && n <= |actions|
    ensures SoloOk(Run(actions[..n]), n > 0 && actions[n - 1].Check?)
  {
    if n == 0 {
      EmptyIsAcyclic();
    } else {
      SoloPrefix(actions, n - 1);
      var s := Run(actions[..n - 1]);
      assert actions[..n][..n - 1] == actions[..n - 1] && actions[..n][n - 1] == actions[n - 1];
      if n > 1 && actions[n - 2].Check? {
        assert actions[n - 2 + 1] == Insert(0);
      }
      StepIsSafeIff(s, actions[n - 1]);
    }
  }

  /** Requests that do not overlap keep the graph acyclic through every create, delete and insert. */
  lemma SerialRequestsStayAcyclic(actions: seq<Action>)
    requires OneAtATime(actions)
    ensures AlwaysAcyclic(actions)
  {
    forall n | 0 <= n <= |actions|
      ensures Acyclic(Run(actions[..n]).edges)
    {
      SoloPrefix(actions, n);
    }
  }
}
