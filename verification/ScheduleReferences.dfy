// The schedule routes' delete of a task is the database's delete under the declared
// foreign keys (server/src/routes/projectSchedule.ts, server/src/db/schema.ts:3495-3580).
module ScheduleReferences {
  import opened Dependencies
  import opened TaskTree
  import opened Referential

  /** The two tables as rows and references; a dependency row's id is its position. */
  function TasksTable(parents: Parents): set<Row> {
    set t | t in parents :: Row(Tasks, t)
  }

  function EdgesTable(edges: seq<Edge>): set<Row> {
    set i | 0 <= i < |edges| :: Row(Table.Dependencies, i)
  }

  function ParentLinks(parents: Parents): set<Link> {
    set t | t in parents && parents[t].Some? :: Link(Row(Tasks, t), ParentTaskId, Row(Tasks, parents[t].value))
  }

  function EdgeLinks(edges: seq<Edge>): set<Link> {
    (set i | 0 <= i < |edges| :: Link(Row(Table.Dependencies, i), PredecessorTaskId, Row(Tasks, edges[i].predecessor))) +
    (set i | 0 <= i < |edges| :: Link(Row(Table.Dependencies, i), SuccessorTaskId, Row(Tasks, edges[i].successor)))
  }

  function FromSchedule(parents: Parents, edges: seq<Edge>): Database {
    Database(TasksTable(parents) + EdgesTable(edges), ParentLinks(parents) + EdgeLinks(edges))
  }

  /** Parents and endpoints are tasks of the project. */
  ghost predicate Referenced(parents: Parents, edges: seq<Edge>) {
    && (forall t :: t in parents && parents[t].Some? ==> parents[t].value in parents)
    && (forall i :: 0 <= i < |edges| ==> edges[i].predecessor in parents && edges[i].successor in parents)
  }

  predicate SoundLink(db: Database, l: Link) {
    l.from in db.rows && l.to in db.rows && l.to.table == Target(l.column) && Declares(l.from.table, l.column)
  }

  lemma ParentLinkIsSound(parents: Parents, edges: seq<Edge>, l: Link)
    requires Referenced(parents, edges) && l in ParentLinks(parents)
    ensures SoundLink(FromSchedule(parents, edges), l)
  {
    var t :| t in parents && parents[t].Some? && l == Link(Row(Tasks, t), ParentTaskId, Row(Tasks, parents[t].value));
    assert l.from in TasksTable(parents) && l.to in TasksTable(parents);
  }

  lemma EdgeLinkIsSound(parents: Parents, edges: seq<Edge>, l: Link)
    requires Referenced(parents, edges) && l in EdgeLinks(edges)
    ensures SoundLink(FromSchedule(parents, edges), l)
  {
    assert l.column == PredecessorTaskId || l.column == SuccessorTaskId;
    var i :| 0 <= i < |edges| && l.from == Row(Table.Dependencies, i) &&
             (l.to == Row(Tasks, edges[i].predecessor) || l.to == Row(Tasks, edges[i].successor));
    assert l.from in EdgesTable(edges) && l.to in TasksTable(parents);
  }

  lemma ScheduleIsSound(parents: Parents, edges: seq<Edge>)
    requires Referenced(parents, edges)
    ensures Sound(FromSchedule(parents, edges))
  {
    var db := FromSchedule(parents, edges);
    forall l | l in db.links
      ensures SoundLink(db, l)
    {
      if l in ParentLinks(parents) {
        ParentLinkIsSound(parents, edges, l);
      } else {
        EdgeLinkIsSound(parents, edges, l);
      }
    }
  }

  lemma TouchingEdges(parents: Parents, edges: seq<Edge>, task: nat, i: nat)
    requires i < |edges|
    ensures Row(Table.Dependencies, i) in DependenciesOf(FromSchedule(parents, edges), Row(Tasks, task)) <==>
            edges[i].predecessor == task || edges[i].successor == task
  {
    var db := FromSchedule(parents, edges);
    assert Link(Row(Table.Dependencies, i), PredecessorTaskId, Row(Tasks, edges[i].predecessor)) in EdgeLinks(edges);
    assert Link(Row(Table.Dependencies, i), SuccessorTaskId, Row(Tasks, edges[i].successor)) in EdgeLinks(edges);
    if Row(Table.Dependencies, i) in DependenciesOf(db, Row(Tasks, task)) {
      var l :| l in db.links && l.to == Row(Tasks, task) && l.column != ParentTaskId && l.from == Row(Table.Dependencies, i);
      assert l in EdgeLinks(edges);
    }
  }

  lemma ParentLinkIff(parents: Parents, edges: seq<Edge>, t: nat, p: nat)
    ensures Link(Row(Tasks, t), ParentTaskId, Row(Tasks, p)) in FromSchedule(parents, edges).links <==>
            t in parents && parents[t] == Some(p)
  {
  }

  /** Deleting a task row under the declared rules leaves exactly the tasks, parent links and
      dependencies that the schedule's own delete leaves. */
  lemma TaskDeleteAgrees(parents: Parents, edges: seq<Edge>, task: nat)
    requires Referenced(parents, edges) && task in parents
    ensures Sound(FromSchedule(parents, edges)) && Row(Tasks, task) in FromSchedule(parents, edges).rows
    ensures var outcome := Delete(FromSchedule(parents, edges), Row(Tasks, task));
            && outcome.Deleted?
            && (forall t: nat :: Row(Tasks, t) in outcome.after.rows <==> t in TaskTree.Deleted(parents, task))
            && (forall t: nat, p: nat :: Link(Row(Tasks, t), ParentTaskId, Row(Tasks, p)) in outcome.after.links <==>
                  t in TaskTree.Deleted(parents, task) && TaskTree.Deleted(parents, task)[t] == Some(p))
            && (forall i: nat :: Row(Table.Dependencies, i) in outcome.after.rows <==>
                  i < |edges| && edges[i] in WithoutTask(EdgeSet(edges), task))
  {
    ScheduleIsSound(parents, edges);
    var db, row := FromSchedule(parents, edges), Row(Tasks, task);
    assert row in TasksTable(parents);
    TaskDelete(db, row);
    var after := Delete(db, row).after;
    forall t: nat
      ensures Row(Tasks, t) in after.rows <==> t in TaskTree.Deleted(parents, task)
    {
      NotADependency(db, row, t);
    }
    forall t: nat, p: nat
      ensures Link(Row(Tasks, t), ParentTaskId, Row(Tasks, p)) in after.links <==>
              t in TaskTree.Deleted(parents, task) && TaskTree.Deleted(parents, task)[t] == Some(p)
    {
      ParentLinkIff(parents, edges, t, p);
      NotADependency(db, row, t);
      DeleteIsExactHere(db, row);
    }
    forall i: nat
      ensures Row(Table.Dependencies, i) in after.rows <==> i < |edges| && edges[i] in WithoutTask(EdgeSet(edges), task)
    {
      if i < |edges| {
        TouchingEdges(parents, edges, task, i);
        assert Row(Table.Dependencies, i) in EdgesTable(edges);
      }
    }
  }

  lemma NotADependency(db: Database, task: Row, t: nat)
    requires Sound(db) && task.table == Tasks
    ensures Row(Tasks, t) !in DependenciesOf(db, task)
  {
    forall l | l in db.links
      ensures l.to == task && l.column != ParentTaskId ==> l.from.table != Tasks
    {
      OnlyDependenciesCascade(db, task, l);
    }
  }

  lemma DeleteIsExactHere(db: Database, row: Row)
    requires Sound(db) && row in db.rows && Delete(db, row).Deleted?
    ensures forall l :: l in Delete(db, row).after.links ==> l in db.links && l.from in Delete(db, row).after.rows
  {
    DoomedIsLeastClosed(db, row);
    DeleteIsExact(db, row, Closure(db, {row}));
  }
}
