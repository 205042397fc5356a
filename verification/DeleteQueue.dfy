// Foreign keys as PostgreSQL enforces them when, as here, no constraint is deferrable. Deleting
// a row queues one trigger event for every key that refers to its table. Events fire first in,
// first out, and what a cascade deletes queues behind; a key without a delete action is checked
// when its event fires, and not once all cascades are done.
module DeleteQueue {
  import opened Referential

  /** A foreign key, by the table that has it. */
  datatype Key = Key(table: Table, column: Column)

  /** The keys that refer to a table, in the order their triggers fire in. */
  type Firing = Table -> seq<Key>

  predicate Declared(table: Table, key: Key) {
    Declares(key.table, key.column) && Target(key.column) == table
  }

  /** Each declared key has one trigger, on the table it refers to. */
  ghost predicate AllKeys(fire: Firing) {
    && (forall table, key :: key in fire(table) <==> Declared(table, key))
    && (forall table, i, j :: 0 <= i < j < |fire(table)| ==> fire(table)[i] != fire(table)[j])
  }

  /** The trigger of one key on a table fires before that of another. */
  ghost predicate Before(fire: Firing, table: Table, a: Key, b: Key) {
    exists i, j :: 0 <= i < j < |fire(table)| && fire(table)[i] == a && fire(table)[j] == b
  }

  // ---- One statement ----

  datatype Event = Event(row: Row, key: Key)

  function EventsOf(fire: Firing, row: Row): (events: seq<Event>)
    ensures |events| == |fire(row.table)|
    ensures forall i :: 0 <= i < |events| ==> events[i] == Event(row, fire(row.table)[i])
  {
    seq(|fire(row.table)|, i requires 0 <= i < |fire(row.table)| => Event(row, fire(row.table)[i]))
  }

  function EventsOfAll(fire: Firing, rows: seq<Row>): seq<Event> {
    if rows == [] then [] else EventsOfAll(fire, rows[..|rows| - 1]) + EventsOf(fire, rows[|rows| - 1])
  }

  /** The rows deleted so far, all events queued so far, and which is to fire next. */
  datatype Deletion = Deletion(gone: set<Row>, queue: seq<Event>, next: nat, refused: bool)

  function Start(fire: Firing, row: Row): Deletion {
    Deletion({row}, EventsOf(fire, row), 0, false)
  }

  predicate Matches(l: Link, e: Event) {
    l.to == e.row && l.from.table == e.key.table && l.column == e.key.column
  }

  /** The rows still there that refer to the event's row by the event's key. */
  function Referrers(db: Database, e: Event, gone: set<Row>): set<Row> {
    set l | l in db.links && Matches(l, e) && l.from !in gone :: l.from
  }

  /** The rows of a set in the order a scan happens to find them. */
  ghost predicate Scans(order: seq<Row>, rows: set<Row>) {
    && (forall r :: r in order <==> r in rows)
    && (forall i, j :: 0 <= i < j < |order| ==> order[i] != order[j])
  }

  ghost predicate Cascades(fire: Firing, db: Database, s: Deletion, order: seq<Row>, t: Deletion)
    requires s.next < |s.queue|
  {
    var found := Referrers(db, s.queue[s.next], s.gone);
    Scans(order, found) && t == Deletion(s.gone + found, s.queue + EventsOfAll(fire, order), s.next + 1, false)
  }

  predicate Open(s: Deletion) {
    !s.refused && s.next < |s.queue|
  }

  /** One event fires. */
  ghost predicate Fires(fire: Firing, db: Database, s: Deletion, t: Deletion) {
    && Open(s)
    && match OnDelete(s.queue[s.next].key.column)
       case Cascade => exists order :: Cascades(fire, db, s, order, t)
       case SetNull => t == s.(next := s.next + 1)
       case NoAction =>
         t == if Referrers(db, s.queue[s.next], s.gone) == {} then s.(next := s.next + 1) else s.(refused := true)
  }

  /** Can the delete of the row be at `s` after `n` events? */
  ghost predicate Reaches(fire: Firing, db: Database, row: Row, s: Deletion, n: nat)
    decreases n
  {
    if n == 0 then s == Start(fire, row) else exists before :: Reaches(fire, db, row, before, n - 1) && Fires(fire, db, before, s)
  }

  function OutcomeOf(db: Database, s: Deletion): Outcome {
    if s.refused then Refused else Deleted(Remove(db, s.gone))
  }

  /** Is this how the statement ends, for some order of the scans? */
  ghost predicate Ends(fire: Firing, db: Database, row: Row, outcome: Outcome) {
    exists s, n :: Reaches(fire, db, row, s, n) && !Open(s) && outcome == OutcomeOf(db, s)
  }

  // ---- What is so at every moment of every delete ----

  ghost predicate Behind(db: Database, s: Deletion, i: nat)
    requires i < |s.queue|
  {
    OnDelete(s.queue[i].key.column) != SetNull ==> forall l :: l in db.links && Matches(l, s.queue[i]) ==> l.from in s.gone
  }

  /** The link the delete is refused for. */
  ghost predicate RefusedFor(db: Database, s: Deletion, l: Link) {
    && s.next < |s.queue| && l in db.links && Matches(l, s.queue[s.next])
    && OnDelete(l.column) == NoAction && l.from !in s.gone
  }

  /** Every event of a deleted row is queued, and nothing else; the first row's come first. */
  ghost predicate QueueOk(fire: Firing, row: Row, s: Deletion) {
    && s.next <= |s.queue| && row in s.gone
    && (forall r, key {:trigger Event(r, key)} :: r in s.gone && key in fire(r.table) ==> Event(r, key) in s.queue)
    && (forall i :: 0 <= i < |s.queue| ==> s.queue[i].row in s.gone && s.queue[i].key in fire(s.queue[i].row.table))
    && EventsOf(fire, row) <= s.queue
    && (forall i :: |EventsOf(fire, row)| <= i < |s.queue| ==> s.queue[i].row != row)
  }

  ghost predicate AllBehind(db: Database, s: Deletion) {
    s.next <= |s.queue| && forall i :: 0 <= i < s.next ==> Behind(db, s, i)
  }

  ghost predicate Steady(fire: Firing, db: Database, row: Row, s: Deletion) {
    QueueOk(fire, row, s) && AllBehind(db, s) && (s.refused ==> exists l :: RefusedFor(db, s, l))
  }

  lemma {:induction false} EventsOfAllAre(fire: Firing, rows: seq<Row>, e: Event)
    ensures e in EventsOfAll(fire, rows) <==> e.row in rows && e.key in fire(e.row.table)
  {
    if rows != [] {
      var last := |rows| - 1;
      EventsOfAllAre(fire, rows[..last], e);
      assert rows == rows[..last] + [rows[last]];
      if e.row == rows[last] && e.key in fire(e.row.table) {
        var i :| 0 <= i < |fire(e.row.table)| && fire(e.row.table)[i] == e.key;
        assert EventsOf(fire, rows[last])[i] == e;
      }
    }
  }

  lemma QueuedAfter(fire: Firing, s: Deletion, order: seq<Row>, i: nat)
    requires |s.queue| <= i < |s.queue + EventsOfAll(fire, order)|
    ensures var e := (s.queue + EventsOfAll(fire, order))[i]; e.row in order && e.key in fire(e.row.table)
  {
    var e := (s.queue + EventsOfAll(fire, order))[i];
    assert e == EventsOfAll(fire, order)[i - |s.queue|];
    EventsOfAllAre(fire, order, e);
  }

  lemma BehindStays(db: Database, s: Deletion, t: Deletion, i: nat)
    requires i < |s.queue| && s.gone <= t.gone && s.queue <= t.queue && Behind(db, s, i)
    ensures Behind(db, t, i)
  {
  }

  lemma CascadeQueues(fire: Firing, db: Database, row: Row, s: Deletion, order: seq<Row>, t: Deletion)
    requires QueueOk(fire, row, s) && s.next < |s.queue| && Cascades(fire, db, s, order, t)
    ensures QueueOk(fire, row, t)
  {
    forall r, key {:trigger Event(r, key)} | r in t.gone && key in fire(r.table)
      ensures Event(r, key) in t.queue
    {
      if r !in s.gone {
        EventsOfAllAre(fire, order, Event(r, key));
      }
    }
    forall i | 0 <= i < |t.queue|
      ensures t.queue[i].row in t.gone && t.queue[i].key in fire(t.queue[i].row.table)
      ensures |EventsOf(fire, row)| <= i ==> t.queue[i].row != row
    {
      if i >= |s.queue| {
        QueuedAfter(fire, s, order, i);
      } else {
        assert t.queue[i] == s.queue[i];
      }
    }
  }

  lemma CascadeKeepsBehind(fire: Firing, db: Database, s: Deletion, order: seq<Row>, t: Deletion)
    requires AllBehind(db, s) && s.next < |s.queue| && Cascades(fire, db, s, order, t)
    ensures AllBehind(db, t)
  {
    forall i | 0 <= i < t.next
      ensures Behind(db, t, i)
    {
      if i < s.next {
        BehindStays(db, s, t, i);
      } else {
        assert t.queue[i] == s.queue[s.next];
      }
    }
  }

  /** A check that finds nothing, or a reference set to null. */
  lemma PassKeepsBehind(db: Database, s: Deletion, t: Deletion)
    requires AllBehind(db, s) && s.next < |s.queue| && t == s.(next := s.next + 1)
    requires OnDelete(s.queue[s.next].key.column) != SetNull ==> Referrers(db, s.queue[s.next], s.gone) == {}
    ensures AllBehind(db, t)
  {
    forall i | 0 <= i < t.next
      ensures Behind(db, t, i)
    {
      if i < s.next {
        BehindStays(db, s, t, i);
      } else {
        PassedIsBehind(db, s, t);
      }
    }
  }

  lemma PassedIsBehind(db: Database, s: Deletion, t: Deletion)
    requires s.next < |s.queue| && t == s.(next := s.next + 1)
    requires OnDelete(s.queue[s.next].key.column) != SetNull ==> Referrers(db, s.queue[s.next], s.gone) == {}
    ensures Behind(db, t, s.next)
  {
    var e := s.queue[s.next];
    forall l | l in db.links && Matches(l, e) && OnDelete(e.key.column) != SetNull
      ensures l.from in s.gone
    {
      assert l.from !in s.gone ==> l.from in Referrers(db, e, s.gone);
    }
  }

  lemma RefusalIsRight(db: Database, s: Deletion, t: Deletion)
    requires Open(s) && t == s.(refused := true)
    requires OnDelete(s.queue[s.next].key.column) == NoAction && Referrers(db, s.queue[s.next], s.gone) != {}
    ensures exists l :: RefusedFor(db, t, l)
  {
    var e := s.queue[s.next];
    var r :| r in Referrers(db, e, s.gone);
    var l :| l in db.links && Matches(l, e) && l.from !in s.gone && l.from == r;
    assert RefusedFor(db, t, l);
  }

  lemma RefusalKeepsBehind(db: Database, s: Deletion, t: Deletion)
    requires AllBehind(db, s) && t == s.(refused := true)
    ensures AllBehind(db, t)
  {
    forall i | 0 <= i < t.next
      ensures Behind(db, t, i)
    {
      BehindStays(db, s, t, i);
    }
  }

  lemma StepKeepsSteady(fire: Firing, db: Database, row: Row, s: Deletion, t: Deletion)
    requires Steady(fire, db, row, s) && Fires(fire, db, s, t)
    ensures Steady(fire, db, row, t)
  {
    var e := s.queue[s.next];
    if OnDelete(e.key.column) == Cascade {
      var order :| Cascades(fire, db, s, order, t);
      CascadeQueues(fire, db, row, s, order, t);
      CascadeKeepsBehind(fire, db, s, order, t);
    } else if OnDelete(e.key.column) == NoAction && Referrers(db, e, s.gone) != {} {
      RefusalIsRight(db, s, t);
      RefusalKeepsBehind(db, s, t);
    } else {
      PassKeepsBehind(db, s, t);
    }
  }

  lemma StartIsSteady(fire: Firing, db: Database, row: Row)
    ensures Steady(fire, db, row, Start(fire, row))
  {
    forall key | key in fire(row.table)
      ensures Event(row, key) in EventsOf(fire, row)
    {
      var i :| 0 <= i < |fire(row.table)| && fire(row.table)[i] == key;
      assert EventsOf(fire, row)[i] == Event(row, key);
    }
  }

  /** What holds at the start and is kept by every event holds wherever a delete can be. */
  lemma {:induction false} Invariant(fire: Firing, db: Database, row: Row, inv: Deletion -> bool, s: Deletion, n: nat)
    requires inv(Start(fire, row))
    requires forall before, after :: inv(before) && Fires(fire, db, before, after) ==> inv(after)
    requires Reaches(fire, db, row, s, n)
    ensures inv(s)
    decreases n
  {
    if n > 0 {
      var before :| Reaches(fire, db, row, before, n - 1) && Fires(fire, db, before, s);
      Invariant(fire, db, row, inv, before, n - 1);
    }
  }

  lemma ReachedIsSteady(fire: Firing, db: Database, row: Row, s: Deletion, n: nat)
    requires Reaches(fire, db, row, s, n)
    ensures Steady(fire, db, row, s)
  {
    var inv := (at: Deletion) => Steady(fire, db, row, at);
    StartIsSteady(fire, db, row);
    forall before, after | inv(before) && Fires(fire, db, before, after)
      ensures inv(after)
    {
      StepKeepsSteady(fire, db, row, before, after);
    }
    Invariant(fire, db, row, inv, s, n);
  }

  lemma StepStaysInside(fire: Firing, db: Database, row: Row, s: Deletion, t: Deletion, closed: set<Row>)
    requires QueueOk(fire, row, s) && Fires(fire, db, s, t) && s.gone <= closed && CascadeClosed(db, closed)
    ensures t.gone <= closed
  {
    assert s.queue[s.next].row in closed;
  }

  /** Only what the cascades reach is ever deleted. */
  lemma GoneIsDoomed(fire: Firing, db: Database, row: Row, s: Deletion, n: nat, closed: set<Row>)
    requires Reaches(fire, db, row, s, n) && row in closed && CascadeClosed(db, closed)
    ensures s.gone <= closed
  {
    var inv := (at: Deletion) => Steady(fire, db, row, at) && at.gone <= closed;
    StartIsSteady(fire, db, row);
    forall before, after | inv(before) && Fires(fire, db, before, after)
      ensures inv(after)
    {
      StepKeepsSteady(fire, db, row, before, after);
      StepStaysInside(fire, db, row, before, after, closed);
    }
    Invariant(fire, db, row, inv, s, n);
  }

  // ---- How a statement ends ----

  /** Whatever a deleted row's event has not dealt with has no event, and there is none such. */
  lemma LinkHasEvent(fire: Firing, db: Database, row: Row, s: Deletion, l: Link) returns (i: nat)
    requires AllKeys(fire) && Sound(db) && Steady(fire, db, row, s) && l in db.links && l.to in s.gone
    ensures i < |s.queue| && Matches(l, s.queue[i]) && s.queue[i] == Event(l.to, Key(l.from.table, l.column))
  {
    var key := Key(l.from.table, l.column);
    assert Declared(l.to.table, key);
    assert Event(l.to, key) in s.queue;
    i :| 0 <= i < |s.queue| && s.queue[i] == Event(l.to, key);
  }

  /** A delete that is not refused has followed every cascade and passed every check. */
  lemma EndIsClosure(fire: Firing, db: Database, row: Row, s: Deletion, n: nat)
    requires AllKeys(fire) && Sound(db) && row in db.rows && Reaches(fire, db, row, s, n) && !Open(s) && !s.refused
    ensures s.gone == Closure(db, {row}) && !Blocked(db, s.gone)
  {
    ReachedIsSteady(fire, db, row, s, n);
    GoneIsDoomed(fire, db, row, s, n, Closure(db, {row}));
    forall l | l in db.links && l.to in s.gone && OnDelete(l.column) != SetNull
      ensures l.from in s.gone
    {
      var i := LinkHasEvent(fire, db, row, s, l);
      assert Behind(db, s, i);
    }
    ClosureIsLeast(db, {row}, s.gone);
  }

  /** A delete that the queue lets through does what the standard's would, which then lets it
      through too: the order of the events can only refuse more. */
  lemma NeverBeyondStandard(fire: Firing, db: Database, row: Row, outcome: Outcome)
    requires AllKeys(fire) && Sound(db) && row in db.rows && Ends(fire, db, row, outcome)
    ensures outcome == Refused || outcome == Delete(db, row)
  {
    var s, n :| Reaches(fire, db, row, s, n) && !Open(s) && outcome == OutcomeOf(db, s);
    if !s.refused {
      EndIsClosure(fire, db, row, s, n);
    }
  }

  /** When the link a delete is refused for does come from outside what is doomed, the
      standard refuses it as well. */
  lemma RefusedAlike(fire: Firing, db: Database, row: Row, outcome: Outcome)
    requires AllKeys(fire) && Sound(db) && row in db.rows && Ends(fire, db, row, outcome)
    requires forall s, n, l :: Reaches(fire, db, row, s, n) && RefusedFor(db, s, l) ==> l.from !in Closure(db, {row})
    ensures outcome == Delete(db, row)
  {
    NeverBeyondStandard(fire, db, row, outcome);
    var s, n :| Reaches(fire, db, row, s, n) && !Open(s) && outcome == OutcomeOf(db, s);
    if s.refused {
      ReachedIsSteady(fire, db, row, s, n);
      GoneIsDoomed(fire, db, row, s, n, Closure(db, {row}));
      var l :| RefusedFor(db, s, l);
      assert Blocked(db, Closure(db, {row}));
    }
  }

  // ---- Which events come first ----

  /** The events of one table's rows all come before those of another's. */
  ghost predicate Precedes(s: Deletion, x: Table, y: Table) {
    forall i, j :: 0 <= i < j < |s.queue| ==> !(s.queue[i].row.table == y && s.queue[j].row.table == x)
  }

  ghost predicate NoneOf(s: Deletion, y: Table) {
    forall i :: 0 <= i < |s.queue| ==> s.queue[i].row.table != y
  }

  /** The b-th trigger of a table is the only one that deletes rows of x, and none up to it
      deletes rows of y. */
  ghost predicate FirstAt(fire: Firing, table: Table, x: Table, y: Table, b: nat) {
    && b < |fire(table)|
    && forall i :: 0 <= i < |fire(table)| ==>
         (fire(table)[i].table == x && OnDelete(fire(table)[i].column) == Cascade ==> i == b) &&
         (i <= b ==> fire(table)[i].table != y)
  }

  /** Rows of x go only with the first row, at its b-th event; none of y goes by then. */
  ghost predicate DeletedAt(fire: Firing, db: Database, row: Row, closed: set<Row>, x: Table, y: Table, b: nat) {
    && x != y && row.table != x && row.table != y && FirstAt(fire, row.table, x, y, b)
    && (forall l :: l in db.links && OnDelete(l.column) == Cascade && l.from.table == x && l.to in closed ==> l.to == row)
  }

  /** The place of the one key by which a table's rows take rows of x with them. */
  lemma PlaceOf(fire: Firing, table: Table, a: Key, b: Key) returns (i: nat)
    requires AllKeys(fire) && Before(fire, table, a, b)
    requires forall key :: Declared(table, key) && key.table == a.table ==> key == a
    requires forall key :: Declared(table, key) && key.table == b.table ==> key == b
    requires a.table != b.table
    ensures FirstAt(fire, table, a.table, b.table, i)
  {
    var k, j :| 0 <= k < j < |fire(table)| && fire(table)[k] == a && fire(table)[j] == b;
    i := k;
    forall m | 0 <= m < |fire(table)|
      ensures fire(table)[m].table == a.table ==> m == k
      ensures fire(table)[m].table == b.table ==> m == j
    {
      assert fire(table)[m] in fire(table);
      assert Declared(table, fire(table)[m]);
    }
  }

  /** The same when no key of y refers to the table at all. */
  lemma PlaceAlone(fire: Firing, table: Table, a: Key, y: Table) returns (i: nat)
    requires AllKeys(fire) && Declared(table, a)
    requires forall key :: Declared(table, key) && key.table == a.table ==> key == a
    requires forall key :: Declared(table, key) ==> key.table != y
    ensures FirstAt(fire, table, a.table, y, i)
  {
    assert a in fire(table);
    i :| 0 <= i < |fire(table)| && fire(table)[i] == a;
    forall m | 0 <= m < |fire(table)|
      ensures fire(table)[m].table == a.table ==> m == i
      ensures fire(table)[m].table != y
    {
      assert fire(table)[m] in fire(table);
      assert Declared(table, fire(table)[m]);
    }
  }

  ghost predicate InOrder(s: Deletion, x: Table, y: Table, b: nat) {
    Precedes(s, x, y) && (s.next <= b ==> NoneOf(s, y))
  }

  lemma FirstRowsEvent(fire: Firing, row: Row, s: Deletion, i: nat)
    requires QueueOk(fire, row, s) && i < |s.queue|
    ensures s.queue[i].row == row <==> i < |fire(row.table)|
    ensures i < |fire(row.table)| ==> s.queue[i] == Event(row, fire(row.table)[i])
  {
    if i < |fire(row.table)| {
      assert s.queue[i] == EventsOf(fire, row)[i];
    }
  }

  /** Only the b-th event deletes rows of x. */
  lemma OnlyThen(fire: Firing, db: Database, row: Row, closed: set<Row>, s: Deletion, x: Table, y: Table, b: nat)
    requires DeletedAt(fire, db, row, closed, x, y, b)
    requires QueueOk(fire, row, s) && s.gone <= closed && s.next < |s.queue|
    requires OnDelete(s.queue[s.next].key.column) == Cascade && s.queue[s.next].key.table == x
    ensures Referrers(db, s.queue[s.next], s.gone) != {} ==> s.next == b
  {
    var e := s.queue[s.next];
    if r :| r in Referrers(db, e, s.gone) {
      var l :| l in db.links && Matches(l, e) && l.from !in s.gone && l.from == r;
      assert l.to in closed;
      FirstRowsEvent(fire, row, s, s.next);
    }
  }

  lemma CascadeKeepsOrder(fire: Firing, db: Database, row: Row, closed: set<Row>, s: Deletion, order: seq<Row>, t: Deletion, x: Table, y: Table, b: nat)
    requires DeletedAt(fire, db, row, closed, x, y, b)
    requires QueueOk(fire, row, s) && s.gone <= closed && InOrder(s, x, y, b)
    requires s.next < |s.queue| && OnDelete(s.queue[s.next].key.column) == Cascade && Cascades(fire, db, s, order, t)
    ensures InOrder(t, x, y, b)
  {
    var table := s.queue[s.next].key.table;
    forall i | |s.queue| <= i < |t.queue|
      ensures t.queue[i].row.table == table && Referrers(db, s.queue[s.next], s.gone) != {}
    {
      QueuedAfter(fire, s, order, i);
    }
    if table == x {
      OnlyThen(fire, db, row, closed, s, x, y, b);
    }
    FirstRowsEvent(fire, row, s, s.next);
    assert s.next < b ==> table != y;
  }

  lemma StepKeepsOrder(fire: Firing, db: Database, row: Row, closed: set<Row>, s: Deletion, t: Deletion, x: Table, y: Table, b: nat)
    requires DeletedAt(fire, db, row, closed, x, y, b)
    requires QueueOk(fire, row, s) && s.gone <= closed && InOrder(s, x, y, b) && Fires(fire, db, s, t)
    ensures InOrder(t, x, y, b)
  {
    if OnDelete(s.queue[s.next].key.column) == Cascade {
      var order :| Cascades(fire, db, s, order, t);
      CascadeKeepsOrder(fire, db, row, closed, s, order, t, x, y, b);
    }
  }

  lemma StartInOrder(fire: Firing, db: Database, row: Row, closed: set<Row>, x: Table, y: Table, b: nat)
    requires DeletedAt(fire, db, row, closed, x, y, b)
    ensures InOrder(Start(fire, row), x, y, b)
  {
  }

  ghost predicate SteadyInOrder(fire: Firing, db: Database, row: Row, closed: set<Row>, x: Table, y: Table, b: nat, s: Deletion) {
    Steady(fire, db, row, s) && s.gone <= closed && InOrder(s, x, y, b)
  }

  lemma StepKeepsSteadyInOrder(fire: Firing, db: Database, row: Row, closed: set<Row>, s: Deletion, t: Deletion, x: Table, y: Table, b: nat)
    requires CascadeClosed(db, closed) && DeletedAt(fire, db, row, closed, x, y, b)
    requires SteadyInOrder(fire, db, row, closed, x, y, b, s) && Fires(fire, db, s, t)
    ensures SteadyInOrder(fire, db, row, closed, x, y, b, t)
  {
    StepKeepsSteady(fire, db, row, s, t);
    StepStaysInside(fire, db, row, s, t, closed);
    StepKeepsOrder(fire, db, row, closed, s, t, x, y, b);
  }

  lemma StartIsSteadyInOrder(fire: Firing, db: Database, row: Row, closed: set<Row>, x: Table, y: Table, b: nat)
    requires row in closed && DeletedAt(fire, db, row, closed, x, y, b)
    ensures SteadyInOrder(fire, db, row, closed, x, y, b, Start(fire, row))
  {
    StartIsSteady(fire, db, row);
    StartInOrder(fire, db, row, closed, x, y, b);
  }

  lemma EveryStepKeepsOrder(fire: Firing, db: Database, row: Row, closed: set<Row>, x: Table, y: Table, b: nat)
    requires CascadeClosed(db, closed) && DeletedAt(fire, db, row, closed, x, y, b)
    ensures forall s, t :: SteadyInOrder(fire, db, row, closed, x, y, b, s) && Fires(fire, db, s, t) ==>
              SteadyInOrder(fire, db, row, closed, x, y, b, t)
  {
    forall s, t | SteadyInOrder(fire, db, row, closed, x, y, b, s) && Fires(fire, db, s, t)
      ensures SteadyInOrder(fire, db, row, closed, x, y, b, t)
    {
      StepKeepsSteadyInOrder(fire, db, row, closed, s, t, x, y, b);
    }
  }

  lemma {:induction false} ReachedInOrder(fire: Firing, db: Database, row: Row, closed: set<Row>, s: Deletion, n: nat, x: Table, y: Table, b: nat)
    requires row in closed && CascadeClosed(db, closed) && DeletedAt(fire, db, row, closed, x, y, b)
    requires Reaches(fire, db, row, s, n)
    ensures SteadyInOrder(fire, db, row, closed, x, y, b, s)
    decreases n
  {
    if n == 0 {
      StartIsSteadyInOrder(fire, db, row, closed, x, y, b);
    } else {
      var before :| Reaches(fire, db, row, before, n - 1) && Fires(fire, db, before, s);
      ReachedInOrder(fire, db, row, closed, before, n - 1, x, y, b);
      EveryStepKeepsOrder(fire, db, row, closed, x, y, b);
    }
  }

  /** Once another row's event fires, all that directly depends on the first row is gone. */
  lemma FirstRowDone(fire: Firing, db: Database, row: Row, s: Deletion, l: Link)
    requires AllKeys(fire) && Sound(db) && Steady(fire, db, row, s) && s.next < |s.queue| && s.queue[s.next].row != row
    requires l in db.links && l.to == row && OnDelete(l.column) != SetNull
    ensures l.from in s.gone
  {
    var i := LinkHasEvent(fire, db, row, s, l);
    FirstRowsEvent(fire, row, s, i);
    FirstRowsEvent(fire, row, s, s.next);
    assert Behind(db, s, i);
  }

  /** When an event of y's fires, all that depends on the deleted rows of x is gone. */
  lemma EarlierDone(fire: Firing, db: Database, row: Row, s: Deletion, x: Table, y: Table, l: Link)
    requires AllKeys(fire) && Sound(db) && Steady(fire, db, row, s) && Precedes(s, x, y) && x != y
    requires s.next < |s.queue| && s.queue[s.next].row.table == y
    requires l in db.links && l.to in s.gone && l.to.table == x && OnDelete(l.column) != SetNull
    ensures l.from in s.gone
  {
    var i := LinkHasEvent(fire, db, row, s, l);
    assert Behind(db, s, i) || i >= s.next;
    assert i != s.next;
  }

  // ---- The statement, run ----

  method Scan(rows: set<Row>) returns (order: seq<Row>)
    ensures Scans(order, rows)
  {
    order := [];
    var rest := rows;
    while rest != {}
      invariant rest <= rows
      invariant Scans(order, rows - rest)
      decreases rest
    {
      var next :| next in rest;
      order, rest := order + [next], rest - {next};
    }
    assert rows - rest == rows;
  }

  lemma OneMore(fire: Firing, db: Database, row: Row, s: Deletion, n: nat, t: Deletion)
    requires Reaches(fire, db, row, s, n) && Fires(fire, db, s, t)
    ensures Reaches(fire, db, row, t, n + 1)
  {
  }

  /** A cascade takes rows that were there, or queues nothing. */
  lemma FoundOrNothing(fire: Firing, db: Database, gone: set<Row>, found: set<Row>, order: seq<Row>)
    requires gone <= db.rows && found <= db.rows && found !! gone && Scans(order, found)
    ensures db.rows - (gone + found) < db.rows - gone || (found == {} && EventsOfAll(fire, order) == [])
  {
    if order != [] {
      var r := order[0];
      assert r in found && r in db.rows - gone && r !in db.rows - (gone + found);
    } else {
      assert forall r :: r in found ==> r in order;
    }
  }

  lemma FiringEnds(fire: Firing, db: Database, s: Deletion, t: Deletion)
    requires Sound(db) && s.gone <= db.rows && Fires(fire, db, s, t)
    ensures t.gone <= db.rows
    ensures db.rows - t.gone < db.rows - s.gone ||
            (t.gone == s.gone && t.queue == s.queue && (t.next == s.next + 1 || (t.next == s.next && t.refused)))
  {
    var found := Referrers(db, s.queue[s.next], s.gone);
    if OnDelete(s.queue[s.next].key.column) == Cascade {
      var order :| Cascades(fire, db, s, order, t);
      FoundOrNothing(fire, db, s.gone, found, order);
    }
  }

  /** The next event of the queue fires. */
  method FireNext(fire: Firing, db: Database, row: Row, s: Deletion, ghost n: nat) returns (t: Deletion)
    requires Sound(db) && s.gone <= db.rows && Open(s) && Reaches(fire, db, row, s, n)
    ensures Reaches(fire, db, row, t, n + 1) && t.gone <= db.rows
    ensures db.rows - t.gone < db.rows - s.gone ||
            (t.gone == s.gone && t.queue == s.queue && (t.next == s.next + 1 || (t.next == s.next && t.refused)))
  {
    var e := s.queue[s.next];
    var found := Referrers(db, e, s.gone);
    match OnDelete(e.key.column) {
      case Cascade =>
        var order := Scan(found);
        t := Deletion(s.gone + found, s.queue + EventsOfAll(fire, order), s.next + 1, false);
        assert Cascades(fire, db, s, order, t);
      case SetNull =>
        t := s.(next := s.next + 1);
      case NoAction =>
        t := if found == {} then s.(next := s.next + 1) else s.(refused := true);
    }
    FiringEnds(fire, db, s, t);
    OneMore(fire, db, row, s, n, t);
  }

  /** The statement always ends, in one of the ways `Ends` allows. */
  method DeleteRow(fire: Firing, db: Database, row: Row) returns (outcome: Outcome)
    requires Sound(db) && row in db.rows
    ensures Ends(fire, db, row, outcome)
  {
    var s := Start(fire, row);
    ghost var n := 0;
    while Open(s)
      invariant s.gone <= db.rows && Reaches(fire, db, row, s, n)
      decreases db.rows - s.gone, |s.queue| - s.next, !s.refused
    {
      s := FireNext(fire, db, row, s, n);
      n := n + 1;
    }
    outcome := OutcomeOf(db, s);
  }
}
