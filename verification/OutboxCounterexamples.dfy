/**
 * Runs from an empty outbox, in steps that can be read: relayed order is not commit order (outbox.ts line 18), and not
 * id order either; and an event staged again after its row was purged can break the staging order.
 */
module OutboxCounterexamples {
  import opened Wrappers
  import opened OutboxTable
  import opened OutboxProtocol
  import opened OutboxOrder

  const A: EventId := 1
  const B: EventId := 2
  const P: Producer := 7

  function Pend(id: nat, e: EventId, createdAt: int): Row {
    Row(id, e, P, true, createdAt, None, 0, None)
  }

  function Empty(now: int): World {
    World(now, [], map[], map[], map[], [], {}, [])
  }

  ghost predicate Leads(w: World, steps: seq<Step>, v: World) {
    Run(w, steps) && After(w, steps) == v
  }

  lemma NoSteps(w: World)
    ensures Leads(w, [], w)
  {
  }

  lemma Continue(w: World, steps: seq<Step>, v: World, step: Step, v': World) returns (steps': seq<Step>)
    requires Leads(w, steps, v) && Can(v, step) && v' == Do(v, step)
    ensures Leads(w, steps', v') && steps' == steps + [step]
  {
    hide Can, Do;
    RunThen(w, steps, step);
    steps' := steps + [step];
  }

  /** One caller stages one event and commits, nobody else being at work. */
  lemma StageAndCommit(w: World, steps: seq<Step>, v: World) returns (steps': seq<Step>, v': World)
    requires Leads(w, steps, v) && v == Empty(0)
    ensures Leads(w, steps', v')
    ensures v' == v.(rows := [Pend(0, B, 0)], issued := [Pend(0, B, 0)], committed := {0})
  {
    hide Leads, Held, Filter, UpdateAll, StampEvent, HandleRow, IsSelection, CommittedEvent;
    var begun := v.(staging := map[0 := Staging(0, [])]);
    assert v.staging[0 := Staging(0, [])] == begun.staging;
    steps' := Continue(w, steps, v, Open(0), begun);
    var row := Pend(0, B, 0);
    var inserted := begun.(staging := map[0 := Staging(0, [row])], issued := [row]);
    assert begun.issued + [row] == inserted.issued && [] + [row] == inserted.staging[0].rows;
    steps' := Continue(w, steps', begun, Insert(0, B, P, true), inserted);
    v' := v.(rows := [row], issued := [row], committed := {0});
    assert inserted.staging - {0} == map[];
    steps' := Continue(w, steps', inserted, Commit(0), v');
  }

  /** It is published and stamped at once. */
  lemma PublishAndStamp(w: World, steps: seq<Step>, v: World) returns (steps': seq<Step>, v': World)
    requires Leads(w, steps, v)
    requires v == Empty(0).(rows := [Pend(0, B, 0)], issued := [Pend(0, B, 0)], committed := {0})
    ensures Leads(w, steps', v')
    ensures v' == v.(rows := [Edited(Pend(0, B, 0), Stamp(0))], wire := [B])
  {
    hide Leads, Filter, UpdateAll, HandleRow, IsSelection, EventsUnused;
    assert v.issued[0].eventId == B && CommittedEvent(v, B);
    var started := v.(dispatches := map[0 := Dispatch([B], 0, false)]);
    steps' := Continue(w, steps, v, StartDispatch(0, [B]), started);
    var sent := v.(dispatches := map[0 := Dispatch([B], 0, true)], wire := [B]);
    steps' := Continue(w, steps', started, Publish(0, Delivered), sent);
    var stamped := sent.(rows := [Edited(Pend(0, B, 0), Stamp(0))], dispatches := map[0 := Dispatch([B], 1, false)]);
    steps' := Continue(w, steps', sent, MarkPublished(0, true), stamped);
    v' := stamped.(dispatches := map[]);
    assert stamped.dispatches - {0} == map[];
    steps' := Continue(w, steps', stamped, StopDispatch(0), v');
  }

  lemma WaitAndPurge(w: World, steps: seq<Step>, v: World) returns (steps': seq<Step>, v': World)
    requires Leads(w, steps, v) && v.now == 0 && v.rows == [Edited(Pend(0, B, 0), Stamp(0))] && v.drains == map[]
    ensures Leads(w, steps', v') && v' == v.(now := 100, rows := [])
  {
    hide Leads, UpdateAll, StampEvent, HandleRow, IsSelection, CommittedEvent;
    steps' := Continue(w, steps, v, Tick(100), v.(now := 100));
    v' := v.(now := 100, rows := []);
    assert Filter((r: Row) => r.id !in {0}, v.rows) == [];
    steps' := Continue(w, steps', v.(now := 100), Purge(P, 10, {0}), v');
  }

  lemma StageBoth(w: World, steps: seq<Step>, v: World) returns (steps': seq<Step>, v': World, batch: seq<Row>)
    requires Leads(w, steps, v) && v == Empty(100).(issued := [Pend(0, B, 0)], committed := {0}, wire := [B])
    ensures Leads(w, steps', v') && v'.wire == [B]
    ensures batch == [Pend(1, A, 100), Pend(2, B, 100)]
    ensures v'.rows == batch && v'.issued == [Pend(0, B, 0)] + batch && v'.committed == {0, 1, 2}
  {
    hide Leads, Held, Filter, UpdateAll, StampEvent, HandleRow, IsSelection, CommittedEvent;
    batch := [Pend(1, A, 100), Pend(2, B, 100)];
    var begun := v.(staging := map[0 := Staging(100, [])]);
    steps' := Continue(w, steps, v, Open(0), begun);
    var first := begun.(staging := map[0 := Staging(100, [batch[0]])], issued := [Pend(0, B, 0), batch[0]]);
    assert begun.issued + [batch[0]] == first.issued && [] + [batch[0]] == first.staging[0].rows;
    steps' := Continue(w, steps', begun, Insert(0, A, P, true), first);
    var both := begun.(staging := map[0 := Staging(100, batch)], issued := [Pend(0, B, 0)] + batch);
    assert first.issued + [batch[1]] == both.issued && [batch[0]] + [batch[1]] == batch;
    steps' := Continue(w, steps', first, Insert(0, B, P, true), both);
    v' := v.(rows := batch, issued := both.issued, committed := {0, 1, 2});
    steps' := CommitStaged(w, steps', both, batch);
  }

  lemma CommitStaged(w: World, steps: seq<Step>, v: World, batch: seq<Row>) returns (steps': seq<Step>)
    requires Leads(w, steps, v) && v.staging == map[0 := Staging(100, batch)] && v.rows == [] && v.committed == {0}
    requires batch == [Pend(1, A, 100), Pend(2, B, 100)]
    ensures Leads(w, steps', v.(rows := batch, staging := map[], committed := {0, 1, 2}))
  {
    hide Leads, Held, Filter, UpdateAll, StampEvent, HandleRow, IsSelection, CommittedEvent;
    assert v.staging - {0} == map[];
    assert Ids(batch) == {1, 2} by { assert batch[0] in batch && batch[1] in batch; }
    steps' := Continue(w, steps, v, Commit(0), v.(rows := batch, staging := map[], committed := {0, 1, 2}));
  }

  /**
   * The UNIQUE constraint only covers rows still in the table: staged again after its purge, B is out before A although
   * A was staged first. This is why the prefix law asks for events that were never committed before.
   */
  lemma RestagedOutOfOrder() returns (steps: seq<Step>, batch: seq<Row>)
    ensures Run(Empty(0), steps) && IsBatch(After(Empty(0), steps), batch)
    ensures !PrefixPublished(After(Empty(0), steps).wire, batch)
  {
    var w, v := Empty(0), Empty(0);
    NoSteps(w);
    hide Leads, PrefixPublished;
    steps, v := StageAndCommit(w, [], v);
    steps, v := PublishAndStamp(w, steps, v);
    steps, v := WaitAndPurge(w, steps, v);
    steps, v, batch := StageBoth(w, steps, v);
    assert After(w, steps) == v && Run(w, steps) by { LeadsMeansRun(w, steps, v); }
    assert v.wire == [B] && v.wire[0] == B && B in v.wire;
    assert A !in v.wire by { assert A != B; }
    assert batch[0].eventId !in v.wire && batch[1].eventId in v.wire;
    assert !InOrder(v.wire, batch);
    OrderMeansPrefix(v.wire, batch);
  }

  lemma LeadsMeansRun(w: World, steps: seq<Step>, v: World)
    requires Leads(w, steps, v)
    ensures Run(w, steps) && After(w, steps) == v
  {
  }

  /** Two transactions are open at once: A is inserted first, B commits first. */
  lemma OpenTwo(w: World) returns (steps: seq<Step>, v: World)
    requires w == Empty(0)
    ensures Leads(w, steps, v) && steps == [Open(0), Open(1), Insert(0, A, P, true), Insert(1, B, P, true)]
    ensures v == w.(issued := [Pend(0, A, 0), Pend(1, B, 0)], staging := map[0 := Staging(0, [Pend(0, A, 0)]), 1 := Staging(0, [Pend(1, B, 0)])])
  {
    NoSteps(w);
    hide Leads, Held, Filter, UpdateAll, StampEvent, HandleRow, IsSelection, CommittedEvent, EventsUnused;
    var v1 := w.(staging := map[0 := Staging(0, [])]);
    steps := Continue(w, [], w, Open(0), v1);
    var v2 := w.(staging := map[0 := Staging(0, []), 1 := Staging(0, [])]);
    steps := Continue(w, steps, v1, Open(1), v2);
    var v3 := w.(issued := [Pend(0, A, 0)], staging := map[0 := Staging(0, [Pend(0, A, 0)]), 1 := Staging(0, [])]);
    assert [] + [Pend(0, A, 0)] == v3.issued;
    steps := Continue(w, steps, v2, Insert(0, A, P, true), v3);
    v := w.(issued := [Pend(0, A, 0), Pend(1, B, 0)], staging := map[0 := Staging(0, [Pend(0, A, 0)]), 1 := Staging(0, [Pend(1, B, 0)])]);
    assert v3.issued + [Pend(1, B, 0)] == v.issued && [] + [Pend(1, B, 0)] == v.staging[1].rows;
    steps := Continue(w, steps, v3, Insert(1, B, P, true), v);
  }

  lemma CommitBoth(w: World, steps: seq<Step>, v: World) returns (steps': seq<Step>, v': World)
    requires Leads(w, steps, v) && v.rows == [] && v.committed == {}
    requires v.staging == map[0 := Staging(0, [Pend(0, A, 0)]), 1 := Staging(0, [Pend(1, B, 0)])]
    ensures Leads(w, steps', v') && steps' == steps + [Commit(1), Commit(0)]
    ensures v' == v.(rows := [Pend(1, B, 0), Pend(0, A, 0)], staging := map[], committed := {0, 1})
  {
    hide Leads, Held, Filter, UpdateAll, StampEvent, HandleRow, IsSelection, CommittedEvent;
    var v1 := v.(rows := [Pend(1, B, 0)], staging := map[0 := Staging(0, [Pend(0, A, 0)])], committed := {1});
    steps' := CommitOne(w, steps, v, 1, Pend(1, B, 0), v1);
    v' := v.(rows := [Pend(1, B, 0), Pend(0, A, 0)], staging := map[], committed := {0, 1});
    steps' := CommitOne(w, steps', v1, 0, Pend(0, A, 0), v');
  }

  lemma CommitOne(w: World, steps: seq<Step>, v: World, h: Handle, row: Row, v': World) returns (steps': seq<Step>)
    requires Leads(w, steps, v) && h in v.staging && v.staging[h].rows == [row]
    requires forall r :: r in v.rows ==> r.eventId != row.eventId
    requires v' == v.(rows := v.rows + [row], staging := v.staging - {h}, committed := v.committed + {row.id})
    ensures Leads(w, steps', v') && steps' == steps + [Commit(h)]
  {
    hide Leads, Held, Filter, UpdateAll, StampEvent, HandleRow, IsSelection, CommittedEvent;
    assert Ids([row]) == {row.id} by { assert [row][0] in [row]; }
    steps' := Continue(w, steps, v, Commit(h), v');
  }

  const AB: seq<Row> := [Pend(0, A, 0), Pend(1, B, 0)]

  function Draining(v: World, p: Progress, wire: seq<EventId>): World {
    v.(drains := map[0 := Drain(P, 0, 0, 100, true, true, AB, p)], wire := wire)
  }

  lemma SelectBoth(w: World, steps: seq<Step>, v: World) returns (steps': seq<Step>)
    requires Leads(w, steps, v) && v.now == 0 && v.rows == [Pend(1, B, 0), Pend(0, A, 0)] && v.drains == map[]
    requires v.wire == []
    ensures Leads(w, steps', Draining(v, NOTHING_DONE, [])) && steps <= steps'
  {
    hide Leads, Held, Filter, UpdateAll, StampEvent, CommittedEvent, EventsUnused, HandleRow;
    var v1 := v.(drains := map[0 := Drain(P, 0, 0, 100, true, false, [], NOTHING_DONE)]);
    steps' := Continue(w, steps, v, BeginDrain(0, P, 0, 100), v1);
    assert IsSelection(v.rows, P, 0, 100, AB) by {
      assert v.rows[0] in v.rows && v.rows[1] in v.rows && AB[0] in AB && AB[1] in AB;
    }
    hide IsSelection;
    steps' := Continue(w, steps', v1, Select(0, AB), Draining(v, NOTHING_DONE, []));
  }

  lemma RelayBoth(w: World, steps: seq<Step>, v: World) returns (steps': seq<Step>, v': World)
    requires Leads(w, steps, Draining(v, NOTHING_DONE, []))
    ensures Leads(w, steps', v') && v'.wire == [A, B] && steps <= steps'
  {
    hide Leads, Held, Filter, UpdateAll, StampEvent, CommittedEvent, EventsUnused, IsSelection;
    var p := HandleRow(NOTHING_DONE, AB[0], Delivered, 0);
    steps' := Continue(w, steps, Draining(v, NOTHING_DONE, []), Relay(0, Delivered), Draining(v, p, [A]));
    v' := Draining(v, HandleRow(p, AB[1], Delivered, 0), [A, B]);
    assert v'.drains[0].progress.sent[1..] == [B];
    steps' := Continue(w, steps', Draining(v, p, [A]), Relay(0, Delivered), v');
  }

  /** B's transaction commits before A's, and one drain publishes A before B. */
  lemma CommitOrderIsNotRelayOrder() returns (steps: seq<Step>, b: nat, a: nat)
    ensures Run(Empty(0), steps) && After(Empty(0), steps).wire == [A, B]
    ensures b < a < |steps| && steps[b] == Commit(1) && steps[a] == Commit(0)
    ensures steps[..b] == [Open(0), Open(1), Insert(0, A, P, true), Insert(1, B, P, true)]
  {
    hide Leads;
    var w := Empty(0);
    var v: World;
    steps, v := OpenTwo(w);
    steps, v := CommitBoth(w, steps, v);
    ghost var committed := steps;
    steps := SelectBoth(w, steps, v);
    steps, v := RelayBoth(w, steps, v);
    b, a := 4, 5;
    assert steps[..6] == committed;
    LeadsMeansRun(w, steps, v);
  }

  // ── Nor is relayed order id order ───────────────────────────────

  const LATE_A: Row := Pend(0, A, 10)
  const EARLY_B: Row := Pend(1, B, 0)

  /** Transaction 1 opens at 0; transaction 2 opens at 10 and inserts A. */
  lemma EarlyAndLate(w: World) returns (steps: seq<Step>, v: World)
    requires w == Empty(0)
    ensures Leads(w, steps, v) && steps == [Open(1), Tick(10), Open(2), Insert(2, A, P, true)]
    ensures v == Empty(10).(issued := [LATE_A], staging := map[1 := Staging(0, []), 2 := Staging(10, [LATE_A])])
  {
    NoSteps(w);
    hide Leads, Held, Filter, UpdateAll, StampEvent, HandleRow, IsSelection, CommittedEvent, EventsUnused;
    var v1 := w.(staging := map[1 := Staging(0, [])]);
    steps := Continue(w, [], w, Open(1), v1);
    var v2 := v1.(now := 10);
    steps := Continue(w, steps, v1, Tick(10), v2);
    var v3 := v2.(staging := map[1 := Staging(0, []), 2 := Staging(10, [])]);
    steps := Continue(w, steps, v2, Open(2), v3);
    v := v3.(issued := [LATE_A], staging := map[1 := Staging(0, []), 2 := Staging(10, [LATE_A])]);
    assert [] + [LATE_A] == v.issued;
    steps := Continue(w, steps, v3, Insert(2, A, P, true), v);
  }

  /** Transaction 2 commits; transaction 1 inserts B and commits. */
  lemma LateCommitsFirst(w: World, steps: seq<Step>, v: World) returns (steps': seq<Step>, v': World)
    requires Leads(w, steps, v)
    requires v == Empty(10).(issued := [LATE_A], staging := map[1 := Staging(0, []), 2 := Staging(10, [LATE_A])])
    ensures Leads(w, steps', v') && steps' == steps + [Commit(2), Insert(1, B, P, true), Commit(1)]
    ensures v' == Empty(10).(rows := [LATE_A, EARLY_B], issued := [LATE_A, EARLY_B], committed := {0, 1})
  {
    hide Leads, Held, Filter, UpdateAll, StampEvent, HandleRow, IsSelection, CommittedEvent;
    var v1 := v.(rows := [LATE_A], staging := map[1 := Staging(0, [])], committed := {0});
    assert v.staging - {2} == v1.staging;
    steps' := CommitOne(w, steps, v, 2, LATE_A, v1);
    var v2 := v1.(issued := [LATE_A, EARLY_B], staging := map[1 := Staging(0, [EARLY_B])]);
    assert v1.issued + [EARLY_B] == v2.issued && [] + [EARLY_B] == v2.staging[1].rows;
    steps' := Continue(w, steps', v1, Insert(1, B, P, true), v2);
    v' := v2.(rows := [LATE_A, EARLY_B], staging := map[], committed := {0, 1});
    assert v2.staging - {1} == map[];
    steps' := CommitOne(w, steps', v2, 1, EARLY_B, v');
  }

  function Waiting(v: World, p: Progress, wire: seq<EventId>): World {
    v.(drains := map[0 := Drain(P, 13, 8, 100, true, true, [EARLY_B], p)], wire := wire)
  }

  /** At 13, with a grace of 5, only B is old enough. */
  lemma SelectEarly(w: World, steps: seq<Step>, v: World) returns (steps': seq<Step>)
    requires Leads(w, steps, v) && v.now == 10 && v.rows == [LATE_A, EARLY_B] && v.drains == map[] && v.wire == []
    ensures Leads(w, steps', Waiting(v.(now := 13), NOTHING_DONE, [])) && steps <= steps'
  {
    hide Leads, Held, Filter, UpdateAll, StampEvent, CommittedEvent, EventsUnused, HandleRow;
    var later := v.(now := 13);
    steps' := Continue(w, steps, v, Tick(13), later);
    var begun := later.(drains := map[0 := Drain(P, 13, 8, 100, true, false, [], NOTHING_DONE)]);
    steps' := Continue(w, steps', later, BeginDrain(0, P, 5, 100), begun);
    assert IsSelection(v.rows, P, 8, 100, [EARLY_B]) by {
      assert v.rows[0] in v.rows && v.rows[1] in v.rows && [EARLY_B][0] in [EARLY_B];
    }
    hide IsSelection;
    steps' := Continue(w, steps', begun, Select(0, [EARLY_B]), Waiting(later, NOTHING_DONE, []));
  }

  lemma RelayEarly(w: World, steps: seq<Step>, v: World) returns (steps': seq<Step>, v': World)
    requires Leads(w, steps, Waiting(v, NOTHING_DONE, []))
    ensures Leads(w, steps', v') && v'.wire == [B] && steps <= steps'
  {
    hide Leads, Held, Filter, UpdateAll, StampEvent, CommittedEvent, EventsUnused, IsSelection;
    var p := HandleRow(NOTHING_DONE, EARLY_B, Delivered, 13);
    v' := Waiting(v, p, [B]);
    assert p.sent[0..] == [B] && [] + [B] == [B];
    steps' := Continue(w, steps, Waiting(v, NOTHING_DONE, []), Relay(0, Delivered), v');
  }

  /** A has the smaller id and is committed first, and one relay publishes B before it. */
  lemma IdOrderIsNotRelayOrder() returns (steps: seq<Step>, a: nat, b: nat)
    ensures Run(Empty(0), steps) && After(Empty(0), steps).wire == [B]
    ensures a < b < |steps| && steps[a] == Commit(2) && steps[b] == Commit(1)
    ensures steps[..b] == [Open(1), Tick(10), Open(2), Insert(2, A, P, true), Commit(2), Insert(1, B, P, true)]
  {
    hide Leads;
    var w := Empty(0);
    var v: World;
    steps, v := EarlyAndLate(w);
    steps, v := LateCommitsFirst(w, steps, v);
    ghost var committed := steps;
    steps := SelectEarly(w, steps, v);
    steps, v := RelayEarly(w, steps, v.(now := 13));
    a, b := 4, 6;
    assert steps[..7] == committed;
    LeadsMeansRun(w, steps, v);
  }
}
