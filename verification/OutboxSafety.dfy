/**
 * At least once, never invented, never lost: what every run of the outbox keeps, however its parties interleave,
 * fail and restart.
 */
module OutboxSafety {
  import opened OutboxTable
  import opened OutboxProtocol

  predicate Recorded(r: Row, issued: seq<Row>) {
    r.id < |issued| && SameRecord(r, issued[r.id])
  }

  predicate UniqueEvents(rows: seq<Row>) {
    forall a, b :: a in rows && b in rows && a.eventId == b.eventId ==> a.id == b.id
  }

  ghost predicate IsPending(rows: seq<Row>, id: nat) {
    exists r :: r in rows && r.id == id && r.publishedAt.None?
  }

  /** A stamp is only ever put on an event that reached the transport. */
  ghost predicate RowsSound(w: World) {
    && OncePerRow(w.rows) && UniqueEvents(w.rows)
    && forall r :: r in w.rows ==>
         Recorded(r, w.issued) && r.id in w.committed && (r.publishedAt.Some? ==> r.eventId in w.wire)
  }

  ghost predicate StagingSound(w: World) {
    && (forall h :: h in w.staging ==> Staged(w, w.staging[h]))
    && forall h, k :: h in w.staging && k in w.staging && h != k ==> OtherIds(w.staging[h], w.staging[k])
  }

  predicate OtherIds(s: Staging, t: Staging) {
    forall r, q :: r in s.rows && q in t.rows ==> r.id != q.id
  }

  ghost predicate Staged(w: World, s: Staging) {
    && (forall r :: r in s.rows ==>
          Recorded(r, w.issued) && r.publishedAt.None? && r.id !in w.committed && r.createdAt == s.startedAt)
    && forall i, j :: 0 <= i < j < |s.rows| ==> s.rows[i].id < s.rows[j].id
  }

  /** No loss: a committed event waits in the table or has been published. */
  ghost predicate NothingLost(w: World) {
    forall id :: id in w.committed ==> id < |w.issued| && (w.issued[id].eventId in w.wire || IsPending(w.rows, id))
  }

  /** Nothing invented: what was published had been committed. */
  ghost predicate NothingInvented(w: World) {
    forall e :: e in w.wire ==> CommittedEvent(w, e)
  }

  ghost predicate DispatchSound(w: World, d: Dispatch) {
    && d.next <= |d.events| && (d.published ==> d.next < |d.events| && d.events[d.next] in w.wire)
    && (forall e :: e in d.events ==> CommittedEvent(w, e))
    && forall k :: 0 <= k < d.next ==> d.events[k] in w.wire
  }

  ghost predicate DrainSound(w: World, d: Drain) {
    && |d.progress.changes| <= |d.queue|
    && (d.queue != [] ==> d.selected)
    && (forall q :: q in d.queue ==> Recorded(q, w.issued) && q.id in w.committed)
    && (forall k :: 0 <= k < |d.progress.changes| ==>
          && d.progress.changes[k].id == d.queue[k].id
          && (d.progress.changes[k].edit.Stamp? ==> d.queue[k].eventId in w.wire)
          && (d.queue[k].valid && !d.progress.blocked ==> d.queue[k].eventId in w.wire))
  }

  ghost predicate PartiesSound(w: World) {
    && (forall h :: h in w.dispatches ==> DispatchSound(w, w.dispatches[h]))
    && forall h :: h in w.drains ==> DrainSound(w, w.drains[h])
  }

  /** One relay at a time holds a producer's lock. */
  ghost predicate LocksExclusive(w: World) {
    forall h, k :: h in w.drains && k in w.drains && w.drains[h].live && w.drains[k].live && w.drains[h].producer == w.drains[k].producer ==> h == k
  }

  ghost predicate Sound(w: World) {
    RowsSound(w) && StagingSound(w) && NothingLost(w) && NothingInvented(w) && PartiesSound(w) && LocksExclusive(w)
  }

  // ── History only grows ──────────────────────────────────────────

  ghost predicate Grows(w: World, w': World) {
    && w.issued <= w'.issued && w.committed <= w'.committed && w.wire <= w'.wire
  }

  lemma StepGrows(w: World, step: Step)
    requires Can(w, step)
    ensures Grows(w, Do(w, step))
  {
    hide UpdateAll, StampEvent, HandleRow, IsSelection, Held, CommittedEvent, EventsUnused;
  }

  lemma Wider(w: World, w': World)
    requires Grows(w, w')
    ensures forall e :: e in w.wire ==> e in w'.wire
    ensures forall r :: Recorded(r, w.issued) ==> Recorded(r, w'.issued)
    ensures forall e :: CommittedEvent(w, e) ==> CommittedEvent(w', e)
    ensures forall id :: 0 <= id < |w.issued| ==> id < |w'.issued| && w'.issued[id] == w.issued[id]
  {
    forall e | CommittedEvent(w, e) ensures CommittedEvent(w', e) {
      var id :| id in w.committed && id < |w.issued| && w.issued[id].eventId == e;
      assert id in w'.committed && w'.issued[id].eventId == e;
    }
  }

  lemma PartiesStaySound(w: World, w': World)
    requires Grows(w, w') && PartiesSound(w)
    ensures forall h :: h in w.dispatches ==> DispatchSound(w', w.dispatches[h])
    ensures forall h :: h in w.drains ==> DrainSound(w', w.drains[h])
  {
    hide CommittedEvent, SameRecord, Recorded;
    Wider(w, w');
    hide Grows;
    forall h | h in w.drains ensures DrainSound(w', w.drains[h]) {
      assert DrainSound(w, w.drains[h]);
    }
    forall h | h in w.dispatches ensures DispatchSound(w', w.dispatches[h]) {
      assert DispatchSound(w, w.dispatches[h]);
    }
  }

  // ── Each part is kept by each step ──────────────────────────────

  lemma ChangedDispatch(w: World, step: Step, h: Handle)
    requires PartiesSound(w) && Can(w, step) && h in Do(w, step).dispatches
    requires h !in w.dispatches || Do(w, step).dispatches[h] != w.dispatches[h]
    ensures DispatchSound(Do(w, step), Do(w, step).dispatches[h])
  {
    var w' := Do(w, step);
    StepGrows(w, step);
    Wider(w, w');
    PartiesStaySound(w, w');
    hide StampEvent, UpdateAll, Grows, Held, CommittedEvent, EventsUnused, Filter, HandleRow, DrainSound, IsSelection;
    if step.Publish? {
      var e := w.dispatches[h].events[w.dispatches[h].next];
      assert e in Arrived(e, Delivered);
    }
  }

  lemma RelayedDrain(w: World, step: Step)
    requires PartiesSound(w) && Can(w, step) && step.Relay?
    ensures DrainSound(Do(w, step), Do(w, step).drains[step.h])
  {
    var w' := Do(w, step);
    var d := w.drains[step.h];
    var k := |d.progress.changes|;
    StepGrows(w, step);
    Wider(w, w');
    PartiesStaySound(w, w');
    assert DrainSound(w', d);
    hide PartiesSound, StampEvent, UpdateAll, Grows, Held, CommittedEvent, EventsUnused, Filter, Recorded,
         INVALID_ENVELOPE, Ids;
    assert w'.drains[step.h].progress.sent[|d.progress.sent|..]
        == if d.queue[k].valid then Arrived(d.queue[k].eventId, step.answer) else [];
  }

  lemma SelectedDrain(w: World, step: Step)
    requires PartiesSound(w) && RowsSound(w) && Can(w, step) && step.Select?
    ensures DrainSound(Do(w, step), Do(w, step).drains[step.h])
  {
    assert DrainSound(w, w.drains[step.h]);
    hide PartiesSound, StampEvent, UpdateAll, Held, CommittedEvent, EventsUnused, Filter, Recorded, INVALID_ENVELOPE, Ids,
         OncePerRow, UniqueEvents;
  }

  /** A relay other than one that selects or publishes is as it was, or has done nothing, or lost its connection. */
  lemma ChangedDrain(w: World, step: Step, h: Handle)
    requires PartiesSound(w) && RowsSound(w) && Can(w, step) && h in Do(w, step).drains
    requires h !in w.drains || Do(w, step).drains[h] != w.drains[h]
    ensures DrainSound(Do(w, step), Do(w, step).drains[h])
  {
    if step.Relay? {
      RelayedDrain(w, step);
    } else if step.Select? {
      SelectedDrain(w, step);
    } else {
      assert h in w.drains ==> DrainSound(w, w.drains[h]);
    }
    hide PartiesSound, RowsSound, StampEvent, UpdateAll, Held, CommittedEvent, EventsUnused, Filter, Recorded, HandleRow,
         IsSelection, Ids;
  }

  lemma KeepsLocks(w: World, step: Step)
    requires LocksExclusive(w) && Can(w, step)
    ensures LocksExclusive(Do(w, step))
  {
    hide StampEvent, UpdateAll, Held, CommittedEvent, EventsUnused, Filter, HandleRow, IsSelection, Ids;
  }

  lemma KeepsParties(w: World, step: Step)
    requires PartiesSound(w) && RowsSound(w) && LocksExclusive(w) && Can(w, step)
    ensures PartiesSound(Do(w, step)) && LocksExclusive(Do(w, step))
  {
    hide Can, Do, Grows, RowsSound, LocksExclusive, DispatchSound, DrainSound;
    var w' := Do(w, step);
    KeepsLocks(w, step);
    StepGrows(w, step);
    PartiesStaySound(w, w');
    forall h | h in w'.dispatches ensures DispatchSound(w', w'.dispatches[h]) {
      if h !in w.dispatches || w'.dispatches[h] != w.dispatches[h] {
        ChangedDispatch(w, step, h);
      }
    }
    forall h | h in w'.drains ensures DrainSound(w', w'.drains[h]) {
      if h !in w.drains || w'.drains[h] != w.drains[h] {
        ChangedDrain(w, step, h);
      }
    }
  }

  // ── Rows ────────────────────────────────────────────────────────

  /** A table whose rows had only their delivery metadata edited. */
  ghost predicate Edits(rows: seq<Row>, rows': seq<Row>) {
    |rows'| == |rows| && forall i :: 0 <= i < |rows| ==> SameRecord(rows[i], rows'[i])
  }

  lemma EditsKeepRows(w: World, w': World)
    requires RowsSound(w) && Grows(w, w') && Edits(w.rows, w'.rows)
    requires forall i :: 0 <= i < |w.rows| && w'.rows[i].publishedAt.Some? ==> w.rows[i].publishedAt.Some? || w.rows[i].eventId in w'.wire
    ensures RowsSound(w')
  {
    Wider(w, w');
  }

  lemma EditsLoseNothing(w: World, w': World)
    requires RowsSound(w') && NothingLost(w) && Grows(w, w') && w'.committed == w.committed && Edits(w.rows, w'.rows)
    ensures NothingLost(w')
  {
    Wider(w, w');
    hide Recorded, OncePerRow, UniqueEvents, Grows;
    forall id | id in w'.committed && w'.issued[id].eventId !in w'.wire ensures IsPending(w'.rows, id) {
      assert IsPending(w.rows, id);
      var r :| r in w.rows && r.id == id && r.publishedAt.None?;
      var i :| 0 <= i < |w.rows| && w.rows[i] == r;
      assert w'.rows[i] in w'.rows;
      CommittedRow(w', w'.rows[i]);
    }
  }

  lemma CommittedRow(w: World, r: Row)
    requires RowsSound(w) && r in w.rows && r.id < |w.issued| && w.issued[r.id].eventId !in w.wire
    ensures r.publishedAt.None?
  {
  }

  /** What a commit of a drain stamps, it had published. */
  lemma DrainEdits(w: World, h: Handle)
    requires RowsSound(w) && PartiesSound(w) && h in w.drains
    ensures var rows' := UpdateAll(w.rows, w.drains[h].progress.changes);
            Edits(w.rows, rows') && forall i :: 0 <= i < |w.rows| && rows'[i].publishedAt.Some? ==>
              w.rows[i].publishedAt.Some? || w.rows[i].eventId in w.wire
  {
    var d := w.drains[h];
    var rows' := UpdateAll(w.rows, d.progress.changes);
    UpdateAllKeepsRecords(w.rows, d.progress.changes);
    hide UpdateAll;
    assert DrainSound(w, d);
    forall i | 0 <= i < |w.rows| && rows'[i].publishedAt.Some? && w.rows[i].publishedAt.None?
      ensures w.rows[i].eventId in w.wire
    {
      var c :| c in d.progress.changes && c.id == w.rows[i].id && c.edit.Stamp?;
      var k :| 0 <= k < |d.progress.changes| && d.progress.changes[k] == c;
      assert d.queue[k] in d.queue && w.rows[i] in w.rows;
    }
  }

  lemma MarkEdits(w: World, h: Handle)
    requires PartiesSound(w) && h in w.dispatches && w.dispatches[h].next < |w.dispatches[h].events|
    requires w.dispatches[h].published
    ensures var rows' := StampEvent(w.rows, w.dispatches[h].events[w.dispatches[h].next], w.now);
            Edits(w.rows, rows') && forall i :: 0 <= i < |w.rows| && rows'[i].publishedAt.Some? ==>
              w.rows[i].publishedAt.Some? || w.rows[i].eventId in w.wire
  {
  }

  lemma CommitKeepsRows(w: World, h: Handle)
    requires RowsSound(w) && StagingSound(w) && Can(w, Commit(h))
    ensures RowsSound(Do(w, Commit(h)))
  {
    var staged := w.staging[h].rows;
    assert Staged(w, w.staging[h]);
    hide Recorded;
    forall r | r in staged ensures r.id in Ids(staged) {
    }
  }

  lemma {:induction false} FilterKeepsRows(w: World, w': World, keep: Row -> bool)
    requires RowsSound(w) && w' == w.(rows := Filter(keep, w.rows))
    ensures RowsSound(w')
  {
    FilterOnce(keep, w.rows);
    hide Recorded;
  }

  lemma KeepsRows(w: World, step: Step)
    requires RowsSound(w) && StagingSound(w) && PartiesSound(w) && Can(w, step)
    ensures RowsSound(Do(w, step))
  {
    var w' := Do(w, step);
    StepGrows(w, step);
    match step {
      case MarkPublished(h, _) =>
        MarkEdits(w, h);
        EditsKeepRows(w, w');
      case CommitDrain(h) =>
        DrainEdits(w, h);
        EditsKeepRows(w, w');
      case Commit(h) => CommitKeepsRows(w, h);
      case Purge(_, _, doomed) => FilterKeepsRows(w, w', (r: Row) => r.id !in doomed);
      case _ =>
        hide RowsSound, StagingSound, PartiesSound, Can;
        assert w'.rows == w.rows;
        EditsKeepRows(w, w');
    }
  }

  // ── Staged rows ─────────────────────────────────────────────────

  /** Open transactions a step does not touch stay as they were. */
  lemma OthersStayStaged(w: World, w': World)
    requires StagingSound(w) && Grows(w, w') && w'.committed == w.committed
    requires forall h :: h in w'.staging ==> h in w.staging && w'.staging[h] == w.staging[h]
    ensures StagingSound(w')
  {
    Wider(w, w');
    hide Grows, Recorded, OtherIds;
    forall h | h in w'.staging ensures Staged(w', w'.staging[h]) {
      assert Staged(w, w.staging[h]);
    }
  }

  lemma CommitKeepsStaging(w: World, h: Handle)
    requires StagingSound(w) && Can(w, Commit(h))
    ensures StagingSound(Do(w, Commit(h)))
  {
    hide Recorded, EventsUnused, Ids, OtherIds;
    var w' := Do(w, Commit(h));
    assert w'.committed == w.committed + Ids(w.staging[h].rows);
    forall k | k in w'.staging ensures Staged(w', w'.staging[k]) {
      assert Staged(w, w.staging[k]);
      NotCommitted(w, h, k);
    }
    hide Staged;
  }

  lemma NotCommitted(w: World, h: Handle, k: Handle)
    requires StagingSound(w) && h in w.staging && k in w.staging && h != k
    ensures forall r :: r in w.staging[k].rows ==> r.id !in Ids(w.staging[h].rows)
  {
    hide Staged;
  }

  lemma StaysStaged(w: World, w': World, s: Staging)
    requires Staged(w, s) && Grows(w, w') && w'.committed == w.committed
    ensures Staged(w', s)
    ensures forall r :: r in s.rows ==> r.id < |w.issued|
  {
    Wider(w, w');
  }

  /** The new row takes the next id of the sequence, above every id handed out before. */
  lemma InsertedStaged(w: World, step: Step)
    requires NothingLost(w) && step.Insert? && Can(w, step) && Staged(w, w.staging[step.h])
    ensures var w' := Do(w, step); Staged(w', w'.staging[step.h])
  {
    var w' := Do(w, step);
    var s := w.staging[step.h];
    var row := Fresh(s, |w.issued|, step.eventId, step.producer, step.valid);
    StaysStaged(w, w', s);
    assert Recorded(row, w'.issued);
    hide Recorded;
    assert w'.staging[step.h].rows == s.rows + [row];
  }

  lemma InsertKeepsStaging(w: World, step: Step)
    requires StagingSound(w) && NothingLost(w) && step.Insert? && Can(w, step)
    ensures StagingSound(Do(w, step))
  {
    var w' := Do(w, step);
    var h := step.h;
    assert Staged(w, w.staging[h]);
    InsertedStaged(w, step);
    StepGrows(w, step);
    assert w'.committed == w.committed && forall k :: k in w'.staging ==> k in w.staging && (k != h ==> w'.staging[k] == w.staging[k]);
    assert forall t :: t in w'.staging[h].rows ==> t in w.staging[h].rows || t.id == |w.issued|;
    hide NothingLost, Can, Do, Grows, Staged, OtherIds;
    forall k | k in w'.staging && k != h
      ensures Staged(w', w'.staging[k]) && OtherIds(w'.staging[k], w'.staging[h])
      ensures OtherIds(w'.staging[h], w'.staging[k])
    {
      StaysStaged(w, w', w.staging[k]);
      NewIdIsOther(w.staging[k], w.staging[h], w'.staging[h], |w.issued|);
    }
  }

  lemma NewIdIsOther(s: Staging, t: Staging, t': Staging, id: nat)
    requires OtherIds(s, t) && (forall r :: r in s.rows ==> r.id < id)
    requires forall r :: r in t'.rows ==> r in t.rows || r.id == id
    ensures OtherIds(s, t') && OtherIds(t', s)
  {
  }

  /** Apart from opening, inserting and committing, a step leaves open transactions as they are, or rolls one back. */
  lemma StagingAfter(w: World, step: Step)
    requires Can(w, step) && !step.Open? && !step.Insert? && !step.Commit?
    ensures var w' := Do(w, step);
            w'.committed == w.committed && forall h :: h in w'.staging ==> h in w.staging && w'.staging[h] == w.staging[h]
  {
    hide UpdateAll, StampEvent, HandleRow, IsSelection, Held, CommittedEvent, EventsUnused, Filter;
  }

  lemma OpenKeepsStaging(w: World, h: Handle)
    requires StagingSound(w) && Can(w, Open(h))
    ensures StagingSound(Do(w, Open(h)))
  {
    var w' := Do(w, Open(h));
    hide Recorded, Ids;
    forall k | k in w'.staging ensures Staged(w', w'.staging[k]) {
      assert k != h ==> Staged(w, w.staging[k]);
    }
    hide Staged, OtherIds;
    assert forall s :: OtherIds(s, Staging(w.now, [])) && OtherIds(Staging(w.now, []), s) by { NothingIsOther(w.now); }
  }

  lemma NothingIsOther(now: int)
    ensures forall s :: OtherIds(s, Staging(now, [])) && OtherIds(Staging(now, []), s)
  {
  }

  lemma KeepsStaging(w: World, step: Step)
    requires RowsSound(w) && StagingSound(w) && NothingLost(w) && Can(w, step)
    ensures StagingSound(Do(w, step))
  {
    hide Can, Do, RowsSound, StagingSound, NothingLost, Grows;
    StepGrows(w, step);
    match step {
      case Open(h) => OpenKeepsStaging(w, h);
      case Insert(h, _, _, _) => InsertKeepsStaging(w, step);
      case Commit(h) => CommitKeepsStaging(w, h);
      case _ =>
        StagingAfter(w, step);
        OthersStayStaged(w, Do(w, step));
    }
  }

  // ── Loss and invention ──────────────────────────────────────────

  lemma KeepsEverything(w: World, step: Step)
    requires RowsSound(w) && StagingSound(w) && PartiesSound(w) && NothingLost(w) && Can(w, step)
    ensures NothingLost(Do(w, step))
  {
    var w' := Do(w, step);
    StepGrows(w, step);
    KeepsRows(w, step);
    match step {
      case MarkPublished(h, _) =>
        MarkEdits(w, h);
        EditsLoseNothing(w, w');
      case CommitDrain(h) =>
        DrainEdits(w, h);
        EditsLoseNothing(w, w');
      case Commit(h) => CommitLosesNothing(w, h);
      case Purge(_, _, _) => PurgeLosesNothing(w, step);
      case _ =>
        hide RowsSound, StagingSound, PartiesSound, Can;
        assert w'.rows == w.rows;
        EditsLoseNothing(w, w');
    }
  }

  lemma CommitLosesNothing(w: World, h: Handle)
    requires StagingSound(w) && NothingLost(w) && Can(w, Commit(h))
    ensures NothingLost(Do(w, Commit(h)))
  {
    var staged := w.staging[h].rows;
    var w' := Do(w, Commit(h));
    assert Staged(w, w.staging[h]);
    forall id | id in w'.committed ensures id < |w'.issued| && (w'.issued[id].eventId in w'.wire || IsPending(w'.rows, id)) {
      if id in w.committed {
        if IsPending(w.rows, id) {
          var r :| r in w.rows && r.id == id && r.publishedAt.None?;
          assert r in w'.rows;
        }
      } else {
        var r :| r in staged && r.id == id;
        assert r in w'.rows;
      }
    }
  }

  lemma PurgeLosesNothing(w: World, step: Step)
    requires step.Purge? && NothingLost(w) && Can(w, step)
    ensures NothingLost(Do(w, step))
  {
    var w' := Do(w, step);
    forall id | id in w.committed && IsPending(w.rows, id) ensures IsPending(w'.rows, id) {
      var r :| r in w.rows && r.id == id && r.publishedAt.None?;
      assert r in w'.rows;
    }
  }

  lemma KeepsInvention(w: World, step: Step)
    requires PartiesSound(w) && NothingInvented(w) && Can(w, step)
    ensures NothingInvented(Do(w, step))
  {
    var w' := Do(w, step);
    StepGrows(w, step);
    Wider(w, w');
    hide Grows, Can, DispatchSound, DrainSound, CommittedEvent;
    forall e | e in w'.wire && e !in w.wire ensures CommittedEvent(w', e) {
      NewOnWire(w, step, e);
    }
  }

  lemma NewOnWire(w: World, step: Step, e: EventId)
    requires PartiesSound(w) && Can(w, step)
    requires e in Do(w, step).wire && e !in w.wire
    ensures CommittedEvent(w, e)
  {
    hide UpdateAll, StampEvent, IsSelection, Held, EventsUnused, Filter;
    match step {
      case Publish(h, _) =>
        assert DispatchSound(w, w.dispatches[h]);
        assert e == w.dispatches[h].events[w.dispatches[h].next];
      case Relay(h, _) => QueuedIsCommitted(w, h);
      case EndLost(h, _) => QueuedIsCommitted(w, h);
    }
  }

  lemma QueuedIsCommitted(w: World, h: Handle)
    requires PartiesSound(w) && h in w.drains && More(w.drains[h])
    ensures CommittedEvent(w, w.drains[h].queue[|w.drains[h].progress.changes|].eventId)
  {
    var d := w.drains[h];
    assert DrainSound(w, d);
    var q := d.queue[|d.progress.changes|];
    assert q in d.queue && w.issued[q.id].eventId == q.eventId;
  }

  // ── Every run ───────────────────────────────────────────────────

  lemma StepSound(w: World, step: Step)
    requires Sound(w) && Can(w, step)
    ensures Sound(Do(w, step))
  {
    hide Can, Do, RowsSound, StagingSound, NothingLost, NothingInvented, PartiesSound, LocksExclusive;
    KeepsParties(w, step);
    KeepsRows(w, step);
    KeepsStaging(w, step);
    KeepsEverything(w, step);
    KeepsInvention(w, step);
  }

  lemma {:induction false} EveryRunSound(w: World, steps: seq<Step>)
    requires Sound(w) && Run(w, steps)
    ensures Sound(After(w, steps)) && Grows(w, After(w, steps))
    decreases |steps|
  {
    hide Sound, Can, Do, Grows;
    if steps != [] {
      StepSound(w, steps[0]);
      StepGrows(w, steps[0]);
      EveryRunSound(Do(w, steps[0]), steps[1..]);
      GrowsTransitive(w, Do(w, steps[0]), After(w, steps));
    } else {
      GrowsTransitive(w, w, w);
    }
  }

  lemma GrowsTransitive(a: World, b: World, c: World)
    requires (a == b || Grows(a, b)) && (b == c || Grows(b, c))
    ensures Grows(a, c)
  {
  }

  lemma InitialSound(w: World)
    requires Initial(w)
    ensures Sound(w)
  {
  }

  /**
   * At least once, over every run from an empty outbox: a committed event is a pending row or has been published; a
   * stamped row has been published; a row that is gone has been published; and nothing else was.
   */
  lemma AtLeastOnce(w: World, steps: seq<Step>)
    requires Initial(w) && Run(w, steps)
    ensures var w' := After(w, steps);
            && (forall id :: id in w'.committed ==> id < |w'.issued| && (IsPending(w'.rows, id) || w'.issued[id].eventId in w'.wire))
            && (forall r :: r in w'.rows && r.publishedAt.Some? ==> r.eventId in w'.wire)
            && (forall id :: id in w'.committed && (forall r :: r in w'.rows ==> r.id != id) ==> w'.issued[id].eventId in w'.wire)
            && (forall e :: e in w'.wire ==> CommittedEvent(w', e))
  {
    InitialSound(w);
    EveryRunSound(w, steps);
    var w' := After(w, steps);
    forall id | id in w'.committed && (forall r :: r in w'.rows ==> r.id != id) ensures w'.issued[id].eventId in w'.wire {
      assert !IsPending(w'.rows, id);
    }
  }
}
