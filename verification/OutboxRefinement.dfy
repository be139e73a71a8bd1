/**
 * Every call of the dispatcher, the relay and the purge is a run of the protocol, so what holds of all runs holds of
 * them; and what one drain does, row by row.
 */
module OutboxRefinement {
  import opened OutboxTable
  import opened OutboxProtocol
  import opened OutboxSafety
  import opened OutboxOrder
  import opened OutboxRelay

  // ── drainOnce ───────────────────────────────────────────────────

  /** The world in which relay `h` has handled `n` rows of its queue, nobody else having moved. */
  function Midway(w: World, h: Handle, d: Drain, n: nat, answers: nat -> Answer): World
    requires n <= |d.queue|
  {
    var p := RelayedUpTo(d.queue, n, answers, d.at);
    w.(drains := w.drains[h := d.(progress := p)], wire := w.wire + p.sent)
  }

  lemma {:induction false} RelaySteps(w: World, h: Handle, d: Drain, n: nat, answers: nat -> Answer)
      returns (steps: seq<Step>)
    requires d.live && d.selected && d.progress == NOTHING_DONE && n <= |d.queue|
    ensures var start := Midway(w, h, d, 0, answers); Run(start, steps) && After(start, steps) == Midway(w, h, d, n, answers)
    ensures NoDispatch(steps)
  {
    var start := Midway(w, h, d, 0, answers);
    if n == 0 {
      steps := [];
    } else {
      steps := RelaySteps(w, h, d, n - 1, answers);
      var before := Midway(w, h, d, n - 1, answers);
      var p := RelayedUpTo(d.queue, n - 1, answers, d.at);
      if !p.blocked {
        OneRelay(w, h, d, n - 1, answers);
        RunThen(start, steps, Relay(h, answers(n - 1)));
        steps := steps + [Relay(h, answers(n - 1))];
      }
    }
  }

  lemma OneRelay(w: World, h: Handle, d: Drain, k: nat, answers: nat -> Answer)
    requires d.live && d.selected && k < |d.queue| && !RelayedUpTo(d.queue, k, answers, d.at).blocked
    ensures var v := Midway(w, h, d, k, answers);
            Can(v, Relay(h, answers(k))) && Do(v, Relay(h, answers(k))) == Midway(w, h, d, k + 1, answers)
  {
    var p, p' := RelayedUpTo(d.queue, k, answers, d.at), RelayedUpTo(d.queue, k + 1, answers, d.at);
    assert p' == HandleRow(p, d.queue[k], answers(k), d.at);
    assert p'.sent == p.sent + p'.sent[|p.sent|..];
    hide RelayedUpTo, HandleRow;
    var v := Midway(w, h, d, k, answers);
    assert v.drains[h].progress.changes == p.changes;
    assert v.wire + p'.sent[|p.sent|..] == w.wire + p'.sent;
    assert v.drains[h := d.(progress := p')] == Midway(w, h, d, k + 1, answers).drains;
  }

  /** A drain that holds the lock and meets no database fault: begin, select, one step per row, commit. */
  lemma DrainIsRun(w: World, h: Handle, producer: Producer, grace: nat, limit: nat, answers: nat -> Answer)
      returns (steps: seq<Step>)
    requires Sound(w) && Can(w, BeginDrain(h, producer, grace, limit))
    ensures var p := Relayed(First(limit, Backlog(w.rows, producer, w.now - grace)), answers, w.now);
            Run(w, steps) && After(w, steps) == w.(rows := UpdateAll(w.rows, p.changes), wire := w.wire + p.sent)
  {
    steps := DrainUpTo(w, h, producer, grace, limit, answers, |First(limit, Backlog(w.rows, producer, w.now - grace))|);
    hide First, Backlog, Sound, HandleRow, UpdateAll;
    var v := After(w, steps);
    assert v.drains - {h} == w.drains;
    RunThen(w, steps, CommitDrain(h));
    steps := steps + [CommitDrain(h)];
  }

  lemma QueueIsSelection(w: World, producer: Producer, cutoff: int, limit: nat)
    requires Sound(w)
    ensures IsSelection(w.rows, producer, cutoff, limit, First(limit, Backlog(w.rows, producer, cutoff)))
  {
    assert OncePerRow(w.rows);
    hide *;
    BacklogAnswersQuery(w.rows, producer, cutoff, limit);
  }

  lemma DrainUpTo(w: World, h: Handle, producer: Producer, grace: nat, limit: nat, answers: nat -> Answer,
      n: nat) returns (steps: seq<Step>)
    requires Sound(w) && Can(w, BeginDrain(h, producer, grace, limit))
    requires n <= |First(limit, Backlog(w.rows, producer, w.now - grace))|
    ensures var queue := First(limit, Backlog(w.rows, producer, w.now - grace));
            && Run(w, steps)
            && After(w, steps) == Midway(w, h, Drain(producer, w.now, w.now - grace, limit, true, true, queue, NOTHING_DONE), n, answers)
    ensures NoDispatch(steps)
  {
    hide First, Backlog, Sound, IsSelection, RelayedUpTo, Held, Can, Do;
    var queue := First(limit, Backlog(w.rows, producer, w.now - grace));
    QueueIsSelection(w, producer, w.now - grace, limit);
    var d := Drain(producer, w.now, w.now - grace, limit, true, true, queue, NOTHING_DONE);
    steps := BeginAndSelect(w, h, producer, grace, limit, queue);
    var begun := After(w, steps);
    assert begun == Midway(w, h, d, 0, answers) by { NoneRelayed(queue, answers, w.now); }
    var more := RelaySteps(w, h, d, n, answers);
    hide Midway;
    RunJoin(w, steps, more);
    steps := steps + more;
  }

  lemma BeginAndSelect(w: World, h: Handle, producer: Producer, grace: nat, limit: nat, queue: seq<Row>)
      returns (steps: seq<Step>)
    requires Can(w, BeginDrain(h, producer, grace, limit))
    requires IsSelection(w.rows, producer, w.now - grace, limit, queue)
    ensures Run(w, steps)
    ensures After(w, steps) == w.(drains := w.drains[h := Drain(producer, w.now, w.now - grace, limit, true, true, queue, NOTHING_DONE)])
    ensures NoDispatch(steps)
  {
    hide IsSelection, Held;
    var begin, choose := BeginDrain(h, producer, grace, limit), Select(h, queue);
    var begun := Do(w, begin);
    assert Can(begun, choose);
    var chosen := Do(begun, choose);
    TwoSteps(w, begin, choose);
    steps := [begin, choose];
    assert begun.drains[h := chosen.drains[h]] == w.drains[h := chosen.drains[h]];
  }

  lemma NoneRelayed(queue: seq<Row>, answers: nat -> Answer, at: int)
    ensures RelayedUpTo(queue, 0, answers, at) == NOTHING_DONE
    ensures forall wire: seq<EventId> :: wire + RelayedUpTo(queue, 0, answers, at).sent == wire
  {
  }

  /** A drain that the database fails: the rows stay, what was published stays published. */
  lemma FailedDrainIsRun(w: World, h: Handle, producer: Producer, grace: nat, limit: nat, answers: nat -> Answer,
      fault: nat) returns (steps: seq<Step>)
    requires Sound(w) && Can(w, BeginDrain(h, producer, grace, limit))
    ensures var queue := First(limit, Backlog(w.rows, producer, w.now - grace));
            Run(w, steps) && After(w, steps) == w.(wire := w.wire + RelayedUpTo(queue, Reached(queue, fault), answers, w.now).sent)
  {
    var queue := First(limit, Backlog(w.rows, producer, w.now - grace));
    var n := Reached(queue, fault);
    steps := DrainUpTo(w, h, producer, grace, limit, answers, n);
    var d := Drain(producer, w.now, w.now - grace, limit, true, true, queue, NOTHING_DONE);
    var v := After(w, steps);
    assert v.drains[h].live && v.drains - {h} == w.drains && v.rows == w.rows by { hide First, Backlog, Sound, RelayedUpTo; }
    var more := Crash(v, h);
    hide *;
    RunJoin(w, steps, more);
    steps := steps + more;
  }

  /** The relay's connection is lost between two statements. */
  lemma Crash(v: World, h: Handle) returns (steps: seq<Step>)
    requires h in v.drains && v.drains[h].live
    ensures Run(v, steps) && After(v, steps) == v.(drains := v.drains - {h})
  {
    var lose, end := LoseDrain(h), EndLost(h, false);
    var lost := Do(v, lose);
    assert lost.drains - {h} == v.drains - {h};
    TwoSteps(v, lose, end);
    steps := [lose, end];
  }

  // ── What one drain does ─────────────────────────────────────────

  function EventsOf(rows: seq<Row>): (r: seq<EventId>)
    ensures forall e :: e in r <==> exists k :: 0 <= k < |rows| && rows[k].eventId == e
  {
    if rows == [] then [] else EventsOf(rows[..|rows| - 1]) + [rows[|rows| - 1].eventId]
  }

  function ValidOnes(rows: seq<Row>): (r: seq<Row>)
    ensures |r| <= |rows|
  {
    if rows == [] then []
    else if rows[|rows| - 1].valid then ValidOnes(rows[..|rows| - 1]) + [rows[|rows| - 1]]
    else ValidOnes(rows[..|rows| - 1])
  }

  /**
   * Relayed order is queue order: a drain has sent the valid rows of the part of its queue it got through, in that
   * order, and stopped behind the first refusal; only that last one may not have arrived.
   */
  lemma {:induction false} DrainSendsInQueueOrder(queue: seq<Row>, n: nat, answers: nat -> Answer, at: int)
    requires n <= |queue|
    ensures var p := RelayedUpTo(queue, n, answers, at);
            var m := |p.changes|;
            && (p.blocked ==> m > 0 && queue[m - 1].valid && answers(m - 1).Refused?)
            && (!p.blocked ==> p.sent == EventsOf(ValidOnes(queue[..m])) && p.published == |p.sent|)
            && (p.blocked ==> p.sent == EventsOf(ValidOnes(queue[..m - 1])) + Arrived(queue[m - 1].eventId, answers(m - 1))
                              && p.published == |EventsOf(ValidOnes(queue[..m - 1]))|)
            && (forall k :: 0 <= k < m && queue[k].valid && !(p.blocked && k == m - 1) ==> answers(k).Delivered?)
  {
    hide EventsOf, ValidOnes;
    if n == 0 {
      NoneValid(queue);
    } else {
      DrainSendsInQueueOrder(queue, n - 1, answers, at);
      var p := RelayedUpTo(queue, n - 1, answers, at);
      hide RelayedUpTo;
      if p.blocked {
        BlockedStays(queue, n - 1, n, answers, at);
      } else {
        var row := queue[n - 1];
        HandledRow(queue, n - 1, answers, at,
                   if !row.valid then Note(INVALID_ENVELOPE) else if answers(n - 1).Delivered? then Stamp(at) else Note(answers(n - 1).error));
        OneMore(queue, n);
      }
    }
  }

  /**
   * A row the drain got to is stamped exactly when it is valid and its publish was acknowledged; an invalid or refused
   * one keeps a note of why. Rows behind the first refusal are not touched.
   */
  lemma {:induction false} DrainMarksRows(queue: seq<Row>, n: nat, answers: nat -> Answer, at: int)
    requires n <= |queue|
    ensures var p := RelayedUpTo(queue, n, answers, at);
            && (p.blocked <==> exists k :: 0 <= k < n && queue[k].valid && answers(k).Refused?)
            && forall k :: 0 <= k < |p.changes| ==>
                 && p.changes[k].id == queue[k].id
                 && (p.changes[k].edit == Stamp(at) <==> queue[k].valid && answers(k).Delivered?)
                 && (!queue[k].valid ==> p.changes[k].edit == Note(INVALID_ENVELOPE))
                 && (queue[k].valid && answers(k).Refused? ==> p.changes[k].edit == Note(answers(k).error) && k == |p.changes| - 1)
  {
    hide INVALID_ENVELOPE;
    if n > 0 {
      DrainMarksRows(queue, n - 1, answers, at);
    }
  }

  lemma NoneValid(queue: seq<Row>)
    ensures EventsOf(ValidOnes(queue[..0])) == []
  {
  }

  lemma OneMore(queue: seq<Row>, n: nat)
    requires 0 < n <= |queue|
    ensures EventsOf(ValidOnes(queue[..n])) == EventsOf(ValidOnes(queue[..n - 1])) + (if queue[n - 1].valid then [queue[n - 1].eventId] else [])
    ensures |EventsOf(ValidOnes(queue[..n]))| == |EventsOf(ValidOnes(queue[..n - 1]))| + (if queue[n - 1].valid then 1 else 0)
  {
    assert queue[..n][..n - 1] == queue[..n - 1];
    var before := ValidOnes(queue[..n - 1]);
    assert (before + [queue[n - 1]])[..|before|] == before;
  }

  // ── dispatch ────────────────────────────────────────────────────

  /** A clock that does not go back, and starts no earlier than the world. */
  predicate Onward(clock: nat -> int, now: int, n: nat) {
    (forall k :: 0 <= k < n ==> now <= clock(k)) && forall i, k :: 0 <= i <= k < n ==> clock(i) <= clock(k)
  }

  function ClockAt(w: World, clock: nat -> int, n: nat): int {
    if n == 0 then w.now else clock(n - 1)
  }

  function MidDispatch(w: World, h: Handle, events: seq<EventId>, n: nat, answers: nat -> Answer,
      stamps: nat -> bool, clock: nat -> int): World
    requires n <= |events|
  {
    var d := DispatchedUpTo(w.rows, events, n, answers, stamps, clock);
    w.(now := ClockAt(w, clock, n), rows := d.rows, wire := w.wire + d.sent,
       dispatches := if d.stopped then w.dispatches - {h} else w.dispatches[h := Dispatch(events, n, false)])
  }

  /** No live relay holds a row of these events. */
  ghost predicate Unheld(w: World, events: seq<EventId>) {
    forall r :: r in w.rows && r.eventId in events ==> !Held(w, r)
  }

  /** Stamps change no id and no event: what was not held stays so. */
  lemma StampsKeepUnheld(w: World, rows: seq<Row>, e: EventId, at: int, events: seq<EventId>)
    requires Unheld(w.(rows := rows), events)
    ensures Unheld(w.(rows := StampEvent(rows, e, at)), events)
  {
    var stamped := StampEvent(rows, e, at);
    forall r | r in stamped && r.eventId in events ensures !Held(w.(rows := stamped), r) {
      var i :| 0 <= i < |stamped| && stamped[i] == r;
      SameHeld(w, rows, stamped, rows[i], r);
    }
  }

  lemma SameHeld(w: World, rows: seq<Row>, rows': seq<Row>, r: Row, r': Row)
    requires r in rows && r.id == r'.id && r.eventId == r'.eventId
    ensures Held(w.(rows := rows'), r') <==> Held(w.(rows := rows), r)
  {
  }

  lemma {:induction false} DispatchedUnheld(w: World, events: seq<EventId>, n: nat, answers: nat -> Answer,
      stamps: nat -> bool, clock: nat -> int)
    requires n <= |events| && Unheld(w, events)
    ensures Unheld(w.(rows := DispatchedUpTo(w.rows, events, n, answers, stamps, clock).rows), events)
  {
    hide Unheld, StampEvent;
    if n > 0 {
      DispatchedUnheld(w, events, n - 1, answers, stamps, clock);
      var rows := DispatchedUpTo(w.rows, events, n - 1, answers, stamps, clock).rows;
      StampsKeepUnheld(w, rows, events[n - 1], clock(n - 1), events);
    } else {
      assert w.(rows := w.rows) == w;
    }
  }

  /** What holds a row depends on the relays alone. */
  lemma UnheldElsewhere(w: World, v: World, events: seq<EventId>)
    requires Unheld(w, events) && v.rows == w.rows && v.drains == w.drains
    ensures Unheld(v, events)
  {
  }

  lemma OneDispatch(w: World, h: Handle, events: seq<EventId>, k: nat, answers: nat -> Answer,
      stamps: nat -> bool, clock: nat -> int) returns (steps: seq<Step>)
    requires k < |events| && !DispatchedUpTo(w.rows, events, k, answers, stamps, clock).stopped
    requires Unheld(w, events) && Onward(clock, w.now, |events|)
    ensures var v := MidDispatch(w, h, events, k, answers, stamps, clock);
            Run(v, steps) && After(v, steps) == MidDispatch(w, h, events, k + 1, answers, stamps, clock)
  {
    var v, v' := MidDispatch(w, h, events, k, answers, stamps, clock), MidDispatch(w, h, events, k + 1, answers, stamps, clock);
    var d, d' := DispatchedUpTo(w.rows, events, k, answers, stamps, clock), DispatchedUpTo(w.rows, events, k + 1, answers, stamps, clock);
    assert d'.sent == d.sent + Arrived(events[k], answers(k));
    assert d'.rows == if answers(k).Delivered? && stamps(k) then StampEvent(d.rows, events[k], clock(k)) else d.rows;
    DispatchedUnheld(w, events, k, answers, stamps, clock);
    UnheldElsewhere(w.(rows := d.rows), v.(now := clock(k)), events);
    hide DispatchedUpTo, StampEvent, Unheld;
    assert v.wire + Arrived(events[k], answers(k)) == v'.wire;
    assert v.now <= clock(k);
    var tick, late := Tick(clock(k)), v.(now := clock(k));
    if answers(k).Refused? {
      assert v.dispatches - {h} == v'.dispatches;
      TwoSteps(v, tick, Publish(h, answers(k)));
      steps := [tick, Publish(h, answers(k))];
    } else {
      assert v.dispatches[h] == Dispatch(events, k, false) && v'.dispatches == v.dispatches[h := Dispatch(events, k + 1, false)];
      OneStep(v, tick);
      assert After(v, [tick]) == late;
      hide MidDispatch, Onward;
      var more := PublishAndMark(late, h, events, k, stamps(k));
      RunJoin(v, [tick], more);
      steps := [tick] + more;
    }
  }

  lemma PublishAndMark(v: World, h: Handle, events: seq<EventId>, k: nat, stamp: bool) returns (steps: seq<Step>)
    requires k < |events| && h in v.dispatches && v.dispatches[h] == Dispatch(events, k, false) && Unheld(v, events)
    ensures Run(v, steps)
    ensures After(v, steps) == v.(rows := if stamp then StampEvent(v.rows, events[k], v.now) else v.rows,
                                  wire := v.wire + [events[k]], dispatches := v.dispatches[h := Dispatch(events, k + 1, false)])
  {
    hide StampEvent;
    var publish, mark := Publish(h, Delivered), MarkPublished(h, stamp);
    var sent := Do(v, publish);
    UnheldElsewhere(v, sent, events);
    assert Can(sent, mark) by { hide Held; }
    assert Do(sent, mark).dispatches == v.dispatches[h := Dispatch(events, k + 1, false)];
    hide Unheld;
    TwoSteps(v, publish, mark);
    steps := [publish, mark];
  }

  lemma {:induction false} DispatchSteps(w: World, h: Handle, events: seq<EventId>, n: nat, answers: nat -> Answer,
      stamps: nat -> bool, clock: nat -> int) returns (steps: seq<Step>)
    requires n <= |events| && Unheld(w, events) && Onward(clock, w.now, |events|)
    ensures var v := MidDispatch(w, h, events, 0, answers, stamps, clock);
            Run(v, steps) && After(v, steps) == MidDispatch(w, h, events, n, answers, stamps, clock)
  {
    hide Unheld, Onward, MidDispatch, Can, Do;
    var v := MidDispatch(w, h, events, 0, answers, stamps, clock);
    if n == 0 {
      steps := [];
    } else {
      steps := DispatchSteps(w, h, events, n - 1, answers, stamps, clock);
      var more := NextDispatch(w, h, events, n - 1, answers, stamps, clock);
      RunJoin(v, steps, more);
      steps := steps + more;
    }
  }

  /** Once the dispatch has stopped, only time passes. */
  lemma NextDispatch(w: World, h: Handle, events: seq<EventId>, k: nat, answers: nat -> Answer,
      stamps: nat -> bool, clock: nat -> int) returns (steps: seq<Step>)
    requires k < |events| && Unheld(w, events) && Onward(clock, w.now, |events|)
    ensures var v := MidDispatch(w, h, events, k, answers, stamps, clock);
            Run(v, steps) && After(v, steps) == MidDispatch(w, h, events, k + 1, answers, stamps, clock)
  {
    if DispatchedUpTo(w.rows, events, k, answers, stamps, clock).stopped {
      var v := MidDispatch(w, h, events, k, answers, stamps, clock);
      steps := [Tick(clock(k))];
      OneStep(v, Tick(clock(k)));
      hide StampEvent, Unheld;
    } else {
      steps := OneDispatch(w, h, events, k, answers, stamps, clock);
    }
  }

  /** A dispatch of durable events whose rows no live relay holds, the clock moving on as it likes. */
  lemma DispatchIsRun(w: World, h: Handle, events: seq<EventId>, answers: nat -> Answer, stamps: nat -> bool,
      clock: nat -> int) returns (steps: seq<Step>)
    requires Can(w, StartDispatch(h, events)) && Unheld(w, events) && Onward(clock, w.now, |events|)
    ensures var d := DispatchedUpTo(w.rows, events, |events|, answers, stamps, clock);
            Run(w, steps) && After(w, steps) == w.(now := ClockAt(w, clock, |events|), rows := d.rows, wire := w.wire + d.sent)
  {
    var start := StartDispatch(h, events);
    var more := DispatchSteps(w, h, events, |events|, answers, stamps, clock);
    hide StampEvent, Unheld, Onward;
    var begun := Do(w, start);
    assert begun == MidDispatch(w, h, events, 0, answers, stamps, clock) by { assert w.wire + [] == w.wire; }
    hide DispatchedUpTo, CommittedEvent;
    var v := After(begun, more);
    steps := [start] + more;
    assert steps[1..] == more;
    assert Run(w, steps) && After(w, steps) == v;
    if h in v.dispatches {
      RunThen(w, steps, StopDispatch(h));
      steps := steps + [StopDispatch(h)];
      assert v.dispatches - {h} == w.dispatches;
    } else {
      assert v.dispatches == w.dispatches;
    }
  }

  // ── purge ───────────────────────────────────────────────────────

  /** The rows a purge picks are stamped ones of the producer, past retention: deleting them is a protocol step. */
  lemma PurgeIsStep(w: World, producer: Producer, retention: nat)
    requires Sound(w)
    ensures var step := Purge(producer, retention, Ids(Doomed(w.rows, producer, w.now - retention)));
            Can(w, step) && forall r :: r in w.rows && r !in Do(w, step).rows ==> r.publishedAt.Some? && r.eventId in w.wire
  {
    hide *;
    DoomedIsExpired(w, producer, w.now - retention);
    PublishedRows(w);
    PurgeOfExpired(w, producer, retention, Ids(Doomed(w.rows, producer, w.now - retention)));
  }

  lemma DoomedIsExpired(w: World, producer: Producer, before: int)
    requires Sound(w)
    ensures var doomed := Doomed(w.rows, producer, before);
            |Ids(doomed)| <= PURGE_BATCH && forall r :: r in w.rows && r.id in Ids(doomed) ==> Expired(r, producer, before)
  {
    assert RowsSound(w);
    DoomedAnswersQuery(w.rows, producer, before);
    hide Sound, RowsSound, Doomed, Ids, Expired;
    IdsCount(Doomed(w.rows, producer, before));
  }

  lemma PurgeOfExpired(w: World, producer: Producer, retention: nat, ids: set<nat>)
    requires |ids| <= PURGE_BATCH && forall r :: r in w.rows && r.id in ids ==> Expired(r, producer, w.now - retention)
    ensures var step := Purge(producer, retention, ids);
            Can(w, step) && forall r :: r in w.rows && r !in Do(w, step).rows ==> r.publishedAt.Some?
  {
    PurgedAre(w.rows, ids);
    hide Filter;
  }

  lemma PublishedRows(w: World)
    requires Sound(w)
    ensures forall r :: r in w.rows && r.publishedAt.Some? ==> r.eventId in w.wire
  {
    assert RowsSound(w);
    hide Sound, Recorded;
  }

  lemma PurgedAre(rows: seq<Row>, ids: set<nat>)
    ensures forall r :: r in rows && r !in Filter((r: Row) => r.id !in ids, rows) ==> r.id in ids
  {
  }
}
