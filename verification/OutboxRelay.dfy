/**
 * PgOutboxDispatcher and PgOutboxRelay, statement by statement, over a table and a transport they change. The answers
 * of the transport and the faults of the database are parameters: a call is proved for all of them.
 */
module OutboxRelay {
  import opened Wrappers
  import opened OutboxTable
  import opened OutboxProtocol

  class Database {
    var rows: seq<Row>

    constructor (rows: seq<Row>)
      ensures this.rows == rows
    {
      this.rows := rows;
    }

    /** UPDATE ... WHERE id = `id`. */
    method UpdateRow(id: nat, edit: Edit)
      modifies this
      ensures rows == Update(old(rows), Change(id, edit))
    {
      rows := Update(rows, Change(id, edit));
    }
  }

  class Transport {
    var wire: seq<EventId>

    constructor ()
      ensures wire == []
    {
      wire := [];
    }

    /** `publish`: false stands for the exception. */
    method Publish(e: EventId, answer: Answer) returns (ok: bool)
      modifies this
      ensures wire == old(wire) + Arrived(e, answer)
      ensures ok <==> answer.Delivered?
    {
      wire := wire + Arrived(e, answer);
      ok := answer.Delivered?;
    }
  }

  // ── What the two loops compute ──────────────────────────────────

  /** A drain's progress after the first `n` rows of its queue; `answers(k)` is the transport's answer for row `k`. */
  function RelayedUpTo(queue: seq<Row>, n: nat, answers: nat -> Answer, at: int): (p: Progress)
    requires n <= |queue|
    ensures |p.changes| <= n && (!p.blocked ==> |p.changes| == n)
  {
    if n == 0 then NOTHING_DONE
    else
      var p := RelayedUpTo(queue, n - 1, answers, at);
      if p.blocked then p else HandleRow(p, queue[n - 1], answers(n - 1), at)
  }

  function Relayed(queue: seq<Row>, answers: nat -> Answer, at: int): Progress {
    RelayedUpTo(queue, |queue|, answers, at)
  }

  /** Where a drain that fails at its `fault`-th UPDATE, or at COMMIT, had got to. */
  function Reached(queue: seq<Row>, fault: nat): nat {
    if fault < |queue| then fault + 1 else |queue|
  }

  datatype Dispatching = Dispatching(rows: seq<Row>, sent: seq<EventId>, stopped: bool)

  /**
   * A dispatch after its first `n` events; `stamps(k)` says whether the k-th markPublished succeeds, `clock(k)` is its
   * now().
   */
  function DispatchedUpTo(rows: seq<Row>, events: seq<EventId>, n: nat, answers: nat -> Answer, stamps: nat -> bool,
      clock: nat -> int): (d: Dispatching)
    requires n <= |events|
    ensures |d.rows| == |rows|
  {
    if n == 0 then Dispatching(rows, [], false)
    else
      var d := DispatchedUpTo(rows, events, n - 1, answers, stamps, clock);
      if d.stopped then d
      else
        var e := events[n - 1];
        var sent := d.sent + Arrived(e, answers(n - 1));
        if answers(n - 1).Refused? then Dispatching(d.rows, sent, true)
        else Dispatching(if stamps(n - 1) then StampEvent(d.rows, e, clock(n - 1)) else d.rows, sent, false)
  }

  // ── PgOutboxDispatcher ──────────────────────────────────────────

  /** `dispatch`: publish and stamp in order, and stop at the first refusal. */
  method Dispatch(db: Database, bus: Transport, events: seq<EventId>, answers: nat -> Answer, stamps: nat -> bool,
      clock: nat -> int)
    modifies db, bus
    ensures var d := DispatchedUpTo(old(db.rows), events, |events|, answers, stamps, clock);
            db.rows == d.rows && bus.wire == old(bus.wire) + d.sent
  {
    var i := 0;
    while i < |events|
      invariant i <= |events|
      invariant var d := DispatchedUpTo(old(db.rows), events, i, answers, stamps, clock);
                !d.stopped && db.rows == d.rows && bus.wire == old(bus.wire) + d.sent
    {
      var ok := bus.Publish(events[i], answers(i));
      if !ok {
        StoppedStays(old(db.rows), events, i + 1, |events|, answers, stamps, clock);
        return;
      }
      if stamps(i) {
        db.rows := StampEvent(db.rows, events[i], clock(i));
      }
      i := i + 1;
    }
  }

  lemma {:induction false} StoppedStays(rows: seq<Row>, events: seq<EventId>, m: nat, n: nat, answers: nat -> Answer,
      stamps: nat -> bool, clock: nat -> int)
    requires m <= n <= |events| && DispatchedUpTo(rows, events, m, answers, stamps, clock).stopped
    ensures DispatchedUpTo(rows, events, n, answers, stamps, clock) == DispatchedUpTo(rows, events, m, answers, stamps, clock)
  {
    if m < n {
      StoppedStays(rows, events, m, n - 1, answers, stamps, clock);
    }
  }

  // ── PgOutboxRelay ───────────────────────────────────────────────

  datatype DrainResult = DrainResult(published: nat, blocked: bool)

  const PURGE_EVERY_MS: int := 3_600_000
  const DAY_MS: int := 86_400_000

  lemma {:induction false} BlockedStays(queue: seq<Row>, m: nat, n: nat, answers: nat -> Answer, at: int)
    requires m <= n <= |queue| && RelayedUpTo(queue, m, answers, at).blocked
    ensures RelayedUpTo(queue, n, answers, at) == RelayedUpTo(queue, m, answers, at)
  {
    if m < n {
      BlockedStays(queue, m, n - 1, answers, at);
    }
  }

  lemma UpdateAllSnoc(rows: seq<Row>, changes: seq<Change>, c: Change)
    ensures UpdateAll(rows, changes + [c]) == Update(UpdateAll(rows, changes), c)
  {
    assert (changes + [c])[..|changes|] == changes;
  }

  predicate Expired(r: Row, producer: Producer, before: int) {
    r.producer == producer && r.publishedAt.Some? && r.publishedAt.value < before
  }

  function Doomed(rows: seq<Row>, producer: Producer, before: int): seq<Row> {
    First(PURGE_BATCH, Sorting.Sort(ById, Filter((r: Row) => Expired(r, producer, before), rows)))
  }

  /** What a purge deletes: the oldest expired rows by id, and a later one only if the batch has no room for it. */
  lemma DoomedAnswersQuery(rows: seq<Row>, producer: Producer, before: int)
    requires OncePerRow(rows)
    ensures FirstById((r: Row) => Expired(r, producer, before), rows, PURGE_BATCH, Doomed(rows, producer, before))
    ensures forall r :: r in rows ==> (r.id in Ids(Doomed(rows, producer, before)) <==> r in Doomed(rows, producer, before))
  {
    hide Expired, First, Sorting.Sort, Filter;
    CutAnswersQuery((r: Row) => Expired(r, producer, before), rows, PURGE_BATCH);
    var doomed := Doomed(rows, producer, before);
    hide Doomed;
    forall r | r in rows && r.id in Ids(doomed) ensures r in doomed {
      var q :| q in doomed && q.id == r.id;
      assert q in rows;
    }
  }

  class Relay {
    const db: Database
    const bus: Transport
    const producer: Producer
    const batchSize: nat
    const graceMs: nat
    const retentionDays: nat
    var lastPurgeAt: int

    constructor (db: Database, bus: Transport, producer: Producer, batchSize: nat, graceMs: nat, retentionDays: nat)
      ensures this.db == db && this.bus == bus && this.producer == producer && this.batchSize == batchSize
      ensures this.graceMs == graceMs && this.retentionDays == retentionDays && lastPurgeAt == 0
    {
      this.db, this.bus, this.producer, this.batchSize := db, bus, producer, batchSize;
      this.graceMs, this.retentionDays, this.lastPurgeAt := graceMs, retentionDays, 0;
    }

    function Queue(rows: seq<Row>, now: int): seq<Row> {
      First(batchSize, Backlog(rows, producer, now - graceMs))
    }

    /**
     * `drainOnce`. With a `fault`, the UPDATE of that number throws, or the COMMIT when there is none: the transaction
     * is rolled back and None stands for the exception; what was published stays published.
     */
    method DrainOnce(locked: bool, now: int, answers: nat -> Answer, fault: Option<nat>)
        returns (r: Option<DrainResult>)
      modifies db, bus
      ensures !locked ==> r == Some(DrainResult(0, false)) && db.rows == old(db.rows) && bus.wire == old(bus.wire)
      ensures locked && fault.None? ==>
                var p := Relayed(Queue(old(db.rows), now), answers, now);
                && r == Some(DrainResult(p.published, p.blocked))
                && db.rows == UpdateAll(old(db.rows), p.changes) && bus.wire == old(bus.wire) + p.sent
      ensures locked && fault.Some? ==>
                var queue := Queue(old(db.rows), now);
                && r == None && db.rows == old(db.rows)
                && bus.wire == old(bus.wire) + RelayedUpTo(queue, Reached(queue, fault.value), answers, now).sent
    {
      hide HandleRow, Backlog, First, Update, INVALID_ENVELOPE, RelayedUpTo, UpdateAll;
      if !locked {
        return Some(DrainResult(0, false));
      }
      var before := db.rows;
      var rows := Queue(before, now);
      var published := 0;
      var i := 0;
      NothingRelayed(rows, answers, now, before);
      while i < |rows|
        invariant i <= |rows| && (fault.Some? ==> i <= fault.value)
        invariant var p := RelayedUpTo(rows, i, answers, now);
                  !p.blocked && published == p.published && db.rows == UpdateAll(before, p.changes) && bus.wire == old(bus.wire) + p.sent
      {
        var row := rows[i];
        var edit: Edit;
        var blocked := false;
        if !row.valid {
          edit := Note(INVALID_ENVELOPE);
        } else {
          var ok := bus.Publish(row.eventId, answers(i));
          if ok {
            edit := Stamp(now);
            published := published + 1;
          } else {
            edit := Note(answers(i).error);
            blocked := true;
          }
        }
        HandledRow(rows, i, answers, now, edit);
        if fault == Some(i) {
          db.rows := before;
          return None;
        }
        UpdateAllSnoc(before, RelayedUpTo(rows, i, answers, now).changes, Change(row.id, edit));
        db.UpdateRow(row.id, edit);
        if blocked {
          BlockedStays(rows, i + 1, |rows|, answers, now);
          if fault.Some? {
            BlockedStays(rows, i + 1, Reached(rows, fault.value), answers, now);
            db.rows := before;
            return None;
          }
          return Some(DrainResult(published, true));
        }
        i := i + 1;
      }
      if fault.Some? {
        db.rows := before;
        return None;
      }
      return Some(DrainResult(published, false));
    }

    /** `#purgeIfDue`, by the process clock `clock` and the database clock `now`. */
    method PurgeIfDue(clock: int, now: int)
      modifies this`lastPurgeAt, db
      ensures var due := clock - old(lastPurgeAt) >= PURGE_EVERY_MS;
              && lastPurgeAt == (if due then clock else old(lastPurgeAt))
              && db.rows == if due then Filter((r: Row) => r.id !in Ids(Doomed(old(db.rows), producer, now - retentionDays * DAY_MS)), old(db.rows))
                            else old(db.rows)
    {
      if clock - lastPurgeAt < PURGE_EVERY_MS {
        return;
      }
      lastPurgeAt := clock;
      var doomed := Ids(Doomed(db.rows, producer, now - retentionDays * DAY_MS));
      db.rows := Filter((r: Row) => r.id !in doomed, db.rows);
    }
  }

  lemma NothingRelayed(queue: seq<Row>, answers: nat -> Answer, at: int, rows: seq<Row>)
    ensures RelayedUpTo(queue, 0, answers, at) == NOTHING_DONE && UpdateAll(rows, NOTHING_DONE.changes) == rows
  {
  }

  /** One more row handled: the change the loop body makes is the one of the specification. */
  lemma HandledRow(queue: seq<Row>, i: nat, answers: nat -> Answer, at: int, edit: Edit)
    requires i < |queue| && !RelayedUpTo(queue, i, answers, at).blocked
    requires edit == if !queue[i].valid then Note(INVALID_ENVELOPE)
                     else if answers(i).Delivered? then Stamp(at) else Note(answers(i).error)
    ensures var p, p' := RelayedUpTo(queue, i, answers, at), RelayedUpTo(queue, i + 1, answers, at);
            && p'.changes == p.changes + [Change(queue[i].id, edit)]
            && p'.sent == p.sent + (if queue[i].valid then Arrived(queue[i].eventId, answers(i)) else [])
            && p'.published == p.published + (if edit.Stamp? then 1 else 0)
            && (p'.blocked <==> queue[i].valid && answers(i).Refused?)
  {
    hide INVALID_ENVELOPE;
  }
}
