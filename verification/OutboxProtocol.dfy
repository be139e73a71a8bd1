/**
 * The outbox as a protocol: callers stage events inside transactions, dispatchers publish after commit, relays
 * drain under a lock, a purge deletes old rows, and any of them can stop at any point. One step is one statement
 * or one publish; steps of different parties interleave freely.
 */
module OutboxProtocol {
  import opened Wrappers
  import opened OutboxTable

  type Handle = int

  /** What the transport answers. A refusal may hide a delivery: the acknowledgement got lost. */
  datatype Answer = Delivered | Refused(error: string, arrived: bool)

  const INVALID_ENVELOPE: string := "stored payload is not a valid USRP event envelope"

  // ── drainOnce, one row at a time ────────────────────────────────

  /** What a relay transaction has done so far: one change per row of its queue that it has handled. */
  datatype Progress = Progress(changes: seq<Change>, sent: seq<EventId>, published: nat, blocked: bool)

  function Arrived(e: EventId, answer: Answer): seq<EventId> {
    if answer.Delivered? || answer.arrived then [e] else []
  }

  function HandleRow(p: Progress, row: Row, answer: Answer, at: int): Progress {
    if !row.valid then p.(changes := p.changes + [Change(row.id, Note(INVALID_ENVELOPE))])
    else
      match answer
      case Delivered =>
        p.(changes := p.changes + [Change(row.id, Stamp(at))], sent := p.sent + [row.eventId], published := p.published + 1)
      case Refused(error, _) =>
        p.(changes := p.changes + [Change(row.id, Note(error))], sent := p.sent + Arrived(row.eventId, answer), blocked := true)
  }

  const NOTHING_DONE: Progress := Progress([], [], 0, false)

  // ── The world ───────────────────────────────────────────────────

  /** A caller's open transaction. created_at defaults to now(), which is the transaction's start. */
  datatype Staging = Staging(startedAt: int, rows: seq<Row>)

  /**
   * A running dispatch: `next` events are done with; `published` says the one at `next` is out and waits for its
   * stamp.
   */
  datatype Dispatch = Dispatch(events: seq<EventId>, next: nat, published: bool)

  /**
   * A relay transaction: now() was `at` and the cutoff at `at - grace` when it began. Once its connection is lost it
   * is no longer live: its changes are gone and its locks free, but a publish already under way can still arrive.
   */
  datatype Drain = Drain(producer: Producer, at: int, cutoff: int, limit: nat, live: bool, selected: bool, queue: seq<Row>, progress: Progress)

  /**
   * `issued` is the id sequence: the row as first inserted, for every id ever handed out, committed or not.
   * `committed` are the ids whose inserting transaction committed. `wire` is everything that reached the transport.
   */
  datatype World = World(
    now: int,
    rows: seq<Row>,
    staging: map<Handle, Staging>,
    dispatches: map<Handle, Dispatch>,
    drains: map<Handle, Drain>,
    issued: seq<Row>,
    committed: set<nat>,
    wire: seq<EventId>)

  datatype Step =
    | Tick(to: int)
    | Open(h: Handle)
    | Insert(h: Handle, eventId: EventId, producer: Producer, valid: bool)
    | Commit(h: Handle)
    | Rollback(h: Handle)
    | StartDispatch(h: Handle, events: seq<EventId>)
    | Publish(h: Handle, answer: Answer)
    | MarkPublished(h: Handle, done: bool)
    | StopDispatch(h: Handle)
    | BeginDrain(h: Handle, producer: Producer, grace: nat, limit: nat)
    | Select(h: Handle, queue: seq<Row>)
    | Relay(h: Handle, answer: Answer)
    | CommitDrain(h: Handle)
    | LoseDrain(h: Handle)
    | EndLost(h: Handle, arrived: bool)
    | Purge(producer: Producer, retention: nat, doomed: set<nat>)

  const PURGE_BATCH: nat := 5000

  function Fresh(s: Staging, id: nat, eventId: EventId, producer: Producer, valid: bool): Row {
    Row(id, eventId, producer, valid, s.startedAt, None, 0, None)
  }

  /** The UNIQUE constraint on event_id: no two staged rows share one, and none is in the table. */
  predicate EventsUnused(w: World, staged: seq<Row>) {
    && (forall i, j :: 0 <= i < j < |staged| ==> staged[i].eventId != staged[j].eventId)
    && (forall a, b :: a in staged && b in w.rows ==> a.eventId != b.eventId)
  }

  ghost predicate CommittedEvent(w: World, e: EventId) {
    exists id :: id in w.committed && id < |w.issued| && w.issued[id].eventId == e
  }

  /** FOR UPDATE: a live relay transaction holds the rows of its queue. */
  predicate Held(w: World, row: Row) {
    exists h :: h in w.drains && w.drains[h].live && exists q :: q in w.drains[h].queue && q.id == row.id
  }

  predicate More(d: Drain) {
    d.selected && !d.progress.blocked && |d.progress.changes| < |d.queue|
  }

  ghost predicate Can(w: World, step: Step) {
    match step
    case Tick(to) => w.now <= to
    case Open(h) => h !in w.staging
    case Insert(h, _, _, _) => h in w.staging
    case Commit(h) => h in w.staging && EventsUnused(w, w.staging[h].rows)
    case Rollback(h) => h in w.staging
    case StartDispatch(h, events) => h !in w.dispatches && forall e :: e in events ==> CommittedEvent(w, e)
    case Publish(h, _) => h in w.dispatches && w.dispatches[h].next < |w.dispatches[h].events| && !w.dispatches[h].published
    case MarkPublished(h, done) =>
      && h in w.dispatches && w.dispatches[h].next < |w.dispatches[h].events| && w.dispatches[h].published
      && (done ==> forall r :: r in w.rows && r.eventId == w.dispatches[h].events[w.dispatches[h].next] ==> !Held(w, r))
    case StopDispatch(h) => h in w.dispatches
    case BeginDrain(h, producer, _, _) =>
      h !in w.drains && forall k :: k in w.drains && w.drains[k].live ==> w.drains[k].producer != producer
    case Select(h, queue) =>
      h in w.drains && var d := w.drains[h]; d.live && !d.selected && IsSelection(w.rows, d.producer, d.cutoff, d.limit, queue)
    case Relay(h, _) => h in w.drains && w.drains[h].live && More(w.drains[h])
    case CommitDrain(h) => h in w.drains && w.drains[h].live && w.drains[h].selected && !More(w.drains[h])
    case LoseDrain(h) => h in w.drains && w.drains[h].live
    case EndLost(h, _) => h in w.drains && !w.drains[h].live
    case Purge(producer, retention, doomed) =>
      && |doomed| <= PURGE_BATCH
      && forall r :: r in w.rows && r.id in doomed ==>
           r.producer == producer && r.publishedAt.Some? && r.publishedAt.value < w.now - retention
  }

  function Do(w: World, step: Step): World
    requires Can(w, step)
  {
    match step
    case Tick(to) => w.(now := to)
    case Open(h) => w.(staging := w.staging[h := Staging(w.now, [])])
    case Insert(h, eventId, producer, valid) =>
      var s := w.staging[h];
      var row := Fresh(s, |w.issued|, eventId, producer, valid);
      w.(staging := w.staging[h := s.(rows := s.rows + [row])], issued := w.issued + [row])
    case Commit(h) =>
      var staged := w.staging[h].rows;
      w.(staging := w.staging - {h}, rows := w.rows + staged, committed := w.committed + Ids(staged))
    case Rollback(h) => w.(staging := w.staging - {h})
    case StartDispatch(h, events) => w.(dispatches := w.dispatches[h := Dispatch(events, 0, false)])
    case Publish(h, answer) =>
      var d := w.dispatches[h];
      w.(wire := w.wire + Arrived(d.events[d.next], answer),
         dispatches := if answer.Delivered? then w.dispatches[h := d.(published := true)] else w.dispatches - {h})
    case MarkPublished(h, done) =>
      var d := w.dispatches[h];
      w.(rows := if done then StampEvent(w.rows, d.events[d.next], w.now) else w.rows,
         dispatches := w.dispatches[h := d.(next := d.next + 1, published := false)])
    case StopDispatch(h) => w.(dispatches := w.dispatches - {h})
    case BeginDrain(h, producer, grace, limit) =>
      w.(drains := w.drains[h := Drain(producer, w.now, w.now - grace, limit, true, false, [], NOTHING_DONE)])
    case Select(h, queue) => w.(drains := w.drains[h := w.drains[h].(selected := true, queue := queue)])
    case Relay(h, answer) =>
      var d := w.drains[h];
      var p := HandleRow(d.progress, d.queue[|d.progress.changes|], answer, d.at);
      w.(drains := w.drains[h := d.(progress := p)], wire := w.wire + p.sent[|d.progress.sent|..])
    case CommitDrain(h) =>
      w.(drains := w.drains - {h}, rows := UpdateAll(w.rows, w.drains[h].progress.changes))
    case LoseDrain(h) => w.(drains := w.drains[h := w.drains[h].(live := false)])
    case EndLost(h, arrived) =>
      var d := w.drains[h];
      w.(drains := w.drains - {h},
         wire := if arrived && More(d) && d.queue[|d.progress.changes|].valid
                 then w.wire + [d.queue[|d.progress.changes|].eventId] else w.wire)
    case Purge(_, _, doomed) => w.(rows := Filter((r: Row) => r.id !in doomed, w.rows))
  }

  // ── Runs ────────────────────────────────────────────────────────

  predicate Initial(w: World) {
    && w.rows == [] && w.staging == map[] && w.dispatches == map[] && w.drains == map[]
    && w.issued == [] && w.committed == {} && w.wire == []
  }

  ghost predicate Run(w: World, steps: seq<Step>)
    decreases |steps|
  {
    steps == [] || (Can(w, steps[0]) && Run(Do(w, steps[0]), steps[1..]))
  }

  ghost function After(w: World, steps: seq<Step>): World
    requires Run(w, steps)
    decreases |steps|
  {
    if steps == [] then w else After(Do(w, steps[0]), steps[1..])
  }
}
