/**
 * What one call leaves in the table and on the wire, said of rows, answers and clocks alone: the dispatcher, the relay's
 * drain and the purge.
 */
module OutboxCalls {
  import opened Wrappers
  import opened OutboxTable
  import opened OutboxProtocol
  import opened OutboxRelay
  import opened OutboxRefinement

  // ── dispatch ────────────────────────────────────────────────────

  /** The first of `n` answers that is a refusal, or `n`. */
  predicate FirstRefusal(answers: nat -> Answer, n: nat, m: nat) {
    m <= n && (forall k :: 0 <= k < m ==> answers(k).Delivered?) && (m < n ==> answers(m).Refused?)
  }

  /** Of the first `m` events, the `k`-th is the first that names `e` and whose stamp succeeds. */
  predicate FirstStamp(events: seq<EventId>, stamps: nat -> bool, m: nat, e: EventId, k: nat) {
    && k < m <= |events| && events[k] == e && stamps(k)
    && forall j :: 0 <= j < k ==> !(events[j] == e && stamps(j))
  }

  predicate NeverStamped(events: seq<EventId>, stamps: nat -> bool, m: nat, e: EventId) {
    m <= |events| && forall j :: 0 <= j < m ==> !(events[j] == e && stamps(j))
  }

  /** What a row has become after the first `m` events were delivered. */
  ghost predicate DispatchedRow(row: Row, row': Row, events: seq<EventId>, m: nat, stamps: nat -> bool,
      clock: nat -> int) {
    && (row.publishedAt.Some? || NeverStamped(events, stamps, m, row.eventId) ==> row' == row)
    && (forall k :: row.publishedAt.None? && FirstStamp(events, stamps, m, row.eventId, k) ==>
          row' == row.(publishedAt := Some(clock(k)), attempts := row.attempts + 1, lastError := None))
  }

  lemma StampedRow(rows: seq<Row>, e: EventId, at: int, i: nat)
    requires i < |rows|
    ensures var row, row' := rows[i], StampEvent(rows, e, at)[i];
            if row.eventId == e && row.publishedAt.None?
            then row' == row.(publishedAt := Some(at), attempts := row.attempts + 1, lastError := None)
            else row' == row
  {
  }

  lemma {:induction false} DeliveredSoFar(rows: seq<Row>, events: seq<EventId>, n: nat, answers: nat -> Answer,
      stamps: nat -> bool, clock: nat -> int)
    requires n <= |events| && forall k :: 0 <= k < n ==> answers(k).Delivered?
    ensures var d := DispatchedUpTo(rows, events, n, answers, stamps, clock);
            && !d.stopped && d.sent == events[..n]
            && forall i :: 0 <= i < |rows| ==> DispatchedRow(rows[i], d.rows[i], events, n, stamps, clock)
  {
    if n > 0 {
      DeliveredSoFar(rows, events, n - 1, answers, stamps, clock);
      var d := DispatchedUpTo(rows, events, n - 1, answers, stamps, clock);
      assert events[..n] == events[..n - 1] + [events[n - 1]];
      hide StampEvent, DispatchedRow;
      forall i | 0 <= i < |rows|
        ensures DispatchedRow(rows[i], DispatchedUpTo(rows, events, n, answers, stamps, clock).rows[i], events, n, stamps, clock)
      {
        StampedRow(d.rows, events[n - 1], clock(n - 1), i);
        OneMoreDelivered(rows[i], d.rows[i], DispatchedUpTo(rows, events, n, answers, stamps, clock).rows[i], events, n, stamps, clock);
      }
    }
  }

  lemma OneMoreDelivered(row: Row, row': Row, row'': Row, events: seq<EventId>, n: nat, stamps: nat -> bool,
      clock: nat -> int)
    requires 0 < n <= |events| && DispatchedRow(row, row', events, n - 1, stamps, clock)
    requires if stamps(n - 1) && row'.eventId == events[n - 1] && row'.publishedAt.None?
             then row'' == row'.(publishedAt := Some(clock(n - 1)), attempts := row'.attempts + 1, lastError := None)
             else row'' == row'
    ensures DispatchedRow(row, row'', events, n, stamps, clock)
  {
    if row.publishedAt.None? {
      var before, e := n - 1, row.eventId;
      StampedOrNot(events, stamps, before, e);
      if k :| FirstStamp(events, stamps, before, e, k) {
        assert forall j :: FirstStamp(events, stamps, n, e, j) ==> j == k;
      }
    }
  }

  lemma {:induction false} StampedOrNot(events: seq<EventId>, stamps: nat -> bool, m: nat, e: EventId)
    requires m <= |events|
    ensures NeverStamped(events, stamps, m, e) || exists k :: FirstStamp(events, stamps, m, e, k)
  {
    if m > 0 {
      var before := m - 1;
      StampedOrNot(events, stamps, before, e);
      if k :| FirstStamp(events, stamps, before, e, k) {
        assert FirstStamp(events, stamps, m, e, k);
      } else if events[m - 1] == e && stamps(m - 1) {
        assert FirstStamp(events, stamps, m, e, m - 1);
      }
    }
  }

  /**
   * A dispatch sends the events up to the first refusal, in order; the refused one may have arrived. A row is stamped if
   * its event was delivered and a stamp of it succeeded, at the clock of the first that did; no other row changes.
   */
  lemma DispatchMeans(rows: seq<Row>, events: seq<EventId>, answers: nat -> Answer, stamps: nat -> bool,
      clock: nat -> int, m: nat)
    requires FirstRefusal(answers, |events|, m)
    ensures var d := DispatchedUpTo(rows, events, |events|, answers, stamps, clock);
            && d.sent == events[..m] + (if m < |events| && answers(m).arrived then [events[m]] else [])
            && |d.rows| == |rows|
            && forall i :: 0 <= i < |rows| ==> DispatchedRow(rows[i], d.rows[i], events, m, stamps, clock)
  {
    DeliveredSoFar(rows, events, m, answers, stamps, clock);
    if m < |events| {
      hide StampEvent, DispatchedRow;
      StoppedStays(rows, events, m + 1, |events|, answers, stamps, clock);
    }
  }

  lemma {:induction false} SomeFirstRefusal(answers: nat -> Answer, n: nat) returns (m: nat)
    ensures FirstRefusal(answers, n, m)
  {
    m := 0;
    if n > 0 {
      m := SomeFirstRefusal(answers, n - 1);
      if m == n - 1 && answers(m).Delivered? {
        m := n;
      }
    }
  }

  // ── drainOnce ───────────────────────────────────────────────────

  /** WHERE producer AND published_at IS NULL AND created_at <= cutoff. */
  predicate Waits(r: Row, producer: Producer, cutoff: int) {
    r.producer == producer && r.publishedAt == None && r.createdAt <= cutoff
  }

  /** The first `limit` waiting rows by id. */
  ghost predicate TakesFirst(rows: seq<Row>, producer: Producer, cutoff: int, limit: nat, queue: seq<Row>) {
    && |queue| <= limit
    && (forall q :: q in queue ==> q in rows && Waits(q, producer, cutoff))
    && (forall i, j :: 0 <= i < j < |queue| ==> queue[i].id < queue[j].id)
    && (forall r :: r in rows && Waits(r, producer, cutoff) && r !in queue ==> |queue| == limit && forall q :: q in queue ==> q.id < r.id)
  }

  /** The first row of the queue whose publish is refused, or the end of the queue. */
  predicate Blocks(queue: seq<Row>, answers: nat -> Answer, m: nat) {
    && m <= |queue| && (m < |queue| ==> queue[m].valid && answers(m).Refused?)
    && forall k :: 0 <= k < m ==> !(queue[k].valid && answers(k).Refused?)
  }

  /** What a drain makes of a row it got to, as the `k`-th of its queue. */
  predicate Handled(row: Row, row': Row, answer: Answer, at: int) {
    if !row.valid then row' == row.(attempts := row.attempts + 1, lastError := Some("stored payload is not a valid USRP event envelope"))
    else
      match answer
      case Delivered => row' == row.(publishedAt := Some(at), attempts := row.attempts + 1, lastError := None)
      case Refused(error, _) => row' == row.(attempts := row.attempts + 1, lastError := Some(error))
  }

  lemma QueueTakesFirst(rows: seq<Row>, producer: Producer, cutoff: int, limit: nat)
    requires OncePerRow(rows)
    ensures TakesFirst(rows, producer, cutoff, limit, First(limit, Backlog(rows, producer, cutoff)))
  {
    hide First, Backlog;
    BacklogAnswersQuery(rows, producer, cutoff, limit);
  }

  /** The changes of a drain stop behind its first refusal. */
  lemma ChangesStop(queue: seq<Row>, answers: nat -> Answer, at: int, m: nat)
    requires Blocks(queue, answers, m)
    ensures var p := Relayed(queue, answers, at);
            && (p.blocked <==> m < |queue|) && |p.changes| == (if m < |queue| then m + 1 else m)
            && p.sent == EventsOf(ValidOnes(queue[..m])) + (if m < |queue| && answers(m).arrived then [queue[m].eventId] else [])
            && p.published == |EventsOf(ValidOnes(queue[..m]))|
  {
    hide RelayedUpTo, EventsOf, ValidOnes;
    DrainMarksRows(queue, |queue|, answers, at);
    DrainSendsInQueueOrder(queue, |queue|, answers, at);
  }

  lemma ChangesHandle(queue: seq<Row>, answers: nat -> Answer, at: int)
    ensures var p := Relayed(queue, answers, at);
            && |p.changes| <= |queue|
            && forall k :: 0 <= k < |p.changes| ==> p.changes[k].id == queue[k].id && Handled(queue[k], Edited(queue[k], p.changes[k].edit), answers(k), at)
  {
    hide RelayedUpTo;
    DrainMarksRows(queue, |queue|, answers, at);
  }

  /** A row whose id is the `k`-th of the changes is edited by it alone, if the ids differ. */
  lemma {:induction false} UpdatedOnce(rows: seq<Row>, changes: seq<Change>, i: nat)
    requires i < |rows| && forall j, k :: 0 <= j < k < |changes| ==> changes[j].id != changes[k].id
    ensures forall k :: 0 <= k < |changes| && changes[k].id == rows[i].id ==> UpdateAll(rows, changes)[i] == Edited(rows[i], changes[k].edit)
    ensures (forall k :: 0 <= k < |changes| ==> changes[k].id != rows[i].id) ==> UpdateAll(rows, changes)[i] == rows[i]
  {
    if changes != [] {
      var front, last := changes[..|changes| - 1], changes[|changes| - 1];
      assert forall k :: 0 <= k < |front| ==> front[k] == changes[k];
      UpdatedOnce(rows, front, i);
      UpdateAllKeepsRecords(rows, front);
    }
  }

  /**
   * A drain takes the first waiting rows by id and works through them up to the first refusal. It sends the valid ones
   * in id order, the refused one perhaps among them, and counts the others. Every row it got to is stamped, or notes why
   * not; no other row of the table changes.
   */
  lemma DrainMeans(rows: seq<Row>, producer: Producer, cutoff: int, limit: nat, answers: nat -> Answer, at: int, m: nat)
    requires OncePerRow(rows)
    requires Blocks(First(limit, Backlog(rows, producer, cutoff)), answers, m)
    ensures var queue := First(limit, Backlog(rows, producer, cutoff));
            var p := Relayed(queue, answers, at);
            var rows' := UpdateAll(rows, p.changes);
            && TakesFirst(rows, producer, cutoff, limit, queue)
            && p.sent == EventsOf(ValidOnes(queue[..m])) + (if m < |queue| && answers(m).arrived then [queue[m].eventId] else [])
            && p.published == |EventsOf(ValidOnes(queue[..m]))| && (p.blocked <==> m < |queue|)
            && |rows'| == |rows|
            && (forall i, k :: 0 <= i < |rows| && 0 <= k < |queue| && k <= m && queue[k] == rows[i] ==> Handled(rows[i], rows'[i], answers(k), at))
            && (forall i :: 0 <= i < |rows| && (forall k :: 0 <= k < |queue| && k <= m ==> queue[k] != rows[i]) ==> rows'[i] == rows[i])
  {
    hide *;
    var queue := First(limit, Backlog(rows, producer, cutoff));
    QueueTakesFirst(rows, producer, cutoff, limit);
    BlocksWithin(queue, answers, m);
    ChangesStop(queue, answers, at, m);
    ChangesHandle(queue, answers, at);
    var changes := Relayed(queue, answers, at).changes;
    DifferentIds(rows, producer, cutoff, limit, queue, changes);
    forall i | 0 <= i < |rows|
      ensures forall k :: 0 <= k < |changes| && queue[k] == rows[i] ==> Handled(rows[i], UpdateAll(rows, changes)[i], answers(k), at)
      ensures (forall k :: 0 <= k < |changes| ==> queue[k] != rows[i]) ==> UpdateAll(rows, changes)[i] == rows[i]
    {
      UpdatedOnce(rows, changes, i);
    }
  }

  lemma DifferentIds(rows: seq<Row>, producer: Producer, cutoff: int, limit: nat, queue: seq<Row>, changes: seq<Change>)
    requires OncePerRow(rows) && TakesFirst(rows, producer, cutoff, limit, queue) && |changes| <= |queue|
    requires forall k :: 0 <= k < |changes| ==> changes[k].id == queue[k].id
    ensures forall j, k :: 0 <= j < k < |changes| ==> changes[j].id != changes[k].id
    ensures forall i, k :: 0 <= i < |rows| && 0 <= k < |changes| && changes[k].id == rows[i].id ==> queue[k] == rows[i]
  {
    forall i, k | 0 <= i < |rows| && 0 <= k < |changes| && changes[k].id == rows[i].id ensures queue[k] == rows[i] {
      assert queue[k] in queue;
      var j :| 0 <= j < |rows| && rows[j] == queue[k];
      assert i == j;
    }
  }

  lemma BlocksWithin(queue: seq<Row>, answers: nat -> Answer, m: nat)
    requires Blocks(queue, answers, m)
    ensures m <= |queue|
  {
  }

  // ── purge ───────────────────────────────────────────────────────

  /** WHERE producer AND published_at IS NOT NULL AND published_at < before. */
  predicate Stale(r: Row, producer: Producer, before: int) {
    r.producer == producer && r.publishedAt.Some? && r.publishedAt.value < before
  }

  /**
   * A purge deletes stale rows of the producer, at most 5,000, smaller ids first: a stale row stays only if that many
   * with smaller ids went. Nothing else changes.
   */
  lemma PurgeMeans(rows: seq<Row>, producer: Producer, before: int)
    requires OncePerRow(rows)
    ensures var doomed := Doomed(rows, producer, before);
            var rows' := Filter((r: Row) => r.id !in Ids(doomed), rows);
            && |doomed| <= 5000 && (forall i, j :: 0 <= i < j < |doomed| ==> doomed[i].id < doomed[j].id)
            && (forall r :: r in rows ==> (r in rows' <==> r !in doomed))
            && (forall r :: r in rows' || r in doomed ==> r in rows)
            && (forall r :: r in doomed ==> Stale(r, producer, before))
            && (forall r :: r in rows' && Stale(r, producer, before) ==> |doomed| == 5000 && forall q :: q in doomed ==> q.id < r.id)
  {
    DoomedAnswersQuery(rows, producer, before);
    hide Doomed, Ids, Filter;
  }
}
