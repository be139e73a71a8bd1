/**
 * Relayed order against commit order (outbox.ts line 18), exactly. The relay orders by id and waits for an age that is
 * counted from the start of the inserting transaction; neither is the order of commits.
 */
module OutboxCommitOrder {
  import opened OutboxTable
  import opened OutboxProtocol
  import opened OutboxSafety
  import opened OutboxOrder
  import opened OutboxRelay
  import opened OutboxRefinement
  import opened OutboxProgress
  import Sorting

  /** `a` waits for its publish in a committed row when the transaction `h`, which staged `b`, is about to commit. */
  ghost predicate CommitsAfter(w: World, h: Handle, a: Row, b: Row) {
    && Can(w, Commit(h)) && b in w.staging[h].rows
    && Recorded(a, w.issued) && a.id in w.committed && a.eventId !in w.wire && b.eventId !in w.wire
    && a.valid && b.valid && a.producer == b.producer
  }

  /** What the SELECT sees of commit order: it agrees with the order of ids and the order of transaction starts. */
  predicate SelectedInOrder(a: Row, b: Row) {
    a.id < b.id && a.createdAt <= b.createdAt
  }

  // ── Where the two orders agree ──────────────────────────────────

  lemma PairIsBatch(w: World, h: Handle, a: Row, b: Row)
    requires StagingSound(w) && CommitsAfter(w, h, a, b) && SelectedInOrder(a, b)
    ensures IsBatch(Do(w, Commit(h)), [a, b])
  {
    var w' := Do(w, Commit(h));
    assert Staged(w, w.staging[h]);
    assert w'.issued == w.issued && w'.committed == w.committed + Ids(w.staging[h].rows);
    assert b.id in Ids(w.staging[h].rows);
    hide Do, Can, Recorded, StagingSound;
  }

  lemma AgreeingPairKeepsOrder(w: World, h: Handle, a: Row, b: Row)
    requires Sound(w) && CommitsAfter(w, h, a, b) && SelectedInOrder(a, b)
    ensures KeepsOrder(Do(w, Commit(h)), [a, b])
  {
    PairIsBatch(w, h, a, b);
    CommitOrdered(w, h, [a, b]);
    StepSound(w, Commit(h));
    hide Sound, Do, Can, KeepsOrder, IsBatch, Ordered;
    OrderedKeepsOrder(Do(w, Commit(h)), [a, b]);
  }

  // ── Where they do not ───────────────────────────────────────────

  /** A handle nobody uses. */
  lemma {:induction false} UnusedHandle(used: set<Handle>) returns (h: Handle)
    ensures forall k :: k in used ==> k < h
    decreases |used|
  {
    if k :| k in used {
      h := UnusedHandle(used - {k});
      assert forall j :: j in used ==> j == k || j in used - {k};
      h := if h > k then h else k + 1;
    } else {
      h := 0;
    }
  }

  /** The producer's lock can always come free: a connection is lost. */
  lemma FreeLock(w: World, producer: Producer) returns (steps: seq<Step>)
    requires Sound(w)
    ensures Run(w, steps) && NoDispatch(steps)
    ensures var v := After(w, steps);
            && Sound(v) && v.wire == w.wire && v.rows == w.rows && v.issued == w.issued && v.now == w.now
            && forall k :: k in v.drains && v.drains[k].live ==> v.drains[k].producer != producer
  {
    if k :| k in w.drains && w.drains[k].live && w.drains[k].producer == producer {
      var step := LoseDrain(k);
      StepSound(w, step);
      OneStep(w, step);
      steps := [step];
      assert LocksExclusive(w);
      hide Sound;
    } else {
      steps := [];
      NoStepsInOrder(w, []);
    }
  }

  /** From a state with `a` and `b` waiting, a queue that holds `b` before it holds `a`. */
  ghost predicate Overtakes(rows: seq<Row>, producer: Producer, cutoff: int, limit: nat, a: Row, b: Row, n: nat) {
    var queue := First(limit, Backlog(rows, producer, cutoff));
    && n <= |queue|
    && (exists k :: 0 <= k < n && queue[k].eventId == b.eventId && queue[k].valid)
    && (forall k :: 0 <= k < n ==> queue[k].eventId != a.eventId)
  }

  /** Without SelectedInOrder, some cutoff lets the relay see `b` first. */
  lemma SomeCutoffOvertakes(w: World, a: Row, b: Row) returns (cutoff: int, n: nat)
    requires RowsSound(w) && NothingLost(w) && Recorded(a, w.issued) && Recorded(b, w.issued)
    requires a.id in w.committed && b.id in w.committed && a.eventId !in w.wire && b.eventId !in w.wire
    requires a.id != b.id && a.producer == b.producer && b.valid && !SelectedInOrder(a, b)
    ensures cutoff == b.createdAt && Overtakes(w.rows, b.producer, cutoff, |w.rows|, a, b, n)
  {
    cutoff := b.createdAt;
    var first, second := PendingRow(w, a), PendingRow(w, b);
    OnceStrict(w.rows, b.producer, cutoff);
    n := ReachedAt(w.rows, b.producer, cutoff, second);
    forall r | r in w.rows && r.id <= b.id && r.createdAt <= b.createdAt ensures r.eventId != a.eventId {
      OtherEvent(w, first, r, a, b);
    }
    hide RowsSound, NothingLost, SelectedInOrder, Recorded, PendingRow;
    BacklogFits(w.rows, b.producer, cutoff);
  }

  /** Where a waiting row stands in the backlog; nobody before it has a larger id. */
  lemma ReachedAt(rows: seq<Row>, producer: Producer, cutoff: int, r: Row) returns (n: nat)
    requires r in rows && Eligible(r, producer, cutoff) && UniqueIds(rows)
    ensures var queue := Backlog(rows, producer, cutoff);
            && 0 < n <= |queue| && queue[n - 1] == r
            && forall k :: 0 <= k < n ==> queue[k] in rows && queue[k].id <= r.id && queue[k].createdAt <= cutoff
  {
    hide Backlog, UniqueIds, Sorting.SortedBy;
    BacklogInOrder(rows, producer, cutoff);
    var queue := Backlog(rows, producer, cutoff);
    var k :| 0 <= k < |queue| && queue[k] == r;
    n := k + 1;
    forall j | 0 <= j < n ensures queue[j] in rows && queue[j].id <= r.id && queue[j].createdAt <= cutoff {
      assert queue[j] in queue;
    }
  }

  /** Of the rows the relay takes up to `b`, none is the waiting row of `a`. */
  lemma OtherEvent(w: World, first: Row, r: Row, a: Row, b: Row)
    requires RowsSound(w) && first in w.rows && r in w.rows && SameRecord(first, a) && a.id != b.id
    requires !SelectedInOrder(a, b)
    requires r.id <= b.id && r.createdAt <= b.createdAt
    ensures r.eventId != a.eventId
  {
    RecordedOnce(first, r, w.issued);
  }

  lemma RecordedOnce(r: Row, q: Row, issued: seq<Row>)
    requires Recorded(r, issued) && Recorded(q, issued)
    ensures r.id == q.id ==> SameRecord(r, q)
  {
  }

  lemma BacklogFits(rows: seq<Row>, producer: Producer, cutoff: int)
    ensures |Backlog(rows, producer, cutoff)| <= |rows|
  {
    hide Eligible;
    Sorting.SortPermutes(ById, Filter((r: Row) => Eligible(r, producer, cutoff), rows));
  }

  /** What a drain sends with a working transport is what its queue holds. */
  lemma SentFromQueue(queue: seq<Row>, n: nat, at: int)
    requires n <= |queue|
    ensures var sent := RelayedUpTo(queue, n, Working(), at).sent;
            forall e :: e in sent <==> exists k :: 0 <= k < n && queue[k].valid && queue[k].eventId == e
  {
    DrainSendsInQueueOrder(queue, n, Working(), at);
    WorkingDrain(queue, n, at);
    ValidOnesAre(queue[..n]);
    hide RelayedUpTo, ValidOnes;
  }

  lemma {:induction false} ValidOnesAre(rows: seq<Row>)
    ensures forall e :: e in EventsOf(ValidOnes(rows)) <==> exists k :: 0 <= k < |rows| && rows[k].valid && rows[k].eventId == e
  {
    if rows != [] {
      var n := |rows|;
      ValidOnesAre(rows[..n - 1]);
      OneMoreEvent(rows, n);
      assert rows[..n] == rows;
    }
  }

  lemma OneMoreEvent(rows: seq<Row>, n: nat)
    requires n == |rows| > 0
    ensures EventsOf(ValidOnes(rows)) == EventsOf(ValidOnes(rows[..n - 1])) + (if rows[n - 1].valid then [rows[n - 1].eventId] else [])
  {
    OneMore(rows, n);
    assert rows[..n] == rows;
  }

  /** The lock comes free and the clock reaches `since`. */
  lemma FreeAndLater(w: World, producer: Producer, since: int) returns (steps: seq<Step>)
    requires Sound(w)
    ensures Run(w, steps) && NoDispatch(steps)
    ensures var v := After(w, steps);
            && Sound(v) && v.wire == w.wire && v.rows == w.rows && v.now >= since
            && forall k :: k in v.drains && v.drains[k].live ==> v.drains[k].producer != producer
  {
    steps := FreeLock(w, producer);
    var free := After(w, steps);
    var later := Tick(if free.now < since then since else free.now);
    StepSound(free, later);
    hide Sound;
    RunThen(w, steps, later);
    steps := steps + [later];
  }

  lemma JoinedNoDispatch(first: seq<Step>, second: seq<Step>)
    requires NoDispatch(first) && NoDispatch(second)
    ensures NoDispatch(first + second)
  {
  }

  /** A relay with the lock to itself and a working transport handles the first `n` rows of its queue. */
  lemma DrainAlone(v: World, producer: Producer, grace: nat, limit: nat, n: nat) returns (steps: seq<Step>)
    requires Sound(v) && n <= |First(limit, Backlog(v.rows, producer, v.now - grace))|
    requires forall k :: k in v.drains && v.drains[k].live ==> v.drains[k].producer != producer
    ensures Run(v, steps) && NoDispatch(steps)
    ensures After(v, steps).wire == v.wire + RelayedUpTo(First(limit, Backlog(v.rows, producer, v.now - grace)), n, Working(), v.now).sent
  {
    hide Sound, First, Backlog, RelayedUpTo;
    var h := UnusedHandle(v.drains.Keys);
    steps := DrainUpTo(v, h, producer, grace, limit, Working(), n);
  }

  /** Such a relay, with a grace that makes `cutoff` its cutoff. */
  lemma OvertakingDrain(v: World, cutoff: int, limit: nat, a: Row, b: Row, n: nat) returns (steps: seq<Step>)
    requires Sound(v) && cutoff <= v.now && Overtakes(v.rows, b.producer, cutoff, limit, a, b, n)
    requires a.eventId !in v.wire
    requires forall k :: k in v.drains && v.drains[k].live ==> v.drains[k].producer != b.producer
    ensures Run(v, steps) && NoDispatch(steps)
    ensures b.eventId in After(v, steps).wire && a.eventId !in After(v, steps).wire
  {
    hide *;
    var grace := v.now - cutoff;
    QueueHolds(v.rows, b.producer, cutoff, limit, a, b, n, v.now);
    assert v.now - grace == cutoff;
    steps := DrainAlone(v, b.producer, grace, limit, n);
  }

  /** A run that publishes `b` and not `a`, no dispatcher taking part. */
  lemma OvertakingRun(w: World, a: Row, b: Row) returns (steps: seq<Step>)
    requires Sound(w) && Recorded(a, w.issued) && Recorded(b, w.issued)
    requires a.id in w.committed && b.id in w.committed && a.eventId !in w.wire && b.eventId !in w.wire
    requires a.id != b.id && a.producer == b.producer && b.valid && !SelectedInOrder(a, b)
    ensures Run(w, steps) && NoDispatch(steps)
    ensures b.eventId in After(w, steps).wire && a.eventId !in After(w, steps).wire
  {
    var cutoff, n := SomeCutoffOvertakes(w, a, b);
    hide *;
    var first := FreeAndLater(w, b.producer, cutoff);
    var v := After(w, first);
    var more := OvertakingDrain(v, cutoff, |w.rows|, a, b, n);
    RunJoin(w, first, more);
    JoinedNoDispatch(first, more);
    steps := first + more;
  }

  lemma QueueHolds(rows: seq<Row>, producer: Producer, cutoff: int, limit: nat, a: Row, b: Row, n: nat, at: int)
    requires Overtakes(rows, producer, cutoff, limit, a, b, n)
    ensures n <= |First(limit, Backlog(rows, producer, cutoff))|
    ensures var sent := RelayedUpTo(First(limit, Backlog(rows, producer, cutoff)), n, Working(), at).sent;
            b.eventId in sent && a.eventId !in sent
  {
    hide First, Backlog, RelayedUpTo;
    SentFromQueue(First(limit, Backlog(rows, producer, cutoff)), n, at);
  }

  // ── The law ─────────────────────────────────────────────────────

  /**
   * Relayed order is commit order, exactly: of two waiting rows of one producer, the one committed first is published
   * first in every later run in which dispatchers do not reverse them, if and only if it has the smaller id and its
   * transaction did not start later.
   */
  lemma RelayedInCommitOrderExactly(w: World, h: Handle, a: Row, b: Row)
    requires Sound(w) && CommitsAfter(w, h, a, b)
    ensures KeepsOrder(Do(w, Commit(h)), [a, b]) <==> SelectedInOrder(a, b)
  {
    var w' := Do(w, Commit(h));
    if SelectedInOrder(a, b) {
      AgreeingPairKeepsOrder(w, h, a, b);
    } else {
      PairWaits(w, h, a, b);
      StepSound(w, Commit(h));
      hide Sound, Do, Can, SelectedInOrder, Recorded;
      var steps := OvertakingRun(w', a, b);
      NoDispatchInOrder(w', steps, [a, b]);
      var wire := After(w', steps).wire;
      assert [a, b][0].eventId !in wire && [a, b][1].eventId in wire;
      assert !InOrder(wire, [a, b]);
      OrderMeansPrefix(wire, [a, b]);
    }
  }

  lemma PairWaits(w: World, h: Handle, a: Row, b: Row)
    requires Sound(w) && CommitsAfter(w, h, a, b)
    ensures var w' := Do(w, Commit(h));
            && Recorded(a, w'.issued) && Recorded(b, w'.issued) && a.id in w'.committed && b.id in w'.committed
            && a.eventId !in w'.wire && b.eventId !in w'.wire && a.id != b.id
  {
    assert Staged(w, w.staging[h]);
    assert b.id in Ids(w.staging[h].rows);
    hide Recorded, EventsUnused;
  }

  /** A dispatcher owes earlier transactions nothing: it can publish its own event while an earlier one still waits. */
  lemma DispatcherOvertakes(w: World, a: Row, b: Row) returns (steps: seq<Step>)
    requires CommittedEvent(w, b.eventId) && a.eventId !in w.wire && a.eventId != b.eventId
    ensures Run(w, steps) && b.eventId in After(w, steps).wire && a.eventId !in After(w, steps).wire
  {
    hide CommittedEvent;
    var h := UnusedHandle(w.dispatches.Keys);
    var start, publish := StartDispatch(h, [b.eventId]), Publish(h, Delivered);
    TwoSteps(w, start, publish);
    steps := [start, publish];
    assert After(w, steps).wire == w.wire + [b.eventId];
  }
}
