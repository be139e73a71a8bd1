/**
 * Order: events staged together reach the transport in staging order. Whatever dispatchers, relays, refusals, lost
 * acknowledgements, rollbacks and crashes do, what has been published of a batch is always a prefix of it.
 */
module OutboxOrder {
  import opened OutboxTable
  import opened OutboxProtocol
  import opened OutboxSafety

  /** Rows one caller staged for one producer: committed, in id order, none created before its predecessor. */
  ghost predicate IsBatch(w: World, batch: seq<Row>) {
    && (forall b :: b in batch ==>
          Recorded(b, w.issued) && b.id in w.committed && b.valid && b.producer == batch[0].producer)
    && (forall i, j :: 0 <= i < j < |batch| ==> batch[i].id < batch[j].id && batch[i].createdAt <= batch[j].createdAt)
  }

  predicate InOrder(wire: seq<EventId>, batch: seq<Row>) {
    forall i, j :: 0 <= i < j < |batch| && batch[j].eventId in wire ==> batch[i].eventId in wire
  }

  predicate PublishedUpTo(wire: seq<EventId>, batch: seq<Row>, n: nat) {
    n <= |batch| && forall k :: 0 <= k < |batch| ==> (batch[k].eventId in wire <==> k < n)
  }

  /** The published part of the batch is a prefix of it. */
  ghost predicate PrefixPublished(wire: seq<EventId>, batch: seq<Row>) {
    exists n :: PublishedUpTo(wire, batch, n)
  }

  lemma {:induction false} OrderMeansPrefix(wire: seq<EventId>, batch: seq<Row>)
    ensures InOrder(wire, batch) <==> PrefixPublished(wire, batch)
  {
    if InOrder(wire, batch) {
      if batch == [] {
        assert PublishedUpTo(wire, batch, 0);
      } else {
        var front := batch[..|batch| - 1];
        OrderMeansPrefix(wire, front);
        var n :| PublishedUpTo(wire, front, n);
        if batch[|batch| - 1].eventId in wire {
          assert forall k :: 0 <= k < |front| ==> batch[k].eventId in wire;
          assert PublishedUpTo(wire, batch, |batch|);
        } else {
          assert PublishedUpTo(wire, batch, n);
        }
      }
    }
  }

  // ── What is still to be published keeps the order ───────────────

  predicate ValidBefore(queue: seq<Row>, q: nat, e: EventId) {
    exists p :: 0 <= p < q && p < |queue| && queue[p].eventId == e && queue[p].valid
  }

  ghost predicate QueueFollows(wire: seq<EventId>, queue: seq<Row>, batch: seq<Row>) {
    forall i, j, q :: 0 <= i < j < |batch| && 0 <= q < |queue| && queue[q].eventId == batch[j].eventId ==>
      batch[i].eventId in wire || ValidBefore(queue, q, batch[i].eventId)
  }

  /** A list to dispatch names a batch's events in staging order; events already out need not be repeated. */
  predicate ListFollows(wire: seq<EventId>, events: seq<EventId>, batch: seq<Row>) {
    forall i, j, q :: 0 <= i < j < |batch| && 0 <= q < |events| && events[q] == batch[j].eventId ==>
      batch[i].eventId in wire || batch[i].eventId in events[..q]
  }

  ghost predicate Ordered(w: World, batch: seq<Row>) {
    && InOrder(w.wire, batch)
    && (forall h :: h in w.drains ==> QueueFollows(w.wire, w.drains[h].queue, batch))
    && (forall h :: h in w.dispatches ==> ListFollows(w.wire, w.dispatches[h].events, batch))
  }

  /** A relay that selects one row of the batch selects its unpublished predecessors too, in front of it. */
  lemma SelectionFollows(w: World, batch: seq<Row>, producer: Producer, cutoff: int, limit: nat, queue: seq<Row>)
    requires RowsSound(w) && NothingLost(w) && IsBatch(w, batch) && InOrder(w.wire, batch)
    requires IsSelection(w.rows, producer, cutoff, limit, queue)
    ensures QueueFollows(w.wire, queue, batch)
  {
    forall i, j, q | 0 <= i < j < |batch| && 0 <= q < |queue| && queue[q].eventId == batch[j].eventId && batch[i].eventId !in w.wire
      ensures ValidBefore(queue, q, batch[i].eventId)
    {
      assert batch[i] in batch && batch[j] in batch;
      var first, second := PendingRow(w, batch[i]), PendingRow(w, batch[j]);
      assert queue[q] in queue;
      assert queue[q].id == second.id;
      PredecessorSelected(w.rows, producer, cutoff, limit, queue, first, q);
    }
  }

  ghost function PendingRow(w: World, b: Row): (r: Row)
    requires RowsSound(w) && NothingLost(w) && Recorded(b, w.issued) && b.id in w.committed && b.eventId !in w.wire
    ensures r in w.rows && SameRecord(r, b) && r.publishedAt.None?
  {
    assert IsPending(w.rows, b.id);
    var r :| r in w.rows && r.id == b.id && r.publishedAt.None?;
    r
  }

  lemma PredecessorSelected(rows: seq<Row>, producer: Producer, cutoff: int, limit: nat, queue: seq<Row>, first: Row,
      q: nat)
    requires IsSelection(rows, producer, cutoff, limit, queue)
    requires q < |queue| && first in rows && first.id < queue[q].id && first.valid
    requires Eligible(first, producer, cutoff)
    ensures ValidBefore(queue, q, first.eventId)
  {
    assert queue[q] in queue;
    var p :| 0 <= p < |queue| && queue[p] == first;
    assert p < q;
  }

  // ── Each step keeps it ──────────────────────────────────────────

  lemma FollowsMore(wire: seq<EventId>, wire': seq<EventId>, batch: seq<Row>)
    requires wire <= wire'
    ensures forall queue :: QueueFollows(wire, queue, batch) ==> QueueFollows(wire', queue, batch)
    ensures forall events :: ListFollows(wire, events, batch) ==> ListFollows(wire', events, batch)
  {
    assert forall e :: e in wire ==> e in wire';
  }

  /** What goes out next has every predecessor out already. */
  lemma NextInOrder(w: World, step: Step, batch: seq<Row>)
    requires PartiesSound(w) && Ordered(w, batch) && Can(w, step)
    ensures InOrder(Do(w, step).wire, batch)
  {
    var w' := Do(w, step);
    StepGrows(w, step);
    Wider(w, w');
    forall i, j | 0 <= i < j < |batch| && batch[j].eventId in w'.wire && batch[j].eventId !in w.wire
      ensures batch[i].eventId in w.wire
    {
      PredecessorOut(w, step, batch, i, j);
    }
  }

  lemma PredecessorOut(w: World, step: Step, batch: seq<Row>, i: nat, j: nat)
    requires PartiesSound(w) && Ordered(w, batch) && Can(w, step)
    requires i < j < |batch| && batch[j].eventId in Do(w, step).wire && batch[j].eventId !in w.wire
    ensures batch[i].eventId in w.wire
  {
    hide UpdateAll, StampEvent, IsSelection, Held, EventsUnused, Filter, CommittedEvent, InOrder;
    match step {
      case Publish(h, _) =>
        var d := w.dispatches[h];
        assert DispatchSound(w, d);
        assert d.events[d.next] == batch[j].eventId;
      case Relay(h, _) => QueuedPredecessorOut(w, h, batch, i, j);
      case EndLost(h, _) => QueuedPredecessorOut(w, h, batch, i, j);
    }
  }

  lemma QueuedPredecessorOut(w: World, h: Handle, batch: seq<Row>, i: nat, j: nat)
    requires PartiesSound(w) && Ordered(w, batch) && h in w.drains && More(w.drains[h])
    requires i < j < |batch| && w.drains[h].queue[|w.drains[h].progress.changes|].eventId == batch[j].eventId
    ensures batch[i].eventId in w.wire
  {
    var d := w.drains[h];
    assert DrainSound(w, d);
    assert QueueFollows(w.wire, d.queue, batch);
  }

  lemma StepOrdered(w: World, step: Step, batch: seq<Row>)
    requires Sound(w) && IsBatch(w, batch) && Ordered(w, batch) && Can(w, step)
    requires step.StartDispatch? ==> ListFollows(w.wire, step.events, batch)
    ensures Ordered(Do(w, step), batch) && IsBatch(Do(w, step), batch)
  {
    StepGrows(w, step);
    NextInOrder(w, step, batch);
    BatchStays(w, Do(w, step), batch);
    HandsInOrder(w, step, batch);
    hide Do, Can, Sound, InOrder, QueueFollows, ListFollows, Grows, IsBatch;
  }

  lemma BatchStays(w: World, w': World, batch: seq<Row>)
    requires IsBatch(w, batch) && Grows(w, w')
    ensures IsBatch(w', batch)
  {
    Wider(w, w');
    hide Recorded;
  }

  lemma HandsInOrder(w: World, step: Step, batch: seq<Row>)
    requires Sound(w) && IsBatch(w, batch) && Ordered(w, batch) && Can(w, step)
    requires step.StartDispatch? ==> ListFollows(w.wire, step.events, batch)
    ensures var w' := Do(w, step);
            && (forall h :: h in w'.drains ==> QueueFollows(w'.wire, w'.drains[h].queue, batch))
            && (forall h :: h in w'.dispatches ==> ListFollows(w'.wire, w'.dispatches[h].events, batch))
  {
    QueuesInOrder(w, step, batch);
    ListsInOrder(w, step, batch);
  }

  lemma SelectionInOrder(w: World, h: Handle, queue: seq<Row>, batch: seq<Row>)
    requires Sound(w) && IsBatch(w, batch) && Ordered(w, batch) && Can(w, Select(h, queue))
    ensures QueueFollows(w.wire, queue, batch)
  {
    var d := w.drains[h];
    assert RowsSound(w) && NothingLost(w);
    hide Sound, RowsSound, NothingLost, Recorded, InOrder, QueueFollows, ListFollows, IsSelection, IsBatch;
    SelectionFollows(w, batch, d.producer, d.cutoff, d.limit, queue);
  }

  /** Every queue after a step is an old one, an empty one or the one just selected. */
  lemma QueuesAfter(w: World, step: Step)
    requires Can(w, step)
    ensures var w' := Do(w, step);
            forall h :: h in w'.drains ==>
              || (h in w.drains && w'.drains[h].queue == w.drains[h].queue) || w'.drains[h].queue == []
              || (step.Select? && w'.drains[h].queue == step.queue)
  {
    hide UpdateAll, StampEvent, IsSelection, Held, EventsUnused, Filter, CommittedEvent, HandleRow, Ids;
  }

  lemma QueuesInOrder(w: World, step: Step, batch: seq<Row>)
    requires Sound(w) && IsBatch(w, batch) && Ordered(w, batch) && Can(w, step)
    ensures var w' := Do(w, step); forall h :: h in w'.drains ==> QueueFollows(w'.wire, w'.drains[h].queue, batch)
  {
    StepGrows(w, step);
    QueuesAfter(w, step);
    EmptyFollows(w.wire, batch);
    if step.Select? {
      SelectionInOrder(w, step.h, step.queue, batch);
    }
    hide Sound, Can, Do, IsBatch, QueueFollows, InOrder, ListFollows;
    FollowsMore(w.wire, Do(w, step).wire, batch);
  }

  lemma EmptyFollows(wire: seq<EventId>, batch: seq<Row>)
    ensures QueueFollows(wire, [], batch)
  {
  }

  lemma ListsInOrder(w: World, step: Step, batch: seq<Row>)
    requires Ordered(w, batch) && Can(w, step)
    requires step.StartDispatch? ==> ListFollows(w.wire, step.events, batch)
    ensures var w' := Do(w, step); forall h :: h in w'.dispatches ==> ListFollows(w'.wire, w'.dispatches[h].events, batch)
  {
    var w' := Do(w, step);
    StepGrows(w, step);
    FollowsMore(w.wire, w'.wire, batch);
    hide UpdateAll, StampEvent, IsSelection, Held, EventsUnused, Filter, CommittedEvent, InOrder, QueueFollows, ListFollows,
         HandleRow, Recorded, Ids;
  }

  /** Along the run, every dispatch names the batch's events in staging order. */
  ghost predicate DispatchedInOrder(w: World, steps: seq<Step>, batch: seq<Row>)
    requires Run(w, steps)
    decreases |steps|
  {
    steps == [] ||
    ((steps[0].StartDispatch? ==> ListFollows(w.wire, steps[0].events, batch)) && DispatchedInOrder(Do(w, steps[0]), steps[1..], batch))
  }

  /** No dispatch starts along the run. */
  predicate NoDispatch(steps: seq<Step>) {
    forall k :: 0 <= k < |steps| ==> !steps[k].StartDispatch?
  }

  lemma {:induction false} NoDispatchInOrder(w: World, steps: seq<Step>, batch: seq<Row>)
    requires Run(w, steps) && NoDispatch(steps)
    ensures DispatchedInOrder(w, steps, batch)
    decreases |steps|
  {
    hide Can, Do, ListFollows;
    if steps != [] {
      NoDispatchInOrder(Do(w, steps[0]), steps[1..], batch);
    }
  }

  lemma {:induction false} RunOrdered(w: World, steps: seq<Step>, batch: seq<Row>)
    requires Sound(w) && IsBatch(w, batch) && Ordered(w, batch)
    requires Run(w, steps) && DispatchedInOrder(w, steps, batch)
    ensures InOrder(After(w, steps).wire, batch)
    decreases |steps|
  {
    hide Sound, Can, Do, IsBatch, InOrder, ListFollows;
    if steps != [] {
      StepOrdered(w, steps[0], batch);
      StepSound(w, steps[0]);
      RunOrdered(Do(w, steps[0]), steps[1..], batch);
    } else {
      assert InOrder(w.wire, batch) by { OrderedMeansInOrder(w, batch); }
    }
  }

  lemma OrderedMeansInOrder(w: World, batch: seq<Row>)
    requires Ordered(w, batch)
    ensures InOrder(w.wire, batch)
  {
  }

  // ── The batch of one commit ─────────────────────────────────────

  /** Rows `from` up to `to` of the transaction: the events one stageOutboxEvents call staged, all valid. */
  ghost predicate OneCall(w: World, h: Handle, from: nat, to: nat) {
    && h in w.staging && from <= to <= |w.staging[h].rows|
    && forall k :: from <= k < to ==> w.staging[h].rows[k].valid && w.staging[h].rows[k].producer == w.staging[h].rows[from].producer
  }

  lemma CommittedBatch(w: World, h: Handle, from: nat, to: nat)
    requires StagingSound(w) && OneCall(w, h, from, to) && Can(w, Commit(h))
    ensures IsBatch(Do(w, Commit(h)), w.staging[h].rows[from..to])
  {
    var staged, w' := w.staging[h], Do(w, Commit(h));
    assert Staged(w, staged);
    assert w'.issued == w.issued && w'.committed == w.committed + Ids(staged.rows);
    hide Do, Can, EventsUnused, StagingSound;
    SliceIsBatch(w, w', staged, from, to);
  }

  lemma SliceIsBatch(w: World, w': World, s: Staging, from: nat, to: nat)
    requires Staged(w, s) && from <= to <= |s.rows|
    requires forall k :: from <= k < to ==> s.rows[k].valid && s.rows[k].producer == s.rows[from].producer
    requires w'.issued == w.issued && w'.committed == w.committed + Ids(s.rows)
    ensures IsBatch(w', s.rows[from..to])
  {
    hide Recorded, Staged;
    StagedSlice(w, s, from, to);
    var batch := s.rows[from..to];
    assert forall b :: b in batch ==> b.id in Ids(s.rows);
    if batch != [] {
      assert batch[0] == s.rows[from];
    }
  }

  lemma StagedSlice(w: World, s: Staging, from: nat, to: nat)
    requires Staged(w, s) && from <= to <= |s.rows|
    ensures var batch := s.rows[from..to];
            && (forall b :: b in batch ==> b in s.rows && Recorded(b, w.issued) && b.createdAt == s.startedAt)
            && forall i, j :: 0 <= i < j < |batch| ==> batch[i].id < batch[j].id && batch[i].createdAt <= batch[j].createdAt
  {
    hide Recorded;
    var batch := s.rows[from..to];
    forall k | 0 <= k < |batch| ensures batch[k] in s.rows {
      assert batch[k] == s.rows[from + k];
    }
  }

  /** An event that is committed once more was published: its first row is gone, and only stamped rows go. */
  lemma RecommittedIsOut(w: World, h: Handle, b: Row)
    requires RowsSound(w) && NothingLost(w) && Can(w, Commit(h)) && b in w.staging[h].rows
    requires CommittedEvent(w, b.eventId)
    ensures b.eventId in w.wire
  {
    var id :| id in w.committed && id < |w.issued| && w.issued[id].eventId == b.eventId;
    assert forall r :: r in w.rows && r.id == id ==> Recorded(r, w.issued) && r.eventId == b.eventId;
  }

  lemma RecordedCommitted(w: World, q: Row)
    requires Recorded(q, w.issued) && q.id in w.committed
    ensures CommittedEvent(w, q.eventId)
  {
    assert w.issued[q.id].eventId == q.eventId;
  }

  /** What dispatchers and relays hold of the rows committed now was published before, in an earlier life. */
  lemma InHandIsOut(w: World, h: Handle, b: Row)
    requires Sound(w) && Can(w, Commit(h)) && b in w.staging[h].rows
    ensures forall k, q :: k in w.drains && q in w.drains[k].queue && q.eventId == b.eventId ==> b.eventId in w.wire
    ensures forall k :: k in w.dispatches && b.eventId in w.dispatches[k].events ==> b.eventId in w.wire
  {
    hide RowsSound, StagingSound, NothingLost, CommittedEvent, EventsUnused, Recorded;
    if CommittedEvent(w, b.eventId) {
      RecommittedIsOut(w, h, b);
    }
    forall k, q | k in w.drains && q in w.drains[k].queue && q.eventId == b.eventId ensures CommittedEvent(w, b.eventId) {
      assert DrainSound(w, w.drains[k]);
      RecordedCommitted(w, q);
    }
    forall k | k in w.dispatches && b.eventId in w.dispatches[k].events ensures CommittedEvent(w, b.eventId) {
      assert DispatchSound(w, w.dispatches[k]);
    }
  }

  /** After a commit, a batch whose later rows are all new is in order everywhere if what is published of it is. */
  lemma CommitOrdered(w: World, h: Handle, batch: seq<Row>)
    requires Sound(w) && Can(w, Commit(h)) && InOrder(w.wire, batch)
    requires forall j :: 1 <= j < |batch| ==> batch[j] in w.staging[h].rows
    ensures Ordered(Do(w, Commit(h)), batch)
  {
    var w' := Do(w, Commit(h));
    assert w'.wire == w.wire && w'.drains == w.drains && w'.dispatches == w.dispatches;
    forall j | 1 <= j < |batch|
      ensures forall k, q :: k in w.drains && q in w.drains[k].queue && q.eventId == batch[j].eventId ==> batch[j].eventId in w.wire
      ensures forall k :: k in w.dispatches && batch[j].eventId in w.dispatches[k].events ==> batch[j].eventId in w.wire
    {
      InHandIsOut(w, h, batch[j]);
    }
    hide Sound, Can, Do;
    forall k | k in w.drains ensures QueueFollows(w.wire, w.drains[k].queue, batch) {
      assert forall q :: 0 <= q < |w.drains[k].queue| ==> w.drains[k].queue[q] in w.drains[k].queue;
    }
    forall k | k in w.dispatches ensures ListFollows(w.wire, w.dispatches[k].events, batch) {
      assert forall q :: 0 <= q < |w.dispatches[k].events| ==> w.dispatches[k].events[q] in w.dispatches[k].events;
    }
  }

  /** In every state of every run from here, dispatchers keeping staging order, what is published is a prefix. */
  ghost predicate KeepsOrder(w: World, batch: seq<Row>) {
    forall steps: seq<Step> :: Run(w, steps) && DispatchedInOrder(w, steps, batch) ==>
      PrefixPublished(After(w, steps).wire, batch)
  }

  /** A batch in order everywhere stays in order. */
  lemma OrderedKeepsOrder(w: World, batch: seq<Row>)
    requires Sound(w) && IsBatch(w, batch) && Ordered(w, batch)
    ensures KeepsOrder(w, batch)
  {
    hide Sound, Ordered, IsBatch, PrefixPublished, InOrder;
    forall steps: seq<Step> | Run(w, steps) && DispatchedInOrder(w, steps, batch)
      ensures PrefixPublished(After(w, steps).wire, batch)
    {
      RunOrdered(w, steps, batch);
      OrderMeansPrefix(After(w, steps).wire, batch);
    }
  }

  /** The first `n` events of the batch, and no others, were committed before. */
  ghost predicate CommittedUpTo(w: World, batch: seq<Row>, n: nat) {
    n <= |batch| && forall k :: 0 <= k < |batch| ==> (CommittedEvent(w, batch[k].eventId) <==> k < n)
  }

  /** The events of the batch that were ever committed before are a prefix of it. */
  ghost predicate RestagedPrefix(w: World, batch: seq<Row>) {
    exists n :: CommittedUpTo(w, batch, n)
  }

  /** At the commit, the published events of a batch are those that were committed before. */
  lemma PublishedIsRestaged(w: World, h: Handle, batch: seq<Row>)
    requires Sound(w) && Can(w, Commit(h)) && forall b :: b in batch ==> b in w.staging[h].rows
    ensures PrefixPublished(w.wire, batch) <==> RestagedPrefix(w, batch)
  {
    hide CommittedEvent, EventsUnused;
    forall k | 0 <= k < |batch| ensures batch[k].eventId in w.wire <==> CommittedEvent(w, batch[k].eventId) {
      assert batch[k] in batch;
      if CommittedEvent(w, batch[k].eventId) {
        RecommittedIsOut(w, h, batch[k]);
      }
    }
    hide Sound;
    if PrefixPublished(w.wire, batch) {
      var n :| PublishedUpTo(w.wire, batch, n);
      assert CommittedUpTo(w, batch, n);
    }
    if RestagedPrefix(w, batch) {
      var n :| CommittedUpTo(w, batch, n);
      assert PublishedUpTo(w.wire, batch, n);
    }
  }

  /**
   * The order law, exactly, for every commit: from then on the batch is published in staging order, in every state of
   * every run in which dispatchers keep that order, if and only if its events that were committed before, in an
   * earlier life, are a prefix of it. For events never committed before that is the empty prefix.
   */
  lemma OrderKeptExactly(w: World, h: Handle, from: nat, to: nat)
    requires Sound(w) && Can(w, Commit(h)) && OneCall(w, h, from, to)
    ensures var batch := w.staging[h].rows[from..to];
            KeepsOrder(Do(w, Commit(h)), batch) <==> RestagedPrefix(w, batch)
  {
    var batch := w.staging[h].rows[from..to];
    var w' := Do(w, Commit(h));
    CommittedBatch(w, h, from, to);
    StepSound(w, Commit(h));
    OrderMeansPrefix(w.wire, batch);
    PublishedIsRestaged(w, h, batch);
    assert w'.wire == w.wire;
    hide Sound, Ordered, IsBatch, Do, Can, OneCall, CommittedEvent, PrefixPublished, InOrder;
    if PrefixPublished(w.wire, batch) {
      CommitOrdered(w, h, batch);
      OrderedKeepsOrder(w', batch);
    }
    if KeepsOrder(w', batch) {
      NoStepsInOrder(w', batch);
    }
  }

  /**
   * From the commit of a fresh batch on, in every state of every run in which dispatchers name its events in staging
   * order, the published part of the batch is a prefix of it.
   */
  lemma PublishedIsPrefix(w: World, h: Handle, from: nat, to: nat, steps: seq<Step>)
    requires Sound(w) && Can(w, Commit(h)) && OneCall(w, h, from, to)
    requires forall b :: b in w.staging[h].rows[from..to] ==> !CommittedEvent(w, b.eventId)
    requires Run(Do(w, Commit(h)), steps) && DispatchedInOrder(Do(w, Commit(h)), steps, w.staging[h].rows[from..to])
    ensures PrefixPublished(After(Do(w, Commit(h)), steps).wire, w.staging[h].rows[from..to])
  {
    var batch := w.staging[h].rows[from..to];
    assert CommittedUpTo(w, batch, 0);
    hide Sound, Do, CommittedEvent, PrefixPublished;
    OrderKeptExactly(w, h, from, to);
  }

  lemma NoStepsInOrder(w: World, batch: seq<Row>)
    ensures Run(w, []) && DispatchedInOrder(w, [], batch) && After(w, []) == w
  {
  }

  // ── Putting runs together ───────────────────────────────────────

  lemma {:induction false} RunThen(w: World, steps: seq<Step>, step: Step)
    requires Run(w, steps) && Can(After(w, steps), step)
    ensures Run(w, steps + [step]) && After(w, steps + [step]) == Do(After(w, steps), step)
    decreases |steps|
  {
    hide Can, Do;
    if steps == [] {
      assert [step][1..] == [];
      assert Run(Do(w, step), []);
    } else {
      RunThen(Do(w, steps[0]), steps[1..], step);
      assert (steps + [step])[1..] == steps[1..] + [step];
    }
  }

  lemma {:induction false} RunJoin(w: World, first: seq<Step>, second: seq<Step>)
    requires Run(w, first) && Run(After(w, first), second)
    ensures Run(w, first + second) && After(w, first + second) == After(After(w, first), second)
    decreases |first|
  {
    hide Do, Can;
    if first == [] {
      assert first + second == second;
    } else {
      RunJoin(Do(w, first[0]), first[1..], second);
      assert (first + second)[1..] == first[1..] + second;
    }
  }

  lemma TwoSteps(w: World, first: Step, second: Step)
    requires Can(w, first) && Can(Do(w, first), second)
    ensures Run(w, [first, second]) && After(w, [first, second]) == Do(Do(w, first), second)
  {
    hide Can, Do;
    OneStep(w, first);
    RunThen(w, [first], second);
    assert [first] + [second] == [first, second];
  }

  lemma OneStep(w: World, step: Step)
    requires Can(w, step)
    ensures Run(w, [step]) && After(w, [step]) == Do(w, step)
  {
    hide Can, Do;
    assert Run(w, []) && After(w, []) == w;
    RunThen(w, [], step);
    assert [] + [step] == [step];
  }
}
