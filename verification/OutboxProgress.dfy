/**
 * Progress of the relay when the transport works and the lock is free. Rows that fail the envelope guard are never
 * taken out of the way: they stay pending, and each one in front keeps a place of the batch. A valid row is reached
 * exactly when fewer invalid rows than the batch has places come before it.
 */
module OutboxProgress {
  import opened OutboxTable
  import opened OutboxProtocol
  import opened OutboxRelay

  /** The relay's parameters; `at` is the database clock of the drains, every row in question being past its grace. */
  datatype Setting = Setting(producer: Producer, at: int, grace: nat, limit: nat)

  function Cutoff(s: Setting): int {
    s.at - s.grace
  }

  function Working(): nat -> Answer {
    (k: nat) => Delivered
  }

  function QueueOf(rows: seq<Row>, s: Setting): seq<Row> {
    First(s.limit, Backlog(rows, s.producer, Cutoff(s)))
  }

  /** The table after one drain, as DrainOnce leaves it. */
  function Drained(rows: seq<Row>, s: Setting): (r: seq<Row>)
    ensures |r| == |rows|
  {
    UpdateAll(rows, Relayed(QueueOf(rows, s), Working(), s.at).changes)
  }

  function DrainedTimes(rows: seq<Row>, s: Setting, n: nat): (r: seq<Row>)
    ensures |r| == |rows|
    decreases n
  {
    if n == 0 then rows else DrainedTimes(Drained(rows, s), s, n - 1)
  }

  // ── What one drain changes ──────────────────────────────────────

  lemma {:induction false} WorkingDrain(queue: seq<Row>, n: nat, at: int)
    requires n <= |queue|
    ensures var p := RelayedUpTo(queue, n, Working(), at);
            && !p.blocked && |p.changes| == n
            && (forall k :: 0 <= k < n ==> p.changes[k].id == queue[k].id && (p.changes[k].edit.Stamp? <==> queue[k].valid))
            && (p.published > 0 <==> exists k :: 0 <= k < n && queue[k].valid)
  {
    hide INVALID_ENVELOPE;
    if n > 0 {
      WorkingDrain(queue, n - 1, at);
    }
  }

  /** A stamp stays: later changes of the list do not take it back. */
  lemma {:induction false} UpdateAllStamps(rows: seq<Row>, changes: seq<Change>, i: nat, k: nat)
    requires i < |rows| && k < |changes| && changes[k].id == rows[i].id && changes[k].edit.Stamp?
    ensures UpdateAll(rows, changes)[i].publishedAt.Some?
  {
    var front := changes[..|changes| - 1];
    UpdateAllKeepsRecords(rows, front);
    UpdateKeepsRecords(UpdateAll(rows, front), changes[|changes| - 1]);
    hide Update;
    if k < |front| {
      UpdateAllStamps(rows, front, i, k);
    }
  }

  ghost predicate Reached(rows: seq<Row>, s: Setting, r: Row) {
    r in QueueOf(rows, s) && r.valid
  }

  /** A drain publishes the valid rows of its queue and leaves every other pending row pending. */
  lemma DrainPublishesReached(rows: seq<Row>, s: Setting)
    requires OncePerRow(rows)
    ensures OncePerRow(Drained(rows, s))
    ensures forall i :: 0 <= i < |rows| ==>
              && SameRecord(rows[i], Drained(rows, s)[i])
              && (Drained(rows, s)[i].publishedAt.None? <==> rows[i].publishedAt.None? && !Reached(rows, s, rows[i]))
  {
    hide HandleRow, RelayedUpTo, UpdateAll, First, Backlog;
    var queue := QueueOf(rows, s);
    var changes := Relayed(queue, Working(), s.at).changes;
    UpdateAllKeepsRecords(rows, changes);
    forall i | 0 <= i < |rows| && rows[i].publishedAt.None?
      ensures Drained(rows, s)[i].publishedAt.Some? <==> Reached(rows, s, rows[i])
    {
      if Reached(rows, s, rows[i]) {
        ReachedIsStamped(rows, s, i);
      }
      if Drained(rows, s)[i].publishedAt.Some? {
        StampedIsReached(rows, s, i);
      }
    }
  }

  lemma ReachedIsStamped(rows: seq<Row>, s: Setting, i: nat)
    requires OncePerRow(rows) && i < |rows| && Reached(rows, s, rows[i])
    ensures |Drained(rows, s)| == |rows| && Drained(rows, s)[i].publishedAt.Some?
  {
    hide HandleRow, RelayedUpTo, UpdateAll, First, Backlog;
    var queue := QueueOf(rows, s);
    OnceStrict(rows, s.producer, Cutoff(s));
    WorkingDrain(queue, |queue|, s.at);
    var changes := Relayed(queue, Working(), s.at).changes;
    UpdateAllKeepsRecords(rows, changes);
    var k :| 0 <= k < |queue| && queue[k] == rows[i];
    UpdateAllStamps(rows, changes, i, k);
  }

  lemma StampedIsReached(rows: seq<Row>, s: Setting, i: nat)
    requires OncePerRow(rows) && i < |rows| && rows[i].publishedAt.None?
    requires |Drained(rows, s)| == |rows| && Drained(rows, s)[i].publishedAt.Some?
    ensures Reached(rows, s, rows[i])
  {
    hide HandleRow, RelayedUpTo, UpdateAll, First, Backlog;
    var queue := QueueOf(rows, s);
    BacklogAnswersQuery(rows, s.producer, Cutoff(s), s.limit);
    OnceStrict(rows, s.producer, Cutoff(s));
    WorkingDrain(queue, |queue|, s.at);
    var changes := Relayed(queue, Working(), s.at).changes;
    UpdateAllKeepsRecords(rows, changes);
    var c :| c in changes && c.id == rows[i].id && c.edit.Stamp?;
    var k :| 0 <= k < |changes| && changes[k] == c;
    assert queue[k] in rows && rows[i] in rows;
  }

  // ── Who is ahead of a row ───────────────────────────────────────

  /** The ids of the eligible rows, valid or invalid, that come before `id`. */
  function Ahead(rows: seq<Row>, s: Setting, id: nat, valid: bool): set<nat> {
    set r | r in rows && Eligible(r, s.producer, Cutoff(s)) && r.valid == valid && r.id < id :: r.id
  }

  function IdsUpTo(queue: seq<Row>, n: nat): set<nat>
    requires n <= |queue|
  {
    set k | 0 <= k < n :: queue[k].id
  }

  lemma {:induction false} IdsCounted(queue: seq<Row>, n: nat)
    requires n <= |queue| && forall i, j :: 0 <= i < j < |queue| ==> queue[i].id < queue[j].id
    ensures |IdsUpTo(queue, n)| == n
  {
    if n > 0 {
      IdsCounted(queue, n - 1);
      assert IdsUpTo(queue, n) == IdsUpTo(queue, n - 1) + {queue[n - 1].id};
    }
  }

  /** The queue holds a row exactly when fewer eligible rows than the batch has places come before it. */
  lemma QueuedIffFewAhead(rows: seq<Row>, s: Setting, r: Row)
    requires OncePerRow(rows) && r in rows && Eligible(r, s.producer, Cutoff(s))
    ensures r in QueueOf(rows, s) <==> |Ahead(rows, s, r.id, true) + Ahead(rows, s, r.id, false)| < s.limit
  {
    hide First, Backlog, Eligible;
    var queue := QueueOf(rows, s);
    BacklogAnswersQuery(rows, s.producer, Cutoff(s), s.limit);
    var ahead := Ahead(rows, s, r.id, true) + Ahead(rows, s, r.id, false);
    if r in queue {
      var k :| 0 <= k < |queue| && queue[k] == r;
      AheadAreQueued(rows, s, queue, k);
      IdsCounted(queue, k);
    } else {
      IdsCounted(queue, |queue|);
      forall id | id in IdsUpTo(queue, |queue|) ensures id in ahead {
        var k :| 0 <= k < |queue| && queue[k].id == id;
        assert queue[k] in queue;
      }
      CardinalityMonotone(IdsUpTo(queue, |queue|), ahead);
    }
  }

  lemma AheadAreQueued(rows: seq<Row>, s: Setting, queue: seq<Row>, k: nat)
    requires IsSelection(rows, s.producer, Cutoff(s), s.limit, queue) && k < |queue|
    ensures Ahead(rows, s, queue[k].id, true) + Ahead(rows, s, queue[k].id, false) == IdsUpTo(queue, k)
  {
    hide Eligible;
    var ahead := Ahead(rows, s, queue[k].id, true) + Ahead(rows, s, queue[k].id, false);
    forall id | id in ahead ensures id in IdsUpTo(queue, k) {
      var r :| r in rows && Eligible(r, s.producer, Cutoff(s)) && r.id < queue[k].id && r.id == id;
      assert queue[k] in queue;
      var p :| 0 <= p < |queue| && queue[p] == r;
      assert p < k;
    }
    forall id | id in IdsUpTo(queue, k) ensures id in ahead {
      var p :| 0 <= p < k && queue[p].id == id;
      assert queue[p] in queue;
    }
  }

  lemma CardinalityMonotone(a: set<nat>, b: set<nat>)
    requires a <= b
    ensures |a| <= |b|
    ensures a != b ==> |a| < |b|
  {
    assert b == a + (b - a);
    if a != b {
      var x :| x in b && x !in a;
      assert x in b - a;
    }
  }

  /** Invalid rows never leave; a valid row ahead leaves when it is reached. */
  lemma AheadAfterDrain(rows: seq<Row>, s: Setting, id: nat)
    requires OncePerRow(rows)
    ensures Ahead(Drained(rows, s), s, id, false) == Ahead(rows, s, id, false)
    ensures Ahead(Drained(rows, s), s, id, true) <= Ahead(rows, s, id, true)
    ensures forall r :: r in rows && Reached(rows, s, r) && r.id < id ==>
              r.id in Ahead(rows, s, id, true) && r.id !in Ahead(Drained(rows, s), s, id, true)
  {
    NoneJoins(rows, s, id, true);
    NoneJoins(rows, s, id, false);
    InvalidStay(rows, s, id);
    hide Drained, QueueOf, Reached, Ahead;
    forall r | r in rows && Reached(rows, s, r) && r.id < id
      ensures r.id in Ahead(rows, s, id, true) && r.id !in Ahead(Drained(rows, s), s, id, true)
    {
      ReachedLeaves(rows, s, id, r);
    }
  }

  lemma NoneJoins(rows: seq<Row>, s: Setting, id: nat, valid: bool)
    requires OncePerRow(rows)
    ensures Ahead(Drained(rows, s), s, id, valid) <= Ahead(rows, s, id, valid)
  {
    DrainPublishesReached(rows, s);
    hide Drained, QueueOf, Reached, OncePerRow;
    var rows' := Drained(rows, s);
    forall x | x in Ahead(rows', s, id, valid) ensures x in Ahead(rows, s, id, valid) {
      var r :| r in rows' && Eligible(r, s.producer, Cutoff(s)) && r.valid == valid && r.id < id && r.id == x;
      var i :| 0 <= i < |rows'| && rows'[i] == r;
      assert rows[i] in rows;
    }
  }

  lemma InvalidStay(rows: seq<Row>, s: Setting, id: nat)
    requires OncePerRow(rows)
    ensures Ahead(rows, s, id, false) <= Ahead(Drained(rows, s), s, id, false)
  {
    DrainPublishesReached(rows, s);
    hide Drained, QueueOf, OncePerRow;
    var rows' := Drained(rows, s);
    forall x | x in Ahead(rows, s, id, false) ensures x in Ahead(rows', s, id, false) {
      var r :| r in rows && Eligible(r, s.producer, Cutoff(s)) && !r.valid && r.id < id && r.id == x;
      var i :| 0 <= i < |rows| && rows[i] == r;
      assert rows'[i] in rows';
    }
  }

  lemma ReachedLeaves(rows: seq<Row>, s: Setting, id: nat, r: Row)
    requires OncePerRow(rows) && r in rows && Reached(rows, s, r) && r.id < id
    ensures r.id in Ahead(rows, s, id, true) && r.id !in Ahead(Drained(rows, s), s, id, true)
  {
    BacklogAnswersQuery(rows, s.producer, Cutoff(s), s.limit);
    assert Eligible(r, s.producer, Cutoff(s));
    DrainPublishesReached(rows, s);
    hide Drained, QueueOf, Reached;
    var rows' := Drained(rows, s);
    forall i | 0 <= i < |rows'| && rows'[i].id == r.id ensures rows'[i].publishedAt.Some? {
      var k :| 0 <= k < |rows| && rows[k] == r;
      assert k == i;
    }
  }

  // ── Progress ────────────────────────────────────────────────────

  /** While a valid row waits behind fewer invalid ones than the batch has places, a drain publishes something. */
  lemma EachDrainPublishes(rows: seq<Row>, s: Setting, r: Row)
    requires OncePerRow(rows) && r in rows && Eligible(r, s.producer, Cutoff(s)) && r.valid
    requires |Ahead(rows, s, r.id, false)| < s.limit
    ensures Relayed(QueueOf(rows, s), Working(), s.at).published > 0
    ensures !Reached(rows, s, r) ==> |Ahead(Drained(rows, s), s, r.id, true)| < |Ahead(rows, s, r.id, true)|
  {
    hide First, Backlog, Eligible, Drained, RelayedUpTo, IsSelection;
    var queue := QueueOf(rows, s);
    WorkingDrain(queue, |queue|, s.at);
    AheadAfterDrain(rows, s, r.id);
    if r in queue {
      var k :| 0 <= k < |queue| && queue[k] == r;
      assert queue[k].valid;
    } else {
      var k := ValidInFront(rows, s, r);
      assert queue[k] in queue;
      CardinalityMonotone(Ahead(Drained(rows, s), s, r.id, true), Ahead(rows, s, r.id, true));
    }
  }

  /** A full queue in front of `r` cannot consist of invalid rows only. */
  lemma ValidInFront(rows: seq<Row>, s: Setting, r: Row) returns (k: nat)
    requires OncePerRow(rows) && r in rows && Eligible(r, s.producer, Cutoff(s)) && r !in QueueOf(rows, s)
    requires |Ahead(rows, s, r.id, false)| < s.limit
    ensures k < |QueueOf(rows, s)| && QueueOf(rows, s)[k].valid && QueueOf(rows, s)[k].id < r.id
    ensures QueueOf(rows, s)[k] in rows
  {
    hide First, Backlog, Eligible;
    var queue := QueueOf(rows, s);
    BacklogAnswersQuery(rows, s.producer, Cutoff(s), s.limit);
    IdsCounted(queue, |queue|);
    if forall k :: 0 <= k < |queue| ==> !queue[k].valid {
      forall id | id in IdsUpTo(queue, |queue|) ensures id in Ahead(rows, s, r.id, false) {
        var q :| 0 <= q < |queue| && queue[q].id == id;
        assert queue[q] in queue;
      }
      CardinalityMonotone(IdsUpTo(queue, |queue|), Ahead(rows, s, r.id, false));
    }
    k :| 0 <= k < |queue| && queue[k].valid;
    assert queue[k] in queue;
  }

  /**
   * A valid eligible row is published by repeated drains if and only if fewer than `limit` invalid eligible rows come
   * before it; and then it takes no more drains than there are valid rows before it, and one.
   */
  lemma {:induction false} PublishedIffFewInvalidAhead(rows: seq<Row>, s: Setting, i: nat, n: nat)
    requires OncePerRow(rows) && i < |rows| && Eligible(rows[i], s.producer, Cutoff(s)) && rows[i].valid
    ensures |Ahead(rows, s, rows[i].id, false)| < s.limit && n > |Ahead(rows, s, rows[i].id, true)| ==> DrainedTimes(rows, s, n)[i].publishedAt.Some?
    ensures |Ahead(rows, s, rows[i].id, false)| >= s.limit ==> DrainedTimes(rows, s, n)[i].publishedAt.None?
    decreases n
  {
    hide Drained, QueueOf, Ahead;
    if n > 0 {
      var r := rows[i];
      var rows' := Drained(rows, s);
      DrainPublishesReached(rows, s);
      AheadAfterDrain(rows, s, r.id);
      QueuedIffFewAhead(rows, s, r);
      if |Ahead(rows, s, r.id, false)| < s.limit {
        EachDrainPublishes(rows, s, r);
        if Reached(rows, s, r) {
          StampedStays(rows', s, i, n - 1);
        } else {
          PublishedIffFewInvalidAhead(rows', s, i, n - 1);
        }
      } else {
        CardinalityMonotone(Ahead(rows, s, r.id, false), Ahead(rows, s, r.id, true) + Ahead(rows, s, r.id, false));
        PublishedIffFewInvalidAhead(rows', s, i, n - 1);
      }
    }
  }

  lemma {:induction false} StampedStays(rows: seq<Row>, s: Setting, i: nat, n: nat)
    requires OncePerRow(rows) && i < |rows| && rows[i].publishedAt.Some?
    ensures DrainedTimes(rows, s, n)[i].publishedAt.Some?
    decreases n
  {
    if n > 0 {
      DrainPublishesReached(rows, s);
      hide Drained, QueueOf;
      StampedStays(Drained(rows, s), s, i, n - 1);
    }
  }

  /** Enough drains clear every valid row exactly when none waits behind a full batch of invalid ones. */
  lemma DrainsClearExactly(rows: seq<Row>, s: Setting)
    requires OncePerRow(rows)
    ensures (forall i :: 0 <= i < |rows| && Eligible(rows[i], s.producer, Cutoff(s)) && rows[i].valid ==>
               DrainedTimes(rows, s, |rows| + 1)[i].publishedAt.Some?)
       <==> (forall i :: 0 <= i < |rows| && Eligible(rows[i], s.producer, Cutoff(s)) && rows[i].valid ==>
               |Ahead(rows, s, rows[i].id, false)| < s.limit)
  {
    hide DrainedTimes, Eligible, Ahead;
    forall i | 0 <= i < |rows| && Eligible(rows[i], s.producer, Cutoff(s)) && rows[i].valid
      ensures DrainedTimes(rows, s, |rows| + 1)[i].publishedAt.Some? <==> |Ahead(rows, s, rows[i].id, false)| < s.limit
    {
      AtMostAll(rows, s, rows[i].id);
      PublishedIffFewInvalidAhead(rows, s, i, |rows| + 1);
    }
  }

  lemma AtMostAll(rows: seq<Row>, s: Setting, id: nat)
    ensures |Ahead(rows, s, id, true)| <= |rows|
  {
    IdsCount(rows);
    CardinalityMonotone(Ahead(rows, s, id, true), Ids(rows));
  }

  // ── While the clock moves and rows arrive ───────────────────────

  /** A drain at `at`; before the next one, the transactions of `arrivals` commit. */
  datatype Round = Round(at: int, arrivals: seq<Row>)

  function At(s: Setting, at: int): Setting {
    s.(at := at)
  }

  function AfterRound(rows: seq<Row>, s: Setting, round: Round): (r: seq<Row>)
    ensures |r| == |rows| + |round.arrivals|
  {
    Drained(rows, At(s, round.at)) + round.arrivals
  }

  function AfterRounds(rows: seq<Row>, s: Setting, rounds: seq<Round>): (r: seq<Row>)
    ensures |r| >= |rows|
    decreases |rounds|
  {
    if rounds == [] then rows else AfterRounds(AfterRound(rows, s, rounds[0]), s, rounds[1..])
  }

  /** The clock does not go back, and what arrives has ids of its own, behind `id`. */
  predicate ArriveBehind(rows: seq<Row>, s: Setting, rounds: seq<Round>, id: nat)
    decreases |rounds|
  {
    rounds == [] ||
    (&& OncePerRow(AfterRound(rows, s, rounds[0])) && (forall a :: a in rounds[0].arrivals ==> a.id > id)
     && (|rounds| > 1 ==> rounds[0].at <= rounds[1].at)
     && ArriveBehind(AfterRound(rows, s, rounds[0]), s, rounds[1..], id))
  }

  /** The ids of the valid rows before `id` that are not published yet, past their grace or not. */
  function WaitingBefore(rows: seq<Row>, producer: Producer, id: nat): set<nat> {
    set r | r in rows && r.producer == producer && r.publishedAt.None? && r.valid && r.id < id :: r.id
  }

  lemma LaterSeesMore(rows: seq<Row>, s: Setting, at: int, id: nat, valid: bool)
    requires s.at <= at
    ensures Ahead(rows, s, id, valid) <= Ahead(rows, At(s, at), id, valid)
    ensures forall r :: Eligible(r, s.producer, Cutoff(s)) ==> Eligible(r, s.producer, Cutoff(At(s, at)))
  {
  }

  /** One round leaves the invalid rows before `id` alone, whatever the clock of the next drain. */
  lemma RoundKeepsInvalid(rows: seq<Row>, s: Setting, round: Round, id: nat, at: int)
    requires OncePerRow(rows) && forall a :: a in round.arrivals ==> a.id > id
    ensures Ahead(AfterRound(rows, s, round), At(s, at), id, false) == Ahead(rows, At(s, at), id, false)
  {
    InvalidOnesStay(rows, s, round, id, at);
    NoInvalidJoins(rows, s, round, id, at);
    hide Ahead, AfterRound;
  }

  lemma InvalidOnesStay(rows: seq<Row>, s: Setting, round: Round, id: nat, at: int)
    requires OncePerRow(rows)
    ensures Ahead(rows, At(s, at), id, false) <= Ahead(AfterRound(rows, s, round), At(s, at), id, false)
  {
    var drained := Drained(rows, At(s, round.at));
    DrainPublishesReached(rows, At(s, round.at));
    hide Drained, QueueOf, OncePerRow;
    forall x | x in Ahead(rows, At(s, at), id, false) ensures x in Ahead(drained + round.arrivals, At(s, at), id, false) {
      var r :| r in rows && Eligible(r, s.producer, Cutoff(At(s, at))) && !r.valid && r.id < id && r.id == x;
      var i :| 0 <= i < |rows| && rows[i] == r;
      assert drained[i] in drained + round.arrivals;
    }
  }

  lemma NoInvalidJoins(rows: seq<Row>, s: Setting, round: Round, id: nat, at: int)
    requires OncePerRow(rows) && forall a :: a in round.arrivals ==> a.id > id
    ensures Ahead(AfterRound(rows, s, round), At(s, at), id, false) <= Ahead(rows, At(s, at), id, false)
  {
    var drained := Drained(rows, At(s, round.at));
    DrainPublishesReached(rows, At(s, round.at));
    hide Drained, QueueOf, OncePerRow, Reached;
    forall x | x in Ahead(drained + round.arrivals, At(s, at), id, false) ensures x in Ahead(rows, At(s, at), id, false) {
      var r :| r in drained + round.arrivals && Eligible(r, s.producer, Cutoff(At(s, at))) && !r.valid && r.id < id && r.id == x;
      assert r in drained;
      var i :| 0 <= i < |drained| && drained[i] == r;
      assert rows[i] in rows;
    }
  }

  /** One round that does not reach `r` publishes a valid row before it. */
  lemma RoundPublishes(rows: seq<Row>, s: Setting, round: Round, r: Row)
    requires OncePerRow(rows) && r in rows && Eligible(r, s.producer, Cutoff(At(s, round.at))) && r.valid
    requires |Ahead(rows, At(s, round.at), r.id, false)| < s.limit && !Reached(rows, At(s, round.at), r)
    requires forall a :: a in round.arrivals ==> a.id > r.id
    ensures |WaitingBefore(AfterRound(rows, s, round), s.producer, r.id)| < |WaitingBefore(rows, s.producer, r.id)|
  {
    var t := At(s, round.at);
    var drained := Drained(rows, t);
    var k := ValidInFront(rows, t, r);
    var q := QueueOf(rows, t)[k];
    WaitingShrinks(rows, s, round, r.id);
    assert q in QueueOf(rows, t) && Reached(rows, t, q);
    ReachedNoLongerWaits(rows, s, round, r.id, q);
    hide *;
    CardinalityMonotone(WaitingBefore(AfterRound(rows, s, round), s.producer, r.id), WaitingBefore(rows, s.producer, r.id));
  }

  lemma WaitingShrinks(rows: seq<Row>, s: Setting, round: Round, id: nat)
    requires OncePerRow(rows) && forall a :: a in round.arrivals ==> a.id > id
    ensures WaitingBefore(AfterRound(rows, s, round), s.producer, id) <= WaitingBefore(rows, s.producer, id)
  {
    var drained := Drained(rows, At(s, round.at));
    DrainPublishesReached(rows, At(s, round.at));
    hide Drained, QueueOf, OncePerRow, Reached;
    forall x | x in WaitingBefore(drained + round.arrivals, s.producer, id) ensures x in WaitingBefore(rows, s.producer, id) {
      var r :| r in drained + round.arrivals && r.producer == s.producer && r.publishedAt.None? && r.valid && r.id < id && r.id == x;
      assert r in drained;
      var i :| 0 <= i < |drained| && drained[i] == r;
      assert rows[i] in rows;
    }
  }

  lemma ReachedNoLongerWaits(rows: seq<Row>, s: Setting, round: Round, id: nat, q: Row)
    requires OncePerRow(rows) && q in rows && q.id < id && Reached(rows, At(s, round.at), q)
    requires forall a :: a in round.arrivals ==> a.id > id
    ensures q.id in WaitingBefore(rows, s.producer, id)
    ensures q.id !in WaitingBefore(AfterRound(rows, s, round), s.producer, id)
  {
    var t := At(s, round.at);
    var drained := Drained(rows, t);
    BacklogAnswersQuery(rows, t.producer, Cutoff(t), t.limit);
    assert Eligible(q, s.producer, Cutoff(t));
    DrainPublishesReached(rows, t);
    hide Drained, QueueOf, Reached;
    forall r | r in drained + round.arrivals && r.id == q.id ensures r.publishedAt.Some? {
      assert r in drained;
      var i :| 0 <= i < |drained| && drained[i] == r;
      var k :| 0 <= k < |rows| && rows[k] == q;
      assert k == i;
    }
  }

  lemma {:induction false} PublishedStays(rows: seq<Row>, s: Setting, rounds: seq<Round>, i: nat)
    requires OncePerRow(rows) && i < |rows| && rows[i].publishedAt.Some? && ArriveBehind(rows, s, rounds, rows[i].id)
    ensures AfterRounds(rows, s, rounds)[i].publishedAt.Some?
    decreases |rounds|
  {
    if rounds != [] {
      DrainPublishesReached(rows, At(s, rounds[0].at));
      hide Drained, QueueOf, OncePerRow;
      PublishedStays(AfterRound(rows, s, rounds[0]), s, rounds[1..], i);
    }
  }

  /**
   * With a clock that moves and rows that arrive behind it, a valid row past its grace is published after as many
   * drains as valid rows waited before it, and one, if fewer than `limit` invalid ones come before it when the last
   * drain looks. With `limit` of them when the first drain looks, it never is.
   */
  lemma {:induction false} PublishedWhileRowsArrive(rows: seq<Row>, s: Setting, i: nat, rounds: seq<Round>)
    requires OncePerRow(rows) && i < |rows| && rows[i].valid && rounds != []
    requires Eligible(rows[i], s.producer, Cutoff(At(s, rounds[0].at))) && ArriveBehind(rows, s, rounds, rows[i].id)
    ensures (|Ahead(rows, At(s, rounds[|rounds| - 1].at), rows[i].id, false)| < s.limit
             && |rounds| > |WaitingBefore(rows, s.producer, rows[i].id)|) ==>
              AfterRounds(rows, s, rounds)[i].publishedAt.Some?
    ensures |Ahead(rows, At(s, rounds[0].at), rows[i].id, false)| >= s.limit ==> AfterRounds(rows, s, rounds)[i].publishedAt.None?
    decreases |rounds|
  {
    var r, round, rest := rows[i], rounds[0], rounds[1..];
    var rows', last := AfterRound(rows, s, round), rounds[|rounds| - 1].at;
    FirstIsEarliest(rows, s, rounds, r.id);
    LaterSeesMore(rows, At(s, round.at), last, r.id, false);
    CardinalityMonotone(Ahead(rows, At(s, round.at), r.id, false), Ahead(rows, At(s, last), r.id, false));
    DrainPublishesReached(rows, At(s, round.at));
    assert SameRecord(r, rows'[i]) && (rows'[i].publishedAt.None? <==> !Reached(rows, At(s, round.at), r));
    hide Drained, QueueOf, Ahead, WaitingBefore, OncePerRow;
    if |Ahead(rows, At(s, round.at), r.id, false)| >= s.limit {
      QueuedIffFewAhead(rows, At(s, round.at), r);
      CardinalityMonotone(Ahead(rows, At(s, round.at), r.id, false), Ahead(rows, At(s, round.at), r.id, true) + Ahead(rows, At(s, round.at), r.id, false));
    }
    if rows'[i].publishedAt.Some? {
      PublishedStays(rows', s, rest, i);
    } else if rest != [] {
      RoundKeepsInvalid(rows, s, round, r.id, last);
      RoundKeepsInvalid(rows, s, round, r.id, rest[0].at);
      LaterSeesMore(rows, At(s, round.at), rest[0].at, r.id, false);
      CardinalityMonotone(Ahead(rows, At(s, round.at), r.id, false), Ahead(rows, At(s, rest[0].at), r.id, false));
      PublishedWhileRowsArrive(rows', s, i, rest);
    }
    if rows'[i].publishedAt.None? && |Ahead(rows, At(s, round.at), r.id, false)| < s.limit {
      RoundPublishes(rows, s, round, r);
    }
  }

  lemma {:induction false} FirstIsEarliest(rows: seq<Row>, s: Setting, rounds: seq<Round>, id: nat)
    requires rounds != [] && ArriveBehind(rows, s, rounds, id)
    ensures rounds[0].at <= rounds[|rounds| - 1].at
    decreases |rounds|
  {
    if |rounds| > 1 {
      FirstIsEarliest(AfterRound(rows, s, rounds[0]), s, rounds[1..], id);
    }
  }
}
