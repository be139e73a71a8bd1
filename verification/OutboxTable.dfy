/**
 * public_core.event_outbox: the rows, the edits the delivery code makes to them, and the relay's SELECT.
 * Payloads are represented by the one thing the relay asks of them: whether they pass the envelope guard.
 */
module OutboxTable {
  import opened Wrappers
  import opened Sorting

  type EventId = int
  type Producer = int

  datatype Row = Row(
    id: nat,
    eventId: EventId,
    producer: Producer,
    valid: bool,
    createdAt: int,
    publishedAt: Option<int>,
    attempts: nat,
    lastError: Option<string>)

  /**
   * SET published_at = now(), attempts = attempts + 1, last_error = NULL; or SET attempts = attempts + 1, last_error =
   * ...
   */
  datatype Edit = Stamp(at: int) | Note(error: string)

  datatype Change = Change(id: nat, edit: Edit)

  function Edited(r: Row, edit: Edit): Row {
    match edit
    case Stamp(at) => r.(publishedAt := Some(at), attempts := r.attempts + 1, lastError := None)
    case Note(error) => r.(attempts := r.attempts + 1, lastError := Some(error))
  }

  /** UPDATE ... WHERE id = `c.id`. */
  function Update(rows: seq<Row>, c: Change): (r: seq<Row>)
    ensures |r| == |rows|
  {
    Map((row: Row) => if row.id == c.id then Edited(row, c.edit) else row, rows)
  }

  function UpdateAll(rows: seq<Row>, changes: seq<Change>): (r: seq<Row>)
    ensures |r| == |rows|
  {
    if changes == [] then rows
    else Update(UpdateAll(rows, changes[..|changes| - 1]), changes[|changes| - 1])
  }

  /** UPDATE ... SET published_at = now() ... WHERE event_id = `e` AND published_at IS NULL. */
  function StampEvent(rows: seq<Row>, e: EventId, at: int): (r: seq<Row>)
    ensures |r| == |rows|
  {
    Map((row: Row) => if row.eventId == e && row.publishedAt.None? then Edited(row, Stamp(at)) else row, rows)
  }

  function Filter<T(!new)>(keep: T -> bool, xs: seq<T>): (r: seq<T>)
    ensures |r| <= |xs|
    ensures forall x :: x in r <==> x in xs && keep(x)
  {
    if xs == [] then []
    else if keep(xs[0]) then [xs[0]] + Filter(keep, xs[1..])
    else Filter(keep, xs[1..])
  }

  // ── The relay's SELECT ──────────────────────────────────────────

  predicate Eligible(r: Row, producer: Producer, cutoff: int) {
    r.producer == producer && r.publishedAt.None? && r.createdAt <= cutoff
  }

  predicate ById(a: Row, b: Row) {
    a.id < b.id
  }

  predicate UniqueIds(rows: seq<Row>) {
    forall a, b :: a in rows && b in rows && a.id == b.id ==> a == b
  }

  /** Every eligible row of the producer, in id order. */
  function Backlog(rows: seq<Row>, producer: Producer, cutoff: int): seq<Row> {
    Sort(ById, Filter((r: Row) => Eligible(r, producer, cutoff), rows))
  }

  function First<T>(limit: nat, xs: seq<T>): seq<T> {
    if |xs| <= limit then xs else xs[..limit]
  }

  /** WHERE ... ORDER BY id LIMIT `limit`, as SQL defines it: `queue` is a result of that query. */
  ghost predicate IsSelection(rows: seq<Row>, producer: Producer, cutoff: int, limit: nat, queue: seq<Row>) {
    && |queue| <= limit
    && (forall q :: q in queue ==> q in rows && Eligible(q, producer, cutoff))
    && (forall i, j :: 0 <= i < j < |queue| ==> queue[i].id < queue[j].id)
    && (forall r :: r in rows && Eligible(r, producer, cutoff) && r !in queue ==>
          |queue| == limit && forall q :: q in queue ==> q.id < r.id)
  }

  lemma BacklogInOrder(rows: seq<Row>, producer: Producer, cutoff: int)
    requires UniqueIds(rows)
    ensures var b := Backlog(rows, producer, cutoff);
            && (forall r :: r in b <==> r in rows && Eligible(r, producer, cutoff))
            && SortedBy(ById, b)
            && (forall i, j :: 0 <= i < j < |b| ==> b[i].id <= b[j].id)
  {
    hide Sort, Eligible;
    var filtered := Filter((r: Row) => Eligible(r, producer, cutoff), rows);
    SortPermutes(ById, filtered);
    SortSorts(ById, filtered);
    var b := Sort(ById, filtered);
    forall i, j | 0 <= i < j < |b| ensures b[i].id <= b[j].id {
      assert !ById(b[j], b[i]);
    }
  }

  /** A table row appears at most once. */
  predicate OncePerRow(rows: seq<Row>) {
    forall i, j :: 0 <= i < j < |rows| ==> rows[i].id != rows[j].id
  }

  lemma {:induction false} FilterOnce(keep: Row -> bool, rows: seq<Row>)
    requires OncePerRow(rows)
    ensures OncePerRow(Filter(keep, rows))
  {
    if rows != [] {
      FilterOnce(keep, rows[1..]);
      var rest := Filter(keep, rows[1..]);
      forall j | 0 <= j < |rest| ensures rest[j].id != rows[0].id {
        assert rest[j] in rows[1..];
      }
    }
  }

  /** Rows kept by a test and sorted by id: those, once each. */
  lemma KeptInOrder(keep: Row -> bool, rows: seq<Row>)
    requires OncePerRow(rows)
    ensures var b := Sort(ById, Filter(keep, rows));
            && (forall r :: r in b <==> r in rows && keep(r))
            && forall i, j :: 0 <= i < j < |b| ==> b[i].id < b[j].id
  {
    hide Sort;
    FilterOnce(keep, rows);
    var kept := Filter(keep, rows);
    var b := Sort(ById, kept);
    SortPermutes(ById, kept);
    SortSorts(ById, kept);
    NoDuplicatesPermuted(kept, b);
    forall i, j | 0 <= i < j < |b| ensures b[i].id < b[j].id {
      assert !ById(b[j], b[i]) && b[i] != b[j] && b[i] in rows && b[j] in rows;
    }
  }

  lemma OnceStrict(rows: seq<Row>, producer: Producer, cutoff: int)
    requires OncePerRow(rows)
    ensures UniqueIds(rows)
    ensures var b := Backlog(rows, producer, cutoff); forall i, j :: 0 <= i < j < |b| ==> b[i].id < b[j].id
  {
    hide Sort, Filter, Eligible;
    var keep := (r: Row) => Eligible(r, producer, cutoff);
    KeptInOrder(keep, rows);
    assert Backlog(rows, producer, cutoff) == Sort(ById, Filter(keep, rows));
    forall a, b | a in rows && b in rows && a.id == b.id ensures a == b {
    }
  }

  /** WHERE `keep` ORDER BY id LIMIT `limit`, as SQL defines it. */
  ghost predicate FirstById(keep: Row -> bool, rows: seq<Row>, limit: nat, picked: seq<Row>) {
    && |picked| <= limit
    && (forall q :: q in picked ==> q in rows && keep(q))
    && (forall i, j :: 0 <= i < j < |picked| ==> picked[i].id < picked[j].id)
    && (forall r :: r in rows && keep(r) && r !in picked ==> |picked| == limit && forall q :: q in picked ==> q.id < r.id)
  }

  /** Sorting the kept rows and cutting at the limit answers such a query. */
  lemma CutAnswersQuery(keep: Row -> bool, rows: seq<Row>, limit: nat)
    requires OncePerRow(rows)
    ensures FirstById(keep, rows, limit, First(limit, Sort(ById, Filter(keep, rows))))
  {
    hide Sort, Filter;
    KeptInOrder(keep, rows);
    var b := Sort(ById, Filter(keep, rows));
    var picked := First(limit, b);
    assert forall k :: 0 <= k < |picked| ==> picked[k] == b[k];
    forall q | q in picked ensures q in b {
    }
    forall r | r in rows && keep(r) && r !in picked ensures |picked| == limit && forall q :: q in picked ==> q.id < r.id {
      var k :| 0 <= k < |b| && b[k] == r;
      assert |picked| <= k;
    }
  }

  /** What the relay's sort and cut pick is what its SELECT returns. */
  lemma BacklogAnswersQuery(rows: seq<Row>, producer: Producer, cutoff: int, limit: nat)
    requires OncePerRow(rows)
    ensures IsSelection(rows, producer, cutoff, limit, First(limit, Backlog(rows, producer, cutoff)))
  {
    hide Sort, Filter, Eligible, First;
    CutAnswersQuery((r: Row) => Eligible(r, producer, cutoff), rows, limit);
  }

  function Ids(rows: seq<Row>): set<nat> {
    set r | r in rows :: r.id
  }

  lemma {:induction false} IdsCount(rows: seq<Row>)
    ensures |Ids(rows)| <= |rows|
  {
    if rows != [] {
      IdsCount(rows[1..]);
      assert rows == [rows[0]] + rows[1..];
      assert Ids(rows) == {rows[0].id} + Ids(rows[1..]);
    }
  }

  // ── Edits touch delivery metadata only ──────────────────────────

  /** Event identity, producer, payload and creation time: what no UPDATE may change. */
  predicate SameRecord(a: Row, b: Row) {
    a.id == b.id && a.eventId == b.eventId && a.producer == b.producer && a.valid == b.valid && a.createdAt == b.createdAt
  }

  lemma UpdateKeepsRecords(rows: seq<Row>, c: Change)
    ensures var r := Update(rows, c);
            forall i :: 0 <= i < |rows| ==> SameRecord(rows[i], r[i]) && r[i] == if rows[i].id == c.id then Edited(rows[i], c.edit) else rows[i]
  {
  }

  /** What a list of changes does to one row: untouched rows stay, and a stamp needs a stamping change. */
  lemma {:induction false} UpdateAllKeepsRecords(rows: seq<Row>, changes: seq<Change>)
    ensures var r := UpdateAll(rows, changes);
            forall i :: 0 <= i < |rows| ==>
              && SameRecord(rows[i], r[i])
              && ((forall c :: c in changes ==> c.id != rows[i].id) ==> r[i] == rows[i])
              && (r[i].publishedAt.Some? ==> rows[i].publishedAt.Some? || exists c :: c in changes && c.id == rows[i].id && c.edit.Stamp?)
              && (rows[i].publishedAt.Some? ==> r[i].publishedAt.Some?)
  {
    if changes != [] {
      var front, last := changes[..|changes| - 1], changes[|changes| - 1];
      UpdateAllKeepsRecords(rows, front);
      UpdateKeepsRecords(UpdateAll(rows, front), last);
      hide Update;
      assert changes == front + [last];
    }
  }
}
