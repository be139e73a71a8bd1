/**
 * Re-drive workers over their ledger: intakes of new letters, claims of what is due, one replay after the other, the
 * record of each outcome, and crashes in between. Any number of intakes and workers can be under way at once. A claim
 * locks its rows only until its own transaction ends, so two workers may hold the same letter in memory.
 */
module RedriveLedger {
  import opened Wrappers
  import opened Redrive

  type EventId = int
  type Handle = nat

  /** The UNIQUE identity of a letter. */
  datatype Key = Key(group: int, topic: int, partition: nat, offset: nat)

  /** An event in a consumer group: the letters that inherit each other's attempts. */
  datatype Chain = Chain(group: int, eventId: EventId)

  datatype Row = Row(key: Key, eventId: Option<EventId>, entry: Entry)

  datatype Header = Header(key: Key, eventId: Option<EventId>, reason: Reason)

  /** A letter whose inherited attempts have been read and whose row is still to be inserted. */
  datatype Intake = Intake(letter: Header, prior: nat, at: real)

  /**
   * What the worker does next: decide on the first letter it still holds, record that it is out again, or pass on the
   * streak of a failure.
   */
  datatype Phase = Ready | Out | PutOff

  datatype Worker = Worker(at: real, claimed: seq<Row>, phase: Phase)

  /**
   * `redriven` counts how often each chain's event was published again; `lost` how often such a publish was never
   * recorded because its worker stopped first.
   */
  datatype Ledger = Ledger(
    now: real,
    rows: map<Key, Row>,
    intakes: map<Handle, Intake>,
    workers: map<Handle, Worker>,
    redriven: map<Chain, nat>,
    lost: map<Chain, nat>)

  /**
   * How a replay ends: the bytes are no longer on the topic, the broker refused (and may have kept them), or it
   * worked.
   */
  datatype Replay = Gone | Refuses(arrived: bool) | Works

  /** An intake reads, inserts or gives up; a worker claims, acts, records, or stops early by a crash or a fault. */
  datatype Step =
    | Tick(time: real)
    | ReadPrior(h: Handle, letter: Header, prior: nat, at: real)
    | Insert(h: Handle)
    | GiveUp(h: Handle)
    | Claim(w: Handle, at: real, claimed: seq<Row>)
    | Act(w: Handle, replay: Replay)
    | Record(w: Handle)
    | Spread(w: Handle)
    | Crash(w: Handle)

  function ChainOf(r: Row): Option<Chain> {
    if r.eventId.Some? then Some(Chain(r.key.group, r.eventId.value)) else None
  }

  function LetterChain(l: Header): Option<Chain> {
    if l.eventId.Some? then Some(Chain(l.key.group, l.eventId.value)) else None
  }

  function Count(m: map<Chain, nat>, c: Chain): nat {
    if c in m then m[c] else 0
  }

  function Bump(m: map<Chain, nat>, r: Row): map<Chain, nat> {
    match ChainOf(r)
    case None => m
    case Some(c) => m[c := Count(m, c) + 1]
  }

  predicate InChain(rows: map<Key, Row>, k: Key, c: Chain) {
    k in rows && ChainOf(rows[k]) == Some(c)
  }

  /** SELECT COALESCE(MAX(attempts), 0) ... WHERE group_id = ... AND event_id = ... */
  ghost predicate IsPrior(rows: map<Key, Row>, c: Chain, n: nat) {
    && (forall k :: InChain(rows, k, c) ==> rows[k].entry.attempts <= n)
    && (n == 0 || exists k :: InChain(rows, k, c) && rows[k].entry.attempts == n)
  }

  predicate Due(e: Entry, now: real) {
    e.state == Retrying && e.nextAttemptAt.Some? && e.nextAttemptAt.value <= now
  }

  predicate Busy(s: Ledger, w: Handle, phase: Phase) {
    w in s.workers && s.workers[w].claimed != [] && s.workers[w].phase == phase
  }

  predicate OnceEach(claimed: seq<Row>) {
    forall i, j :: 0 <= i < j < |claimed| ==> claimed[i].key != claimed[j].key
  }

  ghost predicate Can(s: Ledger, p: Policy, step: Step) {
    match step
    case Tick(time) => s.now <= time
    case ReadPrior(h, letter, prior, at) =>
      && h !in s.intakes && at <= s.now
      && if LetterChain(letter).Some? then IsPrior(s.rows, LetterChain(letter).value, prior) else prior == 0
    case Insert(h) => h in s.intakes
    case GiveUp(h) => h in s.intakes
    case Claim(w, at, claimed) =>
      && w !in s.workers && at <= s.now
      && claimed != [] && |claimed| as real <= p.maxPerTick && OnceEach(claimed)
      && (forall r :: r in claimed ==> r.key in s.rows && s.rows[r.key] == r && Due(r.entry, at))
    case Act(w, _) => Busy(s, w, Ready)
    case Record(w) => Busy(s, w, Out)
    case Spread(w) => Busy(s, w, PutOff)
    case Crash(w) => w in s.workers
  }

  // ── The statements of the ledger adapter ────────────────────────

  /** UPDATE ... SET state = 'PARKED' ... WHERE key AND state = 'RETRYING'. */
  function ParkRow(rows: map<Key, Row>, k: Key): map<Key, Row> {
    if k in rows && rows[k].entry.state == Retrying then rows[k := rows[k].(entry := rows[k].entry.(state := Parked))] else rows
  }

  /** SET state = 'REDRIVEN', attempts + 1, streak 0; the CHECK on parked rows makes it fail for a parked one. */
  function SucceedRow(rows: map<Key, Row>, k: Key): map<Key, Row> {
    if k in rows && rows[k].entry.state != Parked then
      var e := rows[k].entry;
      rows[k := rows[k].(entry := e.(state := Redriven, attempts := e.attempts + 1, streak := 0))]
    else rows
  }

  /** The first transaction of a recorded failure puts the letter off. */
  function PutOffRow(rows: map<Key, Row>, k: Key, nextAt: real): map<Key, Row> {
    if k in rows then
      var e := rows[k].entry;
      rows[k := rows[k].(entry := e.(attempts := e.attempts + 1, streak := e.streak + 1, nextAttemptAt := Some(nextAt)))]
    else rows
  }

  /** The second one makes every other retrying letter of its group and topic inherit the streak. */
  function SpreadStreak(rows: map<Key, Row>, k: Key): map<Key, Row> {
    map j | j in rows ::
      var e := rows[j].entry;
      if j != k && j.group == k.group && j.topic == k.topic && e.state == Retrying then rows[j].(entry := e.(streak := e.streak + 1))
      else rows[j]
  }

  /** INSERT ... ON CONFLICT DO NOTHING. */
  function IntakeRow(rows: map<Key, Row>, i: Intake, p: Policy): map<Key, Row> {
    if i.letter.key in rows then rows
    else rows[i.letter.key := Row(i.letter.key, i.letter.eventId, Registered(p, i.at, i.letter.reason, i.prior, 0))]
  }

  /** The worker is through with its first letter; after the last it is no worker any more. */
  function Next(workers: map<Handle, Worker>, w: Handle): map<Handle, Worker>
    requires w in workers && workers[w].claimed != []
  {
    if |workers[w].claimed| == 1 then workers - {w}
    else workers[w := workers[w].(claimed := workers[w].claimed[1..], phase := Ready)]
  }

  function Do(s: Ledger, p: Policy, step: Step): Ledger
    requires Can(s, p, step)
  {
    match step
    case Tick(time) => s.(now := time)
    case ReadPrior(h, letter, prior, at) => s.(intakes := s.intakes[h := Intake(letter, prior, at)])
    case Insert(h) => s.(rows := IntakeRow(s.rows, s.intakes[h], p), intakes := s.intakes - {h})
    case GiveUp(h) => s.(intakes := s.intakes - {h})
    case Claim(w, at, claimed) => s.(workers := s.workers[w := Worker(at, claimed, Ready)])
    case Act(w, replay) => ActOn(s, p, w, replay)
    case Record(w) => s.(rows := SucceedRow(s.rows, Head(s, w).key), workers := Next(s.workers, w))
    case Spread(w) => s.(rows := SpreadStreak(s.rows, Head(s, w).key), workers := Next(s.workers, w))
    case Crash(w) =>
      s.(workers := s.workers - {w}, lost := if Busy(s, w, Out) then Bump(s.lost, Head(s, w)) else s.lost)
  }

  function Head(s: Ledger, w: Handle): Row
    requires w in s.workers && s.workers[w].claimed != []
  {
    s.workers[w].claimed[0]
  }

  /** The worker decides on the letter as it read it, then parks it or replays it. */
  function ActOn(s: Ledger, p: Policy, w: Handle, replay: Replay): Ledger
    requires Busy(s, w, Ready)
  {
    var r := Head(s, w);
    var at := s.workers[w].at;
    match Decide(r.entry, at, p)
    case Skip => s.(workers := Next(s.workers, w))
    case Wait(_) => s.(workers := Next(s.workers, w))
    case Park(_) => s.(rows := ParkRow(s.rows, r.key), workers := Next(s.workers, w))
    case Again(_) =>
      match replay
      case Gone => s.(rows := ParkRow(s.rows, r.key), workers := Next(s.workers, w))
      case Refuses(arrived) =>
        s.(rows := PutOffRow(s.rows, r.key, NextAttemptAtMs(p, r.entry.attempts, at)),
           workers := s.workers[w := s.workers[w].(phase := PutOff)],
           redriven := if arrived then Bump(s.redriven, r) else s.redriven)
      case Works => s.(workers := s.workers[w := s.workers[w].(phase := Out)], redriven := Bump(s.redriven, r))
  }

  // ── Runs ────────────────────────────────────────────────────────

  predicate Initial(s: Ledger) {
    s.rows == map[] && s.intakes == map[] && s.workers == map[] && s.redriven == map[] && s.lost == map[]
  }

  ghost predicate Run(s: Ledger, p: Policy, steps: seq<Step>)
    decreases |steps|
  {
    steps == [] || (Can(s, p, steps[0]) && Run(Do(s, p, steps[0]), p, steps[1..]))
  }

  ghost function After(s: Ledger, p: Policy, steps: seq<Step>): Ledger
    requires Run(s, p, steps)
    decreases |steps|
  {
    if steps == [] then s else After(Do(s, p, steps[0]), p, steps[1..])
  }

  // ── Settled letters ─────────────────────────────────────────────

  /** The letter is still there, no attempt of it is taken back, and if it was settled it is settled the same way. */
  predicate Kept(rows: map<Key, Row>, rows': map<Key, Row>, k: Key)
    requires k in rows
  {
    && k in rows' && rows'[k].key == rows[k].key && rows'[k].eventId == rows[k].eventId
    && rows'[k].entry.attempts >= rows[k].entry.attempts
    && (rows[k].entry.state != Retrying ==> rows'[k].entry.state == rows[k].entry.state)
  }

  lemma StepKeeps(s: Ledger, p: Policy, step: Step, k: Key)
    requires Can(s, p, step) && k in s.rows
    ensures Kept(s.rows, Do(s, p, step).rows, k)
  {
    hide IsPrior, OnceEach, Due, Next, ActOn, Bump, Registered;
    if step.Act? {
      ActKeeps(s, p, step.w, step.replay, k);
    }
  }

  lemma ActKeeps(s: Ledger, p: Policy, w: Handle, replay: Replay, k: Key)
    requires Busy(s, w, Ready) && k in s.rows
    ensures Kept(s.rows, ActOn(s, p, w, replay).rows, k)
  {
    hide Decide, NextAttemptAtMs, Bump, Next;
  }

  /**
   * A settled letter is never revived, by any number of workers with stale claims in any interleaving of their
   * statements, and a second registration of it changes nothing.
   */
  lemma {:induction false} SettledStays(s: Ledger, p: Policy, steps: seq<Step>, k: Key)
    requires k in s.rows && Run(s, p, steps)
    ensures Kept(s.rows, After(s, p, steps).rows, k)
    decreases |steps|
  {
    hide Can, Do;
    if steps != [] {
      StepKeeps(s, p, steps[0], k);
      SettledStays(Do(s, p, steps[0]), p, steps[1..], k);
    }
  }

  // ── Claims of one chain that nobody else holds ──────────────────

  function Budget(p: Policy): nat {
    |p.delaysMs|
  }

  predicate Holds(w: Worker, k: Key) {
    exists r :: r in w.claimed && r.key == k
  }

  /** A claim takes no letter of the chain that another worker still holds in memory. */
  predicate Exclusive(s: Ledger, step: Step, c: Chain) {
    step.Claim? ==>
      forall r, v :: r in step.claimed && ChainOf(r) == Some(c) && v in s.workers ==> !Holds(s.workers[v], r.key)
  }

  predicate Known(rows: map<Key, Row>, r: Row) {
    r.key in rows && rows[r.key].key == r.key && rows[r.key].eventId == r.eventId
  }

  /** The letter is on the schedule with the attempts the worker read. */
  predicate Fresh(rows: map<Key, Row>, r: Row) {
    Known(rows, r) && rows[r.key].entry.state == Retrying && rows[r.key].entry.attempts == r.entry.attempts
  }

  /** What a worker holds of the chain is what the ledger says, apart from streaks. */
  predicate WorkerSound(rows: map<Key, Row>, w: Worker, p: Policy, c: Chain) {
    && w.claimed != [] && OnceEach(w.claimed)
    && (forall r :: r in w.claimed ==> Known(rows, r))
    && (forall i :: 0 <= i < |w.claimed| && ChainOf(w.claimed[i]) == Some(c) && (i > 0 || w.phase != PutOff) ==>
          Fresh(rows, w.claimed[i]))
    && (w.phase != Ready && ChainOf(w.claimed[0]) == Some(c) ==> w.claimed[0].entry.attempts < Budget(p))
  }

  /** Two workers hold no letter of the chain in common. */
  predicate Apart(v: Worker, w: Worker, c: Chain) {
    forall r, q :: r in v.claimed && q in w.claimed && ChainOf(r) == Some(c) ==> r.key != q.key
  }

  ghost predicate Keyed(rows: map<Key, Row>) {
    forall k :: k in rows ==> rows[k].key == k
  }

  ghost predicate AllApart(workers: map<Handle, Worker>, c: Chain) {
    forall v, w :: v in workers && w in workers && v != w ==> Apart(workers[v], workers[w], c)
  }

  ghost predicate ClaimsSound(s: Ledger, p: Policy, c: Chain) {
    && Keyed(s.rows)
    && (forall w :: w in s.workers ==> WorkerSound(s.rows, s.workers[w], p, c))
    && AllApart(s.workers, c)
  }

  /** Only the letter `k` may have changed, or letters may have been added. */
  predicate OthersSame(rows: map<Key, Row>, rows': map<Key, Row>, k: Key) {
    forall j :: j in rows ==>
      && j in rows' && rows'[j].key == rows[j].key && rows'[j].eventId == rows[j].eventId
      && (j != k ==> rows'[j].entry.state == rows[j].entry.state && rows'[j].entry.attempts == rows[j].entry.attempts)
  }

  /** A worker that does not hold the changed letter, or for which it is of another chain, stays sound. */
  lemma OtherSound(rows: map<Key, Row>, rows': map<Key, Row>, w: Worker, p: Policy, c: Chain, k: Key)
    requires WorkerSound(rows, w, p, c) && OthersSame(rows, rows', k)
    requires !InChain(rows, k, c) || !Holds(w, k)
    ensures WorkerSound(rows', w, p, c)
  {
    hide Budget, OnceEach;
    forall i | 0 <= i < |w.claimed| && ChainOf(w.claimed[i]) == Some(c) && (i > 0 || w.phase != PutOff)
      ensures Fresh(rows', w.claimed[i])
    {
      var r := w.claimed[i];
      assert r in w.claimed && Fresh(rows, r);
      assert r.key != k;
    }
  }

  /** So does the worker that changed the letter and goes on with the next one. */
  lemma NextSound(rows: map<Key, Row>, rows': map<Key, Row>, workers: map<Handle, Worker>, w: Handle, p: Policy,
      c: Chain)
    requires w in workers && WorkerSound(rows, workers[w], p, c) && OthersSame(rows, rows', workers[w].claimed[0].key)
    ensures w in Next(workers, w) ==> WorkerSound(rows', Next(workers, w)[w], p, c)
  {
    hide Budget;
    if w in Next(workers, w) {
      var before, rest := workers[w], Next(workers, w)[w];
      forall r | r in rest.claimed ensures Known(rows', r) {
        assert r in before.claimed;
      }
      forall i | 0 <= i < |rest.claimed| && ChainOf(rest.claimed[i]) == Some(c) ensures Fresh(rows', rest.claimed[i]) {
        assert rest.claimed[i] == before.claimed[i + 1];
        assert Fresh(rows, before.claimed[i + 1]);
      }
    }
  }

  lemma NextSubset(workers: map<Handle, Worker>, w: Handle)
    requires w in workers && workers[w].claimed != []
    ensures w in Next(workers, w) ==> forall r :: r in Next(workers, w)[w].claimed ==> r in workers[w].claimed
    ensures forall v :: v != w ==> (v in Next(workers, w) <==> v in workers) && (v in workers ==> Next(workers, w)[v] == workers[v])
    ensures Next(workers, w).Keys <= workers.Keys
  {
  }

  /** Nobody else holds what a worker is about to change. */
  lemma HeadIsIts(s: Ledger, p: Policy, c: Chain, w: Handle, v: Handle)
    requires ClaimsSound(s, p, c) && w in s.workers && v in s.workers && v != w
    ensures !InChain(s.rows, Head(s, w).key, c) || !Holds(s.workers[v], Head(s, w).key)
  {
    assert WorkerSound(s.rows, s.workers[w], p, c);
    assert Known(s.rows, Head(s, w)) && Apart(s.workers[w], s.workers[v], c);
    hide WorkerSound, AllApart;
  }

  /** Workers that hold no more than before are as far apart as before. */
  lemma FewerApart(workers: map<Handle, Worker>, workers': map<Handle, Worker>, c: Chain)
    requires AllApart(workers, c) && workers'.Keys <= workers.Keys
    requires forall w :: w in workers' ==> forall r :: r in workers'[w].claimed ==> r in workers[w].claimed
    ensures AllApart(workers', c)
  {
    forall v, w | v in workers' && w in workers' && v != w ensures Apart(workers'[v], workers'[w], c) {
      assert Apart(workers[v], workers[w], c);
    }
  }

  /** Changing its first letter, a worker leaves what the others hold of the chain as it is. */
  lemma OthersSound(s: Ledger, rows': map<Key, Row>, p: Policy, c: Chain, w: Handle)
    requires ClaimsSound(s, p, c) && w in s.workers && OthersSame(s.rows, rows', Head(s, w).key)
    ensures forall v :: v in s.workers && v != w ==> WorkerSound(rows', s.workers[v], p, c)
  {
    forall v | v in s.workers && v != w ensures WorkerSound(rows', s.workers[v], p, c) {
      HeadIsIts(s, p, c, w, v);
      hide WorkerSound, OthersSame, AllApart, InChain, Holds;
      OtherSound(s.rows, rows', s.workers[v], p, c, Head(s, w).key);
    }
  }

  lemma NextApart(workers: map<Handle, Worker>, w: Handle, c: Chain)
    requires AllApart(workers, c) && w in workers && workers[w].claimed != []
    ensures AllApart(Next(workers, w), c)
  {
    NextSubset(workers, w);
    hide AllApart, Next;
    FewerApart(workers, Next(workers, w), c);
  }

  lemma AfterNextSound(s: Ledger, rows': map<Key, Row>, p: Policy, c: Chain, w: Handle, v: Handle)
    requires ClaimsSound(s, p, c) && w in s.workers && s.workers[w].claimed != [] && v in Next(s.workers, w)
    requires OthersSame(s.rows, rows', Head(s, w).key)
    ensures WorkerSound(rows', Next(s.workers, w)[v], p, c)
  {
    NextSubset(s.workers, w);
    if v == w {
      NextSound(s.rows, rows', s.workers, w, p, c);
    } else {
      OthersSound(s, rows', p, c, w);
    }
    hide *;
  }

  /** The worker changes its first letter and goes on. */
  lemma PassSound(s: Ledger, s': Ledger, p: Policy, c: Chain, w: Handle)
    requires ClaimsSound(s, p, c) && w in s.workers && s.workers[w].claimed != []
    requires OthersSame(s.rows, s'.rows, Head(s, w).key) && s'.workers == Next(s.workers, w) && Keyed(s'.rows)
    ensures ClaimsSound(s', p, c)
  {
    hide WorkerSound, Next, OthersSame, AllApart, Keyed;
    NextApart(s.workers, w, c);
    forall v | v in s'.workers ensures WorkerSound(s'.rows, s'.workers[v], p, c) {
      AfterNextSound(s, s'.rows, p, c, w, v);
    }
  }

  /** The worker changes its first letter, or nothing, and keeps it for a second transaction. */
  lemma StaySound(s: Ledger, s': Ledger, p: Policy, c: Chain, w: Handle, phase: Phase)
    requires ClaimsSound(s, p, c) && w in s.workers && OthersSame(s.rows, s'.rows, Head(s, w).key)
    requires s'.workers == s.workers[w := s.workers[w].(phase := phase)] && Keyed(s'.rows)
    requires s.workers[w].phase == Ready && Head(s, w).entry.attempts < Budget(p)
    requires phase == PutOff || (phase == Out && s'.rows == s.rows)
    ensures ClaimsSound(s', p, c)
  {
    OthersSound(s, s'.rows, p, c, w);
    StayerSound(s.rows, s'.rows, s.workers[w], p, c, phase);
    hide WorkerSound, OthersSame, AllApart;
    FewerApart(s.workers, s'.workers, c);
  }

  lemma StayerSound(rows: map<Key, Row>, rows': map<Key, Row>, w: Worker, p: Policy, c: Chain, phase: Phase)
    requires WorkerSound(rows, w, p, c) && OthersSame(rows, rows', w.claimed[0].key)
    requires w.phase == Ready && w.claimed[0].entry.attempts < Budget(p)
    requires phase == PutOff || (phase == Out && rows' == rows)
    ensures WorkerSound(rows', w.(phase := phase), p, c)
  {
    hide Budget;
    forall i | 0 < i < |w.claimed| && ChainOf(w.claimed[i]) == Some(c) ensures Fresh(rows', w.claimed[i]) {
      assert Fresh(rows, w.claimed[i]);
    }
  }

  lemma ParkTouches(rows: map<Key, Row>, k: Key)
    requires Keyed(rows)
    ensures OthersSame(rows, ParkRow(rows, k), k) && Keyed(ParkRow(rows, k))
  {
  }

  lemma SucceedTouches(rows: map<Key, Row>, k: Key)
    requires Keyed(rows)
    ensures OthersSame(rows, SucceedRow(rows, k), k) && Keyed(SucceedRow(rows, k))
  {
  }

  lemma PutOffTouches(rows: map<Key, Row>, k: Key, nextAt: real)
    requires Keyed(rows)
    ensures OthersSame(rows, PutOffRow(rows, k, nextAt), k) && Keyed(PutOffRow(rows, k, nextAt))
  {
  }

  lemma SpreadTouches(rows: map<Key, Row>, k: Key)
    requires Keyed(rows)
    ensures OthersSame(rows, SpreadStreak(rows, k), k) && Unchanged(rows, SpreadStreak(rows, k))
    ensures Keyed(SpreadStreak(rows, k))
  {
  }

  lemma IntakeTouches(rows: map<Key, Row>, i: Intake, p: Policy)
    requires Keyed(rows)
    ensures Unchanged(rows, IntakeRow(rows, i, p)) && Keyed(IntakeRow(rows, i, p))
  {
    hide Registered;
  }

  /**
   * Parking, or nothing, and on to the next letter; or a second transaction to come, and an attempt left to pay for
   * it.
   */
  lemma ActEffect(s: Ledger, p: Policy, w: Handle, replay: Replay)
    requires Busy(s, w, Ready)
    ensures var s', r, nextAt := ActOn(s, p, w, replay), Head(s, w), NextAttemptAtMs(p, Head(s, w).entry.attempts, s.workers[w].at);
            || (s'.workers == Next(s.workers, w) && (s'.rows == s.rows || s'.rows == ParkRow(s.rows, r.key)))
            || (r.entry.attempts < Budget(p) && s'.workers == s.workers[w := s.workers[w].(phase := Out)] && s'.rows == s.rows)
            || (r.entry.attempts < Budget(p) && s'.workers == s.workers[w := s.workers[w].(phase := PutOff)]
                && s'.rows == PutOffRow(s.rows, r.key, nextAt))
  {
    hide NextAttemptAtMs, Bump, ParkRow, PutOffRow, Next;
  }

  lemma ActClaims(s: Ledger, p: Policy, c: Chain, w: Handle, replay: Replay)
    requires ClaimsSound(s, p, c) && Busy(s, w, Ready)
    ensures ClaimsSound(ActOn(s, p, w, replay), p, c)
  {
    ActEffect(s, p, w, replay);
    var r, nextAt := Head(s, w), NextAttemptAtMs(p, Head(s, w).entry.attempts, s.workers[w].at);
    assert Keyed(s.rows);
    hide ActOn, ClaimsSound, Keyed, OthersSame, NextAttemptAtMs, ParkRow, PutOffRow, Next, Budget;
    ParkTouches(s.rows, r.key);
    PutOffTouches(s.rows, r.key, nextAt);
    SameTouches(s.rows, s.rows, r.key);
    var s' := ActOn(s, p, w, replay);
    if s'.workers == Next(s.workers, w) {
      PassSound(s, s', p, c, w);
    } else {
      StaySound(s, s', p, c, w, s'.workers[w].phase);
    }
  }

  predicate Unchanged(rows: map<Key, Row>, rows': map<Key, Row>) {
    forall j :: j in rows ==>
      && j in rows' && rows'[j].key == rows[j].key && rows'[j].eventId == rows[j].eventId
      && rows'[j].entry.state == rows[j].entry.state && rows'[j].entry.attempts == rows[j].entry.attempts
  }

  lemma SameTouches(rows: map<Key, Row>, rows': map<Key, Row>, k: Key)
    ensures Unchanged(rows, rows') ==> OthersSame(rows, rows', k)
    ensures rows' == rows ==> OthersSame(rows, rows', k)
  {
  }

  /** No step but a claim gives a worker a letter; what changes in the rows concerns nobody's letters. */
  lemma QuietSound(s: Ledger, s': Ledger, p: Policy, c: Chain)
    requires ClaimsSound(s, p, c) && s'.workers.Keys <= s.workers.Keys
    requires forall w :: w in s'.workers ==> s'.workers[w] == s.workers[w]
    requires Unchanged(s.rows, s'.rows)
    requires Keyed(s'.rows)
    ensures ClaimsSound(s', p, c)
  {
    forall w | w in s'.workers ensures WorkerSound(s'.rows, s'.workers[w], p, c) {
      assert WorkerSound(s.rows, s.workers[w], p, c);
      var k := UnheldKey(s.workers[w].claimed);
      SameTouches(s.rows, s'.rows, k);
      OtherSound(s.rows, s'.rows, s.workers[w], p, c, k);
    }
    hide WorkerSound, AllApart, OthersSame;
    FewerApart(s.workers, s'.workers, c);
  }

  lemma {:induction false} UnheldKey(claimed: seq<Row>) returns (k: Key)
    ensures forall r :: r in claimed ==> r.key.offset < k.offset
  {
    if claimed == [] {
      k := Key(0, 0, 0, 0);
    } else {
      var last := claimed[|claimed| - 1];
      k := UnheldKey(claimed[..|claimed| - 1]);
      k := Key(0, 0, 0, 1 + if last.key.offset > k.offset then last.key.offset else k.offset);
    }
  }

  lemma NewWorkerSound(s: Ledger, p: Policy, c: Chain, w: Handle, at: real, claimed: seq<Row>)
    requires Can(s, p, Claim(w, at, claimed))
    ensures WorkerSound(s.rows, Worker(at, claimed, Ready), p, c)
  {
    hide OnceEach;
    forall r | r in claimed ensures Fresh(s.rows, r) {
    }
  }

  lemma NewWorkerApart(s: Ledger, p: Policy, c: Chain, w: Handle, at: real, claimed: seq<Row>, v: Handle)
    requires ClaimsSound(s, p, c) && Can(s, p, Claim(w, at, claimed)) && Exclusive(s, Claim(w, at, claimed), c)
    requires v in s.workers
    ensures Apart(s.workers[v], Worker(at, claimed, Ready), c) && Apart(Worker(at, claimed, Ready), s.workers[v], c)
  {
    assert WorkerSound(s.rows, s.workers[v], p, c);
    hide WorkerSound, AllApart, OnceEach, Due, Budget, ChainOf;
    forall r, q | r in s.workers[v].claimed && q in claimed && (ChainOf(r) == Some(c) || ChainOf(q) == Some(c))
      ensures r.key != q.key
    {
      SameChain(s.rows, r, q);
      HeldIn(s.rows, s.workers[v], p, c, r);
    }
  }

  lemma SameChain(rows: map<Key, Row>, r: Row, q: Row)
    ensures Known(rows, r) && Known(rows, q) && r.key == q.key ==> ChainOf(r) == ChainOf(q)
  {
  }

  lemma HeldIn(rows: map<Key, Row>, w: Worker, p: Policy, c: Chain, r: Row)
    requires WorkerSound(rows, w, p, c) && r in w.claimed
    ensures Known(rows, r) && Holds(w, r.key)
  {
  }

  lemma ClaimSound(s: Ledger, p: Policy, c: Chain, w: Handle, at: real, claimed: seq<Row>)
    requires ClaimsSound(s, p, c) && Can(s, p, Claim(w, at, claimed)) && Exclusive(s, Claim(w, at, claimed), c)
    ensures ClaimsSound(Do(s, p, Claim(w, at, claimed)), p, c)
  {
    NewWorkerSound(s, p, c, w, at, claimed);
    forall v | v in s.workers
      ensures Apart(s.workers[v], Worker(at, claimed, Ready), c) && Apart(Worker(at, claimed, Ready), s.workers[v], c)
    {
      NewWorkerApart(s, p, c, w, at, claimed, v);
    }
    hide WorkerSound, Apart, OnceEach, Due, Exclusive;
  }

  lemma StepClaims(s: Ledger, p: Policy, step: Step, c: Chain)
    requires ClaimsSound(s, p, c) && Can(s, p, step) && Exclusive(s, step, c)
    ensures ClaimsSound(Do(s, p, step), p, c)
  {
    var s' := Do(s, p, step);
    hide ClaimsSound, Next, ActOn, SucceedRow, SpreadStreak, IntakeRow, IsPrior, Bump;
    match step {
      case Act(w, replay) => ActClaims(s, p, c, w, replay);
      case Claim(w, at, claimed) => ClaimSound(s, p, c, w, at, claimed);
      case Record(w) => RecordClaims(s, s', p, c, w);
      case Spread(w) => SpreadClaims(s, s', p, c, w);
      case Insert(h) => InsertClaims(s, s', p, c, h);
      case _ => SameRowsSound(s, s', p, c);
    }
  }

  lemma RecordClaims(s: Ledger, s': Ledger, p: Policy, c: Chain, w: Handle)
    requires ClaimsSound(s, p, c) && Busy(s, w, Out)
    requires s'.rows == SucceedRow(s.rows, Head(s, w).key) && s'.workers == Next(s.workers, w)
    ensures ClaimsSound(s', p, c)
  {
    hide WorkerSound, AllApart, Next, SucceedRow;
    SucceedTouches(s.rows, Head(s, w).key);
    PassSound(s, s', p, c, w);
  }

  lemma SpreadClaims(s: Ledger, s': Ledger, p: Policy, c: Chain, w: Handle)
    requires ClaimsSound(s, p, c) && Busy(s, w, PutOff)
    requires s'.rows == SpreadStreak(s.rows, Head(s, w).key) && s'.workers == Next(s.workers, w)
    ensures ClaimsSound(s', p, c)
  {
    hide WorkerSound, AllApart, Next, SpreadStreak;
    SpreadTouches(s.rows, Head(s, w).key);
    PassSound(s, s', p, c, w);
  }

  lemma InsertClaims(s: Ledger, s': Ledger, p: Policy, c: Chain, h: Handle)
    requires ClaimsSound(s, p, c) && h in s.intakes
    requires s'.rows == IntakeRow(s.rows, s.intakes[h], p) && s'.workers == s.workers
    ensures ClaimsSound(s', p, c)
  {
    hide WorkerSound, AllApart, IntakeRow, OthersSame;
    IntakeTouches(s.rows, s.intakes[h], p);
    QuietSound(s, s', p, c);
  }

  lemma SameRowsSound(s: Ledger, s': Ledger, p: Policy, c: Chain)
    requires ClaimsSound(s, p, c) && s'.rows == s.rows && s'.workers.Keys <= s.workers.Keys
    requires forall w :: w in s'.workers ==> s'.workers[w] == s.workers[w]
    ensures ClaimsSound(s', p, c)
  {
    hide WorkerSound, AllApart, OthersSame;
    QuietSound(s, s', p, c);
  }

  /** One letter dealt with, the record of a success included. */
  ghost function Passed(s: Ledger, p: Policy, w: Handle, replay: Replay): Ledger
    requires Can(s, p, Act(w, replay))
  {
    var acted := Do(s, p, Act(w, replay));
    if Busy(acted, w, Out) then Do(acted, p, Record(w)) else acted
  }

  lemma PassedRows(s: Ledger, p: Policy, w: Handle, replay: Replay)
    requires Can(s, p, Act(w, replay))
    ensures var acted := ActOn(s, p, w, replay);
            Passed(s, p, w, replay).rows == if Busy(acted, w, Out) then SucceedRow(acted.rows, Head(acted, w).key) else acted.rows
  {
    hide Bump, Next, IntakeRow, SpreadStreak, SucceedRow, ActOn;
  }

  /** Each pass over a claimed letter that the worker survives settles it or spends one of its attempts. */
  lemma EachPassCounts(s: Ledger, p: Policy, c: Chain, w: Handle, replay: Replay)
    requires ClaimsSound(s, p, c) && Can(s, p, Act(w, replay))
    requires ChainOf(Head(s, w)) == Some(c) && Due(Head(s, w).entry, s.workers[w].at)
    ensures var k := Head(s, w).key;
            var passed := Passed(s, p, w, replay);
            && k in passed.rows
            && (passed.rows[k].entry.state == Retrying ==>
                  s.rows[k].entry.attempts + 1 == passed.rows[k].entry.attempts <= Budget(p)
                  && passed.rows[k].entry.nextAttemptAt == Some(NextAttemptAtMs(p, s.rows[k].entry.attempts, s.workers[w].at)))
  {
    var r := Head(s, w);
    assert WorkerSound(s.rows, s.workers[w], p, c);
    assert Fresh(s.rows, r);
    DueIsDecided(r.entry, s.workers[w].at, p);
    hide ClaimsSound, WorkerSound, Can, NextAttemptAtMs, Next, Decide, Bump, ChainOf, Due;
    PassedRows(s, p, w, replay);
    hide Passed;
    PassCounts(s, p, w, replay);
    hide ActOn;
  }

  lemma PassCounts(s: Ledger, p: Policy, w: Handle, replay: Replay)
    requires Busy(s, w, Ready) && Fresh(s.rows, Head(s, w))
    requires var d := Decide(Head(s, w).entry, s.workers[w].at, p); d.Park? || (d.Again? && Head(s, w).entry.attempts < Budget(p))
    ensures var k, acted := Head(s, w).key, ActOn(s, p, w, replay);
            && k in acted.rows && (acted.rows[k].entry.state == Retrying || !Busy(acted, w, Out))
            && (Busy(acted, w, Out) ==> Head(acted, w) == Head(s, w))
            && (acted.rows[k].entry.state == Retrying && !Busy(acted, w, Out) ==>
                  s.rows[k].entry.attempts + 1 == acted.rows[k].entry.attempts <= Budget(p)
                  && acted.rows[k].entry.nextAttemptAt == Some(NextAttemptAtMs(p, s.rows[k].entry.attempts, s.workers[w].at)))
  {
    hide NextAttemptAtMs, Decide, Bump;
  }
}
