/**
 * The bounds of the budget are met. With claims that exclude each other and `k` letters of an event open at once, any
 * number of publishes up to `k` schedules occurs; without such claims any number occurs for one letter.
 */
module RedriveRuns {
  import opened Wrappers
  import opened Redrive
  import opened RedriveLedger
  import opened RedriveBudget

  const EMPTY: Ledger := Ledger(0.0, map[], map[], map[], map[], map[])

  /** The steps lead from an empty ledger to `v` with at most `k` letters of the chain open on the way. */
  ghost predicate Leads(p: Policy, steps: seq<Step>, v: Ledger, c: Chain, k: nat) {
    Run(EMPTY, p, steps) && Narrow(EMPTY, p, steps, c, k) && After(EMPTY, p, steps) == v
  }

  /** And no two claims of a letter of the chain overlap. */
  ghost predicate LeadsApart(p: Policy, steps: seq<Step>, v: Ledger, c: Chain, k: nat) {
    Leads(p, steps, v, c, k) && ExclusiveRun(EMPTY, p, steps, c)
  }

  lemma {:induction false} RunThen(s: Ledger, p: Policy, steps: seq<Step>, step: Step, c: Chain, k: nat)
    requires Run(s, p, steps) && Narrow(s, p, steps, c, k)
    requires Can(After(s, p, steps), p, step) && Width(Do(After(s, p, steps), p, step), c) <= k
    ensures Run(s, p, steps + [step]) && Narrow(s, p, steps + [step], c, k)
    ensures After(s, p, steps + [step]) == Do(After(s, p, steps), p, step)
    ensures ExclusiveRun(s, p, steps, c) && Exclusive(After(s, p, steps), step, c) ==> ExclusiveRun(s, p, steps + [step], c)
    decreases |steps|
  {
    hide Can, Do, Width, Exclusive;
    if steps == [] {
      assert steps + [step] == [step] && [step][1..] == [];
      var s' := Do(s, p, step);
      assert Run(s', p, []) && Narrow(s', p, [], c, k) && After(s', p, []) == s' && ExclusiveRun(s', p, [], c);
    } else {
      RunThen(Do(s, p, steps[0]), p, steps[1..], step, c, k);
      assert (steps + [step])[1..] == steps[1..] + [step];
    }
  }

  /** One more step of a run in which claims exclude each other. */
  lemma OneStep(p: Policy, steps: seq<Step>, v: Ledger, c: Chain, k: nat, step: Step, v': Ledger)
      returns (steps': seq<Step>)
    requires LeadsApart(p, steps, v, c, k) && Can(v, p, step) && Exclusive(v, step, c) && v' == Do(v, p, step)
    requires Width(v', c) <= k
    ensures LeadsApart(p, steps', v', c, k)
  {
    hide Can, Do, Width, Exclusive, Run, After, Narrow, ExclusiveRun;
    RunThen(EMPTY, p, steps, step, c, k);
    steps' := steps + [step];
  }

  lemma Nothing(p: Policy, c: Chain, k: nat)
    ensures LeadsApart(p, [], EMPTY, c, k)
  {
    assert OpenLetters(EMPTY, c) == map[];
  }

  // ── Between two letters ─────────────────────────────────────────

  /** How a letter stands on the schedule that its event has been through `prior` times. */
  function Waiting(c: Chain, k: Key, prior: nat, due: real): Row {
    Row(k, Some(c.eventId), Entry(HandlerFailed, prior, Retrying, Some(due), 0))
  }

  /** The open letters of the chain are `keys`, all with `prior` attempts and due at the same time. */
  ghost predicate Schedule(rows: map<Key, Row>, c: Chain, prior: nat, keys: set<Key>, due: real) {
    && Keyed(rows)
    && (forall k :: k in keys ==> k.group == c.group && k in rows && rows[k] == Waiting(c, k, prior, due))
    && (forall k :: InChain(rows, k, c) && rows[k].entry.state == Retrying ==> k in keys)
  }

  /** Nobody is at work; the event was published `x` times, `y` of these unrecorded, and its chain has spent `most`. */
  ghost predicate AtRest(v: Ledger, c: Chain, most: nat, x: nat, y: nat) {
    && v.intakes == map[] && v.workers == map[] && IsPrior(v.rows, c, most)
    && Count(v.redriven, c) == x && Count(v.lost, c) == y
  }

  function LetterPlaces(keys: set<Key>): set<Place> {
    set k | k in keys :: Letter(k)
  }

  lemma {:induction false} AsManyPlaces(keys: set<Key>)
    ensures |LetterPlaces(keys)| == |keys|
    decreases |keys|
  {
    if k :| k in keys {
      AsManyPlaces(keys - {k});
      assert LetterPlaces(keys) == LetterPlaces(keys - {k}) + {Letter(k)};
    } else {
      assert LetterPlaces(keys) == {};
    }
  }

  lemma OpenIsScheduled(v: Ledger, c: Chain, prior: nat, keys: set<Key>, due: real)
    requires Schedule(v.rows, c, prior, keys, due)
    ensures v.intakes == map[] ==> Width(v, c) == |keys|
    ensures v.intakes.Keys == {0} ==> Width(v, c) <= |keys| + 1
  {
    var open := OpenLetters(v, c);
    assert |open| == |open.Keys|;
    AsManyPlaces(keys);
    forall k ensures Letter(k) in open <==> k in keys {
      OpenIsThere(v, c, Letter(k));
    }
    hide OpenLetters;
    if v.intakes == map[] {
      forall x ensures x in open <==> x in LetterPlaces(keys) {
        OpenIsThere(v, c, x);
      }
      assert open.Keys == LetterPlaces(keys);
    }
    if v.intakes.Keys == {0} {
      forall x | x in open ensures x in LetterPlaces(keys) + {Coming(0)} {
        OpenIsThere(v, c, x);
      }
      FewerPlaces(open.Keys, LetterPlaces(keys) + {Coming(0)});
    }
  }

  lemma {:induction false} FewerPlaces(few: set<Place>, many: set<Place>)
    requires few <= many
    ensures |few| <= |many|
    decreases |few|
  {
    if x :| x in few {
      FewerPlaces(few - {x}, many - {x});
    }
  }

  // ── Letters come in ─────────────────────────────────────────────

  lemma {:induction false} UnusedKey(keys: set<Key>, group: int) returns (k: Key)
    ensures k.group == group && forall j :: j in keys ==> j.offset < k.offset
    decreases |keys|
  {
    if j :| j in keys {
      k := UnusedKey(keys - {j}, group);
      k := k.(offset := 1 + if j.offset > k.offset then j.offset else k.offset);
    } else {
      k := Key(group, 0, 0, 0);
    }
  }

  lemma RegisteredWaits(p: Policy, c: Chain, k: Key, prior: nat, at: real)
    requires prior < Budget(p)
    ensures Row(k, Some(c.eventId), Registered(p, at, HandlerFailed, prior, 0)) == Waiting(c, k, prior, at + DelayMs(p, prior + 1))
  {
  }

  /** One more row on the schedule. */
  lemma ScheduleMore(rows: map<Key, Row>, c: Chain, prior: nat, keys: set<Key>, due: real, k: Key)
    requires Schedule(rows, c, prior, keys, due) && IsPrior(rows, c, prior) && k.group == c.group && k !in rows
    ensures var rows' := rows[k := Waiting(c, k, prior, due)]; Schedule(rows', c, prior, keys + {k}, due) && IsPrior(rows', c, prior)
  {
    var rows' := rows[k := Waiting(c, k, prior, due)];
    assert InChain(rows', k, c) && rows'[k].entry.attempts == prior;
  }

  function Reading(v: Ledger, c: Chain, key: Key, prior: nat): Ledger {
    v.(intakes := map[0 := Intake(Header(key, Some(c.eventId), HandlerFailed), prior, v.now)])
  }

  function Entered(v: Ledger, c: Chain, key: Key, prior: nat, due: real): Ledger {
    v.(rows := v.rows[key := Waiting(c, key, prior, due)])
  }

  lemma ReadStep(p: Policy, v: Ledger, c: Chain, key: Key, prior: nat)
    requires v.intakes == map[] && IsPrior(v.rows, c, prior) && key.group == c.group
    ensures var step := Reads(v, c, key, prior);
            Can(v, p, step) && Exclusive(v, step, c) && Do(v, p, step) == Reading(v, c, key, prior)
  {
    hide IsPrior;
  }

  lemma InsertStep(p: Policy, v: Ledger, c: Chain, key: Key, prior: nat)
    requires v.intakes == map[] && prior < Budget(p) && key !in v.rows
    ensures var s, row := Reading(v, c, key, prior), Waiting(c, key, prior, v.now + DelayMs(p, prior + 1));
            Can(s, p, Insert(0)) && Exclusive(s, Insert(0), c) && Do(s, p, Insert(0)) == v.(rows := v.rows[key := row])
  {
    RegisteredWaits(p, c, key, prior, v.now);
    hide Registered, DelayMs, Waiting;
    assert Reading(v, c, key, prior).intakes - {0} == map[];
  }

  function Reads(v: Ledger, c: Chain, key: Key, prior: nat): Step {
    ReadPrior(0, Header(key, Some(c.eventId), HandlerFailed), prior, v.now)
  }

  lemma OneMore(p: Policy, v: Ledger, c: Chain, prior: nat, keys: set<Key>, x: nat, y: nat)
    returns (key: Key, v': Ledger, keys': set<Key>)
    requires Schedule(v.rows, c, prior, keys, v.now + DelayMs(p, prior + 1)) && AtRest(v, c, prior, x, y)
    ensures key.group == c.group && key !in v.rows
    ensures v' == Entered(v, c, key, prior, v.now + DelayMs(p, prior + 1)) && v'.now == v.now
    ensures Schedule(v'.rows, c, prior, keys', v.now + DelayMs(p, prior + 1)) && AtRest(v', c, prior, x, y)
    ensures |keys'| == |keys| + 1
    ensures v'.rows.Keys <= v.rows.Keys + keys'
  {
    var due := v.now + DelayMs(p, prior + 1);
    assert v.intakes == map[] && IsPrior(v.rows, c, prior);
    hide *;
    key := UnusedKey(v.rows.Keys, c.group);
    keys' := MoreKeys(v.rows, c, prior, keys, due, key);
    v' := Entered(v, c, key, prior, due);
    RestAfterMore(v, v', c, prior, x, y);
  }

  ghost predicate Fits(p: Policy, v: Ledger, c: Chain, k: nat, step: Step, v': Ledger) {
    Can(v, p, step) && Exclusive(v, step, c) && v' == Do(v, p, step) && Width(v', c) <= k
  }

  lemma ReadFits(p: Policy, v: Ledger, c: Chain, k: nat, prior: nat, keys: set<Key>, due: real, key: Key)
    requires v.intakes == map[] && IsPrior(v.rows, c, prior) && key.group == c.group
    requires Schedule(v.rows, c, prior, keys, due) && |keys| < k
    ensures Fits(p, v, c, k, Reads(v, c, key, prior), Reading(v, c, key, prior))
  {
    ReadStep(p, v, c, key, prior);
    hide Can, Do, Exclusive, Schedule, Width, IsPrior;
    OpenIsScheduled(Reading(v, c, key, prior), c, prior, keys, due);
  }

  lemma InsertFits(p: Policy, v: Ledger, v': Ledger, c: Chain, k: nat, prior: nat, keys': set<Key>, due: real, key: Key)
    requires v.intakes == map[] && prior < Budget(p) && key !in v.rows && due == v.now + DelayMs(p, prior + 1)
    requires v' == Entered(v, c, key, prior, due)
    requires Schedule(v'.rows, c, prior, keys', due) && |keys'| <= k
    ensures Fits(p, Reading(v, c, key, prior), c, k, Insert(0), v')
  {
    InsertStep(p, v, c, key, prior);
    hide Can, Do, Exclusive, Schedule, Width, Waiting, DelayMs, Budget;
    OpenIsScheduled(v', c, prior, keys', due);
  }

  lemma TwoMore(p: Policy, steps: seq<Step>, u: Ledger, v: Ledger, w: Ledger, c: Chain, k: nat, first: Step,
      second: Step) returns (steps': seq<Step>)
    requires LeadsApart(p, steps, u, c, k) && Fits(p, u, c, k, first, v) && Fits(p, v, c, k, second, w)
    ensures LeadsApart(p, steps', w, c, k)
  {
    hide Can, Do, Exclusive, Width, LeadsApart;
    steps' := OneStep(p, steps, u, c, k, first, v);
    steps' := OneStep(p, steps', v, c, k, second, w);
  }

  lemma RestMeans(v: Ledger, c: Chain, most: nat, x: nat, y: nat)
    requires AtRest(v, c, most, x, y)
    ensures v.intakes == map[] && v.workers == map[] && IsPrior(v.rows, c, most)
  {
  }

  lemma Register(p: Policy, steps: seq<Step>, v: Ledger, c: Chain, k: nat, prior: nat, keys: set<Key>, x: nat, y: nat)
    returns (steps': seq<Step>, v': Ledger, keys': set<Key>)
    requires LeadsApart(p, steps, v, c, k) && prior < Budget(p) && |keys| < k
    requires Schedule(v.rows, c, prior, keys, v.now + DelayMs(p, prior + 1)) && AtRest(v, c, prior, x, y)
    ensures LeadsApart(p, steps', v', c, k) && v'.now == v.now && |keys'| == |keys| + 1
    ensures v'.rows.Keys <= v.rows.Keys + keys'
    ensures Schedule(v'.rows, c, prior, keys', v.now + DelayMs(p, prior + 1)) && AtRest(v', c, prior, x, y)
  {
    hide *;
    RestMeans(v, c, prior, x, y);
    var due, key := v.now + DelayMs(p, prior + 1), Key(0, 0, 0, 0);
    key, v', keys' := OneMore(p, v, c, prior, keys, x, y);
    ReadFits(p, v, c, k, prior, keys, due, key);
    InsertFits(p, v, v', c, k, prior, keys', due, key);
    steps' := TwoMore(p, steps, v, Reading(v, c, key, prior), v', c, k, Reads(v, c, key, prior), Insert(0));
  }

  lemma MoreKeys(rows: map<Key, Row>, c: Chain, prior: nat, keys: set<Key>, due: real, k: Key) returns (keys': set<Key>)
    requires Schedule(rows, c, prior, keys, due) && IsPrior(rows, c, prior) && k.group == c.group
    requires forall j :: j in rows.Keys ==> j.offset < k.offset
    ensures k !in rows && keys' == keys + {k} && |keys'| == |keys| + 1
    ensures var rows' := rows[k := Waiting(c, k, prior, due)]; Schedule(rows', c, prior, keys', due) && IsPrior(rows', c, prior)
  {
    assert k !in rows.Keys && k !in keys;
    keys' := keys + {k};
    ScheduleMore(rows, c, prior, keys, due, k);
  }

  lemma RestAfterMore(v: Ledger, v': Ledger, c: Chain, prior: nat, x: nat, y: nat)
    requires AtRest(v, c, prior, x, y) && v' == v.(rows := v'.rows) && IsPrior(v'.rows, c, prior)
    ensures AtRest(v', c, prior, x, y)
  {
    hide IsPrior;
  }

  lemma {:induction false} RegisterMany(p: Policy, steps: seq<Step>, v: Ledger, c: Chain, k: nat, prior: nat, n: nat,
      x: nat, y: nat)
    returns (steps': seq<Step>, v': Ledger, keys: set<Key>)
    requires LeadsApart(p, steps, v, c, k) && prior < Budget(p) && n <= k
    requires Schedule(v.rows, c, prior, {}, v.now + DelayMs(p, prior + 1)) && AtRest(v, c, prior, x, y)
    ensures LeadsApart(p, steps', v', c, k) && v'.now == v.now && |keys| == n
    ensures Schedule(v'.rows, c, prior, keys, v.now + DelayMs(p, prior + 1)) && AtRest(v', c, prior, x, y)
  {
    hide LeadsApart, Schedule, AtRest, DelayMs, Budget;
    if n == 0 {
      steps', v', keys := steps, v, {};
    } else {
      steps', v', keys := RegisterMany(p, steps, v, c, k, prior, n - 1, x, y);
      steps', v', keys := Register(p, steps', v', c, k, prior, keys, x, y);
    }
  }

  // ── Letters go out ──────────────────────────────────────────────

  /** One worker holds the one letter. */
  function Holding(v: Ledger, row: Row, at: real, phase: Phase): Ledger {
    v.(workers := map[0 := Worker(at, [row], phase)])
  }

  lemma ClaimStep(p: Policy, v: Ledger, c: Chain, key: Key, prior: nat, due: real)
    requires Usable(p) && v.workers == map[] && due <= v.now && key in v.rows
    requires v.rows[key] == Waiting(c, key, prior, due)
    ensures var row := v.rows[key];
            && Can(v, p, Claim(0, due, [row])) && Exclusive(v, Claim(0, due, [row]), c)
            && Do(v, p, Claim(0, due, [row])) == Holding(v, row, due, Ready)
  {
  }

  lemma WaitingIsDue(p: Policy, c: Chain, key: Key, prior: nat, due: real)
    requires Usable(p) && prior < Budget(p)
    ensures Decide(Waiting(c, key, prior, due).entry, due, p) == Again(prior + 1)
    ensures ChainOf(Waiting(c, key, prior, due)) == if key.group == c.group then Some(c) else Some(Chain(key.group, c.eventId))
  {
  }

  lemma WorksStep(p: Policy, v: Ledger, c: Chain, key: Key, prior: nat, due: real)
    requires Usable(p) && v.workers == map[] && prior < Budget(p)
    ensures var row := Waiting(c, key, prior, due);
            var s := Holding(v, row, due, Ready);
            && Can(s, p, Act(0, Works)) && Exclusive(s, Act(0, Works), c)
            && Do(s, p, Act(0, Works)) == Holding(v.(redriven := Bump(v.redriven, row)), row, due, Out)
  {
    WaitingIsDue(p, c, key, prior, due);
    hide Decide, Waiting, Bump;
    assert Holding(v, Waiting(c, key, prior, due), due, Ready).workers[0 := Worker(due, [Waiting(c, key, prior, due)], Out)]
        == map[0 := Worker(due, [Waiting(c, key, prior, due)], Out)];
  }

  lemma GoneStep(p: Policy, v: Ledger, c: Chain, key: Key, prior: nat, due: real)
    requires Usable(p) && v.workers == map[] && prior < Budget(p)
    ensures var row := Waiting(c, key, prior, due);
            var s := Holding(v, row, due, Ready);
            && Can(s, p, Act(0, Gone)) && Exclusive(s, Act(0, Gone), c)
            && Do(s, p, Act(0, Gone)) == v.(rows := ParkRow(v.rows, key))
  {
    WaitingIsDue(p, c, key, prior, due);
    hide Decide, ParkRow;
    assert Holding(v, Waiting(c, key, prior, due), due, Ready).workers - {0} == v.workers;
  }

  lemma RecordStep(p: Policy, v: Ledger, c: Chain, row: Row, due: real)
    requires v.workers == map[]
    ensures var s := Holding(v, row, due, Out);
            Can(s, p, Record(0)) && Exclusive(s, Record(0), c) && Do(s, p, Record(0)) == v.(rows := SucceedRow(v.rows, row.key))
  {
    assert Holding(v, row, due, Out).workers - {0} == v.workers;
  }

  lemma CrashStep(p: Policy, v: Ledger, c: Chain, row: Row, due: real)
    requires v.workers == map[]
    ensures var s := Holding(v, row, due, Out);
            Can(s, p, Crash(0)) && Exclusive(s, Crash(0), c) && Do(s, p, Crash(0)) == v.(lost := Bump(v.lost, row))
  {
    assert Holding(v, row, due, Out).workers - {0} == v.workers;
  }

  /** A letter that is settled leaves the schedule of the others as it is. */
  lemma ScheduleFewer(rows: map<Key, Row>, rows': map<Key, Row>, c: Chain, prior: nat, keys: set<Key>, due: real,
      key: Key)
    requires Schedule(rows, c, prior, keys, due) && key in keys && key in rows
    requires key in rows' && rows' == rows[key := rows[key].(entry := rows'[key].entry)]
    requires rows'[key].entry.state != Retrying
    ensures Schedule(rows', c, prior, keys - {key}, due)
  {
  }

  lemma SpentPrior(rows: map<Key, Row>, c: Chain, prior: nat, most: nat, key: Key, due: real)
    requires key in rows && rows[key] == Waiting(c, key, prior, due) && key.group == c.group
    requires IsPrior(rows, c, most) && prior <= most <= prior + 1
    ensures IsPrior(SucceedRow(rows, key), c, prior + 1) && IsPrior(ParkRow(rows, key), c, most)
  {
    var done, parked := SucceedRow(rows, key), ParkRow(rows, key);
    assert InChain(done, key, c) && done[key].entry.attempts == prior + 1;
    assert forall j :: InChain(done, j, c) <==> InChain(rows, j, c);
    assert forall j :: InChain(parked, j, c) <==> InChain(rows, j, c);
    if most > 0 {
      var j :| InChain(rows, j, c) && rows[j].entry.attempts == most;
      assert InChain(parked, j, c) && parked[j].entry.attempts == most;
    }
  }

  lemma HoldingFits(v: Ledger, c: Chain, prior: nat, keys: set<Key>, due: real)
    requires Schedule(v.rows, c, prior, keys, due) && v.intakes == map[]
    ensures Width(v, c) == |keys|
    ensures forall row, at, phase :: Width(Holding(v, row, at, phase), c) == |keys|
    ensures forall row, at, phase, redriven :: Width(Holding(v.(redriven := redriven), row, at, phase), c) == |keys|
    ensures forall lost :: Width(v.(lost := lost), c) == |keys|
  {
    hide Schedule, Width;
    OpenIsScheduled(v, c, prior, keys, due);
    forall row, at, phase ensures Width(Holding(v, row, at, phase), c) == |keys| {
      OpenIsScheduled(Holding(v, row, at, phase), c, prior, keys, due);
    }
    forall row, at, phase, redriven ensures Width(Holding(v.(redriven := redriven), row, at, phase), c) == |keys| {
      OpenIsScheduled(Holding(v.(redriven := redriven), row, at, phase), c, prior, keys, due);
    }
    forall lost ensures Width(v.(lost := lost), c) == |keys| {
      OpenIsScheduled(v.(lost := lost), c, prior, keys, due);
    }
  }

  /** A worker claims one of the letters and publishes it. */
  lemma Publish(p: Policy, steps: seq<Step>, v: Ledger, c: Chain, k: nat, prior: nat, keys: set<Key>, due: real,
      key: Key)
    returns (steps': seq<Step>, v': Ledger)
    requires LeadsApart(p, steps, v, c, k) && Usable(p) && prior < Budget(p) && |keys| <= k && key in keys
    requires Schedule(v.rows, c, prior, keys, due) && due <= v.now && v.intakes == map[] && v.workers == map[]
    ensures LeadsApart(p, steps', v', c, k) && key in v.rows && v.rows[key] == Waiting(c, key, prior, due)
    ensures v' == Holding(v.(redriven := Bump(v.redriven, v.rows[key])), v.rows[key], due, Out)
  {
    assert key in v.rows && v.rows[key] == Waiting(c, key, prior, due);
    var row := v.rows[key];
    HoldingFits(v, c, prior, keys, due);
    ClaimStep(p, v, c, key, prior, due);
    WorksStep(p, v, c, key, prior, due);
    hide *;
    steps' := OneStep(p, steps, v, c, k, Claim(0, due, [row]), Holding(v, row, due, Ready));
    v' := Holding(v.(redriven := Bump(v.redriven, row)), row, due, Out);
    steps' := OneStep(p, steps', Holding(v, row, due, Ready), c, k, Act(0, Works), v');
  }

  /** The record settles the letter and spends the attempt. */
  lemma Recorded(v: Ledger, c: Chain, prior: nat, most: nat, keys: set<Key>, due: real, key: Key, x: nat,
      y: nat) returns (v': Ledger)
    requires Schedule(v.rows, c, prior, keys, due) && AtRest(v, c, most, x, y) && prior <= most <= prior + 1
    requires key in keys
    ensures key in v.rows
    ensures v' == v.(rows := SucceedRow(v.rows, key), redriven := Bump(v.redriven, v.rows[key]))
    ensures Schedule(v'.rows, c, prior, keys - {key}, due) && AtRest(v', c, prior + 1, x + 1, y)
  {
    var row := v.rows[key];
    assert row == Waiting(c, key, prior, due) && key.group == c.group;
    v' := v.(rows := SucceedRow(v.rows, key), redriven := Bump(v.redriven, row));
    BumpCounts(v.redriven, row, c);
    SpentPrior(v.rows, c, prior, most, key, due);
    ScheduleFewer(v.rows, v'.rows, c, prior, keys, due, key);
    hide Schedule, IsPrior, SucceedRow, Bump;
  }

  lemma RedriveOne(p: Policy, steps: seq<Step>, v: Ledger, c: Chain, k: nat, prior: nat, most: nat, keys: set<Key>,
      due: real, key: Key, x: nat, y: nat)
    returns (steps': seq<Step>, v': Ledger)
    requires LeadsApart(p, steps, v, c, k) && Usable(p) && prior < Budget(p) && |keys| <= k && key in keys
    requires Schedule(v.rows, c, prior, keys, due) && due <= v.now && AtRest(v, c, most, x, y)
    requires prior <= most <= prior + 1
    ensures LeadsApart(p, steps', v', c, k) && v'.now == v.now
    ensures Schedule(v'.rows, c, prior, keys - {key}, due) && AtRest(v', c, prior + 1, x + 1, y)
  {
    assert v.intakes == map[] && v.workers == map[];
    assert key in v.rows && v.rows[key].key == key;
    hide *;
    var out;
    steps', out := Publish(p, steps, v, c, k, prior, keys, due, key);
    v' := Recorded(v, c, prior, most, keys, due, key, x, y);
    var row := v.rows[key];
    RecordStep(p, v.(redriven := Bump(v.redriven, row)), c, row, due);
    assert v'.intakes == map[];
    HoldingFits(v', c, prior, keys - {key}, due);
    assert |keys - {key}| <= |keys|;
    steps' := OneStep(p, steps', out, c, k, Record(0), v');
  }

  lemma {:induction false} RedriveAll(p: Policy, steps: seq<Step>, v: Ledger, c: Chain, k: nat, prior: nat, most: nat,
      keys: set<Key>, due: real, x: nat, y: nat)
    returns (steps': seq<Step>, v': Ledger)
    requires LeadsApart(p, steps, v, c, k) && Usable(p) && prior < Budget(p) && 0 < |keys| <= k
    requires Schedule(v.rows, c, prior, keys, due) && due <= v.now && AtRest(v, c, most, x, y)
    requires prior <= most <= prior + 1
    ensures LeadsApart(p, steps', v', c, k)
    ensures Schedule(v'.rows, c, prior, {}, due) && AtRest(v', c, prior + 1, x + |keys|, y)
    decreases |keys|
  {
    hide *;
    var key :| key in keys;
    steps', v' := RedriveOne(p, steps, v, c, k, prior, most, keys, due, key, x, y);
    if keys == {key} {
      assert keys - {key} == {};
    } else {
      assert |keys - {key}| == |keys| - 1;
      steps', v' := RedriveAll(p, steps', v', c, k, prior, prior + 1, keys - {key}, due, x + 1, y);
    }
  }

  // ── Rounds ──────────────────────────────────────────────────────

  /**
   * Nothing of the chain is open, it has spent `most`, and the event was published `x` times, `y` of these unrecorded.
   */
  ghost predicate Settled(v: Ledger, c: Chain, most: nat, x: nat, y: nat) {
    AtRest(v, c, most, x, y) && Schedule(v.rows, c, most, {}, 0.0)
  }

  lemma NoKeys(rows: map<Key, Row>, c: Chain, prior: nat, due: real, prior': nat, due': real)
    requires Schedule(rows, c, prior, {}, due)
    ensures Schedule(rows, c, prior', {}, due')
  {
  }

  lemma TickTo(p: Policy, steps: seq<Step>, v: Ledger, c: Chain, k: nat, prior: nat, most: nat, keys: set<Key>,
      due: real, x: nat, y: nat)
    returns (steps': seq<Step>, v': Ledger)
    requires LeadsApart(p, steps, v, c, k) && v.now <= due && |keys| <= k
    requires Schedule(v.rows, c, prior, keys, due) && AtRest(v, c, most, x, y)
    ensures LeadsApart(p, steps', v', c, k) && v' == v.(now := due)
    ensures Schedule(v'.rows, c, prior, keys, due) && AtRest(v', c, most, x, y)
  {
    v' := v.(now := due);
    assert v'.intakes == map[];
    assert Can(v, p, Tick(due)) && Exclusive(v, Tick(due), c) && Do(v, p, Tick(due)) == v';
    assert AtRest(v', c, most, x, y) by { hide IsPrior; }
    hide *;
    HoldingFits(v', c, prior, keys, due);
    steps' := OneStep(p, steps, v, c, k, Tick(due), v');
  }

  /** `n` letters come in with what was spent so far, and each is published once. */
  lemma Round(p: Policy, steps: seq<Step>, v: Ledger, c: Chain, k: nat, prior: nat, n: nat, x: nat, y: nat)
    returns (steps': seq<Step>, v': Ledger)
    requires LeadsApart(p, steps, v, c, k) && Usable(p) && prior < Budget(p) && 0 < n <= k && Settled(v, c, prior, x, y)
    ensures LeadsApart(p, steps', v', c, k) && Settled(v', c, prior + 1, x + n, y)
  {
    var due := v.now + DelayMs(p, prior + 1);
    assert v.now <= due;
    NoKeys(v.rows, c, prior, 0.0, prior, due);
    assert AtRest(v, c, prior, x, y);
    hide *;
    var keys;
    steps', v', keys := RegisterMany(p, steps, v, c, k, prior, n, x, y);
    steps', v' := TickTo(p, steps', v', c, k, prior, prior, keys, due, x, y);
    steps', v' := RedriveAll(p, steps', v', c, k, prior, prior, keys, due, x, y);
    NoKeys(v'.rows, c, prior, due, prior + 1, 0.0);
    assert Settled(v', c, prior + 1, x + n, y) by { Both(v', c, prior + 1, x + n, y); }
  }

  lemma Both(v: Ledger, c: Chain, most: nat, x: nat, y: nat)
    ensures AtRest(v, c, most, x, y) && Schedule(v.rows, c, most, {}, 0.0) ==> Settled(v, c, most, x, y)
  {
  }

  lemma {:induction false} FullRounds(p: Policy, steps: seq<Step>, v: Ledger, c: Chain, k: nat, rounds: nat, x: nat,
      y: nat)
    returns (steps': seq<Step>, v': Ledger)
    requires LeadsApart(p, steps, v, c, k) && Usable(p) && rounds <= Budget(p) && 0 < k && Settled(v, c, 0, x, y)
    ensures LeadsApart(p, steps', v', c, k) && Settled(v', c, rounds, x + rounds * k, y)
  {
    hide LeadsApart, Settled, Usable, Budget;
    if rounds == 0 {
      steps', v' := steps, v;
    } else {
      steps', v' := FullRounds(p, steps, v, c, k, rounds - 1, x, y);
      steps', v' := Round(p, steps', v', c, k, rounds - 1, k, x + (rounds - 1) * k, y);
      OneMoreRound(rounds, k);
    }
  }

  lemma OneMoreRound(rounds: int, k: int)
    ensures (rounds - 1) * k + k == rounds * k
  {
  }

  // ── Crashes ─────────────────────────────────────────────────────

  /** The worker dies between the publish and its record: the letter is where it was. */
  lemma CrashOne(p: Policy, steps: seq<Step>, v: Ledger, c: Chain, k: nat, prior: nat, key: Key, due: real, x: nat,
      y: nat)
    returns (steps': seq<Step>, v': Ledger)
    requires LeadsApart(p, steps, v, c, k) && Usable(p) && prior < Budget(p) && 1 <= k
    requires Schedule(v.rows, c, prior, {key}, due) && due <= v.now && AtRest(v, c, prior, x, y)
    ensures LeadsApart(p, steps', v', c, k) && v'.now == v.now
    ensures Schedule(v'.rows, c, prior, {key}, due) && AtRest(v', c, prior, x + 1, y + 1)
  {
    assert key in {key} && key in v.rows && v.rows[key] == Waiting(c, key, prior, due) && key.group == c.group;
    var row := v.rows[key];
    BumpCounts(v.redriven, row, c);
    BumpCounts(v.lost, row, c);
    v' := v.(redriven := Bump(v.redriven, row), lost := Bump(v.lost, row));
    assert AtRest(v', c, prior, x + 1, y + 1) by { hide IsPrior, Bump, Schedule; }
    hide *;
    var out;
    steps', out := Publish(p, steps, v, c, k, prior, {key}, due, key);
    CrashStep(p, v.(redriven := Bump(v.redriven, row)), c, row, due);
    HoldingFits(v', c, prior, {key}, due);
    steps' := OneStep(p, steps', out, c, k, Crash(0), v');
  }

  lemma {:induction false} CrashMany(p: Policy, steps: seq<Step>, v: Ledger, c: Chain, k: nat, key: Key, due: real,
      n: nat)
    returns (steps': seq<Step>, v': Ledger)
    requires LeadsApart(p, steps, v, c, k) && Usable(p) && 1 <= k
    requires Schedule(v.rows, c, 0, {key}, due) && due <= v.now && AtRest(v, c, 0, 0, 0)
    ensures LeadsApart(p, steps', v', c, k) && v'.now == v.now
    ensures Schedule(v'.rows, c, 0, {key}, due) && AtRest(v', c, 0, n, n)
  {
    if n == 0 {
      steps', v' := steps, v;
    } else {
      steps', v' := CrashMany(p, steps, v, c, k, key, due, n - 1);
      assert Budget(p) > 0;
      hide *;
      steps', v' := CrashOne(p, steps', v', c, k, 0, key, due, n - 1, n - 1);
    }
  }

  /** The letter turns out to be gone from the topic. */
  lemma ParkGone(p: Policy, steps: seq<Step>, v: Ledger, c: Chain, k: nat, key: Key, due: real, x: nat, y: nat)
    returns (steps': seq<Step>, v': Ledger)
    requires LeadsApart(p, steps, v, c, k) && Usable(p) && 1 <= k
    requires Schedule(v.rows, c, 0, {key}, due) && due <= v.now && AtRest(v, c, 0, x, y)
    ensures LeadsApart(p, steps', v', c, k) && Settled(v', c, 0, x, y)
  {
    assert Budget(p) > 0 && key in {key} && key in v.rows && v.rows[key] == Waiting(c, key, 0, due) && key.group == c.group;
    var row := v.rows[key];
    v' := v.(rows := ParkRow(v.rows, key));
    assert Settled(v', c, 0, x, y) && Schedule(v'.rows, c, 0, {}, due) by { GoneSettles(v, v', c, key, due, x, y); }
    assert v'.intakes == map[] && v.intakes == map[] && v.workers == map[];
    hide *;
    HoldingFits(v, c, 0, {key}, due);
    HoldingFits(v', c, 0, {}, due);
    ClaimStep(p, v, c, key, 0, due);
    GoneStep(p, v, c, key, 0, due);
    steps' := OneStep(p, steps, v, c, k, Claim(0, due, [row]), Holding(v, row, due, Ready));
    steps' := OneStep(p, steps', Holding(v, row, due, Ready), c, k, Act(0, Gone), v');
  }

  lemma GoneSettles(v: Ledger, v': Ledger, c: Chain, key: Key, due: real, x: nat, y: nat)
    requires Schedule(v.rows, c, 0, {key}, due) && AtRest(v, c, 0, x, y) && key in v.rows && v'.rows.Keys == v.rows.Keys
    requires v' == v.(rows := ParkRow(v.rows, key))
    ensures Settled(v', c, 0, x, y) && Schedule(v'.rows, c, 0, {}, due)
  {
    assert key in {key} && {key} - {key} == {};
    SpentPrior(v.rows, c, 0, 0, key, due);
    ScheduleFewer(v.rows, v'.rows, c, 0, {key}, due, key);
    NoKeys(v'.rows, c, 0, due, 0, 0.0);
    hide Schedule, IsPrior, ParkRow;
  }

  lemma EmptySettled(c: Chain)
    ensures Settled(EMPTY, c, 0, 0, 0)
  {
  }

  lemma OnlyOne(keys: set<Key>) returns (key: Key)
    requires |keys| == 1
    ensures keys == {key}
  {
    key :| key in keys;
    assert |keys - {key}| == 0;
  }

  lemma FirstLetter(p: Policy, c: Chain, k: nat) returns (steps: seq<Step>, v: Ledger, key: Key)
    requires Usable(p) && 1 <= k
    ensures LeadsApart(p, steps, v, c, k) && v.now == DelayMs(p, 1)
    ensures Schedule(v.rows, c, 0, {key}, DelayMs(p, 1)) && AtRest(v, c, 0, 0, 0) && v.rows.Keys <= {key}
  {
    var due := DelayMs(p, 1);
    EmptyWaits(p, c, k);
    hide *;
    assert EMPTY.now + DelayMs(p, 0 + 1) == due;
    var keys;
    steps, v, keys := Register(p, [], EMPTY, c, k, 0, {}, 0, 0);
    key := OnlyOne(keys);
    assert EMPTY.rows.Keys == {};
    steps, v := TickTo(p, steps, v, c, k, 0, 0, {key}, due, 0, 0);
  }

  lemma EmptyWaits(p: Policy, c: Chain, k: nat)
    requires Usable(p)
    ensures LeadsApart(p, [], EMPTY, c, k) && Budget(p) > 0 && EMPTY.now <= DelayMs(p, 1)
    ensures Schedule(EMPTY.rows, c, 0, {}, DelayMs(p, 1)) && AtRest(EMPTY, c, 0, 0, 0)
  {
    Nothing(p, c, k);
    EmptySettled(c);
    NoKeys(EMPTY.rows, c, 0, 0.0, 0, DelayMs(p, 1));
  }

  /** Any number of publishes is lost to crashes before the schedule is touched. */
  lemma LoseSome(p: Policy, c: Chain, k: nat, y: nat) returns (steps: seq<Step>, v: Ledger)
    requires Usable(p) && 1 <= k
    ensures LeadsApart(p, steps, v, c, k) && Settled(v, c, 0, y, y)
  {
    hide *;
    var due, key := DelayMs(p, 1), Key(0, 0, 0, 0);
    steps, v, key := FirstLetter(p, c, k);
    steps, v := CrashMany(p, steps, v, c, k, key, due, y);
    steps, v := ParkGone(p, steps, v, c, k, key, due, y, y);
  }

  // ── The exact bound ─────────────────────────────────────────────

  ghost predicate Republishes(p: Policy, c: Chain, k: nat, steps: seq<Step>, x: nat, y: nat) {
    && Run(EMPTY, p, steps) && ExclusiveRun(EMPTY, p, steps, c) && Narrow(EMPTY, p, steps, c, k)
    && Count(After(EMPTY, p, steps).redriven, c) == x && Count(After(EMPTY, p, steps).lost, c) == y
  }

  lemma SettledMeans(p: Policy, steps: seq<Step>, v: Ledger, c: Chain, k: nat, most: nat, x: nat, y: nat)
    requires LeadsApart(p, steps, v, c, k) && Settled(v, c, most, x, y)
    ensures Republishes(p, c, k, steps, x, y)
  {
  }

  lemma Reach(p: Policy, c: Chain, k: nat, n: nat, y: nat) returns (steps: seq<Step>)
    requires Usable(p) && 1 <= k && n <= k * Budget(p)
    ensures Republishes(p, c, k, steps, n + y, y)
  {
    hide *;
    var v;
    steps, v := LoseSome(p, c, k, y);
    var rounds, rest := n / k, n % k;
    Quotient(n, k, Budget(p));
    steps, v := FullRounds(p, steps, v, c, k, rounds, y, y);
    if rest > 0 {
      steps, v := Round(p, steps, v, c, k, rounds, rest, y + rounds * k, y);
      SettledMeans(p, steps, v, c, k, rounds + 1, n + y, y);
    } else {
      SettledMeans(p, steps, v, c, k, rounds, n + y, y);
    }
  }

  lemma Quotient(n: nat, k: nat, budget: nat)
    requires k > 0 && n <= k * budget
    ensures n / k <= budget && n == (n / k) * k + n % k && (n % k > 0 ==> n / k < budget)
  {
    assert n == (n / k) * k + n % k;
    TimesMonotone(n / k, budget, k);
    TimesMonotone(n / k, budget + 1, k);
  }

  lemma TimesMonotone(a: int, b: int, k: nat)
    ensures a >= b ==> a * k >= b * k
  {
  }

  /**
   * The exact bound. With at most `k` letters of an event open at once and claims that exclude each other, the numbers
   * of publishes `x` and of lost records `y` that occur are those with `y <= x <= k` schedules more than `y`, for every
   * policy the worker accepts.
   */
  lemma RedrivenExactly(p: Policy, c: Chain, k: nat, x: nat, y: nat)
    requires Usable(p) && 1 <= k
    ensures (exists steps :: Republishes(p, c, k, steps, x, y)) <==> y <= x <= k * Budget(p) + y
  {
    assert Initial(EMPTY);
    forall steps | Republishes(p, c, k, steps, x, y) ensures y <= x <= k * Budget(p) + y {
      RedrivenWithinWidth(EMPTY, p, steps, c, k);
      LostWithinRedriven(EMPTY, p, steps, c);
    }
    if y <= x <= k * Budget(p) + y {
      hide *;
      var steps := Reach(p, c, k, x - y, y);
    }
  }

  /** The cap the repository promises: one schedule, a crash's lost records apart. */
  ghost predicate Capped(p: Policy, c: Chain, k: nat) {
    forall steps, x: nat, y: nat :: Republishes(p, c, k, steps, x, y) ==> x <= Budget(p) + y
  }

  /** It holds exactly if no letter is registered while another of its event is open. */
  lemma CappedIffOneAtATime(p: Policy, c: Chain, k: nat)
    requires Usable(p)
    ensures Capped(p, c, k) <==> k <= 1
  {
    if k <= 1 {
      forall steps, x: nat, y: nat | Republishes(p, c, k, steps, x, y) ensures x <= Budget(p) + y {
        assert Initial(EMPTY);
        RedrivenWithinWidth(EMPTY, p, steps, c, k);
      }
    } else {
      var twice: nat := Budget(p) + Budget(p);
      assert Budget(p) < twice <= k * Budget(p);
      hide *;
      RedrivenExactly(p, c, k, twice, 0);
      var steps :| Republishes(p, c, k, steps, twice, 0);
      NotCapped(p, c, k, steps, twice);
    }
  }

  lemma NotCapped(p: Policy, c: Chain, k: nat, steps: seq<Step>, x: nat)
    requires Budget(p) < x && Republishes(p, c, k, steps, x, 0)
    ensures !Capped(p, c, k)
  {
    hide Republishes, Budget;
  }

  // ── Claims that overlap ─────────────────────────────────────────

  /** The workers from `i` up to `n` all hold the same letter. */
  function Crowd(row: Row, at: real, i: nat, n: nat): map<Handle, Worker> {
    if n <= i then map[] else Crowd(row, at, i, n - 1)[n - 1 := Worker(at, [row], Ready)]
  }

  /** There is one letter in the ledger, published `x` times, every time with a record. */
  predicate OneLetter(v: Ledger, c: Chain, key: Key, x: nat) {
    v.rows.Keys <= {key} && v.intakes == map[] && Count(v.redriven, c) == x && Count(v.lost, c) == 0
  }

  lemma OneLetterFits(v: Ledger, c: Chain, key: Key)
    requires v.rows.Keys <= {key} && v.intakes == map[]
    ensures Width(v, c) <= 1
  {
    var open := OpenLetters(v, c);
    assert |open| == |open.Keys|;
    hide OpenLetters;
    forall x | x in open ensures x in {Letter(key)} {
      OpenIsThere(v, c, x);
    }
    FewerPlaces(open.Keys, {Letter(key)});
  }

  /** One more step of any run. */
  lemma AnyStep(p: Policy, steps: seq<Step>, v: Ledger, c: Chain, step: Step, key: Key) returns (steps': seq<Step>)
    requires Leads(p, steps, v, c, 1) && Can(v, p, step) && Do(v, p, step).rows.Keys <= {key}
    requires Do(v, p, step).intakes == map[]
    ensures Leads(p, steps', Do(v, p, step), c, 1)
  {
    OneLetterFits(Do(v, p, step), c, key);
    hide Can, Do, Width, Run, After, Narrow;
    RunThen(EMPTY, p, steps, step, c, 1);
    steps' := steps + [step];
  }

  /** The lock of a claim is gone when its transaction ends: the row is still due, and the next worker claims it too. */
  lemma {:induction false} ClaimTogether(p: Policy, steps: seq<Step>, v: Ledger, c: Chain, key: Key, due: real, n: nat)
    returns (steps': seq<Step>)
    requires Leads(p, steps, v, c, 1) && Usable(p) && v.workers == map[] && due <= v.now && v.intakes == map[]
    requires v.rows.Keys <= {key} && key in v.rows && v.rows[key] == Waiting(c, key, 0, due)
    ensures Leads(p, steps', v.(workers := Crowd(v.rows[key], due, 0, n)), c, 1)
  {
    if n == 0 {
      steps' := steps;
      assert v.(workers := Crowd(v.rows[key], due, 0, 0)) == v;
    } else {
      CrowdClaims(p, v, c, key, due, n - 1);
      hide *;
      steps' := ClaimTogether(p, steps, v, c, key, due, n - 1);
      steps' := AnyStep(p, steps', v.(workers := Crowd(v.rows[key], due, 0, n - 1)), c, Claim(n - 1, due, [v.rows[key]]), key);
    }
  }

  lemma CrowdClaims(p: Policy, v: Ledger, c: Chain, key: Key, due: real, n: nat)
    requires Usable(p) && due <= v.now && key in v.rows && v.rows[key] == Waiting(c, key, 0, due)
    ensures var s, claim := v.(workers := Crowd(v.rows[key], due, 0, n)), Claim(n, due, [v.rows[key]]);
            Can(s, p, claim) && Do(s, p, claim) == v.(workers := Crowd(v.rows[key], due, 0, n + 1))
  {
    var row := v.rows[key];
    assert Crowd(row, due, 0, n)[n := Worker(due, [row], Ready)] == Crowd(row, due, 0, n + 1);
    CrowdIs(row, due, 0, n);
    hide Crowd;
  }

  lemma {:induction false} CrowdIs(row: Row, at: real, i: nat, n: nat)
    ensures forall h :: h in Crowd(row, at, i, n) <==> i <= h < n
    ensures i < n ==> Crowd(row, at, i, n)[i] == Worker(at, [row], Ready) && Crowd(row, at, i, n) - {i} == Crowd(row, at, i + 1, n)
  {
    if i < n {
      CrowdIs(row, at, i, n - 1);
      if i == n - 1 {
        assert Crowd(row, at, i, n - 1) == map[];
      }
    }
  }

  /** The first of the crowd publishes the letter and records it; none of the others looks again. */
  lemma CrowdStep(p: Policy, v: Ledger, c: Chain, key: Key, due: real, i: nat, n: nat, x: nat)
      returns (out: Ledger, v': Ledger)
    requires Usable(p) && i < n && key.group == c.group
    requires OneLetter(v, c, key, x) && v.workers == Crowd(Waiting(c, key, 0, due), due, i, n)
    ensures Can(v, p, Act(i, Works)) && out == Do(v, p, Act(i, Works)) && out.rows.Keys <= {key} && out.intakes == map[]
    ensures Can(out, p, Record(i)) && v' == Do(out, p, Record(i))
    ensures OneLetter(v', c, key, x + 1) && v'.workers == Crowd(Waiting(c, key, 0, due), due, i + 1, n)
  {
    var row := Waiting(c, key, 0, due);
    CrowdIs(row, due, i, n);
    assert Budget(p) > 0;
    WaitingIsDue(p, c, key, 0, due);
    BumpCounts(v.redriven, row, c);
    hide Crowd, Decide, Bump, Usable, Waiting, Count;
    out := Do(v, p, Act(i, Works));
    v' := Do(out, p, Record(i));
    assert out.workers - {i} == v.workers - {i};
  }

  lemma {:induction false} CrowdPublishes(p: Policy, steps: seq<Step>, v: Ledger, c: Chain, key: Key, due: real, i: nat,
      n: nat)
    returns (steps': seq<Step>, v': Ledger)
    requires Leads(p, steps, v, c, 1) && Usable(p) && i <= n && key.group == c.group
    requires OneLetter(v, c, key, i) && v.workers == Crowd(Waiting(c, key, 0, due), due, i, n)
    ensures Leads(p, steps', v', c, 1) && OneLetter(v', c, key, n)
    decreases n - i
  {
    steps', v' := steps, v;
    if i < n {
      hide *;
      var out, next := CrowdStep(p, v, c, key, due, i, n, i);
      assert next.rows.Keys <= {key} && next.intakes == map[] by { OneLetterMeans(next, c, key, i + 1); }
      steps' := AnyStep(p, steps', v, c, Act(i, Works), key);
      steps' := AnyStep(p, steps', out, c, Record(i), key);
      steps', v' := CrowdPublishes(p, steps', next, c, key, due, i + 1, n);
    }
  }

  lemma OneLetterMeans(v: Ledger, c: Chain, key: Key, x: nat)
    requires OneLetter(v, c, key, x)
    ensures v.rows.Keys <= {key} && v.intakes == map[]
  {
  }

  /**
   * When claims overlap no bound holds, for any policy: one letter is published any number of times, each time with a
   * record and without a crash, when that many workers claim it before the first of them has settled it.
   */
  lemma OverlappingClaimsUnbounded(p: Policy, c: Chain, n: nat) returns (steps: seq<Step>)
    requires Usable(p)
    ensures Run(EMPTY, p, steps) && Narrow(EMPTY, p, steps, c, 1)
    ensures var s := After(EMPTY, p, steps); Count(s.redriven, c) == n && Count(s.lost, c) == 0 && |s.rows| <= 1
  {
    var due, v, key := DelayMs(p, 1), EMPTY, Key(0, 0, 0, 0);
    steps, v, key := FirstLetter(p, c, 1);
    assert key in {key} && key in v.rows && v.rows[key] == Waiting(c, key, 0, due) && key.group == c.group;
    var s := v.(workers := Crowd(v.rows[key], due, 0, n));
    assert OneLetter(s, c, key, 0);
    hide Waiting, DelayMs, Crowd, Run, Narrow, After, IsPrior;
    steps := ClaimTogether(p, steps, v, c, key, due, n);
    steps, v := CrowdPublishes(p, steps, s, c, key, due, 0, n);
    assert |v.rows| == |v.rows.Keys| && |v.rows.Keys| <= |{key}| by { FewerKeys(v.rows.Keys, key); }
  }

  lemma FewerKeys(keys: set<Key>, key: Key)
    requires keys <= {key}
    ensures |keys| <= 1
  {
    if keys != {} {
      assert keys == {key};
    }
  }
}
