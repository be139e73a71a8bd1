/**
 * How often one event can come back. The letters of a chain share their attempts only through what a later letter
 * inherits when it is registered, so what counts is how many of them are open at once.
 */
module RedriveBudget {
  import opened Wrappers
  import opened Redrive
  import opened RedriveLedger

  // ── What is left to spend ───────────────────────────────────────

  /** Attempts left below `m`, all together. */
  ghost function Room<K(!new)>(spent: map<K, nat>, m: nat): int {
    if spent == map[] then 0
    else
      var k :| k in spent;
      m - spent[k] + Room(spent - {k}, m)
  }

  ghost predicate AtMost<K(!new)>(spent: map<K, nat>, m: nat) {
    forall k :: k in spent ==> spent[k] <= m
  }

  lemma {:induction false} RoomSplit<K(!new)>(spent: map<K, nat>, k: K, m: nat)
    requires k in spent
    ensures Room(spent, m) == m - spent[k] + Room(spent - {k}, m)
    decreases |spent|
  {
    var j :| j in spent && Room(spent, m) == m - spent[j] + Room(spent - {j}, m);
    if j != k {
      RoomSplit(spent - {j}, k, m);
      RoomSplit(spent - {k}, j, m);
      assert spent - {j} - {k} == spent - {k} - {j};
    }
  }

  lemma RoomSet<K(!new)>(spent: map<K, nat>, k: K, n: nat, m: nat)
    ensures Room(spent[k := n], m) == m - n + Room(spent - {k}, m)
  {
    RoomSplit(spent[k := n], k, m);
    assert spent[k := n] - {k} == spent - {k};
  }

  lemma {:induction false} RoomFewer<K(!new)>(fewer: map<K, nat>, spent: map<K, nat>, m: nat)
    requires AtMost(spent, m) && fewer.Keys <= spent.Keys && forall k :: k in fewer ==> fewer[k] == spent[k]
    ensures Room(fewer, m) <= Room(spent, m)
    decreases |spent|
  {
    if spent == map[] {
      assert fewer == map[];
    } else {
      var k :| k in spent;
      RoomSplit(spent, k, m);
      RoomFewer(fewer - {k}, spent - {k}, m);
      if k in fewer {
        RoomSplit(fewer, k, m);
      } else {
        assert fewer - {k} == fewer;
      }
    }
  }

  lemma {:induction false} RoomMore<K(!new)>(spent: map<K, nat>, m: nat, more: nat)
    ensures Room(spent, m + more) == Room(spent, m) + more * |spent|
    decreases |spent|
  {
    if spent != map[] {
      var k :| k in spent;
      RoomSplit(spent, k, m);
      RoomSplit(spent, k, m + more);
      RoomMore(spent - {k}, m, more);
      TimesOneMore(more, |spent|);
    }
  }

  lemma TimesOneMore(a: int, n: int)
    ensures a * n == a * (n - 1) + a
  {
  }

  /** Keys with something left leave that much room. */
  lemma {:induction false} RoomFor<K(!new)>(spent: map<K, nat>, open: set<K>, m: nat)
    requires AtMost(spent, m) && open <= spent.Keys && forall k :: k in open ==> spent[k] < m
    ensures |open| <= Room(spent, m)
    decreases |spent|
  {
    if spent == map[] {
      assert open == {};
    } else {
      var k :| k in spent;
      RoomSplit(spent, k, m);
      RoomFor(spent - {k}, open - {k}, m);
    }
  }

  // ── Places on the schedule ──────────────────────────────────────

  /** A letter that is to be tried again, or one about to be registered. */
  datatype Place = Letter(k: Key) | Coming(h: Handle)

  predicate Open(s: Ledger, c: Chain, place: Place) {
    match place
    case Letter(k) => InChain(s.rows, k, c) && s.rows[k].entry.state == Retrying
    case Coming(h) => h in s.intakes && LetterChain(s.intakes[h].letter) == Some(c) && s.intakes[h].letter.key !in s.rows
  }

  function SpentAt(s: Ledger, c: Chain, place: Place): nat
    requires Open(s, c, place)
  {
    match place
    case Letter(k) => s.rows[k].entry.attempts
    case Coming(h) => s.intakes[h].prior
  }

  function Places(s: Ledger): set<Place> {
    (set k | k in s.rows :: Letter(k)) + (set h | h in s.intakes :: Coming(h))
  }

  /** The open letters of the chain with the attempts each has spent or inherited. */
  function OpenLetters(s: Ledger, c: Chain): map<Place, nat> {
    map x | x in Places(s) && Open(s, c, x) :: SpentAt(s, c, x)
  }

  /** How many letters of the chain are open at once. */
  function Width(s: Ledger, c: Chain): nat {
    |OpenLetters(s, c)|
  }

  lemma OpenIsThere(s: Ledger, c: Chain, x: Place)
    ensures x in OpenLetters(s, c) <==> Open(s, c, x)
    ensures Open(s, c, x) ==> OpenLetters(s, c)[x] == SpentAt(s, c, x)
  {
  }

  // ── Publishes not yet recorded ──────────────────────────────────

  predicate OutWith(w: Worker, c: Chain) {
    w.claimed != [] && w.phase == Out && ChainOf(w.claimed[0]) == Some(c)
  }

  /** The workers whose publish of the chain's event is not recorded yet. */
  function Pending(workers: map<Handle, Worker>, c: Chain): set<Handle> {
    set w | w in workers && OutWith(workers[w], c)
  }

  /** Publishes that are neither lost nor still to be recorded. */
  function Balance(s: Ledger, c: Chain): int {
    Count(s.redriven, c) - Count(s.lost, c) - |Pending(s.workers, c)|
  }

  /** The publishes the ledger takes note of with this step. */
  predicate Notes(s: Ledger, p: Policy, step: Step, c: Chain) {
    match step
    case Record(w) => Busy(s, w, Out) && ChainOf(Head(s, w)) == Some(c)
    case Act(w, replay) =>
      Busy(s, w, Ready) && Decide(Head(s, w).entry, s.workers[w].at, p).Again? && replay == Refuses(true) && ChainOf(Head(s, w)) == Some(c)
    case _ => false
  }

  lemma BumpCounts(m: map<Chain, nat>, r: Row, c: Chain)
    ensures Count(Bump(m, r), c) == Count(m, c) + if ChainOf(r) == Some(c) then 1 else 0
  {
  }

  /** On to the next letter: whatever was out is not any more. */
  lemma NextPending(workers: map<Handle, Worker>, w: Handle, c: Chain)
    requires w in workers && workers[w].claimed != []
    ensures |Pending(Next(workers, w), c)| == |Pending(workers, c)| - if OutWith(workers[w], c) then 1 else 0
  {
    assert Pending(Next(workers, w), c) == Pending(workers, c) - {w};
  }

  lemma GonePending(workers: map<Handle, Worker>, w: Handle, c: Chain)
    requires w in workers
    ensures |Pending(workers - {w}, c)| == |Pending(workers, c)| - if OutWith(workers[w], c) then 1 else 0
  {
    assert Pending(workers - {w}, c) == Pending(workers, c) - {w};
  }

  lemma StayPending(workers: map<Handle, Worker>, w: Handle, c: Chain, phase: Phase)
    requires w in workers && workers[w].claimed != [] && workers[w].phase == Ready
    ensures |Pending(workers[w := workers[w].(phase := phase)], c)|
         == |Pending(workers, c)| + if phase == Out && ChainOf(workers[w].claimed[0]) == Some(c) then 1 else 0
  {
    hide ChainOf;
    var workers' := workers[w := workers[w].(phase := phase)];
    assert w !in Pending(workers, c);
    assert Pending(workers', c) == Pending(workers, c) + if OutWith(workers'[w], c) then {w} else {};
  }

  lemma ClaimPending(workers: map<Handle, Worker>, w: Handle, at: real, claimed: seq<Row>, c: Chain)
    requires w !in workers
    ensures Pending(workers[w := Worker(at, claimed, Ready)], c) == Pending(workers, c)
  {
  }

  lemma ActBalance(s: Ledger, p: Policy, w: Handle, replay: Replay, c: Chain)
    requires Busy(s, w, Ready)
    ensures Balance(ActOn(s, p, w, replay), c) == Balance(s, c) + if Notes(s, p, Act(w, replay), c) then 1 else 0
  {
    hide Next, Pending, Bump, Count, ChainOf, Decide, NextAttemptAtMs, ParkRow, PutOffRow;
    BumpCounts(s.redriven, Head(s, w), c);
    StayPending(s.workers, w, c, Out);
    StayPending(s.workers, w, c, PutOff);
    NextPending(s.workers, w, c);
  }

  lemma StepBalance(s: Ledger, p: Policy, step: Step, c: Chain)
    requires Can(s, p, step)
    ensures Balance(Do(s, p, step), c) == Balance(s, c) + if Notes(s, p, step, c) then 1 else 0
  {
    hide Next, Pending, Bump, Count, ActOn, IsPrior, SucceedRow, SpreadStreak, IntakeRow;
    match step {
      case Act(w, replay) => ActBalance(s, p, w, replay, c);
      case Record(w) => NextPending(s.workers, w, c);
      case Spread(w) => NextPending(s.workers, w, c);
      case Claim(w, at, claimed) => ClaimPending(s.workers, w, at, claimed, c);
      case Crash(w) =>
        GonePending(s.workers, w, c);
        if Busy(s, w, Out) {
          BumpCounts(s.lost, Head(s, w), c);
        }
      case _ =>
    }
  }

  // ── Every publish is paid for ───────────────────────────────────

  /**
   * `m` is what the chain has spent, no open letter has inherited more, and the publishes taken note of fit into `k`
   * letters' worth of attempts after what the open letters have left below `m`.
   */
  ghost predicate Paid(s: Ledger, c: Chain, k: nat, m: nat) {
    IsPrior(s.rows, c, m) && AtMost(OpenLetters(s, c), m) && Balance(s, c) + Room(OpenLetters(s, c), m) <= k * m
  }

  ghost predicate WithinBudget(rows: map<Key, Row>, p: Policy, c: Chain) {
    forall k :: InChain(rows, k, c) ==> rows[k].entry.attempts <= Budget(p)
  }

  /** The chain spent no attempt and none of its letters came back to the schedule. */
  predicate NoneSpent(rows: map<Key, Row>, rows': map<Key, Row>, c: Chain) {
    && rows'.Keys == rows.Keys
    && forall j :: j in rows ==>
         && ChainOf(rows'[j]) == ChainOf(rows[j])
         && (InChain(rows, j, c) ==> rows'[j].entry.attempts == rows[j].entry.attempts)
         && (InChain(rows, j, c) && rows'[j].entry.state == Retrying ==> rows[j].entry.state == Retrying)
  }

  /** One attempt of the letter `k` was spent. */
  predicate OneSpent(rows: map<Key, Row>, rows': map<Key, Row>, k: Key) {
    && rows'.Keys == rows.Keys && k in rows && rows[k].entry.state == Retrying
    && rows'[k].entry.attempts == rows[k].entry.attempts + 1
    && forall j :: j in rows ==>
         && ChainOf(rows'[j]) == ChainOf(rows[j])
         && (j != k ==> rows'[j].entry.attempts == rows[j].entry.attempts && rows'[j].entry.state == rows[j].entry.state)
  }

  lemma QuietPaid(s: Ledger, s': Ledger, p: Policy, c: Chain, k: nat, m: nat)
    requires Paid(s, c, k, m) && WithinBudget(s.rows, p, c) && NoneSpent(s.rows, s'.rows, c)
    requires s'.intakes.Keys <= s.intakes.Keys && forall h :: h in s'.intakes ==> s'.intakes[h] == s.intakes[h]
    requires Balance(s', c) == Balance(s, c)
    ensures Paid(s', c, k, m) && WithinBudget(s'.rows, p, c)
  {
    assert forall j :: InChain(s'.rows, j, c) <==> InChain(s.rows, j, c);
    var open, open' := OpenLetters(s, c), OpenLetters(s', c);
    assert IsPrior(s'.rows, c, m) && WithinBudget(s'.rows, p, c);
    hide IsPrior, WithinBudget, Balance, OpenLetters;
    forall x | x in open' ensures x in open && open'[x] == open[x] {
      OpenIsThere(s, c, x);
      OpenIsThere(s', c, x);
    }
    RoomFewer(open', open, m);
  }

  /** Other chains spend nothing of this one. */
  lemma ElsewhereSpent(rows: map<Key, Row>, rows': map<Key, Row>, k: Key, c: Chain, m: nat)
    requires OneSpent(rows, rows', k) && IsPrior(rows, c, m)
    ensures IsPrior(rows', c, if InChain(rows, k, c) then Raised(m, rows[k].entry.attempts) else m)
  {
    assert forall j :: InChain(rows', j, c) <==> InChain(rows, j, c);
    if m > 0 {
      var j :| InChain(rows, j, c) && rows[j].entry.attempts == m;
      assert InChain(rows', j, c);
    }
  }

  /** What the chain has spent after an attempt of a letter that had spent `spent`. */
  function Raised(m: nat, spent: nat): nat {
    if spent == m then m + 1 else m
  }

  /** An attempt of an open letter pays for one publish, if need be by raising what the chain has spent. */
  lemma RoomSpent<K(!new)>(open: map<K, nat>, open': map<K, nat>, x: K, k: nat, m: nat)
    requires AtMost(open, m) && x in open && |open| <= k && (open' == open - {x} || open' == open[x := open[x] + 1])
    ensures var m' := Raised(m, open[x]); AtMost(open', m') && Room(open', m') + 1 <= Room(open, m) + k * (m' - m)
  {
    var m' := Raised(m, open[x]);
    AtMostSpent(open, open', x, m);
    hide Room, AtMost;
    RoomSplit(open, x, m');
    RoomSet(open, x, open[x] + 1, m');
    assert Room(open', m') + 1 <= Room(open, m');
    RoomRaised(open, k, m, m');
  }

  lemma AtMostSpent<K(!new)>(open: map<K, nat>, open': map<K, nat>, x: K, m: nat)
    requires AtMost(open, m) && x in open && (open' == open - {x} || open' == open[x := open[x] + 1])
    ensures AtMost(open', Raised(m, open[x])) && open[x] < Raised(m, open[x])
  {
  }

  lemma RoomNext<K(!new)>(spent: map<K, nat>, m: nat)
    ensures Room(spent, m + 1) == Room(spent, m) + |spent|
  {
    RoomMore(spent, m, 1);
  }

  lemma RoomRaised<K(!new)>(open: map<K, nat>, k: nat, m: nat, m': nat)
    requires |open| <= k && m <= m' <= m + 1
    ensures Room(open, m') <= Room(open, m) + k * (m' - m)
  {
    RoomNext(open, m);
    hide Room;
    if m' == m {
      assert k * (m' - m) == 0;
    } else {
      assert k * (m' - m) == k;
    }
  }

  lemma SpentPaid(s: Ledger, s': Ledger, p: Policy, c: Chain, k: nat, m: nat, key: Key)
    requires Paid(s, c, k, m) && Width(s, c) <= k && OneSpent(s.rows, s'.rows, key) && InChain(s.rows, key, c)
    requires s'.intakes == s.intakes && Balance(s', c) <= Balance(s, c) + 1
    ensures Paid(s', c, k, Raised(m, s.rows[key].entry.attempts))
  {
    hide OpenLetters, IsPrior, OneSpent, AtMost, Balance, Room;
    var open, open', m' := OpenLetters(s, c), OpenLetters(s', c), Raised(m, s.rows[key].entry.attempts);
    OpenAfterSpent(s, s', c, key);
    RoomSpent(open, open', Letter(key), k, m);
    ElsewhereSpent(s.rows, s'.rows, key, c, m);
    hide Raised;
    Times(k, m, m');
  }

  lemma Times(k: int, m: int, n: int)
    ensures k * m + k * (n - m) == k * n
  {
  }

  lemma OpenAfterSpent(s: Ledger, s': Ledger, c: Chain, key: Key)
    requires OneSpent(s.rows, s'.rows, key) && InChain(s.rows, key, c) && s'.intakes == s.intakes
    ensures var x, open, open' := Letter(key), OpenLetters(s, c), OpenLetters(s', c);
            x in open && open[x] == s.rows[key].entry.attempts && (open' == open - {x} || open' == open[x := open[x] + 1])
  {
    var x, open, open' := Letter(key), OpenLetters(s, c), OpenLetters(s', c);
    hide OpenLetters;
    forall y ensures y != x ==> ((y in open' <==> y in open) && (y in open ==> open'[y] == open[y])) {
      OpenIsThere(s, c, y);
      OpenIsThere(s', c, y);
    }
    OpenIsThere(s, c, x);
    OpenIsThere(s', c, x);
    assert if x in open' then open' == open[x := open[x] + 1] else open' == open - {x};
  }

  lemma ReadPaid(s: Ledger, s': Ledger, c: Chain, k: nat, m: nat, h: Handle, i: Intake)
    requires Paid(s, c, k, m) && h !in s.intakes && (LetterChain(i.letter) == Some(c) ==> i.prior == m)
    requires s'.intakes == s.intakes[h := i] && s'.rows == s.rows && Balance(s', c) == Balance(s, c)
    ensures Paid(s', c, k, m)
  {
    var x, open, open' := Coming(h), OpenLetters(s, c), OpenLetters(s', c);
    hide OpenLetters, Balance, IsPrior;
    forall y ensures y != x ==> ((y in open' <==> y in open) && (y in open ==> open'[y] == open[y])) {
      OpenIsThere(s, c, y);
      OpenIsThere(s', c, y);
    }
    OpenIsThere(s, c, x);
    OpenIsThere(s', c, x);
    assert open - {x} == open;
    if x in open' {
      assert open' == open[x := m];
      RoomSet(open, x, m, m);
    } else {
      assert open' == open;
    }
  }

  lemma OnePrior(rows: map<Key, Row>, c: Chain, m: nat, n: nat)
    requires IsPrior(rows, c, m) && IsPrior(rows, c, n)
    ensures m == n
  {
  }

  /** The letter's row takes the place of its intake. */
  function Moved(s: Ledger, c: Chain, h: Handle): map<Place, nat>
    requires h in s.intakes
  {
    var open := OpenLetters(s, c);
    if Coming(h) in open then (open - {Coming(h)})[Letter(s.intakes[h].letter.key) := s.intakes[h].prior] else open
  }

  /** Any other intake of the same letter has lost its place. */
  lemma OpenAfterInsert(s: Ledger, s': Ledger, p: Policy, c: Chain, h: Handle)
    requires h in s.intakes && s'.rows == IntakeRow(s.rows, s.intakes[h], p) && s'.intakes == s.intakes - {h}
    ensures forall y :: y in OpenLetters(s', c) ==> y in Moved(s, c, h) && OpenLetters(s', c)[y] == Moved(s, c, h)[y]
  {
    RegisteredAttempts(p, s.intakes[h]);
    hide Registered, OpenLetters;
    OpenIsThere(s, c, Coming(h));
    forall y | y in OpenLetters(s', c) ensures y in Moved(s, c, h) && OpenLetters(s', c)[y] == Moved(s, c, h)[y] {
      OpenIsThere(s, c, y);
      OpenIsThere(s', c, y);
    }
  }

  lemma RoomMoved(s: Ledger, c: Chain, h: Handle, m: nat)
    requires h in s.intakes && AtMost(OpenLetters(s, c), m)
    ensures AtMost(Moved(s, c, h), m) && Room(Moved(s, c, h), m) == Room(OpenLetters(s, c), m)
  {
    var open, from, goal := OpenLetters(s, c), Coming(h), Letter(s.intakes[h].letter.key);
    OpenIsThere(s, c, from);
    OpenIsThere(s, c, goal);
    if from in open {
      hide OpenLetters;
      RoomSplit(open, from, m);
      RoomSet(open - {from}, goal, s.intakes[h].prior, m);
      assert open - {from} - {goal} == open - {from};
    }
  }

  lemma InsertPaid(s: Ledger, s': Ledger, p: Policy, c: Chain, k: nat, m: nat, h: Handle)
    requires Paid(s, c, k, m) && WithinBudget(s.rows, p, c) && m <= Budget(p) && h in s.intakes
    requires s'.rows == IntakeRow(s.rows, s.intakes[h], p) && s'.intakes == s.intakes - {h}
    requires Balance(s', c) == Balance(s, c)
    ensures Paid(s', c, k, m) && WithinBudget(s'.rows, p, c)
  {
    OpenIsThere(s, c, Coming(h));
    InsertPrior(s, p, c, m, s.intakes[h]);
    OpenAfterInsert(s, s', p, c, h);
    RoomMoved(s, c, h, m);
    hide OpenLetters, Moved, Balance, IsPrior, WithinBudget, IntakeRow;
    RoomFewer(OpenLetters(s', c), Moved(s, c, h), m);
  }

  lemma RegisteredAttempts(p: Policy, i: Intake)
    ensures Registered(p, i.at, i.letter.reason, i.prior, 0).attempts == i.prior
    ensures Registered(p, i.at, i.letter.reason, i.prior, 0).state == Retrying
  {
  }

  lemma InsertPrior(s: Ledger, p: Policy, c: Chain, m: nat, i: Intake)
    requires IsPrior(s.rows, c, m) && m <= Budget(p) && WithinBudget(s.rows, p, c)
    requires LetterChain(i.letter) == Some(c) && i.letter.key !in s.rows ==> i.prior <= m
    ensures IsPrior(IntakeRow(s.rows, i, p), c, m) && WithinBudget(IntakeRow(s.rows, i, p), p, c)
  {
    RegisteredAttempts(p, i);
    hide Registered;
    var rows' := IntakeRow(s.rows, i, p);
    assert forall j :: InChain(s.rows, j, c) ==> InChain(rows', j, c) && rows'[j] == s.rows[j];
    assert forall j :: InChain(rows', j, c) && j in s.rows ==> InChain(s.rows, j, c);
  }

  // ── Every run ───────────────────────────────────────────────────

  ghost predicate Sound(s: Ledger, p: Policy, c: Chain, k: nat) {
    ClaimsSound(s, p, c) && WithinBudget(s.rows, p, c) && exists m: nat :: Paid(s, c, k, m)
  }

  /** What a worker writes about its first letter is about a letter on the schedule, or about another chain. */
  lemma HeadIsFresh(s: Ledger, p: Policy, c: Chain, w: Handle)
    requires ClaimsSound(s, p, c) && w in s.workers && s.workers[w].phase != PutOff
    ensures Keyed(s.rows) && Known(s.rows, Head(s, w))
    ensures ChainOf(Head(s, w)) == Some(c) <==> InChain(s.rows, Head(s, w).key, c)
    ensures InChain(s.rows, Head(s, w).key, c) ==> Fresh(s.rows, Head(s, w))
    ensures InChain(s.rows, Head(s, w).key, c) && s.workers[w].phase == Out ==> Head(s, w).entry.attempts < Budget(p)
  {
    assert WorkerSound(s.rows, s.workers[w], p, c);
  }

  /** One transaction about the head: nothing is spent, or one attempt of an open letter that had one left. */
  ghost predicate SpendsOne(s: Ledger, s': Ledger, p: Policy, c: Chain, key: Key) {
    && s'.intakes == s.intakes && OneSpent(s.rows, s'.rows, key) && InChain(s.rows, key, c)
    && s.rows[key].entry.attempts < Budget(p) && Balance(s', c) <= Balance(s, c) + 1
  }

  ghost predicate SpendsNothing(s: Ledger, s': Ledger, c: Chain) {
    && s'.intakes.Keys <= s.intakes.Keys && (forall h :: h in s'.intakes ==> s'.intakes[h] == s.intakes[h])
    && NoneSpent(s.rows, s'.rows, c) && Balance(s', c) == Balance(s, c)
  }

  lemma ParkSpends(rows: map<Key, Row>, k: Key, c: Chain)
    ensures NoneSpent(rows, rows, c) && NoneSpent(rows, ParkRow(rows, k), c)
  {
  }

  lemma SucceedSpends(rows: map<Key, Row>, k: Key, c: Chain)
    ensures InChain(rows, k, c) && rows[k].entry.state == Retrying ==> OneSpent(rows, SucceedRow(rows, k), k)
    ensures !InChain(rows, k, c) ==> NoneSpent(rows, SucceedRow(rows, k), c)
  {
  }

  lemma PutOffSpends(rows: map<Key, Row>, k: Key, nextAt: real, c: Chain)
    ensures InChain(rows, k, c) && rows[k].entry.state == Retrying ==> OneSpent(rows, PutOffRow(rows, k, nextAt), k)
    ensures !InChain(rows, k, c) ==> NoneSpent(rows, PutOffRow(rows, k, nextAt), c)
  {
  }

  lemma SpreadSpends(rows: map<Key, Row>, k: Key, c: Chain)
    ensures NoneSpent(rows, SpreadStreak(rows, k), c)
  {
  }

  lemma ActRows(s: Ledger, p: Policy, w: Handle, replay: Replay, c: Chain)
    requires Busy(s, w, Ready)
    ensures var rows', r := ActOn(s, p, w, replay).rows, Head(s, w);
            || (!Notes(s, p, Act(w, replay), c) && (rows' == s.rows || rows' == ParkRow(s.rows, r.key)))
            || (r.entry.attempts < Budget(p) && rows' == PutOffRow(s.rows, r.key, NextAttemptAtMs(p, r.entry.attempts, s.workers[w].at)))
    ensures ActOn(s, p, w, replay).intakes == s.intakes
  {
    hide NextAttemptAtMs, Bump, ParkRow, PutOffRow, Next, ChainOf;
  }

  lemma ActSpends(s: Ledger, p: Policy, c: Chain, w: Handle, replay: Replay)
    requires ClaimsSound(s, p, c) && Busy(s, w, Ready)
    ensures SpendsNothing(s, ActOn(s, p, w, replay), c) || SpendsOne(s, ActOn(s, p, w, replay), p, c, Head(s, w).key)
  {
    var r, nextAt := Head(s, w), NextAttemptAtMs(p, Head(s, w).entry.attempts, s.workers[w].at);
    HeadIsFresh(s, p, c, w);
    ActBalance(s, p, w, replay, c);
    ActRows(s, p, w, replay, c);
    ParkSpends(s.rows, r.key, c);
    PutOffSpends(s.rows, r.key, nextAt, c);
    hide ActOn, ClaimsSound, Keyed, Balance, InChain, ChainOf, Decide, NextAttemptAtMs, ParkRow, PutOffRow, OneSpent,
         NoneSpent, Budget;
  }

  lemma RecordDoes(s: Ledger, p: Policy, w: Handle, c: Chain)
    requires Can(s, p, Record(w))
    ensures var s' := Do(s, p, Record(w)); s'.rows == SucceedRow(s.rows, Head(s, w).key) && s'.intakes == s.intakes
    ensures s.workers[w].phase == Out && (Notes(s, p, Record(w), c) <==> ChainOf(Head(s, w)) == Some(c))
  {
    hide SucceedRow, Next, ChainOf;
  }

  lemma RecordSpends(s: Ledger, p: Policy, c: Chain, w: Handle)
    requires ClaimsSound(s, p, c) && Can(s, p, Record(w))
    ensures SpendsNothing(s, Do(s, p, Record(w)), c) || SpendsOne(s, Do(s, p, Record(w)), p, c, Head(s, w).key)
  {
    RecordDoes(s, p, w, c);
    hide Can, Do, ClaimsSound, Keyed, Balance, InChain, ChainOf, SucceedRow, OneSpent, NoneSpent, Budget, Next, Notes,
         Known;
    HeadIsFresh(s, p, c, w);
    StepBalance(s, p, Record(w), c);
    SucceedSpends(s.rows, Head(s, w).key, c);
  }

  /** All other steps but reads and inserts. */
  lemma OtherSpends(s: Ledger, p: Policy, c: Chain, step: Step)
    requires Can(s, p, step) && !step.Act? && !step.Record? && !step.ReadPrior? && !step.Insert?
    ensures SpendsNothing(s, Do(s, p, step), c)
  {
    StepBalance(s, p, step, c);
    if step.Spread? {
      SpreadSpends(s.rows, Head(s, step.w).key, c);
    } else {
      ParkSpends(s.rows, Key(0, 0, 0, 0), c);
    }
    hide Balance, NoneSpent, Next, Bump, SpreadStreak, Due, OnceEach;
  }

  lemma SpendsPaid(s: Ledger, s': Ledger, p: Policy, c: Chain, k: nat, m: nat, key: Key)
    requires Paid(s, c, k, m) && WithinBudget(s.rows, p, c) && Width(s, c) <= k
    requires SpendsNothing(s, s', c) || SpendsOne(s, s', p, c, key)
    ensures WithinBudget(s'.rows, p, c) && exists m': nat :: Paid(s', c, k, m')
  {
    if SpendsNothing(s, s', c) {
      hide NoneSpent, Paid, WithinBudget, Balance;
      QuietPaid(s, s', p, c, k, m);
    } else {
      SpentPaid(s, s', p, c, k, m, key);
      hide Paid, Balance, Budget, OpenLetters;
    }
  }

  lemma WithinIsPrior(rows: map<Key, Row>, p: Policy, c: Chain, m: nat)
    requires WithinBudget(rows, p, c) && IsPrior(rows, c, m)
    ensures m <= Budget(p)
  {
  }

  lemma StepPaid(s: Ledger, p: Policy, step: Step, c: Chain, k: nat)
    requires Sound(s, p, c, k) && Can(s, p, step) && Width(s, c) <= k
    ensures WithinBudget(Do(s, p, step).rows, p, c) && exists m: nat :: Paid(Do(s, p, step), c, k, m)
  {
    var m: nat :| Paid(s, c, k, m);
    var s' := Do(s, p, step);
    match step {
      case ReadPrior(h, letter, prior, at) =>
        StepBalance(s, p, step, c);
        if LetterChain(letter) == Some(c) {
          OnePrior(s.rows, c, m, prior);
        }
        hide Balance, IsPrior, OpenLetters, ClaimsSound, WithinBudget;
        ReadPaid(s, s', c, k, m, h, Intake(letter, prior, at));
      case Insert(h) =>
        StepBalance(s, p, step, c);
        WithinIsPrior(s.rows, p, c, m);
        hide Balance, IsPrior, OpenLetters, ClaimsSound, WithinBudget, Paid, IntakeRow;
        InsertPaid(s, s', p, c, k, m, h);
      case Act(w, replay) =>
        ActSpends(s, p, c, w, replay);
        hide SpendsNothing, SpendsOne, Paid, ClaimsSound, WithinBudget, ActOn;
        SpendsPaid(s, s', p, c, k, m, Head(s, w).key);
      case Record(w) =>
        RecordSpends(s, p, c, w);
        hide SpendsNothing, SpendsOne, Paid, ClaimsSound, WithinBudget, Next, SucceedRow;
        SpendsPaid(s, s', p, c, k, m, Head(s, w).key);
      case _ =>
        OtherSpends(s, p, c, step);
        hide SpendsNothing, SpendsOne, Paid, ClaimsSound, WithinBudget, Do, Can;
        SpendsPaid(s, s', p, c, k, m, Key(0, 0, 0, 0));
    }
  }

  lemma StepSound(s: Ledger, p: Policy, step: Step, c: Chain, k: nat)
    requires Sound(s, p, c, k) && Can(s, p, step) && Exclusive(s, step, c) && Width(s, c) <= k
    ensures Sound(Do(s, p, step), p, c, k)
  {
    StepPaid(s, p, step, c, k);
    StepClaims(s, p, step, c);
  }

  /** No claim of a letter of the chain overlaps another one in time. */
  ghost predicate ExclusiveRun(s: Ledger, p: Policy, steps: seq<Step>, c: Chain)
    requires Run(s, p, steps)
    decreases |steps|
  {
    steps == [] || (Exclusive(s, steps[0], c) && ExclusiveRun(Do(s, p, steps[0]), p, steps[1..], c))
  }

  /** At most `k` letters of the chain are open in every state. */
  ghost predicate Narrow(s: Ledger, p: Policy, steps: seq<Step>, c: Chain, k: nat)
    requires Run(s, p, steps)
    decreases |steps|
  {
    Width(s, c) <= k && (steps == [] || Narrow(Do(s, p, steps[0]), p, steps[1..], c, k))
  }

  lemma {:induction false} RunSound(s: Ledger, p: Policy, steps: seq<Step>, c: Chain, k: nat)
    requires Sound(s, p, c, k) && Run(s, p, steps) && ExclusiveRun(s, p, steps, c) && Narrow(s, p, steps, c, k)
    ensures Sound(After(s, p, steps), p, c, k) && Width(After(s, p, steps), c) <= k
    decreases |steps|
  {
    hide Sound, Can, Do, Exclusive, Width;
    if steps != [] {
      StepSound(s, p, steps[0], c, k);
      RunSound(Do(s, p, steps[0]), p, steps[1..], c, k);
    }
  }

  lemma InitialSound(s: Ledger, p: Policy, c: Chain, k: nat)
    requires Initial(s)
    ensures Sound(s, p, c, k)
  {
    assert OpenLetters(s, c) == map[] && Pending(s.workers, c) == {};
    assert Paid(s, c, k, 0);
  }

  /** The letters that are out have an attempt left that will pay for it. */
  lemma PendingHasRoom(s: Ledger, p: Policy, c: Chain)
    requires ClaimsSound(s, p, c) && AtMost(OpenLetters(s, c), Budget(p))
    ensures |Pending(s.workers, c)| <= Room(OpenLetters(s, c), Budget(p))
  {
    var pending := Pending(s.workers, c);
    var out := map w | w in pending :: Letter(s.workers[w].claimed[0].key);
    forall v, w | v in pending && w in pending && v != w ensures out[v] != out[w] {
      OutOnce(s, p, c, v, w);
    }
    forall w | w in pending ensures out[w] in OpenLetters(s, c) && OpenLetters(s, c)[out[w]] < Budget(p) {
      OutIsOpen(s, p, c, w);
    }
    hide *;
    var letters := Image(out, pending);
    RoomFor(OpenLetters(s, c), letters, Budget(p));
  }

  lemma {:induction false} Image(out: map<Handle, Place>, some: set<Handle>) returns (places: set<Place>)
    requires some <= out.Keys && forall v, w :: v in some && w in some && v != w ==> out[v] != out[w]
    ensures |places| == |some| && forall x :: x in places ==> exists w :: w in some && out[w] == x
    decreases |some|
  {
    places := {};
    if w :| w in some {
      var rest := Image(out, some - {w});
      places := rest + {out[w]};
    }
  }

  lemma OutIsOpen(s: Ledger, p: Policy, c: Chain, w: Handle)
    requires ClaimsSound(s, p, c) && w in s.workers && OutWith(s.workers[w], c)
    ensures var x := Letter(Head(s, w).key); x in OpenLetters(s, c) && OpenLetters(s, c)[x] < Budget(p)
  {
    HeadIsFresh(s, p, c, w);
    OpenIsThere(s, c, Letter(Head(s, w).key));
    hide ClaimsSound, OpenLetters, Budget;
  }

  lemma OutOnce(s: Ledger, p: Policy, c: Chain, w: Handle, v: Handle)
    requires ClaimsSound(s, p, c) && w in s.workers && OutWith(s.workers[w], c)
    requires v in s.workers && v != w && s.workers[v].claimed != []
    ensures Head(s, w).key != Head(s, v).key
  {
    assert Apart(s.workers[w], s.workers[v], c);
    assert Head(s, w) in s.workers[w].claimed && Head(s, v) in s.workers[v].claimed;
    hide ClaimsSound;
  }

  lemma AtMostMore<K(!new)>(spent: map<K, nat>, m: nat, n: nat)
    requires AtMost(spent, m) && m <= n
    ensures AtMost(spent, n)
  {
  }

  lemma PaidBudget(s: Ledger, p: Policy, c: Chain, k: nat, m: nat)
    requires ClaimsSound(s, p, c) && WithinBudget(s.rows, p, c) && Paid(s, c, k, m) && Width(s, c) <= k
    ensures Count(s.redriven, c) <= k * Budget(p) + Count(s.lost, c)
  {
    hide OpenLetters, Pending, ClaimsSound, WithinBudget, IsPrior, AtMost, Room, Budget, Count;
    var open := OpenLetters(s, c);
    WithinIsPrior(s.rows, p, c, m);
    AtMostMore(open, m, Budget(p));
    PendingHasRoom(s, p, c);
    RoomMore(open, m, Budget(p) - m);
    FitsBudget(Balance(s, c), |Pending(s.workers, c)|, Room(open, m), |open|, k, m, Budget(p));
  }

  lemma SoundBudget(s: Ledger, p: Policy, c: Chain, k: nat)
    requires Sound(s, p, c, k) && Width(s, c) <= k
    ensures Count(s.redriven, c) <= k * Budget(p) + Count(s.lost, c)
  {
    var m: nat :| Paid(s, c, k, m);
    hide ClaimsSound, WithinBudget, Paid, Width, Budget;
    PaidBudget(s, p, c, k, m);
  }

  lemma FitsBudget(balance: int, pending: nat, room: int, width: nat, k: nat, m: nat, budget: nat)
    requires balance + room <= k * m && m <= budget && width <= k && pending <= room + (budget - m) * width
    ensures balance + pending <= k * budget
  {
    assert (budget - m) * width <= (budget - m) * k;
    Times(k, m, budget);
  }

  /**
   * However its claims, replays, failures and crashes interleave, an event of which at most `k` letters are open at
   * once is published again at most `k` times as often as the schedule has delays, over all the letters it left, not
   * counting publishes whose record a crash lost.
   */
  lemma RedrivenWithinWidth(s: Ledger, p: Policy, steps: seq<Step>, c: Chain, k: nat)
    requires Initial(s) && Run(s, p, steps) && ExclusiveRun(s, p, steps, c) && Narrow(s, p, steps, c, k)
    ensures Count(After(s, p, steps).redriven, c) <= k * Budget(p) + Count(After(s, p, steps).lost, c)
  {
    InitialSound(s, p, c, k);
    hide Sound, Width, Initial;
    RunSound(s, p, steps, c, k);
    SoundBudget(After(s, p, steps), p, c, k);
  }

  /** In any run whatever, what a crash loses the record of was published. */
  lemma {:induction false} BalanceGrows(s: Ledger, p: Policy, steps: seq<Step>, c: Chain)
    requires Run(s, p, steps)
    ensures Balance(After(s, p, steps), c) >= Balance(s, c)
    decreases |steps|
  {
    hide Can, Do, Balance, Notes;
    if steps != [] {
      StepBalance(s, p, steps[0], c);
      BalanceGrows(Do(s, p, steps[0]), p, steps[1..], c);
    }
  }

  lemma LostWithinRedriven(s: Ledger, p: Policy, steps: seq<Step>, c: Chain)
    requires Initial(s) && Run(s, p, steps)
    ensures Count(After(s, p, steps).lost, c) <= Count(After(s, p, steps).redriven, c)
  {
    assert Pending(s.workers, c) == {};
    assert Balance(s, c) == 0;
    BalanceGrows(s, p, steps, c);
  }

  // ── However many letters are open ───────────────────────────────

  /** All letters of the chain, settled ones included, with their attempts. */
  function Letters(rows: map<Key, Row>, c: Chain): map<Key, nat> {
    map k | k in rows && ChainOf(rows[k]) == Some(c) :: rows[k].entry.attempts
  }

  ghost predicate LettersPay(s: Ledger, p: Policy, c: Chain) {
    && ClaimsSound(s, p, c) && AtMost(Letters(s.rows, c), Budget(p))
    && (forall h :: h in s.intakes && LetterChain(s.intakes[h].letter) == Some(c) ==> s.intakes[h].prior <= Budget(p))
    && Balance(s, c) + Room(Letters(s.rows, c), Budget(p)) <= Budget(p) * |Letters(s.rows, c)|
  }

  lemma SpentLetters(rows: map<Key, Row>, rows': map<Key, Row>, c: Chain, key: Key, m: nat)
    requires OneSpent(rows, rows', key) && InChain(rows, key, c)
    ensures Letters(rows', c).Keys == Letters(rows, c).Keys
    ensures Room(Letters(rows', c), m) + 1 == Room(Letters(rows, c), m)
    ensures rows[key].entry.attempts < m && AtMost(Letters(rows, c), m) ==> AtMost(Letters(rows', c), m)
  {
    LettersAfterSpent(rows, rows', c, key);
    hide Letters, OneSpent, InChain, Room;
    var spent := rows[key].entry.attempts;
    RoomSplit(Letters(rows, c), key, m);
    RoomSet(Letters(rows, c), key, spent + 1, m);
  }

  lemma LettersAfterSpent(rows: map<Key, Row>, rows': map<Key, Row>, c: Chain, key: Key)
    requires OneSpent(rows, rows', key) && InChain(rows, key, c)
    ensures key in Letters(rows, c) && Letters(rows, c)[key] == rows[key].entry.attempts
    ensures Letters(rows', c) == Letters(rows, c)[key := rows[key].entry.attempts + 1]
  {
  }

  lemma LettersAfterInsert(rows: map<Key, Row>, p: Policy, c: Chain, i: Intake)
    ensures var letters, k := Letters(rows, c), i.letter.key;
            Letters(IntakeRow(rows, i, p), c) == if k !in rows && LetterChain(i.letter) == Some(c) then letters[k := i.prior] else letters
    ensures Letters(rows, c).Keys <= rows.Keys
  {
    RegisteredAttempts(p, i);
    hide Registered;
  }

  lemma InsertLetters(rows: map<Key, Row>, p: Policy, c: Chain, i: Intake, m: nat)
    ensures var letters, letters' := Letters(rows, c), Letters(IntakeRow(rows, i, p), c);
            || letters' == letters
            || (LetterChain(i.letter) == Some(c) && |letters'| == |letters| + 1 && Room(letters', m) == Room(letters, m) + m - i.prior
                && (AtMost(letters, m) && i.prior <= m ==> AtMost(letters', m)))
  {
    LettersAfterInsert(rows, p, c, i);
    hide IntakeRow, Letters, Room;
    if i.letter.key !in rows {
      RoomAdded(Letters(rows, c), i.letter.key, i.prior, m);
    }
  }

  lemma RoomAdded<K(!new)>(spent: map<K, nat>, k: K, n: nat, m: nat)
    requires k !in spent
    ensures |spent[k := n]| == |spent| + 1 && Room(spent[k := n], m) == Room(spent, m) + m - n
  {
    RoomSet(spent, k, n, m);
    assert spent - {k} == spent && spent[k := n].Keys == spent.Keys + {k};
    assert |spent[k := n].Keys| == |spent.Keys| + 1;
  }

  lemma NothingLettersPay(s: Ledger, s': Ledger, p: Policy, c: Chain)
    requires LettersPay(s, p, c) && ClaimsSound(s', p, c) && SpendsNothing(s, s', c)
    ensures LettersPay(s', p, c)
  {
    SameLetters(s.rows, s'.rows, c);
    hide ClaimsSound, Balance, Letters, NoneSpent, AtMost, Budget, LetterChain;
  }

  lemma SameLetters(rows: map<Key, Row>, rows': map<Key, Row>, c: Chain)
    requires NoneSpent(rows, rows', c)
    ensures Letters(rows', c) == Letters(rows, c)
  {
  }

  lemma OneLettersPay(s: Ledger, s': Ledger, p: Policy, c: Chain, key: Key)
    requires LettersPay(s, p, c) && ClaimsSound(s', p, c) && SpendsOne(s, s', p, c, key)
    ensures LettersPay(s', p, c)
  {
    hide ClaimsSound, Balance, Letters, OneSpent, AtMost, InChain, LetterChain;
    SpentLetters(s.rows, s'.rows, c, key, Budget(p));
    assert |Letters(s'.rows, c)| == |Letters(s'.rows, c).Keys| && |Letters(s.rows, c)| == |Letters(s.rows, c).Keys|;
  }

  lemma SpendsLettersPay(s: Ledger, s': Ledger, p: Policy, c: Chain, key: Key)
    requires LettersPay(s, p, c) && ClaimsSound(s', p, c)
    requires SpendsNothing(s, s', c) || SpendsOne(s, s', p, c, key)
    ensures LettersPay(s', p, c)
  {
    hide *;
    if SpendsNothing(s, s', c) {
      NothingLettersPay(s, s', p, c);
    } else {
      OneLettersPay(s, s', p, c, key);
    }
  }

  lemma InsertLettersPay(s: Ledger, s': Ledger, p: Policy, c: Chain, h: Handle)
    requires LettersPay(s, p, c) && ClaimsSound(s', p, c) && h in s.intakes
    requires s'.rows == IntakeRow(s.rows, s.intakes[h], p) && s'.intakes == s.intakes - {h}
    requires Balance(s', c) == Balance(s, c)
    ensures LettersPay(s', p, c)
  {
    InsertLetters(s.rows, p, c, s.intakes[h], Budget(p));
    hide ClaimsSound, Balance, Letters, AtMost, IntakeRow, Budget;
    TimesOneMore(Budget(p), |Letters(s.rows, c)| + 1);
  }

  lemma ReadLettersPay(s: Ledger, s': Ledger, p: Policy, c: Chain, h: Handle, i: Intake)
    requires LettersPay(s, p, c) && ClaimsSound(s', p, c) && s'.rows == s.rows && s'.intakes == s.intakes[h := i]
    requires Balance(s', c) == Balance(s, c) && (LetterChain(i.letter) == Some(c) ==> IsPrior(s.rows, c, i.prior))
    ensures LettersPay(s', p, c)
  {
    assert LetterChain(i.letter) == Some(c) ==> i.prior <= Budget(p) by {
      if LetterChain(i.letter) == Some(c) && i.prior > 0 {
        var k :| InChain(s.rows, k, c) && s.rows[k].entry.attempts == i.prior;
        assert k in Letters(s.rows, c);
      }
    }
    hide ClaimsSound, Balance, Letters, AtMost, IsPrior, Budget;
  }

  lemma StepLettersPay(s: Ledger, p: Policy, step: Step, c: Chain)
    requires LettersPay(s, p, c) && Can(s, p, step) && Exclusive(s, step, c)
    ensures LettersPay(Do(s, p, step), p, c)
  {
    var s' := Do(s, p, step);
    StepClaims(s, p, step, c);
    StepBalance(s, p, step, c);
    match step {
      case ReadPrior(h, letter, prior, at) =>
        hide Balance, IsPrior, ClaimsSound, LettersPay;
        ReadLettersPay(s, s', p, c, h, Intake(letter, prior, at));
      case Insert(h) =>
        hide Balance, ClaimsSound, LettersPay, IntakeRow;
        InsertLettersPay(s, s', p, c, h);
      case Act(w, replay) =>
        ActSpends(s, p, c, w, replay);
        hide SpendsNothing, SpendsOne, LettersPay, ClaimsSound, ActOn;
        SpendsLettersPay(s, s', p, c, Head(s, w).key);
      case Record(w) =>
        RecordSpends(s, p, c, w);
        hide SpendsNothing, SpendsOne, LettersPay, ClaimsSound, Next, SucceedRow;
        SpendsLettersPay(s, s', p, c, Head(s, w).key);
      case _ =>
        OtherSpends(s, p, c, step);
        hide SpendsNothing, SpendsOne, LettersPay, ClaimsSound, Do, Can;
        SpendsLettersPay(s, s', p, c, Key(0, 0, 0, 0));
    }
  }

  lemma {:induction false} RunLettersPay(s: Ledger, p: Policy, steps: seq<Step>, c: Chain)
    requires LettersPay(s, p, c) && Run(s, p, steps) && ExclusiveRun(s, p, steps, c)
    ensures LettersPay(After(s, p, steps), p, c)
    decreases |steps|
  {
    hide LettersPay, Can, Do, Exclusive;
    if steps != [] {
      StepLettersPay(s, p, steps[0], c);
      RunLettersPay(Do(s, p, steps[0]), p, steps[1..], c);
    }
  }

  lemma LettersHaveRoom(s: Ledger, p: Policy, c: Chain)
    requires LettersPay(s, p, c)
    ensures |Pending(s.workers, c)| <= Room(Letters(s.rows, c), Budget(p))
  {
    var pending := Pending(s.workers, c);
    var out := map w | w in pending :: Letter(s.workers[w].claimed[0].key);
    forall v, w | v in pending && w in pending && v != w ensures out[v] != out[w] {
      OutOnce(s, p, c, v, w);
    }
    forall w | w in pending ensures out[w].k in Letters(s.rows, c) && Letters(s.rows, c)[out[w].k] < Budget(p) {
      HeadIsFresh(s, p, c, w);
    }
    hide LettersPay, Letters, Pending;
    var letters := Image(out, pending);
    var keys := KeysOf(letters);
    RoomFor(Letters(s.rows, c), keys, Budget(p));
  }

  lemma {:induction false} KeysOf(letters: set<Place>) returns (keys: set<Key>)
    requires forall x :: x in letters ==> x.Letter?
    ensures |keys| == |letters| && forall k :: k in keys <==> Letter(k) in letters
    decreases |letters|
  {
    keys := {};
    if x :| x in letters {
      var rest := KeysOf(letters - {x});
      keys := rest + {x.k};
    }
  }

  /**
   * Whatever is open at once, re-drive ends: an event is published again at most as often as the schedule has delays
   * for each letter it left, not counting publishes whose record a crash lost.
   */
  lemma RedrivenWithinLetters(s: Ledger, p: Policy, steps: seq<Step>, c: Chain)
    requires Initial(s) && Run(s, p, steps) && ExclusiveRun(s, p, steps, c)
    ensures var s' := After(s, p, steps);
            Count(s'.redriven, c) <= Budget(p) * |Letters(s'.rows, c)| + Count(s'.lost, c)
  {
    hide *;
    InitialLettersPay(s, p, c);
    RunLettersPay(s, p, steps, c);
    LettersHaveRoom(After(s, p, steps), p, c);
    LettersBudget(After(s, p, steps), p, c);
  }

  lemma InitialLettersPay(s: Ledger, p: Policy, c: Chain)
    requires Initial(s)
    ensures LettersPay(s, p, c)
  {
    assert Letters(s.rows, c) == map[] && Pending(s.workers, c) == {};
  }

  lemma LettersBudget(s: Ledger, p: Policy, c: Chain)
    requires LettersPay(s, p, c) && |Pending(s.workers, c)| <= Room(Letters(s.rows, c), Budget(p))
    ensures Count(s.redriven, c) <= Budget(p) * |Letters(s.rows, c)| + Count(s.lost, c)
  {
    hide ClaimsSound, Letters, Pending, AtMost;
  }
}
