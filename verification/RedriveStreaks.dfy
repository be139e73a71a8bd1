/**
 * The breaker of a group and a topic: what a letter's streak has counted over a run, and when it parks the letter.
 */
module RedriveStreaks {
  import opened Wrappers
  import opened Redrive
  import opened RedriveLedger

  /** The worker's re-drive of its first letter is refused and put off. */
  predicate FailsNow(s: Ledger, p: Policy, step: Step)
    requires Can(s, p, step)
  {
    step.Act? && step.replay.Refuses? && Decide(Head(s, step.w).entry, s.workers[step.w].at, p).Again?
  }

  /**
   * A failed re-drive that this step records in the row of `k`: its own, or one of another letter of its group and
   * topic.
   */
  ghost predicate Tells(s: Ledger, p: Policy, step: Step, k: Key)
    requires Can(s, p, step)
  {
    || (FailsNow(s, p, step) && Head(s, step.w).key == k)
    || (step.Spread? && var j := Head(s, step.w).key; j != k && j.group == k.group && j.topic == k.topic)
  }

  ghost function Told(s: Ledger, p: Policy, steps: seq<Step>, k: Key): (r: nat)
    requires Run(s, p, steps)
    decreases |steps|
  {
    if steps == [] then 0
    else (if Tells(s, p, steps[0], k) then 1 else 0) + Told(Do(s, p, steps[0]), p, steps[1..], k)
  }

  /** One step: a letter still on the schedule afterwards has a streak longer by what the step tells it. */
  lemma StepTells(s: Ledger, p: Policy, step: Step, k: Key)
    requires Can(s, p, step) && k in s.rows && k in Do(s, p, step).rows
    requires Do(s, p, step).rows[k].entry.state == Retrying
    ensures Do(s, p, step).rows[k].entry.streak == s.rows[k].entry.streak + (if Tells(s, p, step, k) then 1 else 0)
    ensures Do(s, p, step).rows[k].entry.reason == s.rows[k].entry.reason
  {
    hide IsPrior, OnceEach, Due, Next, Bump, Registered, Decide, NextAttemptAtMs;
  }

  /**
   * Over any run, a letter still on the schedule has counted every failed re-drive that was recorded for its group and
   * topic since, its own and those of the other letters; nothing that another letter does, least of all a success,
   * takes one back.
   */
  lemma {:induction false} StreakCounts(s: Ledger, p: Policy, steps: seq<Step>, k: Key)
    requires k in s.rows && Run(s, p, steps)
    requires k in After(s, p, steps).rows && After(s, p, steps).rows[k].entry.state == Retrying
    ensures After(s, p, steps).rows[k].entry.streak == s.rows[k].entry.streak + Told(s, p, steps, k)
    ensures After(s, p, steps).rows[k].entry.reason == s.rows[k].entry.reason
    decreases |steps|
  {
    hide Can, Do, Tells;
    if steps != [] {
      var s' := Do(s, p, steps[0]);
      StepKeeps(s, p, steps[0], k);
      SettledStays(s', p, steps[1..], k);
      StepTells(s, p, steps[0], k);
      StreakCounts(s', p, steps[1..], k);
    }
  }

  /**
   * A worker that claims the letter then parks it for repeated failure exactly when those failures have reached the
   * threshold and the letter was not refused for good; it publishes nothing. Below the threshold the breaker is silent.
   */
  lemma BreakerTripsExactly(s: Ledger, p: Policy, steps: seq<Step>, k: Key, w: Handle, replay: Replay)
    requires k in s.rows && Run(s, p, steps)
    requires var s' := After(s, p, steps);
             k in s'.rows && s'.rows[k].entry.state == Retrying && Busy(s', w, Ready) && Head(s', w) == s'.rows[k] && s'.rows[k].key == k
    ensures var s', e := After(s, p, steps), s.rows[k].entry;
            var failures := e.streak + Told(s, p, steps, k);
            var decided := Decide(s'.rows[k].entry, s'.workers[w].at, p);
            && (decided == Park(RepeatedFailure)
                <==> e.reason != NonRetryable && e.reason != Undecodable && failures as real >= p.groupFailureThreshold)
            && (failures as real >= p.groupFailureThreshold ==>
                  ActOn(s', p, w, replay).redriven == s'.redriven
                  && ActOn(s', p, w, replay).rows == s'.rows[k := s'.rows[k].(entry := s'.rows[k].entry.(state := Parked))])
  {
    hide Run, After, Told, Can, Next, Bump, NextAttemptAtMs;
    StreakCounts(s, p, steps, k);
  }

  lemma SuccessKeepsOthers(s: Ledger, p: Policy, w: Handle, k: Key)
    requires Can(s, p, Record(w))
    ensures k in Do(s, p, Record(w)).rows <==> k in s.rows
    ensures k in s.rows && k != Head(s, w).key ==> Do(s, p, Record(w)).rows[k] == s.rows[k]
    ensures k in s.rows && k == Head(s, w).key ==>
              var e, e' := s.rows[k].entry, Do(s, p, Record(w)).rows[k].entry;
              if e.state == Parked then e' == e else e'.state == Redriven && e'.attempts == e.attempts + 1
  {
    hide Next;
  }

  /** The letters of a group and a topic still on the schedule, and a streak at zero. */
  ghost predicate Reset(rows: map<Key, Row>, group: int, topic: int, apart: Option<Key>) {
    forall k :: k in rows && k.group == group && k.topic == topic && Some(k) != apart && rows[k].entry.state == Retrying ==>
      rows[k].entry.streak == 0
  }

  /**
   * A recorded success leaves the streaks of its group and topic at zero exactly if those of the other letters were
   * zero already: it settles its own row and resets no other.
   */
  lemma SuccessResetsExactly(s: Ledger, p: Policy, w: Handle)
    requires Can(s, p, Record(w))
    ensures var k, rows' := Head(s, w).key, Do(s, p, Record(w)).rows;
            Reset(rows', k.group, k.topic, None) <==> Reset(s.rows, k.group, k.topic, Some(k))
  {
    var k, rows' := Head(s, w).key, Do(s, p, Record(w)).rows;
    hide Can, Do;
    forall j
      ensures (j in rows' && rows'[j].entry.state == Retrying) <==> (j in s.rows && j != k && s.rows[j].entry.state == Retrying)
    {
      SuccessKeepsOthers(s, p, w, j);
    }
    forall j | j in s.rows && j != k ensures rows'[j] == s.rows[j] {
      SuccessKeepsOthers(s, p, w, j);
    }
  }

  /** Two failures of its group behind it and a success in between, a letter still has a streak of two. */
  lemma StreakOutlivesSuccess() returns (s: Ledger, step: Step, k: Key)
    ensures Can(s, DEFAULT_POLICY, step) && step.Record? && k in s.rows && s.rows[k].entry.streak == 2
    ensures Head(s, step.w).key.group == k.group && Head(s, step.w).key.topic == k.topic
    ensures var after := Do(s, DEFAULT_POLICY, step);
            k in after.rows && after.rows[k].entry.state == Retrying && after.rows[k].entry.streak == 2
  {
    k := Key(0, 0, 0, 0);
    var j := Key(0, 0, 0, 1);
    var waiting := Row(k, None, Entry(HandlerFailed, 0, Retrying, Some(0.0), 2));
    var working := Row(j, None, Entry(HandlerFailed, 0, Retrying, Some(0.0), 2));
    s := Ledger(0.0, map[k := waiting, j := working], map[], map[0 := Worker(0.0, [working], Out)], map[], map[]);
    step := Record(0);
    SuccessKeepsOthers(s, DEFAULT_POLICY, 0, k);
  }
}
