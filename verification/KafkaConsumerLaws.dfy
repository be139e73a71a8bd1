/**
 * What one delivery guarantees, whatever the handler, the broker, the heartbeats and the observer do.
 */
module KafkaConsumerLaws {
  import opened Wrappers
  import opened DeadLetterPolicy
  import opened KafkaConsumer

  // ── Sleeping ────────────────────────────────────────────────────

  /**
   * A sleep ends early exactly when a heartbeat fails. What was slept is the slices of the delay, or a part of them
   * from the first on, and every slice is followed by a heartbeat.
   */
  lemma {:induction false} SleepIsSliced(t: Trace, ms: real, w: World)
    ensures var e := Sleep(t, ms, w);
            && (e.returned ==> e.trace.slices == t.slices + Slices(ms))
            && t.slices <= e.trace.slices <= t.slices + Slices(ms)
            && e.trace.beats - t.beats == |e.trace.slices| - |t.slices|
            && (e.returned <==> forall k :: t.beats <= k < e.trace.beats ==> w.heartbeat(k))
            && (!e.returned ==> t.beats < e.trace.beats && !w.heartbeat(e.trace.beats - 1))
            && e.trace == t.(slices := e.trace.slices, beats := e.trace.beats)
    decreases if ms > 0.0 then ms.Floor + 1 else 0
  {
    if ms > 0.0 {
      var step := Min(ms, HEARTBEAT_SLICE_MS);
      UncutRest(ms);
      var t' := t.(slices := t.slices + [step], beats := t.beats + 1);
      assert t.slices + ([step] + Slices(ms - step)) == t'.slices + Slices(ms - step);
      if w.heartbeat(t.beats) && step < ms {
        SleepIsSliced(t', ms - step, w);
      }
    }
  }

  // ── The retry loop ──────────────────────────────────────────────

  /** Attempts `from` up to but not including `to` failed in a way worth retrying. */
  predicate AllFailed(w: World, from: nat, to: nat) {
    forall k :: from <= k < to ==> w.handler(k) == Fails
  }

  /**
   * The loop stops at attempt `last`: every earlier attempt failed and was followed by its whole delay. It returned
   * from a success, parked a letter or tried to, or lost a heartbeat in the delay after `last`.
   */
  predicate StopsAt(t: Trace, first: nat, last: nat, offset: nat, p: Policy, w: World, e: Ended)
    requires first >= 1
  {
    && first <= last && last as real <= p.maxHandlerAttempts && AllFailed(w, first, last)
    && e.trace.calls == t.calls + (last - first + 1)
    && match w.handler(last)
       case Handled => e.returned && NothingGiven(t, e)
       case NeverProcessable => Gave(t, e, Letter(offset, NonRetryable, last), w)
       case Fails =>
         if last as real >= p.maxHandlerAttempts then Gave(t, e, Letter(offset, HandlerFailed, last), w)
         else !e.returned && NothingGiven(t, e) && t.beats < e.trace.beats && !w.heartbeat(e.trace.beats - 1)
  }

  predicate NothingGiven(t: Trace, e: Ended) {
    e.trace.parked == t.parked && e.trace.observed == t.observed && e.trace.connected == t.connected
  }

  /**
   * The outcome of one attempt to park `letter`, the event of which was decoded: written if the producer connects and the
   * write arrives, returned if it was acknowledged, and then shown to the observer if there is one.
   */
  predicate Gave(t: Trace, e: Ended, letter: Letter, w: World) {
    var reached := t.connected || w.connects;
    && (e.returned <==> reached && w.send == Written)
    && e.trace.connected == reached
    && e.trace.parked == (if reached && w.send != NotWritten then t.parked + [letter] else t.parked)
    && e.trace.observed == (if reached && w.send == Written && w.observer.Some? then t.observed + [letter] else t.observed)
  }

  function StopOf(t: Trace, attempt: nat, e: Ended): nat
    requires e.trace.calls > t.calls
  {
    attempt + (e.trace.calls - t.calls) - 1
  }

  lemma {:induction false} RetryStops(t: Trace, attempt: nat, offset: nat, p: Policy, w: World)
    requires attempt >= 1 && attempt as real <= p.maxHandlerAttempts && Usable(p)
    ensures var e := RetryFrom(t, attempt, offset, p, w);
            e.trace.calls > t.calls && StopsAt(t, attempt, StopOf(t, attempt, e), offset, p, w, e)
    decreases p.maxHandlerAttempts.Floor - attempt
  {
    hide BackoffMs, Sleep;
    var t' := t.(calls := t.calls + 1);
    if w.handler(attempt) == Fails && (attempt as real) < p.maxHandlerAttempts {
      SleepIsSliced(t', BackoffMs(p, attempt), w);
      var slept := Sleep(t', BackoffMs(p, attempt), w);
      if slept.returned {
        RetryStops(slept.trace, attempt + 1, offset, p, w);
      }
    }
  }

  /** The delays after attempts `from` up to but not including `until`. */
  function Delays(p: Policy, from: nat, until: int): real
    requires from >= 1
    decreases until - from
  {
    if from >= until then 0.0 else BackoffMs(p, from) + Delays(p, from + 1, until)
  }

  lemma {:induction false} DelaysAddUp(p: Policy, from: nat, middle: nat, until: int)
    requires 1 <= from <= middle <= until && Usable(p)
    ensures Delays(p, from, until) == Delays(p, from, middle) + Delays(p, middle, until)
    ensures Delays(p, from, until) >= 0.0
    decreases until - from
  {
    hide BackoffMs;
    if from < until {
      BackoffNonNegative(p, from);
      if from < middle {
        DelaysAddUp(p, from + 1, middle, until);
      } else {
        DelaysAddUp(p, from + 1, from + 1, until);
      }
    }
  }

  lemma {:induction false} DelaysAreTotal(p: Policy, until: nat)
    requires until >= 1 && Usable(p)
    ensures Delays(p, 1, until) == TotalBackoff(p, until)
  {
    if until > 1 {
      DelaysAreTotal(p, until - 1);
      DelaysAddUp(p, 1, until - 1, until);
      assert Delays(p, until, until) == 0.0;
    }
  }

  function Max(p: Policy): int {
    p.maxHandlerAttempts.Floor
  }

  /** What the trace gained in sleeps. */
  function Slept(t: Trace, e: Ended): seq<real>
    requires t.slices <= e.trace.slices
  {
    e.trace.slices[|t.slices|..]
  }

  lemma {:induction false} PartOfDelay(slices: seq<real>, n: nat)
    requires n <= |slices| && forall x :: x in slices ==> x > 0.0
    ensures 0.0 <= Sum(slices[..n]) <= Sum(slices)
  {
    if slices != [] {
      assert forall x :: x in slices[1..] ==> x in slices;
      assert slices[0] in slices;
      if n == 0 {
        PartOfDelay(slices[1..], 0);
      } else {
        PartOfDelay(slices[1..], n - 1);
        assert slices[..n][1..] == slices[1..][..n - 1];
      }
    }
  }

  /**
   * The loop never sleeps longer than the delays before its last allowed attempt; unless a heartbeat cut it short, it
   * slept exactly the delays between the attempts it made. Slices keep to the heartbeat interval, one heartbeat each.
   */
  ghost predicate SleptWithin(t: Trace, attempt: nat, p: Policy, w: World, e: Ended)
    requires attempt >= 1
  {
    && t.slices <= e.trace.slices && e.trace.calls > t.calls
    && e.trace.beats - t.beats == |e.trace.slices| - |t.slices|
    && (forall x :: x in Slept(t, e) ==> 0.0 < x <= HEARTBEAT_SLICE_MS)
    && Sum(Slept(t, e)) <= Delays(p, attempt, Max(p))
    && (w.handler(StopOf(t, attempt, e)) != Fails || StopOf(t, attempt, e) >= Max(p) ==>
          Sum(Slept(t, e)) == Delays(p, attempt, StopOf(t, attempt, e)))
  }

  lemma {:induction false} RetrySleeps(t: Trace, attempt: nat, offset: nat, p: Policy, w: World)
    requires attempt >= 1 && attempt as real <= p.maxHandlerAttempts && Usable(p)
    ensures SleptWithin(t, attempt, p, w, RetryFrom(t, attempt, offset, p, w))
    decreases p.maxHandlerAttempts.Floor - attempt
  {
    hide BackoffMs, Sleep, Slices, Sum;
    var t' := t.(calls := t.calls + 1);
    if w.handler(attempt) == Fails && (attempt as real) < p.maxHandlerAttempts {
      var slept := Sleep(t', BackoffMs(p, attempt), w);
      SleepIsSliced(t', BackoffMs(p, attempt), w);
      BackoffNonNegative(p, attempt);
      SlicesCoverDelay(BackoffMs(p, attempt));
      if slept.returned {
        RetrySleeps(slept.trace, attempt + 1, offset, p, w);
        SleepThenRetry(t, attempt, p, w, slept.trace, RetryFrom(slept.trace, attempt + 1, offset, p, w));
      } else {
        InterruptedSleep(t, attempt, p, w, slept);
      }
    } else {
      StoppedAtOnce(t, attempt, offset, p, w);
    }
  }

  lemma StoppedAtOnce(t: Trace, attempt: nat, offset: nat, p: Policy, w: World)
    requires attempt >= 1 && attempt as real <= p.maxHandlerAttempts && Usable(p)
    requires w.handler(attempt) != Fails || attempt as real >= p.maxHandlerAttempts
    ensures SleptWithin(t, attempt, p, w, RetryFrom(t, attempt, offset, p, w))
  {
    hide BackoffMs;
    var e := RetryFrom(t, attempt, offset, p, w);
    assert e.trace.slices == t.slices && e.trace.beats == t.beats && e.trace.calls == t.calls + 1;
    assert Slept(t, e) == [];
    DelaysAddUp(p, attempt, attempt, if Max(p) >= attempt then Max(p) else attempt);
  }

  lemma InterruptedSleep(t: Trace, attempt: nat, p: Policy, w: World, slept: Ended)
    requires attempt >= 1 && (attempt as real) < p.maxHandlerAttempts && Usable(p) && w.handler(attempt) == Fails
    requires t.slices <= slept.trace.slices <= t.slices + Slices(BackoffMs(p, attempt))
    requires slept.trace.calls == t.calls + 1 && slept.trace.beats - t.beats == |slept.trace.slices| - |t.slices|
    requires Sum(Slices(BackoffMs(p, attempt))) == BackoffMs(p, attempt)
    requires forall x :: x in Slices(BackoffMs(p, attempt)) ==> 0.0 < x <= HEARTBEAT_SLICE_MS
    ensures SleptWithin(t, attempt, p, w, slept)
  {
    hide BackoffMs, Slices, Sum;
    var all := Slices(BackoffMs(p, attempt));
    var part := Slept(t, slept);
    assert (t.slices + all)[|t.slices|..] == all;
    assert part == all[..|part|];
    assert forall x :: x in part ==> x in all;
    PartOfDelay(all, |part|);
    DelaysAddUp(p, attempt + 1, attempt + 1, Max(p));
    assert Delays(p, attempt, Max(p)) == BackoffMs(p, attempt) + Delays(p, attempt + 1, Max(p));
  }

  lemma SleepThenRetry(t: Trace, attempt: nat, p: Policy, w: World, slept: Trace, e: Ended)
    requires attempt >= 1 && (attempt as real) < p.maxHandlerAttempts && Usable(p)
    requires slept.slices == t.slices + Slices(BackoffMs(p, attempt))
    requires slept.calls == t.calls + 1 && slept.beats - t.beats == |slept.slices| - |t.slices|
    requires Sum(Slices(BackoffMs(p, attempt))) == BackoffMs(p, attempt)
    requires forall x :: x in Slices(BackoffMs(p, attempt)) ==> 0.0 < x <= HEARTBEAT_SLICE_MS
    requires SleptWithin(slept, attempt + 1, p, w, e)
    ensures SleptWithin(t, attempt, p, w, e)
  {
    hide BackoffMs, Slices, Sum;
    var before, after := Slices(BackoffMs(p, attempt)), Slept(slept, e);
    assert Slept(t, e) == before + after;
    SumJoin(before, after);
  }

  // ── One delivery ────────────────────────────────────────────────

  /**
   * Handled, parked or redelivered: eachMessage returns, and the offset may be passed, only when there is nothing to
   * handle, the handler succeeded, or the letter is on the dead-letter topic. A failed park or heartbeat throws.
   */
  lemma PassedOnlyWhenSettled(t: Trace, m: Message, p: Policy, w: World)
    requires Usable(p)
    ensures var e := Deliver(t, m, p, w);
            && (e.returned ==> m.empty || (m.decodes && Succeeded(t, e, w)) || ParkedNow(t, e, m.offset))
            && (e.trace.parked == t.parked || ParkedNow(t, e, m.offset))
            && (e.trace.observed != t.observed ==> e.returned && ParkedNow(t, e, m.offset) && e.trace.observed == t.observed + [Last(e.trace.parked)])
  {
    hide RetryFrom;
    if !m.empty && m.decodes {
      RetryStops(t, 1, m.offset, p, w);
    }
  }

  /**
   * The observer learns of a letter exactly if its event was decoded and the write acknowledged, and of that letter.
   * Nobody is told of a message without a value, of one that cannot be decoded, or of one that was handled.
   */
  lemma ObserverIsTold(t: Trace, m: Message, p: Policy, w: World)
    requires Usable(p)
    ensures var e := Deliver(t, m, p, w);
            var written := |e.trace.parked| == |t.parked| + 1 && t.parked <= e.trace.parked && w.send == Written;
            && (!m.empty && m.decodes && written && w.observer.Some? ==> e.trace.observed == t.observed + [e.trace.parked[|t.parked|]])
            && (!(!m.empty && m.decodes && written && w.observer.Some?) ==> e.trace.observed == t.observed)
  {
    hide RetryFrom;
    if !m.empty && m.decodes {
      RetryStops(t, 1, m.offset, p, w);
    }
  }

  /** A message without a value does nothing; one that cannot be decoded is parked at once, without a handler call. */
  lemma NotHandled(t: Trace, m: Message, p: Policy, w: World)
    requires m.empty || !m.decodes
    ensures var e := Deliver(t, m, p, w);
            var reached := t.connected || w.connects;
            && (m.empty ==> e == Ended(t, true))
            && (!m.empty ==>
                  && (e.returned <==> reached && w.send == Written)
                  && e.trace == t.(connected := reached,
                                   parked := if reached && w.send != NotWritten then t.parked + [Letter(m.offset, Undecodable, 0)] else t.parked))
  {
  }

  function Last(letters: seq<Letter>): Letter
    requires letters != []
  {
    letters[|letters| - 1]
  }

  /** The last handler call of the delivery succeeded. */
  predicate Succeeded(t: Trace, e: Ended, w: World) {
    e.trace.calls > t.calls && w.handler(e.trace.calls - t.calls) == Handled
  }

  predicate ParkedNow(t: Trace, e: Ended, offset: nat) {
    |e.trace.parked| == |t.parked| + 1 && t.parked <= e.trace.parked && Last(e.trace.parked).offset == offset
  }

  /** The handler is called at most maxHandlerAttempts times, and a letter says how many times and why it gave up. */
  lemma AttemptsBounded(t: Trace, m: Message, p: Policy, w: World)
    requires Usable(p)
    ensures var e := Deliver(t, m, p, w);
            var calls := e.trace.calls - t.calls;
            && 0 <= calls <= Max(p)
            && (calls == 0 <==> m.empty || !m.decodes)
            && AllFailed(w, 1, calls)
            && (ParkedNow(t, e, m.offset) ==>
                  var letter := Last(e.trace.parked);
                  && letter.attempts == calls
                  && (letter.reason == Undecodable <==> calls == 0)
                  && (letter.reason == NonRetryable <==> calls > 0 && w.handler(calls) == NeverProcessable)
                  && (letter.reason == HandlerFailed ==> w.handler(calls) == Fails && calls == Max(p)))
  {
    hide RetryFrom;
    if !m.empty && m.decodes {
      RetryStops(t, 1, m.offset, p, w);
    }
  }

  /** One delivery sleeps at most base * (2^(max-1) - 1) in all, in slices of at most a heartbeat interval. */
  lemma SleepBounded(t: Trace, m: Message, p: Policy, w: World)
    requires Usable(p)
    ensures var e := Deliver(t, m, p, w);
            && t.slices <= e.trace.slices && t.calls <= e.trace.calls
            && Sum(Slept(t, e)) <= TotalBackoff(p, Max(p)) <= p.baseBackoffMs * (Pow2(Max(p) - 1) - 1.0)
            && (e.returned ==> Sum(Slept(t, e)) == TotalBackoff(p, e.trace.calls - t.calls))
            && (forall x :: x in Slept(t, e) ==> 0.0 < x <= HEARTBEAT_SLICE_MS)
            && e.trace.beats - t.beats == |Slept(t, e)|
  {
    hide RetryFrom, BackoffMs, Pow2;
    TotalBackoffBounded(p, Max(p));
    if !m.empty && m.decodes {
      RetrySleeps(t, 1, m.offset, p, w);
      RetryStops(t, 1, m.offset, p, w);
      var e := Deliver(t, m, p, w);
      DelaysAreTotal(p, Max(p));
      DelaysAreTotal(p, e.trace.calls - t.calls);
    } else {
      assert Slept(t, Deliver(t, m, p, w)) == [];
    }
  }

  /** The observer has the last word and no say: without one, or with one that throws, everything else is the same. */
  lemma ObserverCannotUndo(t: Trace, m: Message, p: Policy, w: World, observer: Option<bool>)
    requires Usable(p)
    ensures var e, e' := Deliver(t, m, p, w), Deliver(t, m, p, w.(observer := observer));
            e.returned == e'.returned && e.trace == e'.trace.(observed := e.trace.observed)
  {
    if !m.empty && m.decodes {
      SameRetry(t, 1, m.offset, p, w, observer);
    }
  }

  /** Apart from what the observer saw. */
  predicate SameBut(e: Ended, e': Ended) {
    e.returned == e'.returned && e.trace == e'.trace.(observed := e.trace.observed)
  }

  lemma SamePark(t: Trace, letter: Letter, w: World, observer: Option<bool>)
    ensures SameBut(Park(t, letter, w), Park(t, letter, w.(observer := observer)))
  {
  }

  lemma {:induction false} SameRetry(t: Trace, attempt: nat, offset: nat, p: Policy, w: World, observer: Option<bool>)
    requires attempt >= 1 && attempt as real <= p.maxHandlerAttempts && Usable(p)
    ensures SameBut(RetryFrom(t, attempt, offset, p, w), RetryFrom(t, attempt, offset, p, w.(observer := observer)))
    decreases p.maxHandlerAttempts.Floor - attempt
  {
    hide BackoffMs, Sleep, Park;
    var t' := t.(calls := t.calls + 1);
    SamePark(t', Letter(offset, NonRetryable, attempt), w, observer);
    SamePark(t', Letter(offset, HandlerFailed, attempt), w, observer);
    if w.handler(attempt) == Fails && (attempt as real) < p.maxHandlerAttempts {
      var delay := BackoffMs(p, attempt);
      SameSleep(t', delay, w, observer);
      if Sleep(t', delay, w).returned {
        SameRetry(Sleep(t', delay, w).trace, attempt + 1, offset, p, w, observer);
      }
    }
  }

  lemma {:induction false} SameSleep(t: Trace, ms: real, w: World, observer: Option<bool>)
    ensures Sleep(t, ms, w) == Sleep(t, ms, w.(observer := observer))
    decreases if ms > 0.0 then ms.Floor + 1 else 0
  {
    if ms > 0.0 {
      var step := Min(ms, HEARTBEAT_SLICE_MS);
      if step < ms {
        SameSleep(t.(slices := t.slices + [step], beats := t.beats + 1), ms - step, w, observer);
      }
    }
  }
}
