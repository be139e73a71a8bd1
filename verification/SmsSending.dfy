/**
 * Sending one message past both guards with bounded retries under one idempotency key, and many sends at once against
 * the daily cap. The provider's responses and every reading of the clock are parameters.
 */
module SmsSending {
  import opened Wrappers
  import opened SmsGuards

  /** The HTTP status, or None for a network fault or a timeout. */
  type Response = Option<int>

  datatype Outcome = Accepted | Failed

  predicate Succeeded(r: Response) {
    r.Some? && 200 <= r.value < 300
  }

  predicate Retryable(r: Response) {
    r.None? || r.value == 429 || r.value >= 500
  }

  /** `Math.max(1, maxAttempts ?? 2)`; it need not be whole. */
  function Attempts(maxAttempts: Option<real>): (r: real)
    ensures r >= 1.0
    ensures maxAttempts.None? ==> r == 2.0
    ensures maxAttempts.Some? ==> (r == maxAttempts.value <==> maxAttempts.value >= 1.0) && (r == 1.0 <==> maxAttempts.value <= 1.0)
  {
    var n := if maxAttempts.None? then 2.0 else maxAttempts.value;
    if n > 1.0 then n else 1.0
  }

  /** The attempt after which the loop stops, having started at `attempt`. */
  function LastAttempt(responses: nat -> Response, attempt: nat, attempts: real): (r: nat)
    requires attempt as real <= attempts
    ensures attempt <= r && r as real <= attempts
    ensures forall k :: attempt <= k < r ==> !Succeeded(responses(k)) && Retryable(responses(k))
    ensures Succeeded(responses(r)) || !Retryable(responses(r)) || attempts < (r + 1) as real
    decreases attempts.Floor - attempt
  {
    if Succeeded(responses(attempt)) || !Retryable(responses(attempt)) || attempts < (attempt + 1) as real then attempt
    else LastAttempt(responses, attempt + 1, attempts)
  }

  /**
   * Every answer before the last was a network fault, 429 or a server error. The last one is a success, any other status
   * below 500, or the answer to the last attempt there is.
   */
  lemma RetriedExactly(responses: nat -> Response, attempts: real)
    requires attempts >= 1.0
    ensures var last := LastAttempt(responses, 1, attempts);
            && 1 <= last && last as real <= attempts
            && (forall k :: 1 <= k < last ==> responses(k).None? || responses(k).value == 429 || responses(k).value >= 500)
            && (Succeeded(responses(last)) <==> responses(last).Some? && 200 <= responses(last).value <= 299)
            && (last as real + 1.0 <= attempts ==>
                  responses(last).Some? && (responses(last).value < 500 || 200 <= responses(last).value <= 299) && responses(last).value != 429)
  {
  }

  function Repeated(x: int, n: nat): (r: seq<int>)
    ensures |r| == n && forall i :: 0 <= i < n ==> r[i] == x
  {
    seq(n, i => x)
  }

  /**
   * What happens outside the code during one send: clock readings, responses, and whether the cap file can be written.
   */
  datatype World = World(checkedAt: int, takenAt: int, recordedAt: int, responses: nat -> Response, written: bool, freshKey: int)

  /** What a send adds to the records. */
  function Booked(counted: bool, w: World): seq<int> {
    if counted then [KigaliDay(w.recordedAt)] else []
  }

  class TwilioSmsChannel {
    const attempts: real
    const cap: DailyCostCap
    const limiter: PerNumberLimiter
    /** The idempotency key of every request made. */
    var requests: seq<int>

    constructor (maxAttempts: Option<real>, cap: DailyCostCap, limiter: PerNumberLimiter)
      ensures attempts == Attempts(maxAttempts) && this.cap == cap && this.limiter == limiter && requests == []
    {
      attempts := Attempts(maxAttempts);
      this.cap, this.limiter, requests := cap, limiter, [];
    }

    /** Neither guard would refuse a message to `to` now. */
    ghost predicate Admits(to: Key, w: World)
      reads this, cap, limiter
    {
      && CountOn(cap.recorded, KigaliDay(w.checkedAt)) < cap.limit
      && |Recent(TimesOf(limiter.history, to), w.takenAt, limiter.windowMs)| < limiter.max
    }

    /**
     * `send`. Refused by the cap, a message takes no slot of its number. Otherwise it makes at least one and at most the
     * configured number of requests, all under one key, stops at the first answer that is final, and is recorded once
     * exactly when it was accepted.
     */
    method Send(to: Option<Key>, messageKey: Option<int>, w: World) returns (outcome: Outcome)
      requires cap.Valid() && limiter.Valid() && attempts >= 1.0
      requires cap.latest <= w.checkedAt <= w.recordedAt && limiter.latest <= w.takenAt
      modifies this, cap, limiter
      ensures cap.Valid() && limiter.Valid() && cap.latest <= w.recordedAt
      ensures to.None? || CountOn(old(cap.recorded), KigaliDay(w.checkedAt)) >= cap.limit ==> limiter.history == old(limiter.history)
      ensures to.None? || !old(Admits(to.value, w)) ==>
                outcome == Failed && requests == old(requests) && cap.recorded == old(cap.recorded) && limiter.history == old(limiter.history)
      ensures to.Some? && old(Admits(to.value, w)) ==>
                var last := LastAttempt(w.responses, 1, attempts);
                var key := if messageKey.Some? then messageKey.value else w.freshKey;
                && limiter.history == old(limiter.history) + [Hit(to.value, w.takenAt)]
                && requests == old(requests) + Repeated(key, last)
                && (outcome == Accepted <==> Succeeded(w.responses(last)))
                && cap.recorded == old(cap.recorded) + Booked(outcome == Accepted && (old(cap.file.None?) || w.written), w)
    {
      if to.None? {
        return Failed;
      }
      var allowed := cap.Allows(w.checkedAt);
      if !allowed {
        return Failed;
      }
      var taken := limiter.Take(to.value, w.takenAt);
      if !taken {
        return Failed;
      }
      var key := if messageKey.Some? then messageKey.value else w.freshKey;
      hide KigaliDay, CountOn, Recent, TimesOf;
      outcome := Post(key, w);
    }

    /** The retry loop of `send`. */
    method Post(key: int, w: World) returns (outcome: Outcome)
      requires cap.Valid() && attempts >= 1.0 && cap.latest <= w.recordedAt
      modifies this, cap
      ensures cap.Valid() && cap.latest <= w.recordedAt
      ensures var last := LastAttempt(w.responses, 1, attempts);
              && requests == old(requests) + Repeated(key, last)
              && (outcome == Accepted <==> Succeeded(w.responses(last)))
              && cap.recorded == old(cap.recorded) + Booked(outcome == Accepted && (old(cap.file.None?) || w.written), w)
    {
      ghost var last := LastAttempt(w.responses, 1, attempts);
      var attempt := 1;
      hide KigaliDay, CountOn;
      while attempt as real <= attempts
        invariant 1 <= attempt
        invariant attempt as real <= attempts ==> LastAttempt(w.responses, attempt, attempts) == last
        invariant attempt as real > attempts ==> attempt == last + 1 && !Succeeded(w.responses(last))
        invariant requests == old(requests) + Repeated(key, attempt - 1)
        invariant cap.Valid() && cap.latest <= w.recordedAt && cap.recorded == old(cap.recorded) && cap.file == old(cap.file)
        decreases attempts.Floor + 1 - attempt
      {
        requests := requests + [key];
        assert Repeated(key, attempt) == Repeated(key, attempt - 1) + [key];
        var response := w.responses(attempt);
        if Succeeded(response) {
          var _ := cap.Record(w.recordedAt, w.written);
          return Accepted;
        }
        if !Retryable(response) || attempt as real == attempts {
          return Failed;
        }
        attempt := attempt + 1;
      }
      return Failed;
    }
  }

  // ── Many sends at once ──────────────────────────────────────────

  /** The channel with `limit` per day: what is recorded, and how many sends are past the cap check and not yet done. */
  datatype Sends = Sends(now: int, recorded: seq<int>, inFlight: nat)

  datatype Step = Tick(to: int) | Begin | Finish(accepted: bool, written: bool)

  predicate Can(s: Sends, limit: nat, k: nat, step: Step) {
    match step
    case Tick(to) => s.now <= to
    case Begin => s.inFlight < k && CountOn(s.recorded, KigaliDay(s.now)) < limit
    case Finish(_, _) => s.inFlight > 0
  }

  function Do(s: Sends, limit: nat, k: nat, step: Step): Sends
    requires Can(s, limit, k, step)
  {
    match step
    case Tick(to) => s.(now := to)
    case Begin => s.(inFlight := s.inFlight + 1)
    case Finish(accepted, written) =>
      s.(inFlight := s.inFlight - 1, recorded := if accepted && written then s.recorded + [KigaliDay(s.now)] else s.recorded)
  }

  function Max(a: int, b: int): int {
    if a < b then b else a
  }

  /** What a day may hold: limit + k - 1, unless it held more when the process started. */
  function DayBound(before: seq<int>, limit: nat, k: nat, day: int): int {
    Max(CountOn(before, day), limit + k - 1)
  }

  /** No day is over its bound, and today not even if all sends in flight are accepted. */
  ghost predicate Bounded(s: Sends, before: seq<int>, limit: nat, k: nat) {
    && s.inFlight <= k && limit >= 1 && k >= 1
    && (forall d :: d in s.recorded ==> d <= KigaliDay(s.now))
    && (forall day :: CountOn(s.recorded, day) <= DayBound(before, limit, k, day))
    && CountOn(s.recorded, KigaliDay(s.now)) + s.inFlight <= DayBound(before, limit, k, KigaliDay(s.now))
  }

  lemma StepBounded(s: Sends, before: seq<int>, limit: nat, k: nat, step: Step)
    requires Bounded(s, before, limit, k) && Can(s, limit, k, step)
    ensures Bounded(Do(s, limit, k, step), before, limit, k)
  {
    match step {
      case Tick(to) =>
        DaysFollow(s.now, to);
        hide KigaliDay, CountOn;
        if KigaliDay(s.now) < KigaliDay(to) {
          assert forall i :: 0 <= i < |s.recorded| ==> s.recorded[i] in s.recorded;
          NoneOn(s.recorded, KigaliDay(to));
        }
      case Begin =>
        hide KigaliDay, CountOn;
      case Finish(accepted, written) =>
        hide KigaliDay;
        var today := KigaliDay(s.now);
        forall day ensures CountOn(s.recorded + [today], day) == CountOn(s.recorded, day) + if today == day then 1 else 0 {
          CountSnoc(s.recorded, today, day);
        }
    }
  }

  predicate Run(s: Sends, limit: nat, k: nat, steps: seq<Step>)
    decreases |steps|
  {
    steps == [] || (Can(s, limit, k, steps[0]) && Run(Do(s, limit, k, steps[0]), limit, k, steps[1..]))
  }

  function After(s: Sends, limit: nat, k: nat, steps: seq<Step>): Sends
    requires Run(s, limit, k, steps)
    decreases |steps|
  {
    if steps == [] then s else After(Do(s, limit, k, steps[0]), limit, k, steps[1..])
  }

  lemma {:induction false} RunBounded(s: Sends, before: seq<int>, limit: nat, k: nat, steps: seq<Step>)
    requires Bounded(s, before, limit, k) && Run(s, limit, k, steps)
    ensures Bounded(After(s, limit, k, steps), before, limit, k)
    decreases |steps|
  {
    hide Bounded, Can, Do;
    if steps != [] {
      StepBounded(s, before, limit, k, steps[0]);
      RunBounded(Do(s, limit, k, steps[0]), before, limit, k, steps[1..]);
    }
  }

  /**
   * With at most `k` sends at once, no day ever records more than limit + k - 1 messages, midnights included. A day
   * that already held more when the process started, in the lines of the state file, gets none on top.
   */
  lemma DailyCapUnderConcurrency(now: int, before: seq<int>, limit: nat, k: nat, steps: seq<Step>, day: int)
    requires limit >= 1 && k >= 1 && (forall d :: d in before ==> d <= KigaliDay(now))
    requires Run(Sends(now, before, 0), limit, k, steps)
    ensures CountOn(After(Sends(now, before, 0), limit, k, steps).recorded, day) <= DayBound(before, limit, k, day)
  {
    RunBounded(Sends(now, before, 0), before, limit, k, steps);
  }

  // ── The steps are those of the cap and the channel ──────────────

  /** The system as the cap of a process sees it. */
  ghost predicate Mirrors(s: Sends, cap: DailyCostCap)
    reads cap
  {
    s.recorded == cap.recorded && cap.latest <= s.now
  }

  /** The check before a send: it passes exactly if the send can begin. */
  method CheckIsStep(cap: DailyCostCap, now: int, k: nat, ghost s: Sends) returns (ok: bool, ghost steps: seq<Step>)
    requires cap.Valid() && Mirrors(s, cap) && s.now <= now && s.inFlight < k
    modifies cap
    ensures cap.Valid() && Run(s, cap.limit, k, steps)
    ensures var s' := After(s, cap.limit, k, steps); Mirrors(s', cap) && s'.now == now && s'.inFlight == s.inFlight + if ok then 1 else 0
    ensures ok <==> Can(s.(now := now), cap.limit, k, Begin)
  {
    ok := cap.Allows(now);
    hide KigaliDay, CountOn;
    if ok {
      steps := [Tick(now), Begin];
      TwoSteps(s, cap.limit, k, Tick(now), Begin);
    } else {
      steps := [Tick(now)];
      OneStep(s, cap.limit, k, Tick(now));
    }
  }

  lemma OneStep(s: Sends, limit: nat, k: nat, step: Step)
    requires Can(s, limit, k, step)
    ensures Run(s, limit, k, [step]) && After(s, limit, k, [step]) == Do(s, limit, k, step)
  {
    assert [step][1..] == [];
    assert Run(Do(s, limit, k, step), limit, k, []);
  }

  /** The end of a send: an accepted one is recorded, unless the line cannot be written. */
  method RecordIsStep(cap: DailyCostCap, now: int, accepted: bool, written: bool, k: nat, ghost s: Sends)
      returns (ghost steps: seq<Step>)
    requires cap.Valid() && Mirrors(s, cap) && s.now <= now && s.inFlight > 0
    modifies cap
    ensures cap.Valid() && Run(s, cap.limit, k, steps)
    ensures var s' := After(s, cap.limit, k, steps); Mirrors(s', cap) && s'.now == now && s'.inFlight == s.inFlight - 1
  {
    var ok := false;
    if accepted {
      ok := cap.Record(now, written);
    }
    hide KigaliDay, CountOn;
    steps := [Tick(now), Finish(accepted, ok)];
    TwoSteps(s, cap.limit, k, Tick(now), Finish(accepted, ok));
  }

  lemma TwoSteps(s: Sends, limit: nat, k: nat, first: Step, second: Step)
    requires Can(s, limit, k, first) && Can(Do(s, limit, k, first), limit, k, second)
    ensures Run(s, limit, k, [first, second])
    ensures After(s, limit, k, [first, second]) == Do(Do(s, limit, k, first), limit, k, second)
  {
    hide Can, Do;
    assert [first, second][1..] == [second];
    OneStep(Do(s, limit, k, first), limit, k, second);
  }

  /** A whole send of the channel is a run: with the number present and both guards passed, a begin and a finish. */
  method SendIsRun(channel: TwilioSmsChannel, number: Option<Key>, messageKey: Option<int>, w: World,
      k: nat, ghost s: Sends)
      returns (outcome: Outcome, ghost steps: seq<Step>)
    requires channel.cap.Valid() && channel.limiter.Valid() && channel.attempts >= 1.0
    requires Mirrors(s, channel.cap) && s.now <= w.checkedAt <= w.recordedAt && channel.limiter.latest <= w.takenAt
    requires s.inFlight < k
    modifies channel, channel.cap, channel.limiter
    ensures channel.cap.Valid() && channel.limiter.Valid()
    ensures Run(s, channel.cap.limit, k, steps)
    ensures var s' := After(s, channel.cap.limit, k, steps);
            Mirrors(s', channel.cap) && s'.now == w.recordedAt && s'.inFlight == s.inFlight
  {
    ghost var limit := channel.cap.limit;
    ghost var admitted := number.Some? && channel.Admits(number.value, w);
    ghost var kept := channel.cap.file.None? || w.written;
    outcome := channel.Send(number, messageKey, w);
    hide KigaliDay, CountOn, Recent, TimesOf, LastAttempt;
    if admitted {
      TwoSteps(s, limit, k, Tick(w.checkedAt), Begin);
      steps := [Tick(w.checkedAt), Begin];
      RunThen(s, limit, k, steps, Tick(w.recordedAt));
      steps := steps + [Tick(w.recordedAt)];
      RunThen(s, limit, k, steps, Finish(outcome == Accepted, kept));
      steps := steps + [Finish(outcome == Accepted, kept)];
    } else {
      steps := [Tick(w.recordedAt)];
      OneStep(s, limit, k, Tick(w.recordedAt));
    }
  }

  // ── The bound is reached ────────────────────────────────────────

  lemma {:induction false} CountSameDay(day: int, n: nat)
    ensures CountOn(Repeated(day, n), day) == n
  {
    if n > 0 {
      CountSameDay(day, n - 1);
      assert Repeated(day, n)[..n - 1] == Repeated(day, n - 1);
    }
  }

  lemma {:induction false} RunThen(s: Sends, limit: nat, k: nat, steps: seq<Step>, step: Step)
    requires Run(s, limit, k, steps) && Can(After(s, limit, k, steps), limit, k, step)
    ensures Run(s, limit, k, steps + [step])
    ensures After(s, limit, k, steps + [step]) == Do(After(s, limit, k, steps), limit, k, step)
    decreases |steps|
  {
    hide Can, Do;
    if steps == [] {
      assert steps + [step] == [step] && [step][1..] == [];
      assert Run(Do(s, limit, k, step), limit, k, []);
    } else {
      RunThen(Do(s, limit, k, steps[0]), limit, k, steps[1..], step);
      assert (steps + [step])[1..] == steps[1..] + [step];
    }
  }

  /** `n` sends one after the other, each accepted. */
  lemma {:induction false} OneByOne(now: int, limit: nat, k: nat, n: nat) returns (steps: seq<Step>)
    requires n < limit && k >= 1
    ensures var s := Sends(now, [], 0); Run(s, limit, k, steps) && After(s, limit, k, steps) == Sends(now, Repeated(KigaliDay(now), n), 0)
  {
    var s, today := Sends(now, [], 0), KigaliDay(now);
    if n == 0 {
      steps := [];
    } else {
      steps := OneByOne(now, limit, k, n - 1);
      CountSameDay(today, n - 1);
      hide KigaliDay, CountOn;
      RunThen(s, limit, k, steps, Begin);
      steps := steps + [Begin];
      RunThen(s, limit, k, steps, Finish(true, true));
      steps := steps + [Finish(true, true)];
      assert Repeated(today, n - 1) + [today] == Repeated(today, n);
    }
  }

  /** Then `m` sends pass the check at once. */
  lemma {:induction false} AllBegin(now: int, limit: nat, k: nat, m: nat) returns (steps: seq<Step>)
    requires limit >= 1 && 0 <= m <= k && k >= 1
    ensures var s := Sends(now, [], 0);
            Run(s, limit, k, steps) && After(s, limit, k, steps) == Sends(now, Repeated(KigaliDay(now), limit - 1), m)
  {
    var s := Sends(now, [], 0);
    if m == 0 {
      steps := OneByOne(now, limit, k, limit - 1);
    } else {
      steps := AllBegin(now, limit, k, m - 1);
      CountSameDay(KigaliDay(now), limit - 1);
      hide KigaliDay, CountOn;
      RunThen(s, limit, k, steps, Begin);
      steps := steps + [Begin];
    }
  }

  lemma {:induction false} AllFinish(now: int, limit: nat, k: nat, m: nat) returns (steps: seq<Step>)
    requires limit >= 1 && 0 <= m <= k && k >= 1
    ensures var s := Sends(now, [], 0);
            Run(s, limit, k, steps) && After(s, limit, k, steps) == Sends(now, Repeated(KigaliDay(now), limit - 1 + m), k - m)
  {
    var s, today := Sends(now, [], 0), KigaliDay(now);
    if m == 0 {
      steps := AllBegin(now, limit, k, k);
    } else {
      steps := AllFinish(now, limit, k, m - 1);
      hide KigaliDay;
      RunThen(s, limit, k, steps, Finish(true, true));
      steps := steps + [Finish(true, true)];
      assert Repeated(today, limit - 2 + m) + [today] == Repeated(today, limit - 1 + m);
    }
  }

  /** The bound is exact: for every limit and every degree of concurrency, some run records that many on one day. */
  lemma BoundIsReached(now: int, limit: nat, k: nat) returns (steps: seq<Step>)
    requires limit >= 1 && k >= 1
    ensures Run(Sends(now, [], 0), limit, k, steps)
    ensures CountOn(After(Sends(now, [], 0), limit, k, steps).recorded, KigaliDay(now)) == limit + k - 1
  {
    steps := AllFinish(now, limit, k, k);
    CountSameDay(KigaliDay(now), limit - 1 + k);
  }
}
