/**
 * The re-drive policy: when a parked event may knock again, and when it has knocked often enough. Numbers of a policy
 * and times in milliseconds are reals; a timestamp that does not parse is None.
 */
module Redrive {
  import opened Wrappers

  datatype Policy = Policy(delaysMs: seq<real>, groupFailureThreshold: real, maxPerTick: real)

  datatype PolicyError = NoDelays | BadDelay | BadThreshold | BadPerTick

  const DEFAULT_DELAYS_MS: seq<real> := [60_000.0, 300_000.0, 900_000.0, 3_600_000.0, 10_800_000.0, 21_600_000.0]

  const DEFAULT_POLICY: Policy := Policy(DEFAULT_DELAYS_MS, 3.0, 50.0)

  predicate IsInteger(x: real) {
    x == x.Floor as real
  }

  /** Delays may be fractions; the threshold and the tick size may not. */
  predicate Usable(p: Policy) {
    && p.delaysMs != [] && (forall d :: d in p.delaysMs ==> d > 0.0)
    && IsInteger(p.groupFailureThreshold) && p.groupFailureThreshold >= 1.0
    && IsInteger(p.maxPerTick) && p.maxPerTick >= 1.0
  }

  /** `resolveRedrivePolicy` on the merged overrides. */
  function ResolvePolicy(p: Policy): (r: Result<Policy, PolicyError>)
    ensures r.Ok? <==> Usable(p)
    ensures r.Ok? ==> r.value == p
  {
    if |p.delaysMs| < 1 then Err(NoDelays)
    else if exists d :: d in p.delaysMs && !(d > 0.0) then Err(BadDelay)
    else if !IsInteger(p.groupFailureThreshold) || p.groupFailureThreshold < 1.0 then Err(BadThreshold)
    else if !IsInteger(p.maxPerTick) || p.maxPerTick < 1.0 then Err(BadPerTick)
    else Ok(p)
  }

  /** Six re-drives; the worker starts with a usable policy. */
  lemma DefaultIsUsable()
    ensures ResolvePolicy(DEFAULT_POLICY) == Ok(DEFAULT_POLICY) && |DEFAULT_POLICY.delaysMs| == 6
  {
  }

  datatype Reason = Undecodable | NonRetryable | HandlerFailed | Unknown

  datatype State = Retrying | Redriven | Parked

  datatype Entry = Entry(reason: Reason, attempts: nat, state: State, nextAttemptAt: Option<real>, streak: nat)

  datatype ParkReason = AttemptsExhausted | RefusedForGood | CannotDecode | RepeatedFailure

  datatype Decision = Again(attempt: nat) | Wait(nextAttemptAt: real) | Park(why: ParkReason) | Skip

  function Clamp(attempt: int, limit: int): int {
    var low := if attempt > 1 then attempt else 1;
    if low < limit then low else limit
  }

  /** Delay before re-drive `attempt`, counted from 1; past the end of the schedule the last interval repeats. */
  function DelayMs(p: Policy, attempt: int): (r: real)
    ensures 1 <= attempt <= |p.delaysMs| ==> r == p.delaysMs[attempt - 1]
    ensures attempt > |p.delaysMs| > 0 ==> r == p.delaysMs[|p.delaysMs| - 1]
    ensures Usable(p) ==> r > 0.0
  {
    var index := Clamp(attempt, |p.delaysMs|) - 1;
    if 0 <= index < |p.delaysMs| then assert p.delaysMs[index] in p.delaysMs; p.delaysMs[index]
    else 60_000.0
  }

  function NextAttemptAtMs(p: Policy, attempts: nat, fromMs: real): real {
    fromMs + DelayMs(p, attempts + 1)
  }

  /** `decideRedrive`, in its documented precedence. */
  function Decide(e: Entry, nowMs: real, p: Policy): Decision {
    if e.state == Parked then Skip
    else if e.state == Redriven then Skip
    else if e.reason == NonRetryable then Park(RefusedForGood)
    else if e.reason == Undecodable then Park(CannotDecode)
    else if e.streak as real >= p.groupFailureThreshold then Park(RepeatedFailure)
    else if e.attempts >= |p.delaysMs| then Park(AttemptsExhausted)
    else if e.nextAttemptAt.Some? && e.nextAttemptAt.value > nowMs then Wait(e.nextAttemptAt.value)
    else Again(e.attempts + 1)
  }

  function FirstDueAtMs(p: Policy, nowMs: real, reason: Reason, priorAttempts: nat): real {
    if reason == NonRetryable || reason == Undecodable then nowMs
    else if priorAttempts >= |p.delaysMs| then nowMs
    else nowMs + DelayMs(p, priorAttempts + 1)
  }

  // ── The schedule at registration is the schedule of the decisions ─

  predicate Refused(reason: Reason) {
    reason == NonRetryable || reason == Undecodable
  }

  /** A letter registered at `t` for an event with `prior` attempts, its group's streak now at `streak`. */
  function Registered(p: Policy, t: real, reason: Reason, prior: nat, streak: nat): Entry {
    Entry(reason, prior, Retrying, Some(FirstDueAtMs(p, t, reason, prior)), streak)
  }

  /**
   * Registration and decision agree. A letter refused for good or out of attempts is due, and parked, at the moment it
   * is registered. Any other waits at every moment before its first due time and is re-driven from that moment on, and
   * that time is the one the schedule gives. A tripped breaker parks it whatever the time.
   */
  lemma ScheduleAgrees(p: Policy, t: real, reason: Reason, prior: nat, streak: nat, now: real)
    requires Usable(p)
    ensures var e := Registered(p, t, reason, prior, streak);
            var due := FirstDueAtMs(p, t, reason, prior);
            && (Refused(reason) ==> due == t && Decide(e, now, p) == Park(if reason == NonRetryable then RefusedForGood else CannotDecode))
            && (!Refused(reason) && streak as real >= p.groupFailureThreshold ==> Decide(e, now, p) == Park(RepeatedFailure))
            && (!Refused(reason) && streak as real < p.groupFailureThreshold && prior >= |p.delaysMs| ==>
                  due == t && Decide(e, now, p) == Park(AttemptsExhausted))
            && (!Refused(reason) && streak as real < p.groupFailureThreshold && prior < |p.delaysMs| ==>
                  && due == NextAttemptAtMs(p, prior, t) > t
                  && (Decide(e, now, p) == Wait(due) <==> now < due)
                  && (Decide(e, now, p) == Again(prior + 1) <==> now >= due))
  {
  }

  /** Only what is settled is left alone, whatever else its row says. */
  lemma SettledIsSkipped(e: Entry, now: real, p: Policy)
    ensures Decide(e, now, p) == Skip <==> e.state != Retrying
  {
  }

  /** A due letter is never told to wait: it is parked, or re-driven within its budget. */
  lemma DueIsDecided(e: Entry, now: real, p: Policy)
    requires e.state == Retrying && (e.nextAttemptAt.Some? ==> e.nextAttemptAt.value <= now)
    ensures Decide(e, now, p).Park? || (Decide(e, now, p) == Again(e.attempts + 1) && e.attempts < |p.delaysMs|)
  {
  }
}
