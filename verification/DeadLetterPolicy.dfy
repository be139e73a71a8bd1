/**
 * The dead-letter policy: its validation, the capped exponential backoff, and the sleep that is cut into heartbeat
 * slices. Milliseconds are reals; NaN and the infinities are not modelled.
 */
module DeadLetterPolicy {
  import opened Wrappers
  import Scanning

  datatype Policy = Policy(topic: string, maxHandlerAttempts: real, baseBackoffMs: real, maxBackoffMs: real)

  datatype Overrides = Overrides(topic: Option<string>, maxHandlerAttempts: Option<real>, baseBackoffMs: Option<real>, maxBackoffMs: Option<real>)

  datatype PolicyError = BadAttempts | BadBackoff | BadTopic

  const DEFAULT_POLICY: Policy := Policy("events.dead-letter", 6.0, 500.0, 15_000.0)

  function Or<T>(o: Option<T>, default: T): T {
    if o.Some? then o.value else default
  }

  predicate IsInteger(x: real) {
    x == x.Floor as real
  }

  /** `resolveDeadLetterPolicy`; the error stands for the RangeError. */
  function ResolvePolicy(o: Overrides): Result<Policy, PolicyError> {
    var p := Policy(Or(o.topic, DEFAULT_POLICY.topic), Or(o.maxHandlerAttempts, DEFAULT_POLICY.maxHandlerAttempts),
                    Or(o.baseBackoffMs, DEFAULT_POLICY.baseBackoffMs), Or(o.maxBackoffMs, DEFAULT_POLICY.maxBackoffMs));
    if !IsInteger(p.maxHandlerAttempts) || p.maxHandlerAttempts < 1.0 then Err(BadAttempts)
    else if !(p.baseBackoffMs >= 0.0) || !(p.maxBackoffMs >= p.baseBackoffMs) then Err(BadBackoff)
    else if Scanning.Trim(p.topic) == "" then Err(BadTopic)
    else Ok(p)
  }

  /** What the retry loop relies on. */
  predicate Usable(p: Policy) {
    IsInteger(p.maxHandlerAttempts) && p.maxHandlerAttempts >= 1.0 && 0.0 <= p.baseBackoffMs <= p.maxBackoffMs
  }

  /** What the overrides leave open is six attempts, 0.5 s doubling up to 15 s; what they say holds if it is usable. */
  lemma ResolvedIsUsable(o: Overrides)
    ensures var p := Policy(if o.topic.Some? then o.topic.value else "events.dead-letter",
                            if o.maxHandlerAttempts.Some? then o.maxHandlerAttempts.value else 6.0,
                            if o.baseBackoffMs.Some? then o.baseBackoffMs.value else 500.0,
                            if o.maxBackoffMs.Some? then o.maxBackoffMs.value else 15_000.0);
            && (ResolvePolicy(o).Ok? <==> Usable(p) && exists i :: 0 <= i < |p.topic| && !Scanning.IsSpace(p.topic[i]))
            && (ResolvePolicy(o).Ok? ==> ResolvePolicy(o).value == p)
    ensures ResolvePolicy(Overrides(None, None, None, None)).Ok?
  {
    Scanning.TrimIsEmpty(if o.topic.Some? then o.topic.value else "events.dead-letter");
    hide Scanning.Trim;
    assert Scanning.Trim(DEFAULT_POLICY.topic) == DEFAULT_POLICY.topic by {
      hide Scanning.Trim, Scanning.IsSpace;
      DefaultTopic();
      Scanning.TrimTrimmed(DEFAULT_POLICY.topic);
    }
  }

  lemma DefaultTopic()
    ensures var t := DEFAULT_POLICY.topic; t != [] && !Scanning.IsSpace(t[0]) && !Scanning.IsSpace(t[|t| - 1])
  {
  }

  // ── Backoff ─────────────────────────────────────────────────────

  function Pow2(n: nat): (r: real)
    ensures r >= 1.0
  {
    if n == 0 then 1.0 else 2.0 * Pow2(n - 1)
  }

  function Min(a: real, b: real): real {
    if a < b then a else b
  }

  /** The delay after failed attempt `attempt`, counted from 1. */
  function BackoffMs(p: Policy, attempt: nat): real
    requires attempt >= 1
  {
    Min(p.maxBackoffMs, p.baseBackoffMs * Pow2(attempt - 1))
  }

  /** The delays after the first `attempts - 1` failed attempts, together. */
  function TotalBackoff(p: Policy, attempts: nat): real {
    if attempts <= 1 then 0.0 else TotalBackoff(p, attempts - 1) + BackoffMs(p, attempts - 1)
  }

  lemma BackoffNonNegative(p: Policy, attempt: nat)
    requires Usable(p) && attempt >= 1
    ensures 0.0 <= BackoffMs(p, attempt) <= p.maxBackoffMs
    ensures BackoffMs(p, attempt) <= p.baseBackoffMs * Pow2(attempt - 1)
  {
    var factor := Pow2(attempt - 1);
    assert p.baseBackoffMs * factor >= 0.0;
  }

  /** The first delay is the base, and each is twice the one before, until the cap: from then on it is the cap. */
  lemma BackoffDoubles(p: Policy, attempt: nat)
    requires Usable(p) && attempt >= 1
    ensures BackoffMs(p, 1) == p.baseBackoffMs
    ensures BackoffMs(p, attempt + 1) == if 2.0 * BackoffMs(p, attempt) <= p.maxBackoffMs then 2.0 * BackoffMs(p, attempt) else p.maxBackoffMs
  {
    var base, factor := p.baseBackoffMs, Pow2(attempt - 1);
    Halves(base, factor);
    assert Pow2(attempt) == 2.0 * factor;
    assert Pow2(0) == 1.0;
  }

  /** The cap is not reached by the first `attempts - 1` delays. */
  predicate Uncapped(p: Policy, attempts: nat) {
    attempts <= 1 || p.baseBackoffMs * Pow2(attempts - 2) <= p.maxBackoffMs
  }

  /** The delays as they would be without the cap, together. */
  function UncappedTotal(p: Policy, attempts: nat): real
    requires attempts >= 1
  {
    p.baseBackoffMs * (Pow2(attempts - 1) - 1.0)
  }

  /**
   * All delays together are at most base * (2^(attempts-1) - 1), and exactly that as long as the cap is not reached.
   */
  lemma {:induction false} TotalBackoffBounded(p: Policy, attempts: nat)
    requires Usable(p) && attempts >= 1
    ensures 0.0 <= TotalBackoff(p, attempts) <= UncappedTotal(p, attempts)
    ensures TotalBackoff(p, attempts) == UncappedTotal(p, attempts) <==> Uncapped(p, attempts)
  {
    if attempts > 1 {
      TotalBackoffBounded(p, attempts - 1);
      UncappedBefore(p, attempts);
      OneMoreDelay(p, attempts, TotalBackoff(p, attempts - 1));
      hide Usable, Uncapped, BackoffMs, UncappedTotal;
    }
  }

  lemma OneMoreDelay(p: Policy, attempts: nat, total: real)
    requires Usable(p) && attempts > 1 && 0.0 <= total <= UncappedTotal(p, attempts - 1)
    ensures var total' := total + BackoffMs(p, attempts - 1);
            && 0.0 <= total' <= UncappedTotal(p, attempts)
            && (total' == UncappedTotal(p, attempts) <==> total == UncappedTotal(p, attempts - 1) && Uncapped(p, attempts))
  {
    BackoffNonNegative(p, attempts - 1);
    NextUncapped(p, attempts);
    hide Usable, Uncapped, BackoffMs;
    NextTotal(p.baseBackoffMs, Pow2(attempts - 2), total, BackoffMs(p, attempts - 1));
  }

  lemma NextTotal(base: real, factor: real, total: real, delay: real)
    requires 0.0 <= total <= base * (factor - 1.0) && 0.0 <= delay <= base * factor
    ensures 0.0 <= total + delay <= base * (2.0 * factor - 1.0)
    ensures total + delay == base * (2.0 * factor - 1.0) <==> total == base * (factor - 1.0) && delay == base * factor
  {
    NextSum(base, factor);
  }

  /** The next delay is the doubled base exactly while the cap is not reached. */
  lemma NextUncapped(p: Policy, attempts: nat)
    requires attempts > 1
    ensures Uncapped(p, attempts) <==> BackoffMs(p, attempts - 1) == p.baseBackoffMs * Pow2(attempts - 2)
  {
  }

  lemma UncappedBefore(p: Policy, attempts: nat)
    requires Usable(p) && attempts > 1
    ensures Uncapped(p, attempts) ==> Uncapped(p, attempts - 1)
  {
    if attempts > 2 {
      Halves(p.baseBackoffMs, Pow2(attempts - 3));
    }
  }

  lemma NextSum(base: real, factor: real)
    ensures base * (2.0 * factor - 1.0) == base * (factor - 1.0) + base * factor
  {
  }

  lemma Halves(base: real, half: real)
    requires base >= 0.0 && half >= 1.0
    ensures base * (2.0 * half) == base * half + base * half && base * half >= 0.0
  {
  }

  // ── Heartbeat slices ────────────────────────────────────────────

  const HEARTBEAT_SLICE_MS: real := 3_000.0

  /** The sleeps `ms` is cut into. */
  function Slices(ms: real): seq<real>
    decreases if ms > 0.0 then ms.Floor + 1 else 0
  {
    if ms <= 0.0 then []
    else
      var step := Min(ms, HEARTBEAT_SLICE_MS);
      if step == ms then [ms] else [step] + Slices(ms - step)
  }

  function Sum(xs: seq<real>): real {
    if xs == [] then 0.0 else xs[0] + Sum(xs[1..])
  }

  lemma {:induction false} SumJoin(xs: seq<real>, ys: seq<real>)
    ensures Sum(xs + ys) == Sum(xs) + Sum(ys)
  {
    if xs == [] {
      assert xs + ys == ys;
    } else {
      assert (xs + ys)[1..] == xs[1..] + ys;
      SumJoin(xs[1..], ys);
    }
  }

  /** The slices make up the whole delay, all but the last of them whole heartbeat intervals of three seconds. */
  lemma {:induction false} SlicesCoverDelay(ms: real)
    requires ms >= 0.0
    ensures Sum(Slices(ms)) == ms
    ensures forall x :: x in Slices(ms) ==> 0.0 < x <= HEARTBEAT_SLICE_MS
    ensures forall i :: 0 <= i < |Slices(ms)| - 1 ==> Slices(ms)[i] == 3_000.0
    decreases if ms > 0.0 then ms.Floor + 1 else 0
  {
    if ms > HEARTBEAT_SLICE_MS {
      SlicesCoverDelay(ms - HEARTBEAT_SLICE_MS);
      assert Slices(ms)[1..] == Slices(ms - HEARTBEAT_SLICE_MS);
    } else if ms > 0.0 {
      assert [ms][1..] == [];
    }
  }

  lemma UncutRest(ms: real)
    requires ms > 0.0
    ensures Slices(ms) == [Min(ms, HEARTBEAT_SLICE_MS)] + Slices(ms - Min(ms, HEARTBEAT_SLICE_MS))
  {
  }
}
