/**
 * The error boundary of a Kafka consumer: decode, handle with bounded retry, park on the dead-letter topic. What the
 * handler, the broker, the group's heartbeats and the observer do is a parameter: every claim is for all of it.
 */
module KafkaConsumer {
  import opened Wrappers
  import opened DeadLetterPolicy

  datatype Reason = Undecodable | NonRetryable | HandlerFailed

  /**
   * A parked message: the reason and the handler calls made, next to the untouched bytes of the offset it came from.
   */
  datatype Letter = Letter(offset: nat, reason: Reason, attempts: nat)

  datatype Outcome = Handled | Fails | NeverProcessable

  /** `send` failing may still have written the letter: the acknowledgement got lost. */
  datatype Send = Written | NotWritten | WrittenUnacknowledged

  /**
   * Everything outside the code during one delivery: the handler's outcome per attempt, whether the k-th heartbeat
   * succeeds, whether the producer connects, how the dead-letter write ends, and the observer (None when there is none).
   */
  datatype World = World(
    handler: nat -> Outcome,
    heartbeat: nat -> bool,
    connects: bool,
    send: Send,
    observer: Option<bool>)

  datatype Message = Message(offset: nat, empty: bool, decodes: bool)

  // ── What one delivery does ──────────────────────────────────────

  /**
   * What the consumer has done so far: handler calls, sleeps, heartbeats, letters written, letters shown to the
   * observer.
   */
  datatype Trace = Trace(calls: nat, slices: seq<real>, beats: nat, parked: seq<Letter>, observed: seq<Letter>, connected: bool)

  /** `returned` is false when eachMessage throws, which makes kafkajs deliver the message again. */
  datatype Ended = Ended(trace: Trace, returned: bool)

  /** `deadLetter`: connect, write, and only then tell the observer, whose failure is swallowed. */
  function Park(t: Trace, letter: Letter, w: World): Ended {
    if !t.connected && !w.connects then Ended(t, false)
    else
      match w.send
      case NotWritten => Ended(t.(connected := true), false)
      case WrittenUnacknowledged => Ended(t.(connected := true, parked := t.parked + [letter]), false)
      case Written =>
        Ended(t.(connected := true, parked := t.parked + [letter],
                 observed := if w.observer.Some? && letter.reason != Undecodable then t.observed + [letter] else t.observed), true)
  }

  /** `sleepWithHeartbeat`. */
  function Sleep(t: Trace, remaining: real, w: World): Ended
    decreases if remaining > 0.0 then remaining.Floor + 1 else 0
  {
    if remaining <= 0.0 then Ended(t, true)
    else
      var step := Min(remaining, HEARTBEAT_SLICE_MS);
      var t' := t.(slices := t.slices + [step], beats := t.beats + 1);
      if !w.heartbeat(t.beats) then Ended(t', false)
      else if step == remaining then Ended(t', true)
      else Sleep(t', remaining - step, w)
  }

  /** `handleWithRetry` from attempt `attempt` on. */
  function RetryFrom(t: Trace, attempt: nat, offset: nat, p: Policy, w: World): Ended
    requires attempt >= 1
    decreases p.maxHandlerAttempts.Floor - attempt
  {
    var t' := t.(calls := t.calls + 1);
    match w.handler(attempt)
    case Handled => Ended(t', true)
    case NeverProcessable => Park(t', Letter(offset, NonRetryable, attempt), w)
    case Fails =>
      if attempt as real >= p.maxHandlerAttempts then Park(t', Letter(offset, HandlerFailed, attempt), w)
      else
        var slept := Sleep(t', BackoffMs(p, attempt), w);
        if !slept.returned then slept else RetryFrom(slept.trace, attempt + 1, offset, p, w)
  }

  /** The body of `eachMessage`. */
  function Deliver(t: Trace, m: Message, p: Policy, w: World): Ended {
    if m.empty then Ended(t, true)
    else if !m.decodes then Park(t, Letter(m.offset, Undecodable, 0), w)
    else RetryFrom(t, 1, m.offset, p, w)
  }

  // ── KafkaEventBus ───────────────────────────────────────────────

  class KafkaEventBus {
    const policy: Policy
    var producerConnected: bool
    var handlerCalls: nat
    var slept: seq<real>
    var beats: nat
    var deadLetters: seq<Letter>
    var shown: seq<Letter>

    constructor (policy: Policy)
      ensures this.policy == policy && Done() == Trace(0, [], 0, [], [], false)
    {
      this.policy := policy;
      producerConnected, handlerCalls, slept, beats, deadLetters, shown := false, 0, [], 0, [], [];
    }

    function Done(): Trace
      reads this
    {
      Trace(handlerCalls, slept, beats, deadLetters, shown, producerConnected)
    }

    /** `connect`: false stands for the exception. */
    method Connect(w: World) returns (ok: bool)
      modifies this`producerConnected
      ensures ok <==> old(producerConnected) || w.connects
      ensures producerConnected == ok
    {
      if producerConnected {
        return true;
      }
      producerConnected := w.connects;
      return producerConnected;
    }

    method DeadLetter(letter: Letter, w: World) returns (ok: bool)
      modifies this
      ensures Ended(Done(), ok) == Park(old(Done()), letter, w)
    {
      ok := Connect(w);
      if !ok {
        return;
      }
      if w.send != NotWritten {
        deadLetters := deadLetters + [letter];
      }
      if w.send != Written {
        return false;
      }
      if letter.reason != Undecodable && w.observer.Some? {
        shown := shown + [letter];
      }
    }

    method SleepWithHeartbeat(ms: real, w: World) returns (ok: bool)
      modifies this`slept, this`beats
      ensures Ended(Done(), ok) == Sleep(old(Done()), ms, w)
    {
      var remaining := ms;
      while remaining > 0.0
        invariant Sleep(old(Done()), ms, w) == Sleep(Done(), remaining, w)
        decreases if remaining > 0.0 then remaining.Floor + 1 else 0
      {
        var step := Min(remaining, HEARTBEAT_SLICE_MS);
        slept := slept + [step];
        remaining := remaining - step;
        beats := beats + 1;
        if !w.heartbeat(beats - 1) {
          return false;
        }
      }
      return true;
    }

    method HandleWithRetry(offset: nat, w: World) returns (ok: bool)
      requires Usable(policy)
      modifies this
      ensures Ended(Done(), ok) == RetryFrom(old(Done()), 1, offset, policy, w)
    {
      hide Sleep, Park, BackoffMs;
      var attempt := 1;
      while true
        invariant 1 <= attempt && attempt as real <= policy.maxHandlerAttempts
        invariant RetryFrom(old(Done()), 1, offset, policy, w) == RetryFrom(Done(), attempt, offset, policy, w)
        decreases policy.maxHandlerAttempts.Floor - attempt
      {
        handlerCalls := handlerCalls + 1;
        match w.handler(attempt) {
          case Handled =>
            return true;
          case NeverProcessable =>
            ok := DeadLetter(Letter(offset, NonRetryable, attempt), w);
            return;
          case Fails =>
            if attempt as real >= policy.maxHandlerAttempts {
              ok := DeadLetter(Letter(offset, HandlerFailed, attempt), w);
              return;
            }
            ok := SleepWithHeartbeat(BackoffMs(policy, attempt), w);
            if !ok {
              return;
            }
        }
        attempt := attempt + 1;
      }
    }

    method EachMessage(m: Message, w: World) returns (ok: bool)
      requires Usable(policy)
      modifies this
      ensures Ended(Done(), ok) == Deliver(old(Done()), m, policy, w)
    {
      if m.empty {
        return true;
      }
      if !m.decodes {
        ok := DeadLetter(Letter(m.offset, Undecodable, 0), w);
        return;
      }
      ok := HandleWithRetry(m.offset, w);
    }
  }
}
