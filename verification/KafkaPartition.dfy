/**
 * One partition of a consumer group over time: deliveries, throws and redeliveries, offset commits, crashes and
 * rebalances. "Dead-lettered or redelivered, never dropped": an offset is behind the committed one only if its message
 * was handled, parked, or had no value.
 */
module KafkaPartition {
  import opened Wrappers
  import opened DeadLetterPolicy
  import opened KafkaConsumer
  import opened KafkaConsumerLaws

  /** `position` is the next offset this member will deliver, `committed` where a new owner would start. */
  datatype Partition = Partition(log: seq<Message>, position: nat, committed: nat, trace: Trace, handled: set<nat>)

  /**
   * Receive runs eachMessage to its end. Die is a delivery during which the process dies or the partition is taken away:
   * its effects stay, its result is lost. Rebalance is the same between deliveries.
   */
  datatype Step =
    | Append(empty: bool, decodes: bool)
    | Receive(w: World)
    | CommitOffset(offset: nat)
    | Die(w: World)
    | Rebalance

  predicate Can(s: Partition, step: Step) {
    match step
    case Append(_, _) => true
    case Receive(_) => s.position < |s.log|
    case CommitOffset(offset) => s.committed <= offset <= s.position
    case Die(_) => s.position < |s.log|
    case Rebalance => true
  }

  /** The offsets known to have been handled once `m` was delivered. */
  function HandledAfter(s: Partition, m: Message, e: Ended, w: World): set<nat> {
    if !m.empty && m.decodes && Succeeded(s.trace, e, w) then s.handled + {m.offset} else s.handled
  }

  function Do(s: Partition, p: Policy, step: Step): Partition
    requires Can(s, step)
  {
    match step
    case Append(empty, decodes) => s.(log := s.log + [Message(|s.log|, empty, decodes)])
    case Receive(w) =>
      var m := s.log[s.position];
      var e := Deliver(s.trace, m, p, w);
      s.(trace := e.trace, handled := HandledAfter(s, m, e, w), position := if e.returned then s.position + 1 else s.position)
    case CommitOffset(offset) => s.(committed := offset)
    case Die(w) =>
      var m := s.log[s.position];
      var e := Deliver(s.trace, m, p, w);
      s.(trace := e.trace.(connected := false), handled := HandledAfter(s, m, e, w), position := s.committed)
    case Rebalance => s.(trace := s.trace.(connected := false), position := s.committed)
  }

  predicate IsParked(s: Partition, offset: nat) {
    exists letter :: letter in s.trace.parked && letter.offset == offset
  }

  predicate Settled(s: Partition, offset: nat)
    requires offset < |s.log|
  {
    s.log[offset].empty || offset in s.handled || IsParked(s, offset)
  }

  predicate Safe(s: Partition) {
    && s.committed <= s.position <= |s.log|
    && (forall i :: 0 <= i < |s.log| ==> s.log[i].offset == i)
    && (forall i :: 0 <= i < s.position ==> Settled(s, i))
  }

  /** What has settled an offset stays: the dead-letter topic and the handled set only grow. */
  lemma SettledStays(s: Partition, s': Partition, i: nat)
    requires i < |s.log| && s.log <= s'.log && s.trace.parked <= s'.trace.parked && s.handled <= s'.handled
    requires Settled(s, i)
    ensures Settled(s', i)
  {
    if IsParked(s, i) {
      var letter :| letter in s.trace.parked && letter.offset == i;
      assert letter in s'.trace.parked;
    }
  }

  lemma StepGrows(s: Partition, p: Policy, step: Step)
    requires Usable(p) && Can(s, step)
    ensures var s' := Do(s, p, step); s.log <= s'.log && s.trace.parked <= s'.trace.parked && s.handled <= s'.handled
  {
    hide Deliver, Succeeded;
    if step.Receive? || step.Die? {
      PassedOnlyWhenSettled(s.trace, s.log[s.position], p, step.w);
    }
  }

  lemma StepSafe(s: Partition, p: Policy, step: Step)
    requires Usable(p) && Safe(s) && Can(s, step)
    ensures Safe(Do(s, p, step))
  {
    var s' := Do(s, p, step);
    StepGrows(s, p, step);
    hide Deliver, Settled, Succeeded;
    forall i | 0 <= i < s.position ensures Settled(s', i) {
      SettledStays(s, s', i);
    }
    if step.Receive? && s'.position > s.position {
      DeliveredIsSettled(s, p, step.w);
    }
  }

  lemma DeliveredIsSettled(s: Partition, p: Policy, w: World)
    requires Usable(p) && Safe(s) && Can(s, Receive(w)) && Deliver(s.trace, s.log[s.position], p, w).returned
    ensures Settled(Do(s, p, Receive(w)), s.position)
  {
    hide Deliver;
    var m := s.log[s.position];
    PassedOnlyWhenSettled(s.trace, m, p, w);
    var e := Deliver(s.trace, m, p, w);
    if ParkedNow(s.trace, e, m.offset) {
      assert Last(e.trace.parked) in e.trace.parked;
    }
  }

  // ── Every run ───────────────────────────────────────────────────

  predicate Run(s: Partition, p: Policy, steps: seq<Step>)
    decreases |steps|
  {
    steps == [] || (Can(s, steps[0]) && Run(Do(s, p, steps[0]), p, steps[1..]))
  }

  function After(s: Partition, p: Policy, steps: seq<Step>): Partition
    requires Run(s, p, steps)
    decreases |steps|
  {
    if steps == [] then s else After(Do(s, p, steps[0]), p, steps[1..])
  }

  function Start(log: seq<Message>): Partition {
    Partition(log, 0, 0, Trace(0, [], 0, [], [], false), {})
  }

  predicate WellNumbered(log: seq<Message>) {
    forall i :: 0 <= i < |log| ==> log[i].offset == i
  }

  lemma {:induction false} RunSafe(s: Partition, p: Policy, steps: seq<Step>)
    requires Usable(p) && Safe(s) && Run(s, p, steps)
    ensures Safe(After(s, p, steps)) && s.log <= After(s, p, steps).log
    decreases |steps|
  {
    hide Safe, Do, Can;
    if steps != [] {
      StepSafe(s, p, steps[0]);
      StepGrows(s, p, steps[0]);
      RunSafe(Do(s, p, steps[0]), p, steps[1..]);
    }
  }

  /** In every state of every run, each committed offset was handled, parked, or had no value. */
  lemma CommittedIsSettled(log: seq<Message>, p: Policy, steps: seq<Step>)
    requires Usable(p) && WellNumbered(log) && Run(Start(log), p, steps)
    ensures var s := After(Start(log), p, steps);
            s.committed <= |s.log| && forall i :: 0 <= i < s.committed ==> Settled(s, i)
  {
    RunSafe(Start(log), p, steps);
  }

  // ── "Never dropped", exactly ────────────────────────────────────

  /** Some committed offset was neither handled nor parked. */
  predicate Drops(s: Partition) {
    exists i :: 0 <= i < s.committed && i < |s.log| && i !in s.handled && !IsParked(s, i)
  }

  /** The log stays as it is. */
  predicate NoAppends(steps: seq<Step>) {
    forall k :: 0 <= k < |steps| ==> !steps[k].Append?
  }

  ghost predicate NeverDrops(log: seq<Message>, p: Policy) {
    forall steps: seq<Step> :: Run(Start(log), p, steps) && NoAppends(steps) ==> !Drops(After(Start(log), p, steps))
  }

  function AllWell(): World {
    World((attempt: nat) => Handled, (beat: nat) => true, true, Written, None)
  }

  /** The state after delivering the first `n` messages with nothing going wrong. */
  function Consumed(log: seq<Message>, p: Policy, n: nat): Partition
    requires n <= |log|
  {
    if n == 0 then Start(log)
    else
      var s := Consumed(log, p, n - 1);
      if s.position < |s.log| then Do(s, p, Receive(AllWell())) else s
  }

  lemma {:induction false} ConsumedReached(log: seq<Message>, p: Policy, n: nat) returns (steps: seq<Step>)
    requires n <= |log| && WellNumbered(log) && Usable(p)
    ensures Run(Start(log), p, steps) && After(Start(log), p, steps) == Consumed(log, p, n)
    ensures forall k :: 0 <= k < |steps| ==> steps[k] == Receive(AllWell())
    ensures var s := Consumed(log, p, n);
            && s.log == log && s.position == n && s.committed == 0
            && (forall i :: 0 <= i < |log| && log[i].empty ==> i !in s.handled && !IsParked(s, i))
  {
    if n == 0 {
      steps := [];
    } else {
      steps := ConsumedReached(log, p, n - 1);
      var s := Consumed(log, p, n - 1);
      OneConsumed(s, p);
      hide Do, Deliver;
      RunThen(Start(log), p, steps, Receive(AllWell()));
      steps := steps + [Receive(AllWell())];
    }
  }

  lemma OneConsumed(s: Partition, p: Policy)
    requires s.position < |s.log| && WellNumbered(s.log) && Usable(p)
    requires forall i :: 0 <= i < |s.log| && s.log[i].empty ==> i !in s.handled && !IsParked(s, i)
    ensures var s' := Do(s, p, Receive(AllWell()));
            && s'.log == s.log && s'.position == s.position + 1 && s'.committed == s.committed
            && (forall i :: 0 <= i < |s.log| && s.log[i].empty ==> i !in s'.handled && !IsParked(s', i))
  {
    var s' := Do(s, p, Receive(AllWell()));
    forall i | 0 <= i < |s.log| && s.log[i].empty ensures !IsParked(s', i) {
      assert forall letter :: letter in s'.trace.parked ==> letter in s.trace.parked || letter.offset == s.position;
    }
  }

  lemma {:induction false} RunThen(s: Partition, p: Policy, steps: seq<Step>, step: Step)
    requires Run(s, p, steps) && Can(After(s, p, steps), step)
    ensures Run(s, p, steps + [step]) && After(s, p, steps + [step]) == Do(After(s, p, steps), p, step)
    decreases |steps|
  {
    hide Can, Do;
    if steps == [] {
      assert [step][1..] == [];
      assert Run(Do(s, p, step), p, []);
    } else {
      RunThen(Do(s, p, steps[0]), p, steps[1..], step);
      assert (steps + [step])[1..] == steps[1..] + [step];
    }
  }

  /**
   * The header's "never dropped" (kafka-bus.ts line 18) is true of a log exactly when no message in it has a null
   * value: such a message is passed without being handled or parked.
   */
  lemma NeverDroppedIffNoneEmpty(log: seq<Message>, p: Policy)
    requires WellNumbered(log) && Usable(p)
    ensures NeverDrops(log, p) <==> forall i :: 0 <= i < |log| ==> !log[i].empty
  {
    hide Run, After, Do, Deliver, Can, Consumed;
    if forall i :: 0 <= i < |log| ==> !log[i].empty {
      forall steps: seq<Step> | Run(Start(log), p, steps) && NoAppends(steps)
        ensures !Drops(After(Start(log), p, steps))
      {
        CommittedIsSettled(log, p, steps);
        LogStays(Start(log), p, steps);
        var s := After(Start(log), p, steps);
        assert s.log == log;
        assert forall i :: 0 <= i < s.committed ==> Settled(s, i);
        hide Settled;
        assert forall i :: 0 <= i < s.committed ==> i in s.handled || IsParked(s, i) by { NotEmptySettled(s); }
      }
    } else {
      var i :| 0 <= i < |log| && log[i].empty;
      var steps := EmptyPassed(log, p, i);
    }
  }

  lemma NotEmptySettled(s: Partition)
    requires forall i :: 0 <= i < |s.log| ==> !s.log[i].empty
    ensures forall i :: 0 <= i < |s.log| && Settled(s, i) ==> i in s.handled || IsParked(s, i)
  {
  }

  lemma EmptyPassed(log: seq<Message>, p: Policy, i: nat) returns (steps: seq<Step>)
    requires WellNumbered(log) && Usable(p) && i < |log| && log[i].empty
    ensures Run(Start(log), p, steps) && Drops(After(Start(log), p, steps))
    ensures NoAppends(steps)
  {
    steps := ConsumedReached(log, p, i + 1);
    var commit := CommitOffset(i + 1);
    hide Run, After, Deliver, Consumed;
    RunThen(Start(log), p, steps, commit);
    steps := steps + [commit];
    var s := After(Start(log), p, steps);
    assert i < s.committed && i !in s.handled && !IsParked(s, i);
  }

  lemma {:induction false} LogStays(s: Partition, p: Policy, steps: seq<Step>)
    requires Run(s, p, steps) && NoAppends(steps)
    ensures After(s, p, steps).log == s.log
    decreases |steps|
  {
    hide Deliver, HandledAfter;
    if steps != [] {
      LogStays(Do(s, p, steps[0]), p, steps[1..]);
    }
  }
}
