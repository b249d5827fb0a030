// The command queue always settles: from every reachable state the queue's own steps run out, and when
// they have, every push has returned - unless exit was enqueued while more producers were blocked than
// commands were queued, and then some call hangs for good.
module CommandQueueProgress {
  import opened Wrappers
  import opened CommandBuffer
  import opened CommandQueue
  import opened CommandQueueSafety
  import opened CommandQueueRuns

  // The steps the queue takes on its own: no new call, no failing wait.
  predicate Internal(step: Step) {
    !step.Begin? && !step.BeginExit? && !step.WaitFails?
  }

  // ---------- a measure that every internal step decreases ----------

  function Weight(call: Call, signalled: set<Event>): nat {
    match call
    case Trying(_, _) => 15
    case WaitingSpace(_, e) => if e in signalled then 16 else 9
    case WaitingDone(_, _) => 2
    case Completed(_, _) => 1
    case Returned(_, _) => 0
  }

  function CallsWeight(calls: seq<Call>, signalled: set<Event>): nat
    decreases |calls|
  {
    if calls == [] then 0
    else CallsWeight(calls[..|calls| - 1], signalled) + Weight(calls[|calls| - 1], signalled)
  }

  function ConsumerWeight(consumer: Consumer, commandEvent: bool): nat {
    match consumer
    case Idle => 1
    case Holding(_) => 3
    case Executed(_) => 2
    case Parked => if commandEvent then 2 else 0
    case Stopped => 0
  }

  function Measure(s: State): nat {
    CallsWeight(s.calls, s.sh.signalled) + 10 * |s.sh.queue| + ConsumerWeight(s.consumer, s.sh.commandEvent)
  }

  lemma {:induction false} SameWeights(calls: seq<Call>, sig: set<Event>, calls': seq<Call>, sig': set<Event>)
    requires |calls'| == |calls|
    requires forall d :: 0 <= d < |calls| ==> Weight(calls'[d], sig') == Weight(calls[d], sig)
    ensures CallsWeight(calls', sig') == CallsWeight(calls, sig)
    decreases |calls|
  {
    if calls != [] {
      var n := |calls| - 1;
      SameWeights(calls[..n], sig, calls'[..n], sig');
    }
  }

  // Only the weight of call `c` changes.
  lemma {:induction false} WeightChangesAt(calls: seq<Call>, sig: set<Event>, calls': seq<Call>, sig': set<Event>, c: nat)
    requires c < |calls| == |calls'|
    requires forall d :: 0 <= d < |calls| && d != c ==> Weight(calls'[d], sig') == Weight(calls[d], sig)
    ensures CallsWeight(calls', sig') + Weight(calls[c], sig) == CallsWeight(calls, sig) + Weight(calls'[c], sig')
    decreases |calls|
  {
    var n := |calls| - 1;
    if c == n {
      SameWeights(calls[..n], sig, calls'[..n], sig');
    } else {
      WeightChangesAt(calls[..n], sig, calls'[..n], sig', c);
    }
  }

  lemma PopDecreases(s: State, t: State, q: Queued)
    requires Pops(s, t, q) && Inv(s)
    ensures Measure(t) < Measure(s)
  {
    if s.sh.blocked == [] {
      SameWeights(s.calls, s.sh.signalled, t.calls, t.sh.signalled);
    } else {
      var c := BlockedProducer(s, s.sh.blocked[0]);
      forall d | 0 <= d < |s.calls| && d != c
        ensures Weight(t.calls[d], t.sh.signalled) == Weight(s.calls[d], s.sh.signalled)
      {
        OwnersDiffer(s, c, d);
      }
      WeightChangesAt(s.calls, s.sh.signalled, t.calls, t.sh.signalled, c);
    }
  }

  lemma WakeDecreases(s: State, t: State, c: nat)
    requires || (Enabled(s, WakeSpace(c)) && t == Apply(s, WakeSpace(c)))
             || (Enabled(s, WakeDone(c)) && t == Apply(s, WakeDone(c)))
    requires Inv(s)
    ensures Measure(t) < Measure(s)
  {
    hide BufferInv, FifoInv, ExitInv, EventInv, AttachedInv, WakeInv;
    forall d | 0 <= d < |s.calls| && d != c
      ensures Weight(t.calls[d], t.sh.signalled) == Weight(s.calls[d], s.sh.signalled)
    {
      OwnersDiffer(s, c, d);
    }
    WeightChangesAt(s.calls, s.sh.signalled, t.calls, t.sh.signalled, c);
  }

  lemma NotifyDecreases(s: State)
    requires Enabled(s, Notify) && Inv(s)
    ensures Measure(Apply(s, Notify)) < Measure(s)
  {
    hide BufferInv, FifoInv, ExitInv, EventInv, WakeInv;
    var t := Apply(s, Notify);
    var q := s.consumer.q;
    forall d | 0 <= d < |s.calls|
      ensures Weight(t.calls[d], t.sh.signalled) == Weight(s.calls[d], s.sh.signalled)
    {
      if q.done.Some? && d != q.cmd.id {
        OwnersDiffer(s, q.cmd.id, d);
      }
    }
    SameWeights(s.calls, s.sh.signalled, t.calls, t.sh.signalled);
  }

  lemma AttemptDecreases(s: State, c: nat)
    requires Enabled(s, Attempt(c)) && Inv(s)
    ensures Measure(Apply(s, Attempt(c))) < Measure(s)
  {
    hide BufferInv, CallInv, FifoInv, ExitInv, OwnerInv, AttachedInv, WakeInv, CallsWeight;
    var t := Apply(s, Attempt(c));
    AttemptIs(s, c);
    if TryPush(s.sh, s.calls[c].cmd, s.calls[c].held).0.Full? {
      var e := t.calls[c].ev;
      PoolIsQuiet(s, t, c, WaitingSpace(s.calls[c].cmd, e));
    }
    WeightChangesAt(s.calls, s.sh.signalled, t.calls, t.sh.signalled, c);
  }

  lemma StepDecreases(s: State, step: Step)
    requires Inv(s) && Enabled(s, step) && Internal(step)
    ensures Measure(Apply(s, step)) < Measure(s)
  {
    hide BufferInv, CallInv, FifoInv, ExitInv, OwnerInv, EventInv, AttachedInv, WakeInv, Reserve, Release;
    match step
    case Attempt(c) => AttemptDecreases(s, c);
    case WakeSpace(c) => WakeDecreases(s, Apply(s, step), c);
    case WakeDone(c) => WakeDecreases(s, Apply(s, step), c);
    case Finish(c) => WeightChangesAt(s.calls, s.sh.signalled, Apply(s, step).calls, s.sh.signalled, c);
    case Pop =>
      PopIs(s);
      if s.sh.queue != [] {
        PopDecreases(s, Apply(s, Pop), s.sh.queue[0]);
      }
    case Notify => NotifyDecreases(s);
    case Execute =>
    case ConsumerWake =>
  }

  // ---------- where the steps end ----------

  // No internal step is left.
  ghost predicate Quiet(s: State) {
    forall step :: Enabled(s, step) ==> !Internal(step)
  }

  ghost predicate AllInternal(steps: seq<Step>) {
    forall i :: 0 <= i < |steps| ==> Internal(steps[i])
  }

  // However the threads are scheduled, the queue's own steps run out.
  lemma {:induction false} InternalRunsEnd(s: State, steps: seq<Step>, t: State)
    requires Inv(s) && Leads(s, steps, t) && AllInternal(steps)
    ensures |steps| + Measure(t) <= Measure(s)
    decreases |steps|
  {
    hide Inv, Measure, Apply, Enabled;
    if steps != [] {
      assert Internal(steps[0]);
      StepDecreases(s, steps[0]);
      StepKeeps(s, steps[0]);
      InternalRunsEnd(Apply(s, steps[0]), steps[1..], t);
    }
  }

  // A quiet state has nothing in flight, and only a producer left in the blocked list has not returned.
  lemma QuietState(s: State)
    requires Inv(s) && Quiet(s)
    ensures s.sh.queue == [] && s.executed == s.accepted
    ensures s.consumer == if s.sh.exitProcessed then Stopped else Parked
    ensures forall c :: 0 <= c < |s.calls| && !s.calls[c].Returned? ==>
                          s.calls[c].WaitingSpace? && s.calls[c].ev in s.sh.blocked
    ensures !s.sh.exitEnqueued ==> forall c :: 0 <= c < |s.calls| ==> s.calls[c].Returned?
  {
    hide OwnerInv, ExitInv, AttachedInv, Holds, Reserve;
    RingMatchesQueue(s.sh);
    assert !Enabled(s, Pop) && !Enabled(s, Execute) && !Enabled(s, Notify) && !Enabled(s, ConsumerWake);
    QuietConsumer(s);
    forall d | 0 <= d < |s.calls|
      ensures !Retrying(s.sh, s.calls[d])
    {
      assert !Enabled(s, Attempt(d)) && !Enabled(s, WakeSpace(d));
    }
    forall c | 0 <= c < |s.calls| && !s.calls[c].Returned?
      ensures s.calls[c].WaitingSpace? && s.calls[c].ev in s.sh.blocked && s.sh.exitEnqueued
    {
      assert !Enabled(s, Attempt(c)) && !Enabled(s, WakeSpace(c)) && !Enabled(s, WakeDone(c)) && !Enabled(s, Finish(c));
      assert CallEventInv(s, s.calls[c]);
    }
  }

  lemma QuietConsumer(s: State)
    requires Inv(s)
    requires !Enabled(s, Pop) && !Enabled(s, Execute) && !Enabled(s, Notify) && !Enabled(s, ConsumerWake)
    ensures s.sh.queue == [] && s.executed == s.accepted
    ensures s.consumer == if s.sh.exitProcessed then Stopped else Parked
  {
    RingMatchesQueue(s.sh);
    if s.consumer.Stopped? {
      var n := |s.executed|;
      assert s.executed[n - 1] == s.accepted[n - 1];
      ExitPosition(s, n - 1);
    }
  }

  // A quiet state can always be reached, and it is reached whatever steps are chosen.
  lemma Settles(s: State) returns (steps: seq<Step>, t: State)
    requires Inv(s)
    ensures Leads(s, steps, t) && AllInternal(steps) && Quiet(t)
    decreases Measure(s)
  {
    hide Inv, Measure, Apply, Enabled;
    if Quiet(s) {
      steps, t := [], s;
    } else {
      var step :| Enabled(s, step) && Internal(step);
      StepDecreases(s, step);
      StepKeeps(s, step);
      var rest;
      rest, t := Settles(Apply(s, step));
      steps := [step] + rest;
      assert steps[1..] == rest;
    }
  }
}
