// Who is woken, when, and in which order.
module CommandQueueWaits {
  import opened Wrappers
  import opened CommandBuffer
  import opened CommandQueue
  import opened CommandQueueSafety
  import opened CommandQueueRuns

  // How many commands the consumer takes out in a run.
  ghost function Taken(s: State, steps: seq<Step>): nat
    decreases |steps|
  {
    if steps == [] || !Enabled(s, steps[0]) then 0
    else (if steps[0].Pop? && s.sh.queue != [] then 1 else 0) + Taken(Apply(s, steps[0]), steps[1..])
  }

  function From(events: seq<Event>, k: nat): seq<Event> {
    if k <= |events| then events[k..] else []
  }

  lemma FromFrom(events: seq<Event>, longer: seq<Event>, j: nat, k: nat)
    requires From(events, j) <= longer
    ensures From(events, j + k) <= From(longer, k)
  {
    if j + k <= |events| {
      assert events[j + k..] == events[j..][k..];
      assert events[j..][k..] <= longer[k..];
    }
  }

  lemma BlockedMoves(s: State, step: Step)
    requires Enabled(s, step)
    ensures From(s.sh.blocked, if step.Pop? && s.sh.queue != [] then 1 else 0) <= Apply(s, step).sh.blocked
  {
    match step
    case Attempt(c) => AttemptIs(s, c);
    case Pop => PopIs(s);
    case _ =>
  }

  // Producers that found no room are woken in the order in which they were turned away, one by each command taken out.
  lemma {:induction false} WokenInOrder(s: State, steps: seq<Step>, t: State)
    requires Leads(s, steps, t)
    ensures From(s.sh.blocked, Taken(s, steps)) <= t.sh.blocked
    decreases |steps|
  {
    if steps != [] {
      var u := Apply(s, steps[0]);
      BlockedMoves(s, steps[0]);
      WokenInOrder(u, steps[1..], t);
      FromFrom(s.sh.blocked, u.sh.blocked, if steps[0].Pop? && s.sh.queue != [] then 1 else 0, Taken(u, steps[1..]));
    }
  }

  // An event is signalled by the pop that takes its producer off the list, or once the command that carries it has run;
  // it is cleared by the producer that waits on it, and by nothing else.
  lemma SignalsExactly(s: State, step: Step, e: Event)
    requires Enabled(s, step)
    ensures e !in s.sh.signalled ==>
              (e in Apply(s, step).sh.signalled <==>
               || (step.Pop? && s.sh.queue != [] && s.sh.blocked != [] && e == s.sh.blocked[0])
               || (step.Notify? && s.consumer.q.done == Some(e)))
    ensures e in s.sh.signalled ==>
              (e !in Apply(s, step).sh.signalled <==> (step.WakeSpace? || step.WakeDone?) && s.calls[step.c].Owned() == Some(e))
  {
    hide TryPush, TryPop, Reserve, Release, AllocEvent;
    match step
    case Attempt(c) => AttemptIs(s, c);
    case Pop => PopIs(s);
    case _ =>
  }

  // The consumer is woken by a push into an empty queue, and its event is cleared by a look at an empty queue.
  lemma CommandEventExactly(s: State, step: Step)
    requires Reachable(s) && Enabled(s, step)
    ensures var t := Apply(s, step);
            && (!s.sh.commandEvent ==> (t.sh.commandEvent <==> step.Attempt? && |t.sh.queue| > |s.sh.queue|))
            && (s.sh.commandEvent ==> (!t.sh.commandEvent <==> step.Pop? && s.sh.queue == []))
  {
    ReachableInv(s);
    RingMatchesQueue(s.sh);
    hide FifoInv, ExitInv, OwnerInv, EventInv, AttachedInv, WakeInv, Holds;
    match step
    case Attempt(c) => AttemptIs(s, c);
    case Pop => PopIs(s);
    case _ =>
  }

  // A push is turned down for good exactly when exit has been asked for and the command is another.
  lemma RejectsExactly(s: State, c: nat)
    requires Enabled(s, Attempt(c))
    ensures Apply(s, Attempt(c)).calls[c].Returned? && !Apply(s, Attempt(c)).calls[c].ok
            <==> s.sh.exitEnqueued && !s.calls[c].cmd.exit
  {
    AttemptIs(s, c);
  }
}
