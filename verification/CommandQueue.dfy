// The command queue as a state machine over its lock scopes (class ThreadCommandQueueImpl of
// OVR_ThreadCommandQueue.cpp and the consumer loop of OVR_Win32_DeviceManager.cpp).
//
// Any number of producer calls run PushCommand; one consumer runs the pop, execute or wait loop. Every
// lock scope, every return from a wait and every signal is one step, so a run is any interleaving.
module CommandQueue {
  import opened Wrappers
  import opened CommandBuffer

  const CAPACITY: nat := 2048
  const MAX_COMMAND: nat := 256

  // A NotifyEvent, named by its order of allocation.
  type Event = nat

  // `id` is the call that pushes the command.
  datatype Command = Command(id: nat, size: nat, wait: bool, exit: bool)

  // A command copied into the buffer, with the event its producer waits on.
  datatype Queued = Queued(cmd: Command, off: nat, done: Option<Event>)

  // What QueueLock protects, with the state of every event and of the consumer's command event.
  // `made` events have been allocated so far.
  datatype Shared = Shared(
    ring: Ring, queue: seq<Queued>,
    available: seq<Event>, blocked: seq<Event>, made: nat, signalled: set<Event>,
    exitEnqueued: bool, exitProcessed: bool, commandEvent: bool)

  // ---------- the lock scopes ----------

  // AllocNotifyEvent_NTS: the first free event, or a new one.
  function AllocEvent(s: Shared): (r: (Event, Shared))
    ensures r.1 == s.(available := r.1.available, made := r.1.made)
  {
    if s.available != [] then (s.available[0], s.(available := s.available[1..]))
    else (s.made, s.(made := s.made + 1))
  }

  // FreeNotifyEvent_NTS
  function FreeEvent(s: Shared, e: Event): Shared {
    s.(available := s.available + [e])
  }

  datatype Outcome = Rejected | Accepted(done: Option<Event>) | Full(space: Event)

  // The lock scope in the loop of PushCommand; `held` is the event of an earlier refusal.
  function TryPush(s: Shared, cmd: Command, held: Option<Event>): (Outcome, Shared) {
    var s0 := if held.Some? then FreeEvent(s, held.value) else s;
    if s0.exitEnqueued && !cmd.exit then (Rejected, s0)
    else
      var (p, ring) := Reserve(s0.ring, cmd.size);
      if p.Some? then
        var (done, s1) := if cmd.wait then var (e, s1) := AllocEvent(s0); (Some(e), s1) else (None, s0);
        (Accepted(done), s1.(ring := ring, queue := s1.queue + [Queued(cmd, p.value, done)],
                             commandEvent := s1.commandEvent || s0.ring.IsEmpty()))
      else
        var (e, s1) := AllocEvent(s0);
        (Full(e), s1.(blocked := s1.blocked + [e]))
  }

  // PopCommand: takes the oldest command and wakes the longest-blocked producer.
  function TryPop(s: Shared): (Option<Queued>, Shared)
    requires s.ring.IsEmpty() <==> s.queue == []
  {
    if s.ring.IsEmpty() then (None, s.(commandEvent := false))
    else
      var q := s.queue[0];
      var s1 := s.(ring := Release(s.ring, q.cmd.size), queue := s.queue[1..]);
      if s1.blocked == [] then (Some(q), s1)
      else (Some(q), s1.(blocked := s1.blocked[1..], signalled := s1.signalled + {s1.blocked[0]}))
  }

  // ---------- calls, consumer, steps ----------

  datatype Call =
    | Trying(cmd: Command, held: Option<Event>)     // about to enter the lock scope
    | WaitingSpace(cmd: Command, ev: Event)         // in queueAvailableEvent->Wait()
    | WaitingDone(cmd: Command, ev: Event)          // in completeEvent->Wait()
    | Completed(cmd: Command, ev: Event)            // about to free completeEvent
    | Returned(cmd: Command, ok: bool)
  {
    predicate IsAccepted() { WaitingDone? || Completed? || (Returned? && ok) }

    // The event this call owns.
    function Owned(): Option<Event> {
      match this
      case Trying(_, held) => held
      case Returned(_, _) => None
      case _ => Some(ev)
    }
  }

  datatype Consumer = Idle | Holding(q: Queued) | Executed(q: Queued) | Parked | Stopped

  // `accepted` and `executed` record the commands in the order they were enqueued and executed.
  datatype State = State(sh: Shared, calls: seq<Call>, consumer: Consumer,
                         accepted: seq<Command>, executed: seq<Command>)

  const INIT := State(Shared(EmptyRing(CAPACITY), [], [], [], 0, {}, false, false, false), [], Idle, [], [])

  datatype Step =
    | Begin(size: nat, wait: bool)        // some thread calls PushCommand
    | BeginExit(size: nat, wait: bool)    // the first lock scope of the first PushExitCommand
    | Attempt(c: nat)
    | WakeSpace(c: nat)
    | WakeDone(c: nat)
    | Finish(c: nat)
    | Pop
    | Execute
    | Notify
    | ConsumerWake
    | WaitFails                           // the consumer's wait fails and it looks at the queue again

  // That the offsets and the queue agree on emptiness always holds (RingMatchesQueue); it makes Pop well-defined.
  predicate Enabled(s: State, step: Step) {
    match step
    case Begin(size, _) => 0 < size <= MAX_COMMAND
    case BeginExit(size, _) => 0 < size <= MAX_COMMAND && !s.sh.exitEnqueued
    case Attempt(c) => c < |s.calls| && s.calls[c].Trying?
    case WakeSpace(c) => c < |s.calls| && s.calls[c].WaitingSpace? && s.calls[c].ev in s.sh.signalled
    case WakeDone(c) => c < |s.calls| && s.calls[c].WaitingDone? && s.calls[c].ev in s.sh.signalled
    case Finish(c) => c < |s.calls| && s.calls[c].Completed?
    case Pop => s.consumer.Idle? && (s.sh.ring.IsEmpty() <==> s.sh.queue == [])
    case Execute => s.consumer.Holding?
    case Notify => s.consumer.Executed?
    case ConsumerWake => s.consumer.Parked? && s.sh.commandEvent
    case WaitFails => s.consumer.Parked?
  }

  function AfterAttempt(cmd: Command, o: Outcome): Call {
    match o
    case Rejected => Returned(cmd, false)
    case Accepted(None) => Returned(cmd, true)
    case Accepted(Some(e)) => WaitingDone(cmd, e)
    case Full(e) => WaitingSpace(cmd, e)
  }

  function Apply(s: State, step: Step): State
    requires Enabled(s, step)
  {
    match step
    case Begin(size, wait) =>
      s.(calls := s.calls + [Trying(Command(|s.calls|, size, wait, false), None)])
    case BeginExit(size, wait) =>
      s.(calls := s.calls + [Trying(Command(|s.calls|, size, wait, true), None)],
         sh := s.sh.(exitEnqueued := true))
    case Attempt(c) =>
      var call := s.calls[c];
      var (o, sh) := TryPush(s.sh, call.cmd, call.held);
      s.(sh := sh, calls := s.calls[c := AfterAttempt(call.cmd, o)],
         accepted := if o.Accepted? then s.accepted + [call.cmd] else s.accepted)
    case WakeSpace(c) =>
      var call := s.calls[c];
      s.(sh := s.sh.(signalled := s.sh.signalled - {call.ev}),
         calls := s.calls[c := Trying(call.cmd, Some(call.ev))])
    case WakeDone(c) =>
      var call := s.calls[c];
      s.(sh := s.sh.(signalled := s.sh.signalled - {call.ev}),
         calls := s.calls[c := Completed(call.cmd, call.ev)])
    case Finish(c) =>
      var call := s.calls[c];
      s.(sh := FreeEvent(s.sh, call.ev), calls := s.calls[c := Returned(call.cmd, true)])
    case Pop =>
      var (q, sh) := TryPop(s.sh);
      s.(sh := sh, consumer := if q.None? then Parked else Holding(q.value))
    case Execute =>
      var q := s.consumer.q;
      s.(consumer := Executed(q), executed := s.executed + [q.cmd],
         sh := s.sh.(exitProcessed := s.sh.exitProcessed || q.cmd.exit))
    case Notify =>
      var q := s.consumer.q;
      s.(sh := if q.done.Some? then s.sh.(signalled := s.sh.signalled + {q.done.value}) else s.sh,
         consumer := if s.sh.exitProcessed then Stopped else Idle)
    case ConsumerWake => s.(consumer := Idle)
    case WaitFails => s.(consumer := Idle)
  }

  // Carries out a list of steps.
  ghost predicate Leads(s: State, steps: seq<Step>, t: State)
    decreases |steps|
  {
    if steps == [] then s == t
    else Enabled(s, steps[0]) && Leads(Apply(s, steps[0]), steps[1..], t)
  }

  ghost predicate Reachable(s: State) {
    exists steps :: Leads(INIT, steps, s)
  }

  lemma {:induction false} LeadsAppend(s: State, steps: seq<Step>, t: State, more: seq<Step>, u: State)
    requires Leads(s, steps, t) && Leads(t, more, u)
    ensures Leads(s, steps + more, u)
    decreases |steps|
  {
    if steps == [] {
      assert steps + more == more;
    } else {
      LeadsAppend(Apply(s, steps[0]), steps[1..], t, more, u);
      assert (steps + more)[1..] == steps[1..] + more;
    }
  }
}
