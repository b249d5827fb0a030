// The invariant of the command queue over whole runs, and the promises of the queue read off from it.
module CommandQueueRuns {
  import opened Wrappers
  import opened CommandBuffer
  import opened CommandQueue
  import opened CommandQueueSafety

  // ---------- commands in flight ----------

  lemma AttachedAccept(s: State, t: State, c: nat, q: Queued)
    requires Accepts(s, t, c, q) && CallInv(s.calls) && AttachedInv(s)
    ensures AttachedInv(t)
  {
    assert Attached(t.calls, q);
    assert forall p: Queued :: Attached(s.calls, p) ==> Attached(t.calls, p);
  }

  // Only a call that is not waiting for a command moves.
  lemma AttachedMove(s: State, t: State, c: nat, call': Call)
    requires AttachedInv(s) && c < |s.calls| && !s.calls[c].WaitingDone?
    requires t.calls == s.calls[c := call'] && t.sh.queue == s.sh.queue && t.consumer == s.consumer
    ensures AttachedInv(t)
  {
    assert forall p: Queued :: Attached(s.calls, p) ==> Attached(t.calls, p);
  }

  // A call that takes the signal for its command is no longer named by any command in flight.
  lemma AttachedWakeDone(s: State, t: State, c: nat)
    requires Enabled(s, WakeDone(c)) && t == Apply(s, WakeDone(c))
    requires CallInv(s.calls) && FifoInv(s) && EventInv(s) && AttachedInv(s)
    ensures AttachedInv(t)
  {
    var cmd := s.calls[c].cmd;
    assert CallEventInv(s, s.calls[c]);
    var k :| 0 <= k < |s.executed| && s.executed[k] == cmd;
    assert s.accepted[k] == cmd;
    var held := |InHand(s.consumer)|;
    forall i | 0 <= i < |s.sh.queue|
      ensures Attached(t.calls, s.sh.queue[i])
    {
      var q := s.sh.queue[i];
      assert Attached(s.calls, q);
      assert s.accepted[|s.executed| + held + i] == q.cmd;
    }
    if s.consumer.Holding? {
      assert s.accepted[|s.executed|] == s.consumer.q.cmd;
    }
  }

  lemma AttachedPop(s: State, t: State, q: Queued)
    requires Pops(s, t, q) && AttachedInv(s)
    ensures AttachedInv(t)
  {
    assert forall i :: 0 <= i < |t.sh.queue| ==> t.sh.queue[i] == s.sh.queue[i + 1];
  }

  // ---------- wake-ups ----------

  // An event in the blocked list belongs to a producer that waits for space.
  lemma BlockedProducer(s: State, e: Event) returns (c: nat)
    requires e in s.sh.blocked && EventInv(s) && OwnerInv(s.sh, OwnedBy(s.calls))
    ensures c < |s.calls| && s.calls[c].WaitingSpace? && s.calls[c].ev == e && e !in s.sh.signalled
  {
    c := OwnerOf(s, e);
    assert CallEventInv(s, s.calls[c]);
  }

  lemma WakePop(s: State, t: State, q: Queued)
    requires Pops(s, t, q) && EventInv(s) && OwnerInv(s.sh, OwnedBy(s.calls))
    ensures WakeInv(t)
  {
    if s.sh.blocked != [] {
      var c := BlockedProducer(s, s.sh.blocked[0]);
      assert Retrying(t.sh, t.calls[c]);
    }
  }

  // Calls that take a signal: the woken producer is the witness, or another one still is.
  lemma WakeSignal(s: State, t: State, c: nat)
    requires || (Enabled(s, WakeSpace(c)) && t == Apply(s, WakeSpace(c)))
             || (Enabled(s, WakeDone(c)) && t == Apply(s, WakeDone(c)))
    requires WakeInv(s) && OwnerInv(s.sh, OwnedBy(s.calls))
    ensures WakeInv(t)
  {
    if s.calls[c].WaitingSpace? {
      assert Retrying(t.sh, t.calls[c]);
    } else if exists d :: 0 <= d < |s.calls| && Retrying(s.sh, s.calls[d]) {
      var d :| 0 <= d < |s.calls| && Retrying(s.sh, s.calls[d]);
      OwnersDiffer(s, d, c);
      assert Retrying(t.sh, t.calls[d]);
    }
  }

  // No producer stops retrying, and signals are only added.
  lemma WakeCalls(s: State, t: State)
    requires WakeInv(s)
    requires s.sh.exitEnqueued ==> t.sh.exitEnqueued
    requires t.sh.blocked == s.sh.blocked && t.sh.queue == s.sh.queue && s.sh.signalled <= t.sh.signalled
    requires |t.calls| >= |s.calls|
    requires forall c :: 0 <= c < |s.calls| && Retrying(s.sh, s.calls[c]) ==> t.calls[c] == s.calls[c]
    ensures WakeInv(t)
  {
    if exists d :: 0 <= d < |s.calls| && Retrying(s.sh, s.calls[d]) {
      var d :| 0 <= d < |s.calls| && Retrying(s.sh, s.calls[d]);
      assert Retrying(t.sh, t.calls[d]);
    }
  }

  // ---------- every step keeps the invariant ----------

  lemma AcceptKeeps(s: State, t: State, c: nat, q: Queued)
    requires Accepts(s, t, c, q) && Inv(s)
    ensures Inv(t)
  {
    hide Holds, Reserve, OwnerInv, EventInv, AttachedInv, FifoInv, ExitInv;
    BufferAccept(s, t, c, q);
    FifoAccept(s, t, c, q);
    ExitAccept(s, t, c, q);
    OwnerAttempt(s, t, c, AfterAttempt(q.cmd, Outcome.Accepted(q.done)));
    EventAccept(s, t, c, q);
    AttachedAccept(s, t, c, q);
  }

  lemma RejectKeeps(s: State, t: State, c: nat)
    requires Rejects(s, t, c) && Inv(s)
    ensures Inv(t)
  {
    hide Holds, OwnerInv, EventInv, AttachedInv;
    var call' := Returned(s.calls[c].cmd, false);
    FifoCalls(s, t);
    ExitCalls(s, t);
    OwnerAttempt(s, t, c, call');
    EventReject(s, t, c);
    AttachedMove(s, t, c, call');
  }

  lemma RefuseKeeps(s: State, t: State, c: nat, e: Event)
    requires Refuses(s, t, c, e) && Inv(s)
    ensures Inv(t)
  {
    hide Holds, Reserve, OwnerInv, EventInv, AttachedInv;
    var call' := WaitingSpace(s.calls[c].cmd, e);
    RefusalNeedsBytes(s.sh, s.calls[c].cmd.size);
    FifoCalls(s, t);
    ExitCalls(s, t);
    OwnerAttempt(s, t, c, call');
    EventRefuse(s, t, c, e);
    AttachedMove(s, t, c, call');
  }

  lemma PopKeeps(s: State, t: State, q: Queued)
    requires Pops(s, t, q) && Inv(s)
    ensures Inv(t)
  {
    BufferPop(s, t, q);
    FifoPop(s, t, q);
    ExitCalls(s, t);
    OwnerOnlyPool(s.sh, t.sh, OwnedBy(s.calls));
    EventPop(s, t, q);
    AttachedPop(s, t, q);
    WakePop(s, t, q);
  }

  lemma BeginKeeps(s: State, step: Step)
    requires (step.Begin? || step.BeginExit?) && Enabled(s, step) && Inv(s)
    ensures Inv(Apply(s, step))
  {
    hide Holds, OwnerInv, Reserve;
    var t := Apply(s, step);
    var call := Trying(Command(|s.calls|, step.size, step.wait, step.BeginExit?), None);
    assert t.calls == s.calls + [call];
    FifoCalls(s, t);
    if step.Begin? {
      ExitCalls(s, t);
    } else {
      assert t.calls[|s.calls|].cmd.exit;
    }
    OwnerBegin(s.sh, s.calls, call);
    OwnerOnlyPool(s.sh, t.sh, OwnedBy(t.calls));
    EventCalls(s, t);
    assert forall p: Queued :: Attached(s.calls, p) ==> Attached(t.calls, p);
    WakeCalls(s, t);
  }

  lemma WakeSpaceKeeps(s: State, c: nat)
    requires Enabled(s, WakeSpace(c)) && Inv(s)
    ensures Inv(Apply(s, WakeSpace(c)))
  {
    hide Holds, OwnerInv, EventInv, AttachedInv, WakeInv;
    var t := Apply(s, WakeSpace(c));
    FifoCalls(s, t);
    ExitCalls(s, t);
    assert OwnedBy(t.calls) == OwnedBy(s.calls);
    OwnerOnlyPool(s.sh, t.sh, OwnedBy(s.calls));
    EventWake(s, t, c);
    AttachedMove(s, t, c, Trying(s.calls[c].cmd, Some(s.calls[c].ev)));
    WakeSignal(s, t, c);
  }

  lemma WakeDoneKeeps(s: State, c: nat)
    requires Enabled(s, WakeDone(c)) && Inv(s)
    ensures Inv(Apply(s, WakeDone(c)))
  {
    hide Holds, OwnerInv, EventInv, AttachedInv, WakeInv;
    var t := Apply(s, WakeDone(c));
    FifoCalls(s, t);
    ExitCalls(s, t);
    assert OwnedBy(t.calls) == OwnedBy(s.calls);
    OwnerOnlyPool(s.sh, t.sh, OwnedBy(s.calls));
    EventWake(s, t, c);
    AttachedWakeDone(s, t, c);
    WakeSignal(s, t, c);
  }

  lemma FinishKeeps(s: State, c: nat)
    requires Enabled(s, Finish(c)) && Inv(s)
    ensures Inv(Apply(s, Finish(c)))
  {
    hide Holds, OwnerInv, EventInv, AttachedInv, WakeInv;
    var t := Apply(s, Finish(c));
    FifoCalls(s, t);
    ExitCalls(s, t);
    GiveBack(s.sh, OwnedBy(s.calls), c);
    assert OwnedBy(t.calls) == OwnedBy(s.calls)[c := None];
    OwnerOnlyPool(FreeEvent(s.sh, s.calls[c].ev), t.sh, OwnedBy(t.calls));
    EventFinish(s, t, c);
    AttachedMove(s, t, c, Returned(s.calls[c].cmd, true));
    WakeCalls(s, t);
  }

  lemma ExecuteKeeps(s: State)
    requires Enabled(s, Execute) && Inv(s)
    ensures Inv(Apply(s, Execute))
  {
    var t := Apply(s, Execute);
    FifoExecute(s, t);
    ExitExecute(s, t);
    OwnerOnlyPool(s.sh, t.sh, OwnedBy(s.calls));
    EventExecute(s, t);
    WakeCalls(s, t);
  }

  lemma NotifyKeeps(s: State)
    requires Enabled(s, Notify) && Inv(s)
    ensures Inv(Apply(s, Notify))
  {
    var t := Apply(s, Notify);
    FifoCalls(s, t);
    ExitCalls(s, t);
    OwnerOnlyPool(s.sh, t.sh, OwnedBy(s.calls));
    EventNotify(s, t);
    WakeCalls(s, t);
  }

  // The consumer parks on an empty buffer, or looks at the buffer again.
  lemma ConsumerKeeps(s: State, t: State)
    requires Inv(s)
    requires s.consumer.Idle? || s.consumer.Parked?
    requires t.consumer.Idle? || t.consumer.Parked?
    requires t == s.(consumer := t.consumer, sh := s.sh.(commandEvent := t.sh.commandEvent))
    requires s.sh.queue != [] ==> t.sh.commandEvent
    ensures Inv(t)
  {
    FifoCalls(s, t);
    ExitCalls(s, t);
    EventCalls(s, t);
    WakeCalls(s, t);
  }

  lemma StepKeeps(s: State, step: Step)
    requires Inv(s) && Enabled(s, step)
    ensures Inv(Apply(s, step))
  {
    hide CallInv, FifoInv, ExitInv, OwnerInv, EventInv, AttachedInv, WakeInv, Holds, Reserve, Release;
    var t := Apply(s, step);
    match step
    case Begin(_, _) => BeginKeeps(s, step);
    case BeginExit(_, _) => BeginKeeps(s, step);
    case Attempt(c) =>
      AttemptIs(s, c);
      match TryPush(s.sh, s.calls[c].cmd, s.calls[c].held).0 {
        case Rejected => RejectKeeps(s, t, c);
        case Accepted(_) => AcceptKeeps(s, t, c, t.sh.queue[|t.sh.queue| - 1]);
        case Full(e) => RefuseKeeps(s, t, c, e);
      }
    case WakeSpace(c) => WakeSpaceKeeps(s, c);
    case WakeDone(c) => WakeDoneKeeps(s, c);
    case Finish(c) => FinishKeeps(s, c);
    case Pop =>
      PopIs(s);
      if s.sh.queue == [] {
        ConsumerKeeps(s, t);
      } else {
        PopKeeps(s, t, s.sh.queue[0]);
      }
    case Execute => ExecuteKeeps(s);
    case Notify => NotifyKeeps(s);
    case ConsumerWake => ConsumerKeeps(s, t);
    case WaitFails => ConsumerKeeps(s, t);
  }

  lemma InitBuffer()
    ensures BufferInv(INIT.sh)
  {
    HoldsSplit(EmptyRing(CAPACITY), [], []);
    var none: seq<Block> := [];
    assert none + none == none;
    assert BlocksOf([]) == none;
  }

  lemma InitInv()
    ensures Inv(INIT)
  {
    InitBuffer();
    var none: seq<Command> := [];
    assert Commands([]) == none;
    assert none + none + none == none;
    var unowned: seq<Option<Event>> := [];
    assert OwnedBy([]) == unowned;
    assert OwnerInv(INIT.sh, unowned);
    assert FifoInv(INIT);
  }

  lemma {:induction false} RunKeeps(s: State, steps: seq<Step>, t: State)
    requires Inv(s) && Leads(s, steps, t)
    ensures Inv(t)
    decreases |steps|
  {
    hide Inv, Apply, Enabled;
    if steps != [] {
      StepKeeps(s, steps[0]);
      RunKeeps(Apply(s, steps[0]), steps[1..], t);
    }
  }

  lemma ReachableInv(s: State)
    requires Reachable(s)
    ensures Inv(s)
  {
    hide Inv, Leads;
    InitInv();
    var steps :| Leads(INIT, steps, s);
    RunKeeps(INIT, steps, s);
  }

  // ---------- what the queue promises ----------

  // Commands run in the order they were accepted, each at most once, and a refused one never runs.
  lemma ExecutionIsFifo(s: State)
    requires Reachable(s)
    ensures s.executed <= s.accepted
    ensures forall i, j :: 0 <= i < j < |s.executed| ==> s.executed[i] != s.executed[j]
    ensures forall c :: 0 <= c < |s.calls| && s.calls[c].Returned? ==>
                          (s.calls[c].ok <==> s.calls[c].cmd in s.accepted)
  {
    ReachableInv(s);
    assert forall i :: 0 <= i < |s.executed| ==> s.executed[i] == s.accepted[i];
    assert forall i :: 0 <= i < |s.accepted| ==> IsFrom(s.accepted[i], s.calls);
  }

  lemma ExitPosition(s: State, i: nat)
    requires ExitInv(s) && i < |s.accepted| && s.accepted[i].exit
    ensures i == |s.accepted| - 1
  {
  }

  // Once the exit command has been processed the buffer is empty and every accepted command has run,
  // the exit command last; no other command was an exit command.
  lemma ExitFlushes(s: State)
    requires Reachable(s) && s.sh.exitProcessed
    ensures s.sh.queue == [] && s.sh.ring.IsEmpty()
    ensures s.executed == s.accepted
    ensures s.executed != [] && s.executed[|s.executed| - 1].exit
    ensures forall i :: 0 <= i < |s.executed| - 1 ==> !s.executed[i].exit
  {
    ReachableInv(s);
    var n := |s.executed|;
    assert s.executed[n - 1] == s.accepted[n - 1];
    ExitPosition(s, n - 1);
    RingMatchesQueue(s.sh);
  }

  // Acceptance and execution are never undone or reordered, and exit stays decided.
  lemma {:induction false} LogsGrow(s: State, steps: seq<Step>, t: State)
    requires Leads(s, steps, t)
    ensures s.accepted <= t.accepted && s.executed <= t.executed && |s.calls| <= |t.calls|
    ensures s.sh.exitEnqueued ==> t.sh.exitEnqueued
    ensures s.sh.exitProcessed ==> t.sh.exitProcessed
    ensures forall c :: 0 <= c < |s.calls| && s.calls[c].Returned? ==> t.calls[c] == s.calls[c]
    decreases |steps|
  {
    if steps != [] {
      StepGrows(s, steps[0]);
      LogsGrow(Apply(s, steps[0]), steps[1..], t);
    }
  }

  lemma StepGrows(s: State, step: Step)
    requires Enabled(s, step)
    ensures var t := Apply(s, step);
            && s.accepted <= t.accepted && s.executed <= t.executed && |s.calls| <= |t.calls|
            && (s.sh.exitEnqueued ==> t.sh.exitEnqueued)
            && (s.sh.exitProcessed ==> t.sh.exitProcessed)
            && forall c :: 0 <= c < |s.calls| && s.calls[c].Returned? ==> t.calls[c] == s.calls[c]
  {
    match step
    case Attempt(c) => AttemptIs(s, c);
    case Pop => PopIs(s);
    case _ =>
  }

  // Once the exit command has been accepted no run accepts anything more.
  lemma ExitIsLast(s: State, i: nat, steps: seq<Step>, t: State)
    requires Reachable(s) && i < |s.accepted| && s.accepted[i].exit && Leads(s, steps, t)
    ensures i == |s.accepted| - 1 && t.accepted == s.accepted
  {
    hide BufferInv, CallInv, FifoInv, ExitInv, OwnerInv, EventInv, AttachedInv, WakeInv, Leads;
    ReachableInv(s);
    ExitPosition(s, i);
    RunKeeps(s, steps, t);
    LogsGrow(s, steps, t);
    assert t.accepted[i] == s.accepted[i];
    ExitPosition(t, i);
  }

  // After exit has been processed nothing more is accepted: the log is final.
  lemma NothingAfterExit(s: State, steps: seq<Step>, t: State)
    requires Reachable(s) && s.sh.exitProcessed && Leads(s, steps, t)
    ensures t.accepted == s.accepted && t.executed == s.executed
  {
    hide BufferInv, CallInv, FifoInv, ExitInv, OwnerInv, EventInv, AttachedInv, WakeInv, Leads;
    var first :| Leads(INIT, first, s);
    LeadsAppend(INIT, first, s, steps, t);
    LogsGrow(s, steps, t);
    ExitFlushes(s);
    ExitFlushes(t);
    var n := |s.executed|;
    assert t.executed[n - 1] == s.executed[n - 1] == t.accepted[n - 1];
    ReachableInv(t);
    ExitPosition(t, n - 1);
  }

  // Every event is free or belongs to exactly one call; a free event is not signalled, so reusing it
  // cannot end a wait early; and a push that waits returns true only after its command has run.
  lemma EventsAreOwned(s: State)
    requires Reachable(s)
    ensures forall e: Event :: e < s.sh.made ==>
                                 (e in s.sh.available <==> !exists c :: 0 <= c < |s.calls| && s.calls[c].Owned() == Some(e))
    ensures forall c, d :: 0 <= c < d < |s.calls| && s.calls[c].Owned().Some? ==>
                             s.calls[c].Owned() != s.calls[d].Owned()
    ensures forall e :: e in s.sh.available ==> e !in s.sh.signalled && e !in s.sh.blocked
    ensures forall c :: 0 <= c < |s.calls| && s.calls[c].cmd.wait && s.calls[c] == Returned(s.calls[c].cmd, true) ==>
                          s.calls[c].cmd in s.executed
  {
    ReachableInv(s);
    forall e: Event | e < s.sh.made
      ensures e in s.sh.available <==> !exists c :: 0 <= c < |s.calls| && s.calls[c].Owned() == Some(e)
    {
      if e !in s.sh.available {
        var c := OwnerOf(s, e);
      } else {
        forall c | 0 <= c < |s.calls|
          ensures s.calls[c].Owned() != Some(e)
        {
          assert OwnedBy(s.calls)[c] == s.calls[c].Owned();
        }
      }
    }
    forall c, d | 0 <= c < d < |s.calls| && s.calls[c].Owned().Some?
      ensures s.calls[c].Owned() != s.calls[d].Owned()
    {
      OwnersDiffer(s, c, d);
    }
    forall c | 0 <= c < |s.calls| && s.calls[c].cmd.wait && s.calls[c] == Returned(s.calls[c].cmd, true)
      ensures s.calls[c].cmd in s.executed
    {
      assert CallEventInv(s, s.calls[c]);
    }
  }

  // ---------- the place of an event ----------

  // A producer that was woken and has not given its event back holds it.
  ghost predicate Woken(s: State, e: Event) {
    exists c :: 0 <= c < |s.calls| && s.calls[c].Owned() == Some(e) && Retrying(s.sh, s.calls[c])
  }

  // A command in the buffer or with the consumer carries it.
  ghost predicate InFlight(s: State, e: Event) {
    || (exists i :: 0 <= i < |s.sh.queue| && s.sh.queue[i].done == Some(e))
    || ((s.consumer.Holding? || s.consumer.Executed?) && s.consumer.q.done == Some(e))
  }

  predicate Finishing(sh: Shared, call: Call) {
    call.Completed? || (call.WaitingDone? && call.ev in sh.signalled)
  }

  // A push whose command has run, and has been signalled, is about to give it back.
  ghost predicate HandedBack(s: State, e: Event) {
    exists c :: 0 <= c < |s.calls| && s.calls[c].Owned() == Some(e) && Finishing(s.sh, s.calls[c])
  }

  lemma CarriedByOwner(s: State, q: Queued, e: Event, c: nat)
    requires Inv(s) && Attached(s.calls, q) && q.done == Some(e)
    requires c < |s.calls| && s.calls[c].Owned() == Some(e)
    ensures s.calls[c] == WaitingDone(q.cmd, e)
  {
    if c != q.cmd.id {
      OwnersDiffer(s, c, q.cmd.id);
    }
  }

  // What is accepted but not in the log of executed commands has not run.
  lemma NotRun(s: State, k: nat)
    requires FifoInv(s) && |s.executed| <= k < |s.accepted|
    ensures s.accepted[k] !in s.executed
  {
    assert forall j :: 0 <= j < |s.executed| ==> s.executed[j] == s.accepted[j];
  }

  // The command of a push that waits for it is in flight until the event is signalled.
  lemma WaitsForFlight(s: State, c: nat)
    requires Inv(s) && c < |s.calls| && s.calls[c].WaitingDone?
    ensures InFlight(s, s.calls[c].ev) <==> s.calls[c].ev !in s.sh.signalled
  {
    hide BufferInv, CallInv, FifoInv, ExitInv, OwnerInv, EventInv, WakeInv;
    var e := s.calls[c].ev;
    forall i | 0 <= i < |s.sh.queue| && s.sh.queue[i].done == Some(e)
      ensures e !in s.sh.signalled
    {
      CarriedByOwner(s, s.sh.queue[i], e, c);
      QueuedHasNotRun(s, c, i);
    }
    if (s.consumer.Holding? || s.consumer.Executed?) && s.consumer.q.done == Some(e) {
      CarriedByOwner(s, s.consumer.q, e, c);
      InHandIsQuiet(s, c);
    }
    if e !in s.sh.signalled {
      var i := AcceptedAt(s, c);
      FlightOf(s, c, i);
    }
  }

  lemma AcceptedAt(s: State, c: nat) returns (i: nat)
    requires Inv(s) && c < |s.calls| && s.calls[c].IsAccepted()
    ensures i < |s.accepted| && s.accepted[i] == s.calls[c].cmd
  {
    hide BufferInv, CallInv, ExitInv, OwnerInv, EventInv, AttachedInv, WakeInv;
    i :| 0 <= i < |s.accepted| && s.accepted[i] == s.calls[c].cmd;
  }

  lemma QueuedHasNotRun(s: State, c: nat, i: nat)
    requires Inv(s) && c < |s.calls| && s.calls[c].WaitingDone?
    requires i < |s.sh.queue| && s.sh.queue[i].cmd == s.calls[c].cmd
    ensures s.calls[c].ev !in s.sh.signalled
  {
    hide BufferInv, CallInv, ExitInv, OwnerInv, AttachedInv, WakeInv;
    var k := |s.executed| + |InHand(s.consumer)| + i;
    assert s.accepted[k] == Commands(s.sh.queue)[i] == s.calls[c].cmd;
    NotRun(s, k);
    assert CallEventInv(s, s.calls[c]);
  }

  lemma InHandIsQuiet(s: State, c: nat)
    requires Inv(s) && c < |s.calls| && s.calls[c].WaitingDone?
    requires (s.consumer.Holding? || s.consumer.Executed?) && s.consumer.q.cmd == s.calls[c].cmd
    ensures s.calls[c].ev !in s.sh.signalled
  {
    hide BufferInv, CallInv, ExitInv, OwnerInv, AttachedInv, WakeInv;
    if s.consumer.Holding? {
      assert s.accepted[|s.executed|] == s.consumer.q.cmd;
      NotRun(s, |s.executed|);
    }
    assert CallEventInv(s, s.calls[c]);
  }

  lemma FlightOf(s: State, c: nat, i: nat)
    requires Inv(s) && c < |s.calls| && s.calls[c].WaitingDone? && s.calls[c].ev !in s.sh.signalled
    requires i < |s.accepted| && s.accepted[i] == s.calls[c].cmd
    ensures InFlight(s, s.calls[c].ev)
  {
    hide BufferInv, OwnerInv, WakeInv, ExitInv;
    var cmd := s.calls[c].cmd;
    var n, hand := |s.executed|, InHand(s.consumer);
    assert CallEventInv(s, s.calls[c]);
    if i >= n + |hand| {
      var q := s.sh.queue[i - n - |hand|];
      assert q.cmd == cmd && Attached(s.calls, q);
    } else if i >= n {
      assert s.consumer.q.cmd == cmd && Attached(s.calls, s.consumer.q);
    } else {
      assert cmd in s.executed;
    }
  }

  // Every event is in exactly one place: the pool, the blocked list, with a woken producer, with a command
  // in flight, or with the push whose command has run.
  lemma EventInOnePlace(s: State, e: Event)
    requires Reachable(s) && e < s.sh.made
    ensures One(e in s.sh.available) + One(e in s.sh.blocked) + One(Woken(s, e)) + One(InFlight(s, e))
            + One(HandedBack(s, e)) == 1
  {
    hide BufferInv, CallInv, FifoInv, ExitInv, WakeInv, Reachable;
    ReachableInv(s);
    if e in s.sh.available {
      FreeIsNowhereElse(s, e);
    } else {
      var c := OwnerOf(s, e);
      OwnedPlace(s, e, c);
    }
  }

  lemma FreeIsNowhereElse(s: State, e: Event)
    requires Inv(s) && e in s.sh.available
    ensures e !in s.sh.blocked && !Woken(s, e) && !InFlight(s, e) && !HandedBack(s, e)
  {
    hide BufferInv, CallInv, FifoInv, ExitInv, WakeInv;
    forall c | 0 <= c < |s.calls|
      ensures s.calls[c].Owned() != Some(e)
    {
      assert OwnedBy(s.calls)[c] == s.calls[c].Owned();
    }
    forall q: Queued | Attached(s.calls, q)
      ensures q.done != Some(e)
    {
      assert q.done.Some? ==> s.calls[q.cmd.id].Owned() == q.done;
    }
  }

  lemma OwnedPlace(s: State, e: Event, c: nat)
    requires Inv(s) && c < |s.calls| && s.calls[c].Owned() == Some(e) && e !in s.sh.available
    ensures One(e in s.sh.blocked) + One(Woken(s, e)) + One(InFlight(s, e)) + One(HandedBack(s, e)) == 1
  {
    hide BufferInv, CallInv, FifoInv, ExitInv, WakeInv, OwnerInv;
    var call := s.calls[c];
    forall d | 0 <= d < |s.calls| && s.calls[d].Owned() == Some(e)
      ensures d == c
    {
      if d != c {
        OwnersDiffer(s, c, d);
      }
    }
    assert Woken(s, e) <==> Retrying(s.sh, call);
    assert HandedBack(s, e) <==> Finishing(s.sh, call);
    assert CallEventInv(s, call);
    if call.WaitingDone? {
      WaitsForFlight(s, c);
    } else {
      forall q: Queued | Attached(s.calls, q)
        ensures q.done != Some(e)
      {
        if q.done == Some(e) {
          CarriedByOwner(s, q, e, c);
        }
      }
    }
  }

  // No wake-up is lost: an unread command keeps the consumer's event signalled, and until exit is
  // enqueued a blocked producer always has an unread command or a woken producer ahead of it.
  lemma NoLostWakeUp(s: State)
    requires Reachable(s)
    ensures s.sh.queue != [] ==> s.sh.commandEvent
    ensures !s.sh.exitEnqueued && s.sh.blocked != [] ==>
              s.sh.queue != [] || exists c :: 0 <= c < |s.calls| && Retrying(s.sh, s.calls[c])
  {
    ReachableInv(s);
  }

  // A push finds room exactly if its bytes fit behind the youngest command in the buffer, or at the start of the
  // buffer, and that is where they go.
  lemma PlacedExactly(s: State, c: nat)
    requires Reachable(s) && Enabled(s, Attempt(c)) && (!s.sh.exitEnqueued || s.calls[c].cmd.exit)
    ensures var t, place := Apply(s, Attempt(c)), PlaceFor(CAPACITY, BlocksOf(s.sh.queue), s.calls[c].cmd.size);
            && (t.calls[c].WaitingSpace? <==> place.None?)
            && (place.Some? ==> |t.sh.queue| == |s.sh.queue| + 1
                                && t.sh.queue[|s.sh.queue|].cmd == s.calls[c].cmd
                                && t.sh.queue[|s.sh.queue|].off == place.value)
  {
    hide PlaceFor, Holds, FifoInv, ExitInv, OwnerInv, EventInv, AttachedInv, WakeInv;
    ReachableInv(s);
    AttemptIs(s, c);
    SmallCommandsFit(s.calls[c].cmd.size);
    HoldsPlace(s.sh.ring, BlocksOf(s.sh.queue), s.calls[c].cmd.size);
  }

  // The steps that start a call: it will push a command with the size and the wait it was started with.
  lemma BeginStarts(s: State, size: nat, wait: bool, exit: bool)
    requires 0 < size <= MAX_COMMAND && (exit ==> !s.sh.exitEnqueued)
    ensures var step := if exit then BeginExit(size, wait) else Begin(size, wait);
            && Enabled(s, step)
            && var t, n := Apply(s, step), |s.calls|;
               && |t.calls| == n + 1 && t.calls[..n] == s.calls && t.calls[n].Trying? && t.calls[n].held.None?
               && t.calls[n].cmd.size == size && t.calls[n].cmd.wait == wait && t.calls[n].cmd.exit == exit
               && t.calls[n].cmd.id == n && t.sh.queue == s.sh.queue && t.sh.blocked == s.sh.blocked
               && t.consumer == s.consumer && t.executed == s.executed && t.accepted == s.accepted
               && t.sh.exitEnqueued == (s.sh.exitEnqueued || exit)
  {
  }

  // A new event is made only by a call that needs one and has none to give back, when the pool is empty.
  lemma EventsAreReused(s: State, step: Step)
    requires Enabled(s, step)
    ensures Apply(s, step).sh.made != s.sh.made ==>
              && step.Attempt? && s.sh.available == [] && s.calls[step.c].held.None?
              && Apply(s, step).sh.made == s.sh.made + 1
              && Apply(s, step).calls[step.c].Owned() == Some(s.sh.made)
  {
    hide Reserve, Release;
  }

  // A producer is turned away for lack of space only while more than 1536 of the 2048 bytes are unread.
  lemma RefusedOnlyWhenNearlyFull(s: State, c: nat)
    requires Reachable(s) && Enabled(s, Attempt(c))
    requires Apply(s, Attempt(c)).calls[c].WaitingSpace?
    ensures Occupied(BlocksOf(s.sh.queue)) > 1536
  {
    ReachableInv(s);
    AttemptIs(s, c);
    RefusalNeedsBytes(s.sh, s.calls[c].cmd.size);
  }
}
