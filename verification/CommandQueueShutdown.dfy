// Shutdown, exactly. A producer that is woken after exit was enqueued is turned away without passing the
// wake-up on, so each pop serves one blocked call and no more. Whether every call returns is therefore
// decided when the exit command has had its first look at the buffer: by comparing two list lengths.
module CommandQueueShutdown {
  import opened Wrappers
  import opened CommandBuffer
  import opened CommandQueue
  import opened CommandQueueSafety
  import opened CommandQueueRuns
  import opened CommandQueueProgress

  // Exit has been enqueued and its command has been in the lock scope of PushCommand at least once.
  ghost predicate ExitTried(s: State) {
    && s.sh.exitEnqueued
    && forall c :: 0 <= c < |s.calls| && s.calls[c].cmd.exit ==> s.calls[c] != Trying(s.calls[c].cmd, None)
  }

  // More calls are blocked than commands are queued.
  predicate Stranded(s: State) {
    |s.sh.blocked| > |s.sh.queue|
  }

  // The exit command itself waits at the end of a blocked list that is too long.
  ghost predicate ExitHangs(s: State) {
    && Stranded(s)
    && exists c :: 0 <= c < |s.calls| && ExitBlocked(s, s.calls[c])
  }

  ghost predicate ExitBlocked(s: State, call: Call) {
    call.cmd.exit && call.WaitingSpace? && call.ev in s.sh.blocked
  }

  // The exit call is the last to join the blocked list, and is woken only when the list is empty.
  ghost predicate ExitLastInv(s: State) {
    && (forall c :: 0 <= c < |s.calls| && ExitBlocked(s, s.calls[c]) ==>
                      s.sh.blocked[|s.sh.blocked| - 1] == s.calls[c].ev)
    && (forall c :: 0 <= c < |s.calls| && s.calls[c].cmd.exit && Retrying(s.sh, s.calls[c]) ==> s.sh.blocked == [])
  }

  lemma ExitLastAttempt(s: State, t: State, c: nat)
    requires Inv(s) && ExitLastInv(s) && Enabled(s, Attempt(c)) && t == Apply(s, Attempt(c))
    ensures ExitLastInv(t)
  {
    hide BufferInv, FifoInv, OwnerInv, AttachedInv, WakeInv;
    AttemptIs(s, c);
    assert s.calls[c].cmd.exit ==> s.sh.exitEnqueued;
    match TryPush(s.sh, s.calls[c].cmd, s.calls[c].held).0 {
      case Rejected => RejectAcceptLast(s, t, c);
      case Accepted(_) => RejectAcceptLast(s, t, c);
      case Full(e) =>
        PoolIsQuiet(s, t, c, WaitingSpace(s.calls[c].cmd, e));
        forall d | 0 <= d < |s.calls| && s.calls[d].cmd.exit
          ensures d == c
        {
          assert s.sh.exitEnqueued && s.calls[c].cmd.exit;
        }
    }
  }

  lemma RejectAcceptLast(s: State, t: State, c: nat)
    requires ExitLastInv(s) && c < |s.calls| == |t.calls|
    requires t.calls == s.calls[c := t.calls[c]]
    requires t.calls[c].WaitingDone? || t.calls[c].Returned?
    requires t.sh.blocked == s.sh.blocked && t.sh.signalled == s.sh.signalled
    ensures ExitLastInv(t)
  {
    forall d | 0 <= d < |t.calls| && d != c
      ensures ExitBlocked(t, t.calls[d]) <==> ExitBlocked(s, s.calls[d])
      ensures Retrying(t.sh, t.calls[d]) <==> Retrying(s.sh, s.calls[d])
    {
    }
  }

  lemma ExitLastPop(s: State, t: State, q: Queued)
    requires Inv(s) && ExitLastInv(s) && Pops(s, t, q)
    ensures ExitLastInv(t)
  {
    forall c | 0 <= c < |t.calls| && t.calls[c].cmd.exit
      ensures ExitBlocked(t, t.calls[c]) ==> t.sh.blocked[|t.sh.blocked| - 1] == t.calls[c].ev
      ensures Retrying(t.sh, t.calls[c]) ==> t.sh.blocked == []
    {
      assert CallEventInv(s, s.calls[c]);
      if s.sh.blocked != [] {
        assert s.sh.blocked == [s.sh.blocked[0]] + t.sh.blocked;
        assert s.sh.blocked[0] in s.sh.blocked;
      }
      assert s.calls[c].WaitingSpace? && s.calls[c].ev !in s.sh.signalled ==> ExitBlocked(s, s.calls[c]);
    }
  }

  lemma ExitLastWake(s: State, t: State, c: nat)
    requires || (Enabled(s, WakeSpace(c)) && t == Apply(s, WakeSpace(c)))
             || (Enabled(s, WakeDone(c)) && t == Apply(s, WakeDone(c)))
    requires ExitLastInv(s)
    ensures ExitLastInv(t)
  {
    assert s.calls[c].WaitingSpace? ==> Retrying(s.sh, s.calls[c]);
    forall d | 0 <= d < |t.calls|
      ensures ExitBlocked(t, t.calls[d]) ==> ExitBlocked(s, s.calls[d]) && t.calls[d] == s.calls[d]
      ensures Retrying(t.sh, t.calls[d]) ==> Retrying(s.sh, s.calls[d])
    {
    }
  }

  lemma ExitLastNotify(s: State, t: State)
    requires Inv(s) && ExitLastInv(s) && Enabled(s, Notify) && t == Apply(s, Notify)
    ensures ExitLastInv(t)
  {
    var q := s.consumer.q;
    forall d | 0 <= d < |t.calls|
      ensures ExitBlocked(t, t.calls[d]) ==> ExitBlocked(s, s.calls[d])
      ensures Retrying(t.sh, t.calls[d]) ==> Retrying(s.sh, s.calls[d])
    {
      if q.done.Some? && d != q.cmd.id {
        OwnersDiffer(s, q.cmd.id, d);
      }
    }
  }

  lemma ExitLastKept(s: State, step: Step)
    requires Inv(s) && ExitLastInv(s) && Enabled(s, step)
    ensures ExitLastInv(Apply(s, step))
  {
    hide Inv, Reserve, Release;
    var t := Apply(s, step);
    match step
    case Attempt(c) => ExitLastAttempt(s, t, c);
    case Pop =>
      PopIs(s);
      if s.sh.queue != [] {
        ExitLastPop(s, t, s.sh.queue[0]);
      }
    case WakeSpace(c) => ExitLastWake(s, t, c);
    case WakeDone(c) => ExitLastWake(s, t, c);
    case Notify => ExitLastNotify(s, t);
    case _ =>
  }

  lemma {:induction false} RunKeepsExitLast(s: State, steps: seq<Step>, t: State)
    requires Inv(s) && ExitLastInv(s) && Leads(s, steps, t)
    ensures ExitLastInv(t)
    decreases |steps|
  {
    if steps != [] {
      StepKeeps(s, steps[0]);
      ExitLastKept(s, steps[0]);
      RunKeepsExitLast(Apply(s, steps[0]), steps[1..], t);
    }
  }

  // ---------- the balance is struck once ----------

  lemma StrandedAttempt(s: State, c: nat)
    requires Inv(s) && ExitLastInv(s) && ExitTried(s) && Enabled(s, Attempt(c))
    ensures var t := Apply(s, Attempt(c));
            ExitTried(t) && (Stranded(t) <==> Stranded(s)) && (ExitHangs(t) <==> ExitHangs(s))
  {
    hide BufferInv, FifoInv, OwnerInv, AttachedInv, WakeInv, EventInv;
    var t := Apply(s, Attempt(c));
    AttemptIs(s, c);
    RefusedHasCommands(s, t, c);
    assert s.calls[c].cmd.exit ==> Retrying(s.sh, s.calls[c]) by {
      if s.calls[c].held.None? {
        assert s.calls[c] == Trying(s.calls[c].cmd, None);
      }
    }
    if !s.calls[c].cmd.exit {
      assert Rejects(s, t, c);
      forall d | 0 <= d < |s.calls|
        ensures ExitBlocked(t, t.calls[d]) <==> ExitBlocked(s, s.calls[d])
      {
      }
    }
  }

  lemma RefusedHasCommands(s: State, t: State, c: nat)
    requires Inv(s) && Enabled(s, Attempt(c)) && t == Apply(s, Attempt(c))
    ensures TryPush(s.sh, s.calls[c].cmd, s.calls[c].held).0.Full? ==> t.sh.queue != []
  {
    AttemptIs(s, c);
    if TryPush(s.sh, s.calls[c].cmd, s.calls[c].held).0.Full? {
      RefusalNeedsBytes(s.sh, s.calls[c].cmd.size);
    }
  }

  lemma StrandedPop(s: State, t: State, q: Queued)
    requires Inv(s) && ExitLastInv(s) && ExitTried(s) && Pops(s, t, q)
    ensures ExitTried(t) && (Stranded(t) <==> Stranded(s)) && (ExitHangs(t) <==> ExitHangs(s))
  {
    hide BufferInv, CallInv, FifoInv, ExitInv, OwnerInv, EventInv, AttachedInv, WakeInv;
    if Stranded(s) {
      assert |s.sh.blocked| >= 2;
      assert s.sh.blocked == [s.sh.blocked[0]] + t.sh.blocked;
      forall c | 0 <= c < |s.calls|
        ensures ExitBlocked(t, t.calls[c]) <==> ExitBlocked(s, s.calls[c])
      {
        if ExitBlocked(s, s.calls[c]) {
          assert s.calls[c].ev == t.sh.blocked[|t.sh.blocked| - 1];
        }
      }
    }
  }

  lemma StrandedKept(s: State, step: Step)
    requires Inv(s) && ExitLastInv(s) && ExitTried(s) && Enabled(s, step)
    ensures var t := Apply(s, step);
            ExitTried(t) && (Stranded(t) <==> Stranded(s)) && (ExitHangs(t) <==> ExitHangs(s))
  {
    hide Inv, Reserve, Release, ExitLastInv;
    var t := Apply(s, step);
    match step
    case Attempt(c) => StrandedAttempt(s, c);
    case Pop =>
      PopIs(s);
      if s.sh.queue != [] {
        StrandedPop(s, t, s.sh.queue[0]);
      }
    case _ => StrandedOther(s, t, step);
  }

  lemma StrandedOther(s: State, t: State, step: Step)
    requires !step.Attempt? && !step.Pop?
    requires Inv(s) && ExitTried(s) && Enabled(s, step) && t == Apply(s, step)
    ensures ExitTried(t) && (Stranded(t) <==> Stranded(s)) && (ExitHangs(t) <==> ExitHangs(s))
  {
    hide BufferInv, FifoInv, ExitInv, OwnerInv, AttachedInv, WakeInv;
    assert t.sh.blocked == s.sh.blocked && t.sh.queue == s.sh.queue;
    forall c | 0 <= c < |s.calls|
      ensures ExitBlocked(t, t.calls[c]) <==> ExitBlocked(s, s.calls[c])
    {
      assert CallEventInv(s, s.calls[c]);
    }
    assert forall c :: |s.calls| <= c < |t.calls| ==> !ExitBlocked(t, t.calls[c]);
    if ExitHangs(s) {
      var c :| 0 <= c < |s.calls| && ExitBlocked(s, s.calls[c]);
      assert ExitBlocked(t, t.calls[c]);
    }
  }

  lemma {:induction false} StrandedThroughout(s: State, steps: seq<Step>, t: State)
    requires Inv(s) && ExitLastInv(s) && ExitTried(s) && Leads(s, steps, t)
    ensures Inv(t) && ExitTried(t) && (Stranded(t) <==> Stranded(s)) && (ExitHangs(t) <==> ExitHangs(s))
    decreases |steps|
  {
    if steps != [] {
      StepKeeps(s, steps[0]);
      ExitLastKept(s, steps[0]);
      StrandedKept(s, steps[0]);
      StrandedThroughout(Apply(s, steps[0]), steps[1..], t);
    }
  }

  // From a state in which the exit command has been tried, however the run goes on until nothing more
  // can happen: every call has returned exactly if no more calls were blocked than commands queued, and
  // the exit command has been processed exactly if it was not itself blocked in too long a list.
  lemma ShutdownOutcome(s: State, steps: seq<Step>, t: State)
    requires Reachable(s) && ExitTried(s) && Leads(s, steps, t) && Quiet(t)
    ensures (forall c :: 0 <= c < |t.calls| ==> t.calls[c].Returned?) <==> |s.sh.blocked| <= |s.sh.queue|
    ensures t.sh.exitProcessed <==> !ExitHangs(s)
  {
    hide BufferInv, CallInv, FifoInv, ExitInv, OwnerInv, EventInv, AttachedInv, WakeInv, ExitLastInv, ExitTried, ExitHangs, Leads;
    ReachableInv(s);
    var first :| Leads(INIT, first, s);
    InitInv();
    RunKeepsExitLast(INIT, first, s);
    StrandedThroughout(s, steps, t);
    QuietState(t);
    if Stranded(t) {
      var c := BlockedProducer(t, t.sh.blocked[0]);
      assert !t.calls[c].Returned?;
    } else {
      assert t.sh.blocked == [];
    }
    QuietExit(t);
  }

  lemma QuietExit(t: State)
    requires Inv(t) && ExitTried(t) && Quiet(t)
    ensures t.sh.exitProcessed <==> !ExitHangs(t)
  {
    hide BufferInv, CallInv, OwnerInv, EventInv, AttachedInv, WakeInv, Quiet;
    QuietState(t);
    var x :| 0 <= x < |t.calls| && t.calls[x].cmd.exit;
    if t.calls[x].Returned? {
      ExitReturned(t, x);
    } else {
      assert ExitBlocked(t, t.calls[x]);
      assert t.calls[x].cmd !in t.accepted by {
        assert forall i :: 0 <= i < |t.accepted| ==> IsFrom(t.accepted[i], t.calls);
      }
      assert forall i :: 0 <= i < |t.executed| && t.executed[i].exit ==> IsFrom(t.executed[i], t.calls);
    }
  }

  lemma ExitReturned(t: State, x: nat)
    requires Inv(t) && x < |t.calls| && t.calls[x].cmd.exit && t.calls[x].Returned?
    requires t.executed == t.accepted
    ensures t.sh.exitProcessed && !ExitHangs(t)
  {
    assert CallEventInv(t, t.calls[x]);
    var i :| 0 <= i < |t.accepted| && t.accepted[i] == t.calls[x].cmd;
    ExitPosition(t, i);
  }

  // The same, told before the exit command's first attempt, by what that attempt meets: it hangs for good
  // exactly if there is no room and at least as many calls are blocked as commands are queued.
  lemma ExitDecided(s: State, c: nat, steps: seq<Step>, t: State)
    requires Reachable(s) && Enabled(s, Attempt(c)) && s.calls[c].cmd.exit && s.calls[c].held.None?
    requires Leads(Apply(s, Attempt(c)), steps, t) && Quiet(t)
    ensures var full := Reserve(s.sh.ring, s.calls[c].cmd.size).0.None?;
            && (t.sh.exitProcessed <==> !(full && |s.sh.blocked| >= |s.sh.queue|))
            && ((forall d :: 0 <= d < |t.calls| ==> t.calls[d].Returned?) <==>
                |s.sh.blocked| + One(full) <= |s.sh.queue| + One(!full))
  {
    hide Leads, Quiet;
    ReachableInv(s);
    ReachableStep(s, Attempt(c));
    FirstAttempt(s, c);
    hide Inv, ExitTried, ExitHangs, Reserve;
    ShutdownOutcome(Apply(s, Attempt(c)), steps, t);
  }

  lemma FirstAttempt(s: State, c: nat)
    requires Inv(s) && Enabled(s, Attempt(c)) && s.calls[c].cmd.exit && s.calls[c].held.None?
    ensures var t, full := Apply(s, Attempt(c)), Reserve(s.sh.ring, s.calls[c].cmd.size).0.None?;
            && ExitTried(t)
            && |t.sh.blocked| == |s.sh.blocked| + One(full) && |t.sh.queue| == |s.sh.queue| + One(!full)
            && (ExitHangs(t) <==> full && |s.sh.blocked| >= |s.sh.queue|)
  {
    hide BufferInv, CallInv, FifoInv, OwnerInv, EventInv, AttachedInv, WakeInv, Reserve;
    var t, full := Apply(s, Attempt(c)), Reserve(s.sh.ring, s.calls[c].cmd.size).0.None?;
    AttemptIs(s, c);
    forall d | 0 <= d < |t.calls| && d != c
      ensures !t.calls[d].cmd.exit
    {
      assert t.calls[d] == s.calls[d];
    }
    if full {
      assert t.sh.blocked[|s.sh.blocked|] == t.calls[c].ev;
      assert ExitBlocked(t, t.calls[c]);
    }
  }

  // ---------- it does happen ----------

  // Eight commands of 256 bytes fill the buffer; eight more pushes and then the exit command are refused.
  ghost predicate Filled(s: State, k: nat, b: nat) {
    && Reachable(s)
    && s.sh.ring == Ring(CAPACITY, 0, k * MAX_COMMAND, 0)
    && |s.sh.queue| == k && |s.sh.blocked| == b && !s.sh.exitEnqueued
  }

  lemma ReachableStep(s: State, step: Step)
    requires Reachable(s) && Enabled(s, step)
    ensures Reachable(Apply(s, step))
  {
    var steps :| Leads(INIT, steps, s);
    assert [step][1..] == [];
    assert Leads(s, [step], Apply(s, step));
    LeadsAppend(INIT, steps, s, [step], Apply(s, step));
  }

  // One more push of 256 bytes that does not wait: it goes in, or it joins the blocked list.
  lemma PushLarge(s: State, k: nat, b: nat) returns (t: State)
    requires Filled(s, k, b) && k <= 8
    ensures if k < 8 then Filled(t, k + 1, b) else Filled(t, 8, b + 1)
  {
    var c := |s.calls|;
    ReachableStep(s, Begin(MAX_COMMAND, false));
    var u := Apply(s, Begin(MAX_COMMAND, false));
    ReachableStep(u, Attempt(c));
    t := Apply(u, Attempt(c));
  }

  lemma {:induction false} PushesLarge(k: nat, b: nat) returns (s: State)
    requires k <= 8 && (b > 0 ==> k == 8)
    ensures Filled(s, k, b)
    decreases k + b
  {
    if b > 0 {
      s := PushesLarge(8, b - 1);
      s := PushLarge(s, 8, b - 1);
    } else if k > 0 {
      s := PushesLarge(k - 1, 0);
      s := PushLarge(s, k - 1, 0);
    } else {
      s := INIT;
      assert Leads(INIT, [], INIT);
    }
  }

  // The exit command finds the buffer full and blocks.
  lemma ExitBlocks(u: State, b: nat) returns (s: State)
    requires Filled(u, 8, b) && forall c :: 0 <= c < |u.calls| ==> !u.calls[c].cmd.exit
    ensures Reachable(s) && ExitTried(s)
    ensures |s.sh.blocked| == b + 1 && |s.sh.queue| == 8
    ensures exists c :: 0 <= c < |s.calls| && ExitBlocked(s, s.calls[c])
  {
    var c := |u.calls|;
    ReachableStep(u, BeginExit(32, false));
    var v := Apply(u, BeginExit(32, false));
    ReachableStep(v, Attempt(c));
    s := Apply(v, Attempt(c));
    assert ExitBlocked(s, s.calls[c]);
  }

  // The promise that exit is always processed does not hold of the code: here is a run after which it
  // never is, whatever happens next.
  lemma ExitCanHang() returns (s: State)
    ensures Reachable(s) && ExitTried(s) && ExitHangs(s)
    ensures forall steps, t :: Leads(s, steps, t) ==> !t.sh.exitProcessed
  {
    hide Leads, ExitTried, ExitHangs, Inv;
    var u := PushesLarge(8, 8);
    NoExitYet(u);
    s := ExitBlocks(u, 8);
    assert ExitHangs(s) by { HangsNow(s); }
    forall steps, t | Leads(s, steps, t)
      ensures !t.sh.exitProcessed
    {
      NeverProcessed(s, steps, t);
    }
  }

  lemma HangsNow(s: State)
    requires |s.sh.blocked| > |s.sh.queue| && exists c :: 0 <= c < |s.calls| && ExitBlocked(s, s.calls[c])
    ensures ExitHangs(s)
  {
  }

  // If exit had been processed it would still be when the run has settled.
  lemma NeverProcessed(s: State, steps: seq<Step>, t: State)
    requires Reachable(s) && ExitTried(s) && ExitHangs(s) && Leads(s, steps, t)
    ensures !t.sh.exitProcessed
  {
    hide Leads, ExitTried, ExitHangs, Inv;
    ReachableInv(s);
    RunKeeps(s, steps, t);
    var more, u := Settles(t);
    LeadsAppend(s, steps, t, more, u);
    LogsGrow(t, more, u);
    ShutdownOutcome(s, steps + more, u);
  }

  lemma NoExitYet(u: State)
    requires Reachable(u) && !u.sh.exitEnqueued
    ensures forall c :: 0 <= c < |u.calls| ==> !u.calls[c].cmd.exit
  {
    ReachableInv(u);
  }
}
