// DeviceHandle::GetDevice_AddRef (OVR_DeviceHandle.cpp), which reads pDevice and then adds a reference, without a lock.
// A caller that keeps a reference of its own until the second step, or the lock, is safe whatever other threads and other
// such calls do; from every state in which a caller does neither, some run destroys the device in between.
module DeviceUnlocked {
  import opened Wrappers
  import opened DeviceLifetime
  import opened DeviceSafety

  // What the caller relies on between the two steps: a reference of its own, the token `t`, or the lock.
  datatype Guard = ByReference(t: nat) | ByLock | Nothing

  datatype Call = Call(d: nat, guard: Guard, done: bool)

  datatype System = System(s: State, calls: seq<Call>)

  datatype Action =
    | Other(step: Step)
    | ReadPointer(t: nat, guard: Guard)   // through the handle t
    | AddReference(c: nat)

  const START := System(INIT, [])

  // The call c has read the pointer and not yet added its reference.
  predicate Pending(w: System, c: int) {
    0 <= c < |w.calls| && !w.calls[c].done
  }

  predicate CanAct(w: System, a: Action) {
    match a
    case Other(step) => Enabled(w.s, step)
    case ReadPointer(t, _) => DescToken(w.s, t) && w.s.tokens[t].Handle? && w.s.descs[w.s.tokens[t].k].device.Some?
    case AddReference(c) => c < |w.calls| && !w.calls[c].done && w.calls[c].d < |w.s.devices|
  }

  function Act(w: System, a: Action): System
    requires CanAct(w, a)
  {
    match a
    case Other(step) => w.(s := Apply(w.s, step))
    case ReadPointer(t, guard) => w.(calls := w.calls + [Call(w.s.descs[w.s.tokens[t].k].device.value, guard, false)])
    case AddReference(c) => System(AddRef(w.s, w.calls[c].d), w.calls[c := w.calls[c].(done := true)])
  }

  ghost predicate ActsTo(w: System, actions: seq<Action>, v: System)
    decreases |actions|
  {
    if actions == [] then w == v
    else CanAct(w, actions[0]) && ActsTo(Act(w, actions[0]), actions[1..], v)
  }

  // ---------- the second step ----------

  // It keeps the invariants while the device has not been destroyed, and only then.

  lemma AddReferenceExact(s: State, d: nat)
    requires Inv(s) && d < |s.devices|
    ensures Inv(AddRef(s, d)) <==> s.devices[d].destroyed == 0
  {
    hide Count, ListInv;
    assert DeviceLinked(s, d);
    if s.devices[d].refCount > 0 {
      AddRefKeeps(s, d);
    } else {
      assert !DeviceLinked(AddRef(s, d), d);
    }
  }

  // ---------- callers that guard the call ----------

  // A guard holds when the pointer is read, and is not given up before the reference has been added.
  ghost predicate Respects(w: System, a: Action)
    requires CanAct(w, a)
  {
    match a
    case ReadPointer(t, ByReference(j)) =>
      j < |w.s.tokens| && w.s.tokens[j] == Held(w.s.descs[w.s.tokens[t].k].device.value)
    case ReadPointer(_, ByLock) => w.s.mgr.Free?
    case Other(StartRelease(j)) => forall c :: Pending(w, c) ==> w.calls[c].guard != ByReference(j)
    case Other(TakeCommand(_)) => forall c :: Pending(w, c) ==> w.calls[c].guard != ByLock
    case _ => true
  }

  ghost predicate AllRespect(w: System, actions: seq<Action>)
    decreases |actions|
  {
    actions != [] && CanAct(w, actions[0]) ==> Respects(w, actions[0]) && AllRespect(Act(w, actions[0]), actions[1..])
  }

  // And there is a guard.
  ghost predicate Guarded(w: System, a: Action)
    requires CanAct(w, a)
  {
    Respects(w, a) && (a.ReadPointer? ==> a.guard != Nothing)
  }

  ghost predicate AllGuarded(w: System, actions: seq<Action>)
    decreases |actions|
  {
    actions != [] && CanAct(w, actions[0]) ==> Guarded(w, actions[0]) && AllGuarded(Act(w, actions[0]), actions[1..])
  }

  ghost predicate CallSafe(s: State, call: Call) {
    !call.done ==>
      && call.d < |s.devices| && s.devices[call.d].refCount > 0
      && match call.guard {
           case ByReference(j) => j < |s.tokens| && s.tokens[j] == Held(call.d)
           case ByLock => !s.mgr.Busy?
           case Nothing => false
         }
  }

  ghost predicate Safe(w: System) {
    Inv(w.s) && forall c :: 0 <= c < |w.calls| ==> CallSafe(w.s, w.calls[c])
  }

  // Only its owner gives a reference up.
  lemma HeldStays(s: State, step: Step, j: nat)
    requires Inv(s) && Enabled(s, step) && step != StartRelease(j)
    requires j < |s.tokens| && s.tokens[j].Held?
    ensures j < |Apply(s, step).tokens| && Apply(s, step).tokens[j] == s.tokens[j]
  {
    hide Count, ListInv, ManagerInv, CountInv;
    if step.SwapCount? {
      SwapKeepsHeld(s, step.t, j);
    }
  }

  lemma SwapKeepsHeld(s: State, i: nat, j: nat)
    requires Inv(s) && Enabled(s, SwapCount(i)) && j < |s.tokens| && s.tokens[j].Held?
    ensures |Swapped(s, i).tokens| == |s.tokens| && Swapped(s, i).tokens[j] == s.tokens[j]
  {
    hide Count, ListInv, ManagerInv;
    Counted(s, i);
    assert DeviceLinked(s, s.tokens[i].d);
  }

  // While no release command is taken up, no device dies.
  lemma NoCommandNoDeath(s: State, step: Step, d: nat)
    requires Inv(s) && Enabled(s, step) && !step.TakeCommand? && !s.mgr.Busy?
    requires d < |s.devices| && s.devices[d].refCount > 0
    ensures var t := Apply(s, step); !t.mgr.Busy? && d < |t.devices| && t.devices[d].refCount > 0
  {
    hide Count, LinkInv, ListInv, CountInv;
  }

  lemma CallStaysSafe(s: State, step: Step, call: Call)
    requires Inv(s) && Enabled(s, step) && Inv(Apply(s, step)) && CallSafe(s, call)
    requires !call.done && call.guard.ByReference? ==> step != StartRelease(call.guard.t)
    requires !call.done && call.guard.ByLock? ==> !step.TakeCommand?
    ensures CallSafe(Apply(s, step), call)
  {
    hide Inv, Enabled, Apply;
    if !call.done {
      match call.guard
      case ByReference(j) =>
        HeldStays(s, step, j);
        HeldIsCounted(Apply(s, step), j);
      case ByLock => NoCommandNoDeath(s, step, call.d);
    }
  }

  lemma HeldIsCounted(s: State, j: nat)
    requires Inv(s) && j < |s.tokens| && s.tokens[j].Held?
    ensures s.tokens[j].d < |s.devices| && s.devices[s.tokens[j].d].refCount > 0
  {
    hide Count;
    Counted(s, j);
  }

  lemma PointerIsAlive(s: State, k: nat)
    requires Inv(s) && k < |s.descs| && s.descs[k].device.Some?
    ensures var d := s.descs[k].device.value; d < |s.devices| && s.devices[d].refCount > 0
  {
  }

  lemma GuardedStepKeeps(w: System, a: Action)
    requires Safe(w) && CanAct(w, a) && Guarded(w, a)
    ensures Safe(Act(w, a))
  {
    hide Inv, Enabled, Apply;
    var v := Act(w, a);
    match a
    case Other(step) =>
      StepKeeps(w.s, step);
      forall c | 0 <= c < |w.calls| ensures CallSafe(v.s, w.calls[c]) {
        CallStaysSafe(w.s, step, w.calls[c]);
      }
    case ReadPointer(t, guard) =>
      PointerIsAlive(w.s, w.s.tokens[t].k);
      forall c | 0 <= c < |w.calls| ensures CallSafe(v.s, v.calls[c]) {
        assert CallSafe(w.s, w.calls[c]);
      }
    case AddReference(c) =>
      assert CallSafe(w.s, w.calls[c]);
      AddRefKeeps(w.s, w.calls[c].d);
      forall b | 0 <= b < |w.calls| ensures CallSafe(v.s, v.calls[b]) {
        assert CallSafe(w.s, w.calls[b]);
      }
  }

  // In every run in which each call is guarded by a reference or by the lock, with any number of such calls between
  // any steps of other threads, all invariants of devices and descriptors hold.
  lemma {:induction false} GuardedRunsAreSafe(w: System, actions: seq<Action>, v: System)
    requires Safe(w) && ActsTo(w, actions, v) && AllGuarded(w, actions)
    ensures Safe(v)
    decreases |actions|
  {
    hide Safe, CanAct, Act, Guarded;
    if actions != [] {
      GuardedStepKeeps(w, actions[0]);
      GuardedRunsAreSafe(Act(w, actions[0]), actions[1..], v);
    }
  }

  lemma StartIsSafe()
    ensures Safe(START)
  {
    hide Inv;
    InitInv();
  }

  // ---------- and one that does not ----------

  ghost predicate Occurs(w: System) {
    exists actions :: ActsTo(START, actions, w)
  }

  lemma {:induction false} ActsAppend(w: System, actions: seq<Action>, v: System, a: Action)
    requires ActsTo(w, actions, v) && CanAct(v, a)
    ensures ActsTo(w, actions + [a], Act(v, a))
    decreases |actions|
  {
    hide CanAct, Act;
    if actions == [] {
      assert [a][1..] == [];
    } else {
      ActsAppend(Act(w, actions[0]), actions[1..], v, a);
      assert (actions + [a])[1..] == actions[1..] + [a];
    }
  }

  lemma Next(w: System, a: Action)
    requires Occurs(w) && CanAct(w, a)
    ensures Occurs(Act(w, a))
  {
    hide CanAct, Act;
    var actions :| ActsTo(START, actions, w);
    ActsAppend(START, actions, w, a);
  }

  // The device is created, its pointer read, its only reference released and processed, and then a reference is
  // added to what has been destroyed.
  lemma UnguardedCallRevives() returns (w: System)
    ensures Occurs(w)
    ensures w.s.devices != [] && w.s.devices[0].destroyed == 1 && Held(0) in w.s.tokens
    ensures !Inv(w.s)
  {
    hide Inv;
    w := Created();
    w := Destroyed(w);
    Next(w, AddReference(0));
    var v := Act(w, AddReference(0));
    assert v.s.tokens[4] == Held(0);
    if Inv(v.s) {
      HeldIsAlive(v.s, 4);
    }
    w := v;
  }

  lemma HeldIsAlive(s: State, j: nat)
    requires Inv(s) && j < |s.tokens| && s.tokens[j].Held?
    ensures s.tokens[j].d < |s.devices| && s.devices[s.tokens[j].d].destroyed == 0
  {
    hide Count, ListInv;
    HeldIsCounted(s, j);
    assert DeviceLinked(s, s.tokens[j].d);
  }

  // One more action that can be taken.
  lemma Then(w: System, a: Action) returns (v: System)
    requires Occurs(w) && CanAct(w, a)
    ensures v == Act(w, a) && Occurs(v)
  {
    Next(w, a);
    v := Act(w, a);
  }

  // A device is found in an enumeration, kept by the handler and created.
  lemma Created() returns (w: System)
    ensures Occurs(w)
    ensures w == System(State([Handle(0), Gone, Held(0), Own(0, 0)], [Device(0, 1, 3, 0)],
                              [Descriptor(2, Some(0), true, true, 0)], Free, true), [])
  {
    hide Occurs;
    w := Swept();
    w := Then(w, Other(Create(0)));
  }

  lemma Swept() returns (w: System)
    ensures Occurs(w)
    ensures w == System(State([Handle(0), Gone], [], [Descriptor(1, None, true, true, 0)], Free, true), [])
  {
    hide Occurs;
    w := SweepBegun();
    w := Then(w, Other(Visit(0, false)));
    assert {0} - {0} == {};
    w := Then(w, Other(Done));
  }

  lemma SweepBegun() returns (w: System)
    ensures Occurs(w)
    ensures w == System(State([Handle(0), Gone], [], [Descriptor(1, None, true, true, 0)], Sweeping({0}, None), true), [])
  {
    hide Occurs;
    w := Enumerated();
    w := Then(w, Other(Sweep));
    assert w.s.mgr.todo == {0};
  }

  lemma Enumerated() returns (w: System)
    ensures Occurs(w)
    ensures w == System(State([Handle(0), Gone], [], [Descriptor(1, None, true, true, 0)], Matching(None), true), [])
  {
    hide Occurs;
    w := Visited();
    w := Then(w, Other(ReadHandles(1)));
    w := Then(w, Other(SwapHandles(1)));
  }

  lemma Visited() returns (w: System)
    ensures Occurs(w)
    ensures w == System(State([Handle(0), Dropping(0, None)], [], [Descriptor(2, None, true, true, 0)],
                              Matching(Some(1)), true), [])
  {
    hide Occurs;
    w := Begun();
    w := Then(w, Other(New(true)));
  }

  lemma Begun() returns (w: System)
    ensures Occurs(w)
    ensures w == System(State([], [], [], Matching(None), true), [])
  {
    StartOccurs();
    hide Occurs;
    w := Then(START, Other(Mark));
  }

  lemma StartOccurs()
    ensures Occurs(START)
  {
    assert ActsTo(START, [], START);
  }

  // Through handle 0 the pointer is read; the client's only reference, token 2, is released and processed.
  lemma Destroyed(u: System) returns (w: System)
    requires Occurs(u)
    requires u == System(State([Handle(0), Gone, Held(0), Own(0, 0)], [Device(0, 1, 3, 0)],
                               [Descriptor(2, Some(0), true, true, 0)], Free, true), [])
    ensures Occurs(w)
    ensures w.s.tokens == [Handle(0), Gone, Gone, Dropping(0, None)] && w.s.devices == [Device(0, 0, 3, 1)]
    ensures w.calls == [Call(0, Nothing, false)]
  {
    hide Occurs;
    w := Released(u);
    w := Then(w, Other(TakeCommand(2)));
    w := Then(w, Other(ReadCount(2)));
    w := Then(w, Other(SwapCount(2)));
  }

  lemma Released(u: System) returns (w: System)
    requires Occurs(u)
    requires u == System(State([Handle(0), Gone, Held(0), Own(0, 0)], [Device(0, 1, 3, 0)],
                               [Descriptor(2, Some(0), true, true, 0)], Free, true), [])
    ensures Occurs(w)
    ensures w == System(u.s.(tokens := [Handle(0), Gone, Queued(0), Own(0, 0)]), [Call(0, Nothing, false)])
  {
    hide Occurs;
    w := Then(u, ReadPointer(0, Nothing));
    w := Then(w, Other(StartRelease(2)));
    w := Then(w, Other(ReadCount(2)));
    w := Then(w, Other(Enqueue(2)));
  }
}
