// Exactly which calls of GetDevice_AddRef are safe, over all runs.
module DeviceUnlockedRuns {
  import opened Wrappers
  import opened DeviceLifetime
  import opened DeviceSafety
  import opened DeviceRuns
  import opened DeviceProgress
  import opened DeviceUnlocked

  // ---------- what holds before anything goes wrong ----------

  // The token of a device for its descriptor never becomes a reference to a device.
  ghost predicate OwnTokens(s: State) {
    forall d :: 0 <= d < |s.devices| ==> s.devices[d].own < |s.tokens| && s.tokens[s.devices[d].own].Device().None?
  }

  ghost predicate Sound(w: System) {
    && Inv(w.s) && OwnTokens(w.s)
    && forall c :: Pending(w, c) ==>
                     w.calls[c].d < |w.s.devices| && (w.calls[c].guard != Nothing ==> CallSafe(w.s, w.calls[c]))
  }

  // No token turns into a reference to a device, and a device keeps its token for its descriptor.
  lemma NoneStays(s: State, step: Step)
    requires Enabled(s, step) && !step.SwapCount? && !step.Create?
    ensures var t := Apply(s, step);
            && |s.tokens| <= |t.tokens| && |t.devices| == |s.devices|
            && (forall i :: 0 <= i < |s.tokens| && s.tokens[i].Device().None? ==> t.tokens[i].Device().None?)
            && (forall d :: 0 <= d < |s.devices| ==> t.devices[d].own == s.devices[d].own)
  {
  }

  lemma OwnTokensSwapped(s: State, i: nat)
    requires OwnTokens(s) && Enabled(s, SwapCount(i))
    ensures OwnTokens(Swapped(s, i))
  {
  }

  lemma OwnTokensCreated(s: State, i: nat)
    requires OwnTokens(s) && Enabled(s, Create(i))
    ensures OwnTokens(Apply(s, Create(i)))
  {
  }

  lemma OwnTokensKept(s: State, step: Step)
    requires OwnTokens(s) && Enabled(s, step)
    ensures OwnTokens(Apply(s, step))
  {
    if step.SwapCount? {
      OwnTokensSwapped(s, step.t);
    } else if step.Create? {
      OwnTokensCreated(s, step.t);
    } else {
      NoneStays(s, step);
      hide Enabled, Apply;
    }
  }

  lemma DevicesStay(s: State, step: Step)
    requires Enabled(s, step)
    ensures |s.devices| <= |Apply(s, step).devices|
  {
  }

  // Every run that respects the guards keeps this until a reference is added to a destroyed device.
  lemma SoundStep(w: System, a: Action)
    requires Sound(w) && CanAct(w, a) && Respects(w, a)
    requires a.AddReference? ==> w.s.devices[w.calls[a.c].d].destroyed == 0
    ensures Sound(Act(w, a))
  {
    hide Inv, Enabled, Apply;
    var v := Act(w, a);
    match a
    case Other(step) =>
      StepKeeps(w.s, step);
      OwnTokensKept(w.s, step);
      DevicesStay(w.s, step);
      forall c | Pending(v, c) && v.calls[c].guard != Nothing ensures CallSafe(v.s, v.calls[c]) {
        assert Pending(w, c);
        CallStaysSafe(w.s, step, w.calls[c]);
      }
    case ReadPointer(t, guard) =>
      PointerIsAlive(w.s, w.s.tokens[t].k);
      forall c | Pending(v, c) && v.calls[c].guard != Nothing ensures CallSafe(v.s, v.calls[c]) {
        if c < |w.calls| {
          assert Pending(w, c);
        }
      }
    case AddReference(b) =>
      AddReferenceExact(w.s, w.calls[b].d);
      forall c | Pending(v, c) && v.calls[c].guard != Nothing ensures CallSafe(v.s, v.calls[c]) {
        assert Pending(w, c);
      }
  }

  lemma StartIsSound()
    ensures Sound(START)
  {
    hide Inv;
    InitInv();
  }

  // ---------- a reference of its own ----------

  // Device d is alive and token j holds it. This survives even when other devices have been destroyed and
  // referred to again, which breaks the other invariants.
  ghost predicate KeptAlive(s: State, d: nat, j: nat) {
    && d < |s.devices| && s.devices[d].destroyed == 0
    && s.devices[d].refCount == Count(DeviceMarks(s.tokens), d)
    && j < |s.tokens| && s.tokens[j] == Held(d)
    && OwnTokens(s)
  }

  // Tokens change, but not which device they refer to.
  lemma MarksKept(s: State, t: State, i: nat, tok: Token, d: nat, j: nat)
    requires KeptAlive(s, d, j) && i < |s.tokens| && i != j && t.tokens == s.tokens[i := tok]
    requires tok.Device() == s.tokens[i].Device() && t.devices == s.devices
    ensures KeptAlive(t, d, j)
  {
    assert DeviceMarks(t.tokens) == DeviceMarks(s.tokens);
  }

  lemma HandlesAdded(s: State, t: State, tok: Token, d: nat, j: nat)
    requires KeptAlive(s, d, j) && t.tokens == s.tokens + [tok] && tok.Device().None? && t.devices == s.devices
    ensures KeptAlive(t, d, j)
  {
    hide Count;
    AppendCounts(s.tokens, tok, d);
  }

  lemma NothingAdded(s: State, t: State, d: nat, j: nat)
    requires KeptAlive(s, d, j) && t.tokens == s.tokens && t.devices == s.devices
    ensures KeptAlive(t, d, j)
  {
  }

  lemma VisitAdds(s: State, s1: State, k: nat, keep: bool, d: nat, j: nat)
    requires KeptAlive(s, d, j) && s1.tokens == s.tokens && s1.devices == s.devices && k < |s1.descs|
    requires s1.mgr.Matching? || s1.mgr.Sweeping? || s1.mgr.Detecting?
    ensures KeptAlive(BeginVisit(s1, k, keep), d, j)
  {
    hide KeptAlive;
    NothingAdded(s, s1, d, j);
    var t := BeginVisit(s1, k, keep);
    if keep {
      var mid := AddHandle(s1, k, Handle(k));
      HandlesAdded(s1, mid, Handle(k), d, j);
      HandlesAdded(mid, t, Dropping(k, None), d, j);
    } else {
      HandlesAdded(s1, t, Dropping(k, None), d, j);
    }
  }

  lemma RefAdded(s: State, e: nat, d: nat, j: nat)
    requires KeptAlive(s, d, j) && e < |s.devices|
    ensures KeptAlive(AddRef(s, e), d, j)
  {
    hide Count;
    AppendCounts(s.tokens, Held(e), d);
  }

  lemma DeviceAdded(s: State, k: nat, d: nat, j: nat)
    requires KeptAlive(s, d, j) && k < |s.descs|
    ensures KeptAlive(NewDevice(s, k), d, j)
  {
    hide Count;
    AppendCounts(s.tokens, Held(|s.devices|), d);
    AppendCounts(s.tokens + [Held(|s.devices|)], Own(k, |s.devices|), d);
  }

  lemma RefDropped(s: State, t: State, i: nat, d: nat, j: nat)
    requires KeptAlive(s, d, j) && DeviceToken(s, i) && i != j && s.devices[s.tokens[i].d].refCount > 1
    requires t.tokens == DropRef(s, i).tokens && t.devices == DropRef(s, i).devices
    ensures KeptAlive(t, d, j)
  {
    hide Count;
    UpdateCounts(s.tokens, i, Gone, d);
  }

  // The device destroyed is another one: this one has two references.
  lemma OtherDestroyed(s: State, t: State, i: nat, d: nat, j: nat)
    requires KeptAlive(s, d, j) && DeviceToken(s, i) && s.tokens[i].Killing? && OwnInPlace(s, i)
    requires s.devices[s.tokens[i].d].refCount == 1
    requires t.tokens == Destroy(s, i).tokens && t.devices == Destroy(s, i).devices
    ensures KeptAlive(t, d, j)
  {
    hide Count;
    var own := s.devices[s.tokens[i].d].own;
    if s.tokens[i].d == d {
      CountTwo(DeviceMarks(s.tokens), i, j, d);
    }
    UpdateCounts(s.tokens, i, Gone, d);
    UpdateCounts(s.tokens[i := Gone], own, t.tokens[own], d);
  }

  lemma SwapKeepsAlive(s: State, i: nat, d: nat, j: nat)
    requires KeptAlive(s, d, j) && Enabled(s, SwapCount(i))
    ensures KeptAlive(Swapped(s, i), d, j)
  {
    var t := Swapped(s, i);
    var tok := s.tokens[i];
    var count := s.devices[tok.d].refCount;
    assert i != j;
    hide KeptAlive;
    if tok.seen.value > 1 && count == tok.seen.value {
      RefDropped(s, t, i, d, j);
    } else if tok.Killing? && tok.seen.value <= 1 && count == 1 {
      OtherDestroyed(s, t, i, d, j);
    } else {
      MarksKept(s, t, i, t.tokens[i], d, j);
    }
  }

  lemma TokenStepKeepsAlive(s: State, step: Step, d: nat, j: nat)
    requires KeptAlive(s, d, j) && Enabled(s, step) && step != StartRelease(j)
    requires step.StartRelease? || step.ReadCount? || step.Enqueue? || step.TakeCommand? || step.StartDrop? || step.ReadHandles?
             || step.SwapHandles? || step.DropLast?
    ensures KeptAlive(Apply(s, step), d, j)
  {
    var i, t := step.t, Apply(s, step);
    assert i != j;
    hide KeptAlive;
    MarksKept(s, t, i, t.tokens[i], d, j);
  }

  lemma StepKeepsAlive(s: State, step: Step, d: nat, j: nat)
    requires KeptAlive(s, d, j) && Enabled(s, step) && step != StartRelease(j)
    ensures KeptAlive(Apply(s, step), d, j)
  {
    hide KeptAlive;
    var t := Apply(s, step);
    match step
    case CopyDevice(i) => RefAdded(s, s.tokens[i].d, d, j);
    case SwapCount(i) => SwapKeepsAlive(s, i, d, j);
    case Create(i) =>
      var k := s.tokens[i].k;
      if s.descs[k].device.Some? {
        RefAdded(s, s.descs[k].device.value, d, j);
      } else {
        DeviceAdded(s, k, d, j);
      }
    case CopyHandle(i) => HandlesAdded(s, t, Handle(s.tokens[i].k), d, j);
    case FindHandle(k) => HandlesAdded(s, t, Handle(k), d, j);
    case Found(k, keep) => VisitAdds(s, s.(descs := s.descs[k := s.descs[k].(enumerated := true)]), k, keep, d, j);
    case New(keep) => VisitAdds(s, s.(descs := s.descs + [Descriptor(0, None, true, true, 0)]), |s.descs|, keep, d, j);
    case Visit(k, keep) =>
      var s1 := s.(mgr := Sweeping(s.mgr.todo - {k}, None));
      if s.descs[k].enumerated {
        NothingAdded(s, t, d, j);
      } else {
        VisitAdds(s, s1, k, keep, d, j);
      }
    case Mark => NothingAdded(s, t, d, j);
    case Detect => NothingAdded(s, t, d, j);
    case Sweep => NothingAdded(s, t, d, j);
    case Done => NothingAdded(s, t, d, j);
    case Shutdown => NothingAdded(s, t, d, j);
    case _ => TokenStepKeepsAlive(s, step, d, j);
  }

  // ---------- the lock ----------

  // No release command is being processed, and device d is alive.
  ghost predicate NoneProcessed(s: State, d: nat) {
    && d < |s.devices| && s.devices[d].destroyed == 0 && !s.mgr.Busy?
    && forall i :: 0 <= i < |s.tokens| ==> !s.tokens[i].Killing?
  }

  lemma SwapProcessesNone(s: State, i: nat, d: nat)
    requires NoneProcessed(s, d) && Enabled(s, SwapCount(i))
    ensures NoneProcessed(Swapped(s, i), d)
  {
  }

  lemma StepProcessesNone(s: State, step: Step, d: nat)
    requires NoneProcessed(s, d) && Enabled(s, step) && !step.TakeCommand?
    ensures NoneProcessed(Apply(s, step), d)
  {
    hide Swapped;
    if step.SwapCount? {
      SwapProcessesNone(s, step.t, d);
    }
  }

  // ---------- a guarded call is safe in every run ----------

  // What keeps device d alive is the guard of call p.
  ghost predicate Protects(w: System, p: int, d: nat) {
    && Pending(w, p)
    && match w.calls[p].guard {
         case ByReference(j) => KeptAlive(w.s, d, j)
         case ByLock => NoneProcessed(w.s, d)
         case Nothing => false
       }
  }

  lemma ActKeepsProtected(w: System, a: Action, p: int, d: nat)
    requires Protects(w, p, d) && CanAct(w, a) && Respects(w, a) && Pending(Act(w, a), p)
    ensures Protects(Act(w, a), p, d)
  {
    hide KeptAlive, NoneProcessed, Enabled, Apply;
    var guard := w.calls[p].guard;
    match a
    case Other(step) =>
      if guard.ByReference? {
        StepKeepsAlive(w.s, step, d, guard.t);
      } else {
        StepProcessesNone(w.s, step, d);
      }
    case ReadPointer(_, _) =>
    case AddReference(c) =>
      if guard.ByReference? {
        RefAdded(w.s, w.calls[c].d, d, guard.t);
      } else {
        AddedProcessesNone(w.s, w.calls[c].d, d);
      }
  }

  lemma AddedProcessesNone(s: State, e: nat, d: nat)
    requires NoneProcessed(s, d) && e < |s.devices|
    ensures NoneProcessed(AddRef(s, e), d)
  {
  }

  // A call that is done stays done.
  lemma {:induction false} PendingBefore(w: System, actions: seq<Action>, v: System, p: int)
    requires ActsTo(w, actions, v) && 0 <= p < |w.calls| && Pending(v, p)
    ensures Pending(w, p)
    decreases |actions|
  {
    hide Enabled, Apply;
    if actions != [] {
      PendingBefore(Act(w, actions[0]), actions[1..], v, p);
    }
  }

  lemma {:induction false} RunKeepsProtected(w: System, actions: seq<Action>, v: System, p: int, d: nat)
    requires Protects(w, p, d) && ActsTo(w, actions, v) && AllRespect(w, actions) && Pending(v, p)
    ensures Protects(v, p, d)
    decreases |actions|
  {
    hide Protects, CanAct, Act, Respects;
    if actions != [] {
      StillThere(w, actions[0], p, d);
      PendingBefore(Act(w, actions[0]), actions[1..], v, p);
      ActKeepsProtected(w, actions[0], p, d);
      RunKeepsProtected(Act(w, actions[0]), actions[1..], v, p, d);
    }
  }

  lemma StillThere(w: System, a: Action, p: int, d: nat)
    requires Protects(w, p, d) && CanAct(w, a)
    ensures 0 <= p < |Act(w, a).calls|
  {
  }

  lemma ProtectedIsAlive(w: System, p: int, d: nat)
    requires Protects(w, p, d)
    ensures d < |w.s.devices| && w.s.devices[d].destroyed == 0
  {
  }

  // A guard that holds in a sound state protects.
  lemma GuardProtects(w: System, p: int, d: nat)
    requires Sound(w) && Pending(w, p) && w.calls[p].guard != Nothing && d < |w.s.devices|
    requires w.calls[p].d == d || (w.calls[p].guard.ByLock? && w.s.devices[d].destroyed == 0)
    ensures Protects(w, p, d)
  {
    hide Count, ListInv;
    var call := w.calls[p];
    assert CallSafe(w.s, call);
    assert DeviceLinked(w.s, d);
  }

  // ---------- without a guard some run destroys the device ----------

  // Every client that holds device d starts to release it.
  lemma {:induction false} ReleaseAll(s: State, d: nat, i: nat) returns (steps: seq<Step>, t: State)
    requires Inv(s) && d < |s.devices| && i <= |s.tokens|
    ensures Leads(s, steps, t) && Inv(t) && |t.tokens| == |s.tokens| && t.devices == s.devices
    ensures forall k :: 0 <= k < |steps| ==>
                          steps[k].StartRelease? && steps[k].t < |s.tokens| && s.tokens[steps[k].t] == Held(d)
    ensures forall k :: 0 <= k < |t.tokens| ==> if k < i then t.tokens[k] == s.tokens[k] else t.tokens[k] != Held(d)
    decreases |s.tokens| - i
  {
    hide Inv;
    if i == |s.tokens| {
      steps, t := [], s;
    } else if s.tokens[i] == Held(d) {
      var step := StartRelease(i);
      StepKeeps(s, step);
      var s1 := Apply(s, step);
      var rest;
      rest, t := ReleaseAll(s1, d, i + 1);
      steps := [step] + rest;
      assert steps[1..] == rest;
      assert t.tokens[i] == s1.tokens[i];
    } else {
      steps, t := ReleaseAll(s, d, i + 1);
    }
  }

  predicate Dooms(s: State, d: nat, step: Step) {
    Finishes(step) || (step.StartRelease? && step.t < |s.tokens| && s.tokens[step.t] == Held(d))
  }

  lemma {:induction false} LeadsConcat(s: State, steps: seq<Step>, t: State, more: seq<Step>, u: State)
    requires Leads(s, steps, t) && Leads(t, more, u)
    ensures Leads(s, steps + more, u)
    decreases |steps|
  {
    hide Enabled, Apply;
    if steps == [] {
      assert steps + more == more;
    } else {
      LeadsConcat(Apply(s, steps[0]), steps[1..], t, more, u);
      assert (steps + more)[1..] == steps[1..] + more;
    }
  }

  // From every state within the invariant: clients release device d, and what they started is finished.
  lemma Doomed(s: State, d: nat) returns (steps: seq<Step>, u: State)
    requires Inv(s) && d < |s.devices|
    ensures Leads(s, steps, u) && Inv(u) && forall k :: 0 <= k < |steps| ==> Dooms(s, d, steps[k])
    ensures |u.devices| == |s.devices| && u.devices[d].destroyed == 1
  {
    hide Inv, Leads, Quiet;
    var first, t := ReleaseAll(s, d, 0);
    var more;
    more, u := Settles(t);
    LeadsConcat(s, first, t, more, u);
    RunKeepsClients(t, more, u);
    NothingGetsStuck(u);
    LeftDevices(u, d);
    steps := first + more;
  }

  function Others(steps: seq<Step>): (actions: seq<Action>)
    ensures |actions| == |steps| && forall i :: 0 <= i < |steps| ==> actions[i] == Other(steps[i])
  {
    seq(|steps|, i requires 0 <= i < |steps| => Other(steps[i]))
  }

  // A run of the other threads is one of the system, and respects guards that it does not touch.
  lemma {:induction false} Lifted(w: System, steps: seq<Step>, t: State)
    requires Leads(w.s, steps, t)
    requires forall c :: Pending(w, c) ==> w.calls[c].guard != ByLock
    requires forall c, k :: Pending(w, c) && 0 <= k < |steps| && steps[k].StartRelease? ==>
                              w.calls[c].guard != ByReference(steps[k].t)
    ensures ActsTo(w, Others(steps), System(t, w.calls)) && AllRespect(w, Others(steps))
    decreases |steps|
  {
    hide Enabled, Apply;
    var actions := Others(steps);
    if steps != [] {
      var v := Act(w, actions[0]);
      assert forall c :: Pending(v, c) <==> Pending(w, c);
      Lifted(v, steps[1..], t);
      assert actions[1..] == Others(steps[1..]);
      assert steps[0] in steps;
    }
  }

  lemma {:induction false} ActsConcat(w: System, actions: seq<Action>, v: System, more: seq<Action>, u: System)
    requires ActsTo(w, actions, v) && AllRespect(w, actions) && ActsTo(v, more, u) && AllRespect(v, more)
    ensures ActsTo(w, actions + more, u) && AllRespect(w, actions + more)
    decreases |actions|
  {
    hide CanAct, Act, Respects;
    if actions == [] {
      assert actions + more == more;
    } else {
      ActsConcat(Act(w, actions[0]), actions[1..], v, more, u);
      assert (actions + more)[1..] == actions[1..] + more;
    }
  }

  predicate Waits(w: System, c: int) {
    Pending(w, c) && w.calls[c].guard != Nothing
  }

  // The guarded calls are completed, from the i-th on.
  lemma {:induction false} CompleteGuarded(w: System, i: nat) returns (actions: seq<Action>, v: System)
    requires Sound(w) && i <= |w.calls|
    ensures ActsTo(w, actions, v) && AllRespect(w, actions) && Sound(v)
    ensures |v.calls| == |w.calls| && |v.s.devices| == |w.s.devices|
    ensures forall c :: 0 <= c < |w.calls| ==>
                          v.calls[c] == if c >= i && Waits(w, c) then w.calls[c].(done := true) else w.calls[c]
    decreases |w.calls| - i
  {
    hide Inv, OwnTokens, CallSafe;
    if i == |w.calls| {
      actions, v := [], w;
    } else if Waits(w, i) {
      var a := AddReference(i);
      GuardedIsAlive(w, i);
      SoundStep(w, a);
      var rest;
      rest, v := CompleteGuarded(Act(w, a), i + 1);
      actions := [a] + rest;
      assert actions[1..] == rest;
    } else {
      actions, v := CompleteGuarded(w, i + 1);
    }
  }

  lemma GuardedIsAlive(w: System, c: int)
    requires Sound(w) && Waits(w, c)
    ensures w.calls[c].d < |w.s.devices| && w.s.devices[w.calls[c].d].destroyed == 0
  {
    GuardProtects(w, c, w.calls[c].d);
    ProtectedIsAlive(w, c, w.calls[c].d);
  }

  // From every sound state in which a call is pending without a guard, some run that respects the guards of all other
  // calls makes it add a reference to a destroyed device.
  lemma UnguardedRevives(w: System, c: int) returns (actions: seq<Action>, v: System)
    requires Sound(w) && Pending(w, c) && w.calls[c].guard == Nothing
    ensures ActsTo(w, actions, v) && AllRespect(w, actions)
    ensures Pending(v, c) && v.calls[c] == w.calls[c] && CanAct(v, AddReference(c))
    ensures v.s.devices[w.calls[c].d].destroyed == 1 && !Inv(Act(v, AddReference(c)).s)
  {
    hide Inv, OwnTokens, CallSafe, Leads, ActsTo, AllRespect;
    var d := w.calls[c].d;
    var first, u := CompleteGuarded(w, 0);
    assert forall b :: Pending(u, b) ==> u.calls[b].guard == Nothing;
    var steps, t := Doomed(u.s, d);
    Lifted(u, steps, t);
    v := System(t, u.calls);
    actions := first + Others(steps);
    ActsConcat(w, first, u, Others(steps), v);
    AddReferenceExact(t, d);
  }

  // ---------- exactly which calls are safe ----------

  // In every run that respects the guards, with any number of other such calls, guarded or not, the device of call c is
  // alive until c adds its reference.
  ghost predicate AliveUntilAdded(w: System, c: int)
    requires Pending(w, c)
  {
    forall actions, v :: ActsTo(w, actions, v) && AllRespect(w, actions) && Pending(v, c) ==>
                           Alive(v, w.calls[c].d)
  }

  ghost predicate Alive(w: System, d: nat) {
    d < |w.s.devices| && w.s.devices[d].destroyed == 0
  }

  // A call is safe exactly if it is guarded by a reference of its own or by the lock.
  lemma SafeIffGuarded(w: System, c: int)
    requires Sound(w) && Pending(w, c)
    ensures AliveUntilAdded(w, c) <==> w.calls[c].guard != Nothing
  {
    hide Sound, ActsTo, AllRespect, Inv, Protects;
    var d := w.calls[c].d;
    if w.calls[c].guard != Nothing {
      assert d < |w.s.devices| by { GuardInRange(w, c); }
      GuardProtects(w, c, d);
      forall actions, v | ActsTo(w, actions, v) && AllRespect(w, actions) && Pending(v, c)
        ensures Alive(v, d)
      {
        RunKeepsProtected(w, actions, v, c, d);
        ProtectedIsAlive(v, c, d);
      }
    } else {
      var actions, v := UnguardedRevives(w, c);
      assert !Alive(v, d);
    }
  }

  lemma GuardInRange(w: System, c: int)
    requires Sound(w) && Pending(w, c)
    ensures w.calls[c].d < |w.s.devices|
  {
  }

  // The guard of another call does as well, but only until that call has added its reference.
  ghost predicate AliveWhilePending(w: System, c: int)
    requires Pending(w, c)
  {
    forall actions, v :: ActsTo(w, actions, v) && AllRespect(w, actions) && NoneAdded(actions) ==> Alive(v, w.calls[c].d)
  }

  predicate NoneAdded(actions: seq<Action>) {
    forall i :: 0 <= i < |actions| ==> !actions[i].AddReference?
  }

  ghost predicate Shields(w: System, p: int, d: nat) {
    Pending(w, p) && (w.calls[p].guard.ByLock? || (w.calls[p].guard.ByReference? && w.calls[p].d == d))
  }

  lemma {:induction false} PendingAfter(w: System, actions: seq<Action>, v: System, p: int)
    requires ActsTo(w, actions, v) && Pending(w, p) && NoneAdded(actions)
    ensures Pending(v, p)
    decreases |actions|
  {
    hide Enabled, Apply;
    if actions != [] {
      assert !actions[0].AddReference?;
      assert NoneAdded(actions[1..]);
      PendingAfter(Act(w, actions[0]), actions[1..], v, p);
    }
  }

  // As long as no pending call completes, the device is alive in every run exactly if it is now, and some pending call
  // holds it or holds the lock.
  lemma AliveIffShielded(w: System, c: int)
    requires Sound(w) && Pending(w, c) && Alive(w, w.calls[c].d)
    ensures AliveWhilePending(w, c) <==> exists p :: Shields(w, p, w.calls[c].d)
  {
    hide Sound, ActsTo, AllRespect, Inv, Protects, NoneAdded;
    var d := w.calls[c].d;
    if p :| Shields(w, p, d) {
      GuardProtects(w, p, d);
      forall actions, v | ActsTo(w, actions, v) && AllRespect(w, actions) && NoneAdded(actions)
        ensures Alive(v, d)
      {
        PendingAfter(w, actions, v, p);
        RunKeepsProtected(w, actions, v, p, d);
        ProtectedIsAlive(v, p, d);
      }
    } else {
      var actions, v := UnshieldedDies(w, c);
      assert !Alive(v, d);
    }
  }

  lemma UnshieldedDies(w: System, c: int) returns (actions: seq<Action>, v: System)
    requires Sound(w) && Pending(w, c) && !exists p :: Shields(w, p, w.calls[c].d)
    ensures ActsTo(w, actions, v) && AllRespect(w, actions) && NoneAdded(actions)
    ensures !Alive(v, w.calls[c].d)
  {
    hide Inv, OwnTokens, Leads, ActsTo, AllRespect;
    var d := w.calls[c].d;
    var steps, t := Doomed(w.s, d);
    forall b, k | Pending(w, b) && 0 <= k < |steps| && steps[k].StartRelease?
      ensures w.calls[b].guard != ByReference(steps[k].t)
    {
      assert !Shields(w, b, d) && Dooms(w.s, d, steps[k]);
    }
    assert forall b :: Pending(w, b) ==> !Shields(w, b, d);
    Lifted(w, steps, t);
    actions, v := Others(steps), System(t, w.calls);
  }
}
