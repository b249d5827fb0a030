// What clients of devices and descriptors may rely on, in every reachable state and over every run.
module DeviceRuns {
  import opened Wrappers
  import opened DeviceLifetime
  import opened DeviceSafety

  // The tokens that refer to a device, or to a descriptor.
  function DeviceRefs(s: State, d: nat): set<nat> {
    set t: nat | t < |s.tokens| && s.tokens[t].Device() == Some(d)
  }

  function DescRefs(s: State, k: nat): set<nat> {
    set t: nat | t < |s.tokens| && s.tokens[t].Desc() == Some(k)
  }

  lemma {:induction false} CountIsCard(marks: seq<Option<nat>>, x: nat)
    ensures Count(marks, x) == |set i: nat | i < |marks| && marks[i] == Some(x)|
    decreases |marks|
  {
    if marks != [] {
      var n := |marks| - 1;
      CountIsCard(marks[..n], x);
      var rest := set i: nat | i < |marks[..n]| && marks[..n][i] == Some(x);
      var all := set i: nat | i < |marks| && marks[i] == Some(x);
      assert all == if marks[n] == Some(x) then rest + {n} else rest;
    }
  }

  lemma DeviceCount(s: State, d: nat)
    ensures Count(DeviceMarks(s.tokens), d) == |DeviceRefs(s, d)|
  {
    var marks := DeviceMarks(s.tokens);
    CountIsCard(marks, d);
    assert (set i: nat | i < |marks| && marks[i] == Some(d)) == DeviceRefs(s, d);
  }

  lemma DescCount(s: State, k: nat)
    ensures Count(DescMarks(s.tokens), k) == |DescRefs(s, k)|
  {
    var marks := DescMarks(s.tokens);
    CountIsCard(marks, k);
    assert (set i: nat | i < |marks| && marks[i] == Some(k)) == DescRefs(s, k);
  }

  // ---------- devices ----------

  // RefCount is the number of references: held by clients, being given up, queued, or with the manager thread.
  lemma RefCountCounts(s: State, d: nat)
    requires Inv(s) && d < |s.devices|
    ensures s.devices[d].refCount == |DeviceRefs(s, d)|
  {
    DeviceCount(s, d);
  }

  lemma HandleCountCounts(s: State, k: nat)
    requires Inv(s) && k < |s.descs|
    ensures s.descs[k].handleCount == |DescRefs(s, k)|
  {
    DescCount(s, k);
  }

  lemma CountsAreReferences(s: State)
    requires Reachable(s)
    ensures forall d :: 0 <= d < |s.devices| ==> s.devices[d].refCount == |DeviceRefs(s, d)|
    ensures forall k :: 0 <= k < |s.descs| ==> s.descs[k].handleCount == |DescRefs(s, k)|
  {
    hide Inv, Reachable;
    ReachableInv(s);
    forall d | 0 <= d < |s.devices| ensures s.devices[d].refCount == |DeviceRefs(s, d)| {
      RefCountCounts(s, d);
    }
    forall k | 0 <= k < |s.descs| ensures s.descs[k].handleCount == |DescRefs(s, k)| {
      HandleCountCounts(s, k);
    }
  }

  // A device is destroyed at most once, and has been exactly when nothing refers to it.
  lemma DestroyedOnce(s: State, d: nat)
    requires Reachable(s) && d < |s.devices|
    ensures s.devices[d].destroyed == if DeviceRefs(s, d) == {} then 1 else 0
  {
    hide Count, Reachable;
    ReachableInv(s);
    RefCountCounts(s, d);
    assert DeviceLinked(s, d);
  }

  // The step that destroys a device: the manager thread read 1, and its reference is still the only one, so
  // no client holds the device and no other release of it is on its way.
  predicate Destroys(s: State, step: Step, d: nat) {
    && step.SwapCount? && step.t < |s.tokens|
    && s.tokens[step.t] == Killing(d, Some(1))
    && DeviceRefs(s, d) == {step.t}
  }

  lemma SoleReference(s: State, t: nat, d: nat)
    requires Inv(s) && t < |s.tokens| && s.tokens[t].Device() == Some(d) && d < |s.devices|
    ensures s.devices[d].refCount == 1 <==> DeviceRefs(s, d) == {t}
  {
    hide Inv;
    RefCountCounts(s, d);
    assert t in DeviceRefs(s, d);
    if |DeviceRefs(s, d)| == 1 {
      CardOne(DeviceRefs(s, d), t);
    }
  }

  lemma CardOne(x: set<nat>, t: nat)
    requires t in x && |x| == 1
    ensures x == {t}
  {
    assert |x - {t}| == 0;
    assert x == (x - {t}) + {t};
  }

  // The assertion in DeviceRelease and in Release: whoever gives a reference up finds a count above 0.
  lemma NeverReadsZero(s: State, t: nat)
    requires Inv(s) && t < |s.tokens| && (s.tokens[t].Releasing? || s.tokens[t].Killing? || s.tokens[t].Dropping?)
    ensures s.tokens[t].seen != Some(0)
    ensures if s.tokens[t].Dropping? then s.descs[s.tokens[t].k].handleCount > 0
            else s.devices[s.tokens[t].d].refCount > 0
  {
    Counted(s, t);
  }

  lemma DestroysExactly(s: State, step: Step, d: nat)
    requires Reachable(s) && Enabled(s, step) && d < |s.devices|
    ensures d < |Apply(s, step).devices|
    ensures Apply(s, step).devices[d].destroyed == s.devices[d].destroyed + One(Destroys(s, step, d))
  {
    hide Inv, Reachable, DeviceRefs;
    ReachableInv(s);
    if step.SwapCount? && s.tokens[step.t].d == d {
      SoleReference(s, step.t, d);
      NeverReadsZero(s, step.t);
    }
  }

  // What Destroy relies on is always there: the command never gets stuck.
  lemma OwnHandleInPlace(s: State, t: nat)
    requires Inv(s) && DeviceToken(s, t) && s.tokens[t].Killing?
    ensures OwnInPlace(s, t)
  {
    hide Count;
    Counted(s, t);
    assert DeviceLinked(s, s.tokens[t].d);
  }

  // While a device has references, its descriptor exists, points to it and is held by it.
  lemma DeviceKeepsDescriptor(s: State, d: nat)
    requires Reachable(s) && d < |s.devices| && DeviceRefs(s, d) != {}
    ensures var k := s.devices[d].desc;
            && k < |s.descs| && s.descs[k].deleted == 0 && s.descs[k].device == Some(d)
            && exists t :: t in DescRefs(s, k) && s.tokens[t] == Own(k, d)
  {
    hide Count, Reachable;
    ReachableInv(s);
    RefCountCounts(s, d);
    assert DeviceLinked(s, d);
    var k := s.devices[d].desc;
    var own := s.devices[d].own;
    assert own in DescRefs(s, k);
    Counted(s, own);
    assert Listing(s.descs[k], k, s.mgr, s.alive);
  }

  // ---------- descriptors ----------

  lemma SoleHandle(s: State, t: nat, k: nat)
    requires Inv(s) && t < |s.tokens| && s.tokens[t].Desc() == Some(k) && k < |s.descs|
    ensures s.descs[k].handleCount == 1 <==> DescRefs(s, k) == {t}
  {
    hide Inv;
    HandleCountCounts(s, k);
    assert t in DescRefs(s, k);
    if |DescRefs(s, k)| == 1 {
      CardOne(DescRefs(s, k), t);
    }
  }

  // A descriptor is deleted at most once, and nothing refers to a deleted one.
  lemma DeletedOnce(s: State, k: nat)
    requires Reachable(s) && k < |s.descs|
    ensures s.descs[k].deleted <= 1
    ensures s.descs[k].deleted == 1 ==> DescRefs(s, k) == {} && s.descs[k].device.None? && !s.descs[k].listed
  {
    hide Count, Reachable;
    ReachableInv(s);
    HandleCountCounts(s, k);
    assert Listing(s.descs[k], k, s.mgr, s.alive);
    if s.descs[k].deleted == 1 && s.descs[k].device.Some? {
      var d := s.descs[k].device.value;
      assert DeviceLinked(s, d);
      Counted(s, s.devices[d].own);
    }
  }

  // The steps that delete a descriptor: the last handle goes when nobody could find the descriptor any more,
  // or the manager goes when nobody holds it.
  predicate Deletes(s: State, step: Step, k: nat)
    requires k < |s.descs|
  {
    match step
    case DropLast(t) =>
      && t < |s.tokens| && s.tokens[t].Dropping? && s.tokens[t].k == k && DescRefs(s, k) == {t}
      && (!s.alive || !s.descs[k].enumerated)
    case Shutdown => s.descs[k].listed && DescRefs(s, k) == {}
    case _ => false
  }

  lemma DescOnlyGrows(s: State, step: Step, k: nat)
    requires Enabled(s, step) && k < |s.descs|
    ensures k < |Apply(s, step).descs|
    ensures !step.DropLast? && !step.Shutdown? ==> Apply(s, step).descs[k].deleted == s.descs[k].deleted
  {
  }

  lemma DeletesExactly(s: State, step: Step, k: nat)
    requires Reachable(s) && Enabled(s, step) && k < |s.descs|
    ensures k < |Apply(s, step).descs|
    ensures Apply(s, step).descs[k].deleted == s.descs[k].deleted + One(Deletes(s, step, k))
    ensures Deletes(s, step, k) ==> s.descs[k].device.None?
  {
    hide Inv, Reachable, DescRefs, BeginVisit, Swapped, NewDevice;
    ReachableInv(s);
    DescOnlyGrows(s, step, k);
    if step.DropLast? && s.tokens[step.t].k == k {
      SoleHandle(s, step.t, k);
      NoDeviceAtLast(s, step.t);
    }
    if step.Shutdown? {
      HandleCountCounts(s, k);
    }
  }

  lemma NoDeviceAtLast(s: State, t: nat)
    requires Inv(s) && DescToken(s, t) && s.tokens[t].Dropping?
    ensures s.descs[s.tokens[t].k].handleCount == 1 ==> s.descs[s.tokens[t].k].device.None?
  {
    if s.descs[s.tokens[t].k].handleCount == 1 {
      LastHandleHasNoDevice(s, t);
    }
  }

  // After the manager, a descriptor lives exactly as long as its references.
  lemma SurvivorsAreReferenced(s: State, k: nat)
    requires Reachable(s) && !s.alive && k < |s.descs|
    ensures s.descs[k].deleted == if DescRefs(s, k) == {} then 1 else 0
  {
    hide Count, Reachable;
    ReachableInv(s);
    HandleCountCounts(s, k);
    assert Listing(s.descs[k], k, s.mgr, s.alive);
  }

  // ---------- enumeration ----------

  ghost predicate FoundIn(steps: seq<Step>, k: nat) {
    exists i :: 0 <= i < |steps| && steps[i].Found? && steps[i].k == k
  }

  ghost predicate Enumerating(s: State) {
    s.mgr.Matching? || s.mgr.Sweeping?
  }

  // Within one enumeration a descriptor is marked exactly when it was marked before or has been found, or
  // when it is new.
  lemma {:induction false} MarksFollowFinds(s: State, steps: seq<Step>, t: State, k: nat)
    requires Inv(s) && Leads(s, steps, t) && Enumerating(s) && Done !in steps
    ensures Enumerating(t) && |s.descs| <= |t.descs|
    ensures k < |t.descs| ==>
              (t.descs[k].enumerated <==>
               (if k < |s.descs| then s.descs[k].enumerated else true) || FoundIn(steps, k))
    decreases |steps|
  {
    hide Inv, Enabled, Apply;
    if steps != [] {
      var s1 := Apply(s, steps[0]);
      StepKeeps(s, steps[0]);
      MarkStep(s, steps[0], k);
      MarksFollowFinds(s1, steps[1..], t, k);
      assert FoundIn(steps, k) <==> (steps[0].Found? && steps[0].k == k) || FoundIn(steps[1..], k) by {
        if FoundIn(steps[1..], k) {
          var i :| 0 <= i < |steps[1..]| && steps[1..][i].Found? && steps[1..][i].k == k;
          assert steps[i + 1] == steps[1..][i];
        }
        if FoundIn(steps, k) && !(steps[0].Found? && steps[0].k == k) {
          var i :| 0 <= i < |steps| && steps[i].Found? && steps[i].k == k;
          assert steps[1..][i - 1] == steps[i];
        }
      }
    } else {
      assert !FoundIn(steps, k);
    }
  }

  lemma MarkStep(s: State, step: Step, k: nat)
    requires Inv(s) && Enabled(s, step) && Enumerating(s) && step != Done
    ensures var t := Apply(s, step);
            && Enumerating(t) && |s.descs| <= |t.descs| <= |s.descs| + 1
            && (k < |t.descs| ==>
                  (t.descs[k].enumerated <==>
                   (if k < |s.descs| then s.descs[k].enumerated else true) || (step.Found? && step.k == k)))
  {
    hide Count, LinkInv, ListInv;
  }

  lemma {:induction false} LastStep(s: State, steps: seq<Step>, last: Step, t: State) returns (u: State)
    requires Leads(s, steps + [last], t)
    ensures Leads(s, steps, u) && Enabled(u, last) && t == Apply(u, last)
    decreases |steps|
  {
    hide Enabled, Apply;
    if steps == [] {
      u := s;
    } else {
      assert (steps + [last])[1..] == steps[1..] + [last];
      u := LastStep(Apply(s, steps[0]), steps[1..], last, t);
    }
  }

  lemma MarkClears(s: State)
    requires Inv(s) && Enabled(s, Mark)
    ensures var t := Apply(s, Mark);
            && Enumerating(t) && |t.descs| == |s.descs|
            && forall k :: 0 <= k < |t.descs| ==> !t.descs[k].enumerated
  {
    forall k | 0 <= k < |s.descs|
      ensures !Marked(s.descs)[k].enumerated
    {
      assert Listing(s.descs[k], k, s.mgr, s.alive);
    }
  }

  lemma ListAtRest(u: State, k: nat)
    requires Inv(u) && Enumerating(u) && Enabled(u, Done) && k < |u.descs|
    ensures u.descs[k].listed <==> u.descs[k].deleted == 0
    ensures u.descs[k].listed <==> u.descs[k].enumerated || u.descs[k].handleCount > 0
  {
    assert Listing(u.descs[k], k, u.mgr, u.alive);
  }

  // Mark and sweep: when the enumeration is over the list holds exactly the descriptors that were found, are
  // new, or are still referenced, and every other one is gone.
  lemma SweepKeepsExactly(s: State, steps: seq<Step>, t: State, k: nat)
    requires Reachable(s) && Leads(s, [Mark] + steps + [Done], t) && Done !in steps && k < |t.descs|
    ensures t.descs[k].listed <==> FoundIn(steps, k) || k >= |s.descs| || DescRefs(t, k) != {}
    ensures t.descs[k].listed <==> t.descs[k].deleted == 0
  {
    hide Inv, Enabled, Reachable, Apply, FoundIn, Enumerating;
    ReachableInv(s);
    var all := [Mark] + steps + [Done];
    assert all[1..] == steps + [Done];
    StepKeeps(s, Mark);
    MarkClears(s);
    var u := LastStep(Apply(s, Mark), steps, Done, t);
    RunKeeps(Apply(s, Mark), steps, u);
    DoneChangesNoList(u, t);
    MarksFollowFinds(Apply(s, Mark), steps, u, k);
    ListAtRest(u, k);
    HandleCountCounts(u, k);
    assert DescRefs(u, k) == DescRefs(t, k);
  }

  lemma DoneChangesNoList(u: State, t: State)
    requires Enabled(u, Done) && t == Apply(u, Done)
    ensures t.descs == u.descs && t.tokens == u.tokens
  {
  }
}
