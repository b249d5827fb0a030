// What the steps of clients and of enumeration hand out: which references there are after each of them.
module DeviceClients {
  import opened Wrappers
  import opened DeviceLifetime
  import opened DeviceSafety
  import opened DeviceRuns

  // No token changes, and exactly one of the new ones refers to a device: a client now holds d once more.
  ghost predicate HandsOut(s: State, u: State, d: nat, j: nat) {
    && |s.tokens| <= j < |u.tokens| && u.tokens[j] == Held(d)
    && (forall i :: 0 <= i < |s.tokens| ==> u.tokens[i] == s.tokens[i])
    && (forall i :: |s.tokens| <= i < |u.tokens| && i != j ==> u.tokens[i].Device().None?)
  }

  lemma HandedOutRefs(s: State, u: State, d: nat, j: nat)
    requires HandsOut(s, u, d, j)
    ensures DeviceRefs(u, d) == DeviceRefs(s, d) + {j}
  {
    forall i: nat | i < |u.tokens|
      ensures i in DeviceRefs(u, d) <==> i in DeviceRefs(s, d) || i == j
    {
    }
  }

  // CreateDevice through a handle on descriptor k: the client gets a reference to the device that k has then. If k had
  // one it is that device; otherwise it is new, referred to by nothing else, and has a handle on k.
  lemma CreateHandsOut(s: State, t: nat)
    requires Inv(s) && t < |s.tokens| && s.tokens[t].Handle? && s.mgr.Free?
    requires s.descs[s.tokens[t].k].device.Some? || s.alive
    ensures Enabled(s, Create(t))
    ensures var u, k := Apply(s, Create(t)), s.tokens[t].k;
            exists d, j ::
              && k < |u.descs| && u.descs[k].device == Some(d) && d < |u.devices| && u.devices[d].destroyed == 0
              && HandsOut(s, u, d, j) && DeviceRefs(u, d) == DeviceRefs(s, d) + {j}
              && (if s.descs[k].device.Some? then s.descs[k].device == Some(d) && |u.devices| == |s.devices| && u.descs == s.descs
                  else
                    && d == |s.devices| && |u.devices| == |s.devices| + 1 && DeviceRefs(u, d) == {j}
                    && u.devices[d].desc == k && Own(k, d) in u.tokens)
  {
    hide Count, ListInv;
    var u, k := Apply(s, Create(t)), s.tokens[t].k;
    var n := |s.tokens|;
    if s.descs[k].device.Some? {
      var d := s.descs[k].device.value;
      assert DeviceLinked(s, d);
      HandedOutRefs(s, u, d, n);
    } else {
      var d := |s.devices|;
      assert u.tokens[n + 1] == Own(k, d);
      HandedOutRefs(s, u, d, n);
      assert DeviceRefs(s, d) == {};
    }
  }

  // A holder of a device may add a reference to it, and may start to give its own up, in every state.
  lemma HolderMay(s: State, t: nat)
    requires Inv(s) && t < |s.tokens| && s.tokens[t].Held?
    ensures Enabled(s, CopyDevice(t)) && Enabled(s, StartRelease(t))
    ensures var u, d := Apply(s, CopyDevice(t)), s.tokens[t].d;
            && HandsOut(s, u, d, |s.tokens|) && |u.tokens| == |s.tokens| + 1
            && |u.devices| == |s.devices| && u.devices[d].refCount == s.devices[d].refCount + 1
            && u.descs == s.descs && u.mgr == s.mgr
    ensures var u := Apply(s, StartRelease(t));
            && |u.tokens| == |s.tokens| && u.tokens[t] == Releasing(s.tokens[t].d, None)
            && (forall i :: 0 <= i < |s.tokens| && i != t ==> u.tokens[i] == s.tokens[i])
            && u.devices == s.devices && u.descs == s.descs && u.mgr == s.mgr
  {
    hide Count, LinkInv, ListInv;
  }

  // The tokens of s and one more.
  ghost predicate Gains(s: State, u: State, tok: Token) {
    && |u.tokens| == |s.tokens| + 1 && u.tokens[|s.tokens|] == tok
    && (forall i :: 0 <= i < |s.tokens| ==> u.tokens[i] == s.tokens[i])
    && u.devices == s.devices && |u.descs| == |s.descs|
  }

  // A handle may be copied and given up in every state.
  lemma HandleMay(s: State, t: nat)
    requires Inv(s) && t < |s.tokens| && s.tokens[t].Handle?
    ensures Enabled(s, CopyHandle(t)) && Enabled(s, StartDrop(t))
    ensures Gains(s, Apply(s, CopyHandle(t)), Handle(s.tokens[t].k)) && Apply(s, CopyHandle(t)).mgr == s.mgr
    ensures var u := Apply(s, StartDrop(t));
            && |u.tokens| == |s.tokens| && u.tokens[t] == Dropping(s.tokens[t].k, None)
            && (forall i :: 0 <= i < |s.tokens| && i != t ==> u.tokens[i] == s.tokens[i])
            && u.devices == s.devices && u.descs == s.descs && u.mgr == s.mgr
  {
    hide Count, LinkInv, ListInv;
  }

  // Whoever has the lock finds every descriptor of the list, and no other.
  lemma FinderMay(s: State, k: nat)
    requires Inv(s) && s.mgr.Free? && k < |s.descs|
    ensures Enabled(s, FindHandle(k)) <==> s.alive && s.descs[k].deleted == 0
    ensures Enabled(s, FindHandle(k)) ==> Gains(s, Apply(s, FindHandle(k)), Handle(k))
  {
    hide Count, LinkInv;
    assert Listing(s.descs[k], k, s.mgr, s.alive);
  }

  // The manager may enumerate, and add what is plugged in, whenever it has the lock and lives.
  lemma ManagerMay(s: State)
    requires s.mgr.Free? && s.alive
    ensures Enabled(s, Mark) && Apply(s, Mark).mgr == Matching(None) && Apply(s, Mark).tokens == s.tokens
    ensures Enabled(s, Detect) && Apply(s, Detect) == s.(mgr := Detecting(None))
  {
  }

  // The descriptor a factory finds is one that exists, or a new one; it is then available and listed. The handler has a
  // handle on it, and keeps one of its own if it wants to.
  lemma HandlerGets(s: State, step: Step)
    requires Inv(s) && s.mgr in {Matching(None), Detecting(None)}
    requires match step
             case Found(k, _) => k < |s.descs| && s.descs[k].deleted == 0
             case New(_) => true
             case _ => false
    ensures Enabled(s, step)
    ensures var u, k := Apply(s, step), if step.Found? then step.k else |s.descs|;
            var kept := if step.keep then [Handle(k)] else [];
            && |u.descs| == (if step.Found? then |s.descs| else |s.descs| + 1)
            && u.descs[k].enumerated && u.descs[k].listed && u.descs[k].deleted == 0
            && (step.New? ==> u.descs[k].device.None?)
            && u.tokens == s.tokens + kept + [Dropping(k, None)]
            && u.mgr.Visit() == Some(|s.tokens| + |kept|) && u.devices == s.devices
            && forall i :: 0 <= i < |s.descs| && i != k ==> u.descs[i] == s.descs[i]
  {
    hide Count, LinkInv;
    if step.Found? {
      assert Listing(s.descs[step.k], step.k, s.mgr, s.alive);
    }
  }
}
