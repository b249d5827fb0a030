// What has been started is finished: however the threads are scheduled, releases, queued commands and an enumeration
// run out of steps, and when they have, exactly what clients still hold is left.
module DeviceProgress {
  import opened Wrappers
  import opened DeviceLifetime
  import opened DeviceSafety
  import opened DeviceRuns

  // The steps that finish what has been started: nothing is created, copied, found or released anew.
  predicate Finishes(step: Step) {
    match step
    case ReadCount(_) => true
    case Enqueue(_) => true
    case SwapCount(_) => true
    case TakeCommand(_) => true
    case ReadHandles(_) => true
    case SwapHandles(_) => true
    case DropLast(_) => true
    case Sweep => true
    case Visit(_, keep) => !keep
    case Done => true
    case _ => false
  }

  // ---------- sums ----------

  function Total(ws: seq<nat>): nat
    decreases |ws|
  {
    if ws == [] then 0 else Total(ws[..|ws| - 1]) + ws[|ws| - 1]
  }

  lemma TotalAppend(ws: seq<nat>, v: nat)
    ensures Total(ws + [v]) == Total(ws) + v
  {
    assert (ws + [v])[..|ws|] == ws;
  }

  lemma {:induction false} TotalUpdate(ws: seq<nat>, i: nat, v: nat)
    requires i < |ws|
    ensures Total(ws[i := v]) + ws[i] == Total(ws) + v
    decreases |ws|
  {
    var n := |ws| - 1;
    if i == n {
      assert ws[i := v][..n] == ws[..n];
    } else {
      TotalUpdate(ws[..n], i, v);
      assert ws[i := v][..n] == ws[..n][i := v];
    }
  }

  lemma {:induction false} TotalBound(ws: seq<nat>, b: nat)
    requires forall i :: 0 <= i < |ws| ==> ws[i] <= b
    ensures Total(ws) <= b * |ws|
    decreases |ws|
  {
    if ws != [] {
      TotalBound(ws[..|ws| - 1], b);
    }
  }

  // ---------- the measure ----------

  // How far a token is from being given up.
  function TokenWeight(tok: Token): nat {
    match tok
    case Releasing(_, _) => 4
    case Queued(_) => 3
    case Killing(_, _) => 2
    case Dropping(_, _) => 1
    case _ => 0
  }

  function TokenWeights(tokens: seq<Token>): (ws: seq<nat>)
    ensures |ws| == |tokens|
  {
    seq(|tokens|, i requires 0 <= i < |tokens| => TokenWeight(tokens[i]))
  }

  function ManagerWeight(s: State): nat {
    match s.mgr
    case Matching(_) => 2 * |s.descs| + 2
    case Detecting(_) => 1
    case Sweeping(todo, _) => 2 * |todo| + 1
    case _ => 0
  }

  function Weight(s: State): nat {
    Total(TokenWeights(s.tokens)) + ManagerWeight(s)
  }

  // A count that is no longer current costs another read.
  function Reads(seen: Option<nat>, count: nat): nat {
    match seen
    case None => 1
    case Some(v) => if v == count then 0 else 2
  }

  function TokenReads(s: State, tok: Token): nat {
    if (tok.Releasing? || tok.Killing?) && tok.d < |s.devices| then Reads(tok.seen, s.devices[tok.d].refCount)
    else if tok.Dropping? && tok.k < |s.descs| then Reads(tok.seen, s.descs[tok.k].handleCount)
    else 0
  }

  function AllReads(s: State): (ws: seq<nat>)
    ensures |ws| == |s.tokens|
  {
    seq(|s.tokens|, i requires 0 <= i < |s.tokens| => TokenReads(s, s.tokens[i]))
  }

  // Weight first, then the reads; a token that comes in, in the sweep, is paid for by the weight.
  function Combined(n: nat, w: nat, r: nat): nat {
    w * (2 * (n + w) + 1) + r
  }

  function Measure(s: State): nat {
    Combined(|s.tokens|, Weight(s), Total(AllReads(s)))
  }

  lemma CombinedDrops(n: nat, w: nat, r: nat, n': nat, w': nat, r': nat)
    requires w' < w && n' + w' <= n + w && r' <= 2 * n'
    ensures Combined(n', w', r') < Combined(n, w, r)
  {
    var a, b := 2 * (n + w) + 1, 2 * (n' + w') + 1;
    assert w' * b <= w' * a <= (w - 1) * a;
    assert (w - 1) * a == w * a - a;
  }

  // A step that takes weight off.
  lemma LighterDrops(s: State, t: State)
    requires Weight(t) < Weight(s) && |t.tokens| + Weight(t) <= |s.tokens| + Weight(s)
    ensures Measure(t) < Measure(s)
  {
    hide Weight, Combined;
    TotalBound(AllReads(t), 2);
    CombinedDrops(|s.tokens|, Weight(s), Total(AllReads(s)), |t.tokens|, Weight(t), Total(AllReads(t)));
  }

  lemma WeightAt(s: State, t: State, i: nat, tok: Token)
    requires i < |s.tokens| && t.tokens == s.tokens[i := tok] && ManagerWeight(t) == ManagerWeight(s)
    ensures Weight(t) + TokenWeight(s.tokens[i]) == Weight(s) + TokenWeight(tok)
  {
    hide TokenWeight, ManagerWeight;
    assert TokenWeights(t.tokens) == TokenWeights(s.tokens)[i := TokenWeight(tok)];
    TotalUpdate(TokenWeights(s.tokens), i, TokenWeight(tok));
  }

  // A step that only reads a count, or finds that the count it read is out of date.
  lemma ReadDrops(s: State, t: State, i: nat, tok: Token)
    requires i < |s.tokens| && t == SetToken(s, i, tok) && TokenWeight(tok) == TokenWeight(s.tokens[i])
    requires TokenReads(s, tok) < TokenReads(s, s.tokens[i])
    ensures Measure(t) < Measure(s)
  {
    hide TokenWeight, TokenReads, Weight;
    WeightIs(s, t, i, tok);
    forall other: Token ensures TokenReads(t, other) == TokenReads(s, other) {
      SameCounts(s, t, other);
    }
    assert AllReads(t) == AllReads(s)[i := TokenReads(s, tok)];
    TotalUpdate(AllReads(s), i, TokenReads(s, tok));
  }

  lemma SameCounts(s: State, t: State, tok: Token)
    requires t.devices == s.devices && t.descs == s.descs
    ensures TokenReads(t, tok) == TokenReads(s, tok)
  {
  }

  lemma WeightIs(s: State, t: State, i: nat, tok: Token)
    requires i < |s.tokens| && t == SetToken(s, i, tok) && TokenWeight(tok) == TokenWeight(s.tokens[i])
    ensures Weight(t) == Weight(s)
  {
    WeightAt(s, t, i, tok);
  }

  lemma DestroyDrops(s: State, i: nat)
    requires Inv(s) && DeviceToken(s, i) && s.tokens[i].Killing? && OwnInPlace(s, i)
    requires s.devices[s.tokens[i].d].refCount == 1
    ensures Measure(Destroy(s, i).(mgr := Free)) < Measure(s)
  {
    var t := Destroy(s, i).(mgr := Free);
    var dev := s.devices[s.tokens[i].d];
    assert DeviceLinked(s, s.tokens[i].d);
    var mid := s.(tokens := s.tokens[i := Gone]);
    hide Weight, Measure, TokenWeights, Inv, Total;
    WeightAt(s, mid, i, Gone);
    WeightAt(mid, t, dev.own, Dropping(dev.desc, None));
    LighterDrops(s, t);
  }

  lemma SwapCountDrops(s: State, i: nat)
    requires Inv(s) && Enabled(s, SwapCount(i))
    ensures Measure(Apply(s, SwapCount(i))) < Measure(s)
  {
    hide CountInv, LinkInv, ListInv, Measure, Weight, DropRef, Destroy;
    var t := Swapped(s, i);
    var tok := s.tokens[i];
    var count := s.devices[tok.d].refCount;
    if tok.seen.value > 1 && count == tok.seen.value {
      DropRefDrops(s, t, i);
    } else if tok.Killing? && tok.seen.value == 1 && count == 1 {
      DestroyDrops(s, i);
    } else {
      ReadDrops(s, t, i, t.tokens[i]);
    }
  }

  lemma DropRefDrops(s: State, t: State, i: nat)
    requires ManagerInv(s) && DeviceToken(s, i) && s.devices[s.tokens[i].d].refCount > 1
    requires s.tokens[i].Releasing? || s.tokens[i].Killing?
    requires if s.tokens[i].Killing? then t == DropRef(s, i).(mgr := Free) else t == DropRef(s, i)
    ensures Measure(t) < Measure(s)
  {
    assert s.tokens[i].Killing? ==> s.mgr == Busy(i);
    hide Weight, Measure, ManagerInv;
    WeightAt(s, t, i, Gone);
    LighterDrops(s, t);
  }

  lemma VisitDrops(s: State, k: nat)
    requires Inv(s) && Enabled(s, Visit(k, false))
    ensures Measure(Apply(s, Visit(k, false))) < Measure(s)
  {
    hide Inv, Measure, TokenWeights, Total;
    var t := Apply(s, Visit(k, false));
    assert |s.mgr.todo - {k}| == |s.mgr.todo| - 1;
    if !s.descs[k].enumerated {
      assert TokenWeights(t.tokens) == TokenWeights(s.tokens) + [1] by { OneMore(s.tokens, Dropping(k, None)); }
      TotalAppend(TokenWeights(s.tokens), 1);
    }
    LighterDrops(s, t);
  }

  lemma OneMore(tokens: seq<Token>, tok: Token)
    ensures TokenWeights(tokens + [tok]) == TokenWeights(tokens) + [TokenWeight(tok)]
  {
  }

  lemma {:induction false} IndicesBelow(todo: set<nat>, n: nat)
    requires forall k :: k in todo ==> k < n
    ensures |todo| <= n
    decreases n
  {
    if n > 0 {
      IndicesBelow(todo - {n - 1}, n - 1);
    } else {
      assert todo == {};
    }
  }

  lemma SweepDrops(s: State)
    requires Enabled(s, Sweep)
    ensures Measure(Apply(s, Sweep)) < Measure(s)
  {
    hide Measure, TokenWeights, Total;
    var t := Apply(s, Sweep);
    IndicesBelow(t.mgr.todo, |s.descs|);
    LighterDrops(s, t);
  }

  lemma HandleDrops(s: State, step: Step)
    requires Inv(s) && Enabled(s, step) && (step.ReadHandles? || step.SwapHandles? || step.DropLast?)
    ensures Measure(Apply(s, step)) < Measure(s)
  {
    hide CountInv, LinkInv, ListInv, Measure, Weight, Inv;
    var i, t := step.t, Apply(s, step);
    var tok := s.tokens[i];
    var count := s.descs[tok.k].handleCount;
    if step.ReadHandles? || count != tok.seen.value {
      ReadDrops(s, t, i, t.tokens[i]);
    } else {
      WeightAt(s, t, i, Gone);
      LighterDrops(s, t);
    }
  }

  lemma MoveDrops(s: State, step: Step)
    requires Inv(s) && Enabled(s, step) && (step.ReadCount? || step.Enqueue? || step.TakeCommand? || step.Done?)
    ensures Measure(Apply(s, step)) < Measure(s)
  {
    var t := Apply(s, step);
    hide Measure, Inv;
    match step
    case ReadCount(i) => ReadDrops(s, t, i, t.tokens[i]);
    case Done => LighterDrops(s, t);
    case Enqueue(i) =>
      WeightAt(s, t, i, t.tokens[i]);
      LighterDrops(s, t);
    case TakeCommand(i) =>
      WeightAt(s, t, i, t.tokens[i]);
      LighterDrops(s, t);
  }

  lemma StepDecreases(s: State, step: Step)
    requires Inv(s) && Enabled(s, step) && Finishes(step)
    ensures Measure(Apply(s, step)) < Measure(s)
  {
    hide Inv, Enabled, Apply, Measure;
    match step
    case ReadCount(_) => MoveDrops(s, step);
    case Enqueue(_) => MoveDrops(s, step);
    case TakeCommand(_) => MoveDrops(s, step);
    case Done => MoveDrops(s, step);
    case SwapCount(i) => SwapCountDrops(s, i);
    case ReadHandles(_) => HandleDrops(s, step);
    case SwapHandles(_) => HandleDrops(s, step);
    case DropLast(_) => HandleDrops(s, step);
    case Sweep => SweepDrops(s);
    case Visit(k, keep) => VisitDrops(s, k);
  }

  // ---------- where the steps end ----------

  // No step is left that would finish something.
  ghost predicate Quiet(s: State) {
    forall step :: Enabled(s, step) ==> !Finishes(step)
  }

  ghost predicate AllFinish(steps: seq<Step>) {
    forall i :: 0 <= i < |steps| ==> Finishes(steps[i])
  }

  // However the threads are scheduled, what has been started runs out of steps.
  lemma {:induction false} StartedWorkEnds(s: State, steps: seq<Step>, t: State)
    requires Inv(s) && Leads(s, steps, t) && AllFinish(steps)
    ensures |steps| + Measure(t) <= Measure(s)
    decreases |steps|
  {
    hide Inv, Measure, Apply, Enabled;
    if steps != [] {
      assert Finishes(steps[0]);
      StepDecreases(s, steps[0]);
      StepKeeps(s, steps[0]);
      StartedWorkEnds(Apply(s, steps[0]), steps[1..], t);
    }
  }

  lemma Settles(s: State) returns (steps: seq<Step>, t: State)
    requires Inv(s)
    ensures Leads(s, steps, t) && AllFinish(steps) && Quiet(t)
    decreases Measure(s)
  {
    hide Inv, Measure, Apply, Enabled;
    if Quiet(s) {
      steps, t := [], s;
    } else {
      var step :| Enabled(s, step) && Finishes(step);
      StepDecreases(s, step);
      StepKeeps(s, step);
      var rest;
      rest, t := Settles(Apply(s, step));
      steps := [step] + rest;
      assert steps[1..] == rest;
    }
  }

  // The manager can always go on.
  lemma ManagerGoesOn(s: State)
    requires Inv(s) && !s.mgr.Free?
    ensures exists step :: Enabled(s, step) && Finishes(step)
  {
    hide LinkInv, ListInv, Count;
    match s.mgr
    case Busy(i) =>
      OwnHandleInPlace(s, i);
      assert Enabled(s, ReadCount(i)) || Enabled(s, SwapCount(i));
    case Matching(None) => assert Enabled(s, Sweep);
    case Matching(Some(i)) => HandleGoesOn(s, i);
    case Detecting(None) => assert Enabled(s, Done);
    case Detecting(Some(i)) => HandleGoesOn(s, i);
    case Sweeping(todo, None) =>
      if todo == {} {
        assert Enabled(s, Done);
      } else {
        var k :| k in todo;
        assert Enabled(s, Visit(k, false));
      }
    case Sweeping(_, Some(i)) => HandleGoesOn(s, i);
  }

  lemma HandleGoesOn(s: State, i: nat)
    requires Inv(s) && i < |s.tokens| && s.tokens[i].Dropping? && (s.mgr.Free? || s.mgr.Visit() == Some(i))
    ensures exists step :: Enabled(s, step) && Finishes(step)
  {
    hide LinkInv, ListInv, Count;
    assert Enabled(s, ReadHandles(i)) || Enabled(s, DropLast(i)) || Enabled(s, SwapHandles(i));
  }

  predicate InProgress(tok: Token) {
    TokenWeight(tok) > 0
  }

  // Once the manager is free, so can every token in progress.
  lemma TokenGoesOn(s: State, i: nat)
    requires Inv(s) && s.mgr.Free? && i < |s.tokens| && InProgress(s.tokens[i])
    ensures exists step :: Enabled(s, step) && Finishes(step)
  {
    hide LinkInv, ListInv, Count;
    match s.tokens[i]
    case Releasing(_, _) => assert Enabled(s, ReadCount(i)) || Enabled(s, Enqueue(i)) || Enabled(s, SwapCount(i));
    case Queued(_) => assert Enabled(s, TakeCommand(i));
    case Dropping(_, _) => HandleGoesOn(s, i);
    case _ =>
  }

  // Nothing deadlocks: while anything is in progress, or the manager is at work, some step finishes part of it.
  lemma NothingGetsStuck(s: State)
    requires Inv(s) && Quiet(s)
    ensures s.mgr.Free?
    ensures forall i :: 0 <= i < |s.tokens| ==> !InProgress(s.tokens[i])
  {
    hide Inv, InProgress, Enabled, Finishes;
    if !s.mgr.Free? {
      ManagerGoesOn(s);
    }
    forall i | 0 <= i < |s.tokens|
      ensures !InProgress(s.tokens[i])
    {
      if InProgress(s.tokens[i]) {
        TokenGoesOn(s, i);
      }
    }
  }

  // ---------- what is left ----------

  predicate ByClient(tok: Token) {
    tok.Held? || tok.Handle?
  }

  // Finishing takes nothing from clients and gives them nothing.
  ghost predicate ClientsKept(s: State, t: State) {
    && |s.tokens| <= |t.tokens| && |t.devices| == |s.devices| && |t.descs| == |s.descs|
    && (forall i :: 0 <= i < |t.tokens| ==>
          if i < |s.tokens| && ByClient(s.tokens[i]) then t.tokens[i] == s.tokens[i] else !ByClient(t.tokens[i]))
    && (forall d :: 0 <= d < |s.devices| ==> t.devices[d].desc == s.devices[d].desc)
    && (forall k :: 0 <= k < |s.descs| ==> t.descs[k].enumerated == s.descs[k].enumerated)
  }

  lemma StepKeepsClients(s: State, step: Step)
    requires Inv(s) && Enabled(s, step) && Finishes(step)
    ensures ClientsKept(s, Apply(s, step))
  {
    hide Count, ListInv, ManagerInv, CountInv;
    if step.SwapCount? {
      SwapKeepsClients(s, step.t);
    }
  }

  lemma SwapKeepsClients(s: State, i: nat)
    requires Inv(s) && Enabled(s, SwapCount(i))
    ensures ClientsKept(s, Swapped(s, i))
  {
    hide Count, ListInv, ManagerInv;
    Counted(s, i);
    assert DeviceLinked(s, s.tokens[i].d);
  }

  lemma {:induction false} RunKeepsClients(s: State, steps: seq<Step>, t: State)
    requires Inv(s) && Leads(s, steps, t) && AllFinish(steps)
    ensures Inv(t) && ClientsKept(s, t)
    decreases |steps|
  {
    hide Inv, Apply, Enabled;
    if steps != [] {
      assert Finishes(steps[0]);
      StepKeeps(s, steps[0]);
      StepKeepsClients(s, steps[0]);
      RunKeepsClients(Apply(s, steps[0]), steps[1..], t);
    }
  }

  // Device d exists while a client holds it.
  lemma LeftDevices(t: State, d: nat)
    requires Inv(t) && d < |t.devices| && forall i :: 0 <= i < |t.tokens| ==> !InProgress(t.tokens[i])
    ensures t.devices[d].destroyed == (if Held(d) in t.tokens then 0 else 1)
    ensures t.devices[d].refCount > 0 <==> Held(d) in t.tokens
  {
    hide Count;
    RefCountCounts(t, d);
    assert DeviceLinked(t, d);
    if i :| 0 <= i < |t.tokens| && t.tokens[i] == Held(d) {
      assert i in DeviceRefs(t, d);
    }
    if t.devices[d].refCount > 0 {
      var i :| i in DeviceRefs(t, d);
      assert t.tokens[i] == Held(d);
    }
  }

  // Descriptor k is referenced while a client has a handle on it or holds its device.
  lemma LeftDescriptors(t: State, k: nat)
    requires Inv(t) && t.mgr.Free? && k < |t.descs| && forall i :: 0 <= i < |t.tokens| ==> !InProgress(t.tokens[i])
    ensures t.descs[k].deleted == 0 <==>
            || t.descs[k].enumerated || Handle(k) in t.tokens
            || exists d :: 0 <= d < |t.devices| && t.devices[d].desc == k && Held(d) in t.tokens
  {
    hide Count;
    assert Listing(t.descs[k], k, t.mgr, t.alive);
    HandleCountCounts(t, k);
    hide ListInv, Listing;
    if t.descs[k].handleCount > 0 {
      var i :| i in DescRefs(t, k);
      if t.tokens[i].Own? {
        var d := t.tokens[i].of;
        assert DeviceLinked(t, d);
        LeftDevices(t, d);
      }
    }
    if i :| 0 <= i < |t.tokens| && t.tokens[i] == Handle(k) {
      assert i in DescRefs(t, k);
    }
    if d :| 0 <= d < |t.devices| && t.devices[d].desc == k && Held(d) in t.tokens {
      LeftDevices(t, d);
      assert DeviceLinked(t, d);
      assert t.devices[d].own in DescRefs(t, k);
    }
  }

  // From any reachable state, when all that was started has been finished: the devices left are those a client
  // holds, and the descriptors left are those that were available, that a client has a handle on, or whose device
  // a client holds.
  lemma OnlyHeldIsLeft(s: State, steps: seq<Step>, t: State)
    requires Reachable(s) && Leads(s, steps, t) && AllFinish(steps) && Quiet(t)
    ensures |t.devices| == |s.devices| && |t.descs| == |s.descs|
    ensures forall d :: 0 <= d < |s.devices| ==> (t.devices[d].destroyed == 0 <==> Held(d) in s.tokens)
    ensures forall k :: 0 <= k < |s.descs| ==>
                          (t.descs[k].deleted == 0 <==>
                           || s.descs[k].enumerated || Handle(k) in s.tokens
                           || exists d :: 0 <= d < |s.devices| && s.devices[d].desc == k && Held(d) in s.tokens)
  {
    hide Inv, Reachable, Leads, Quiet, InProgress;
    ReachableInv(s);
    RunKeepsClients(s, steps, t);
    NothingGetsStuck(t);
    forall tok: Token | ByClient(tok)
      ensures tok in s.tokens <==> tok in t.tokens
    {
      SameClients(s, t, tok);
    }
    forall d | 0 <= d < |s.devices|
      ensures t.devices[d].destroyed == 0 <==> Held(d) in s.tokens
    {
      LeftDevices(t, d);
    }
    forall k | 0 <= k < |s.descs|
      ensures t.descs[k].deleted == 0 <==>
              || s.descs[k].enumerated || Handle(k) in s.tokens
              || exists d :: 0 <= d < |s.devices| && s.devices[d].desc == k && Held(d) in s.tokens
    {
      LeftDescriptors(t, k);
    }
  }

  lemma SameClients(s: State, t: State, tok: Token)
    requires ClientsKept(s, t) && ByClient(tok)
    ensures tok in s.tokens <==> tok in t.tokens
  {
    if tok in s.tokens {
      var i :| 0 <= i < |s.tokens| && s.tokens[i] == tok;
      assert t.tokens[i] == tok;
    }
  }
}
