// What every step keeps about devices and descriptors, and what follows for every run.
module DeviceSafety {
  import opened Wrappers
  import opened DeviceLifetime

  // ---------- counting ----------

  function DeviceMarks(tokens: seq<Token>): (m: seq<Option<nat>>)
    ensures |m| == |tokens|
  {
    seq(|tokens|, i requires 0 <= i < |tokens| => tokens[i].Device())
  }

  function DescMarks(tokens: seq<Token>): (m: seq<Option<nat>>)
    ensures |m| == |tokens|
  {
    seq(|tokens|, i requires 0 <= i < |tokens| => tokens[i].Desc())
  }

  function Count(marks: seq<Option<nat>>, x: nat): nat
    decreases |marks|
  {
    if marks == [] then 0
    else Count(marks[..|marks| - 1], x) + (if marks[|marks| - 1] == Some(x) then 1 else 0)
  }

  lemma CountAppend(marks: seq<Option<nat>>, m: Option<nat>, x: nat)
    ensures Count(marks + [m], x) == Count(marks, x) + (if m == Some(x) then 1 else 0)
  {
    assert (marks + [m])[..|marks|] == marks;
  }

  lemma {:induction false} CountUpdate(marks: seq<Option<nat>>, i: nat, m: Option<nat>, x: nat)
    requires i < |marks|
    ensures Count(marks[i := m], x) + (if marks[i] == Some(x) then 1 else 0)
            == Count(marks, x) + (if m == Some(x) then 1 else 0)
    decreases |marks|
  {
    var n := |marks| - 1;
    if i == n {
      assert marks[i := m][..n] == marks[..n];
    } else {
      CountUpdate(marks[..n], i, m, x);
      assert marks[i := m][..n] == marks[..n][i := m];
    }
  }

  lemma {:induction false} CountNone(marks: seq<Option<nat>>, x: nat)
    ensures Count(marks, x) == 0 <==> forall i :: 0 <= i < |marks| ==> marks[i] != Some(x)
    decreases |marks|
  {
    if marks != [] {
      CountNone(marks[..|marks| - 1], x);
    }
  }

  // Two different references make a count of at least 2.
  lemma CountTwo(marks: seq<Option<nat>>, i: nat, j: nat, x: nat)
    requires i < |marks| && j < |marks| && i != j && marks[i] == marks[j] == Some(x)
    ensures Count(marks, x) >= 2
  {
    CountUpdate(marks, i, None, x);
    CountNone(marks[i := None], x);
    assert marks[i := None][j] == Some(x);
  }

  // ---------- the invariant ----------

  // A reference count is the number of references.
  ghost predicate CountInv(s: State) {
    && (forall t :: 0 <= t < |s.tokens| && s.tokens[t].Device().Some? ==> s.tokens[t].d < |s.devices|)
    && (forall t :: 0 <= t < |s.tokens| && s.tokens[t].Desc().Some? ==> s.tokens[t].k < |s.descs|)
    && (forall d :: 0 <= d < |s.devices| ==> s.devices[d].refCount == Count(DeviceMarks(s.tokens), d))
    && (forall k :: 0 <= k < |s.descs| ==> s.descs[k].handleCount == Count(DescMarks(s.tokens), k))
  }

  // A device lives while it has references, is the device of its descriptor, and holds a handle on it.
  ghost predicate LinkInv(s: State) {
    && (forall d :: 0 <= d < |s.devices| ==> DeviceLinked(s, d))
    && (forall k :: 0 <= k < |s.descs| && s.descs[k].device.Some? ==>
          var d := s.descs[k].device.value; d < |s.devices| && s.devices[d].desc == k && s.devices[d].refCount > 0)
    && (forall t :: 0 <= t < |s.tokens| && s.tokens[t].Own? ==>
          var d := s.tokens[t].of; d < |s.devices| && s.devices[d].own == t && s.devices[d].refCount > 0)
  }

  ghost predicate DeviceLinked(s: State, d: nat)
    requires d < |s.devices|
  {
    var dev := s.devices[d];
    && dev.desc < |s.descs|
    && dev.destroyed == (if dev.refCount == 0 then 1 else 0)
    && (dev.refCount > 0 ==>
          && s.descs[dev.desc].device == Some(d)
          && dev.own < |s.tokens| && s.tokens[dev.own] == Own(dev.desc, d))
  }

  ghost predicate ManagerInv(s: State) {
    && (forall t :: 0 <= t < |s.tokens| && s.tokens[t].Killing? ==> s.mgr == Busy(t))
    && (s.mgr.Busy? ==> s.mgr.token < |s.tokens| && s.tokens[s.mgr.token].Killing?)
    && (s.mgr.Visit().Some? ==> s.mgr.Visit().value < |s.tokens| && s.tokens[s.mgr.Visit().value].Dropping?)
    && (s.mgr.Sweeping? && s.mgr.visit.Some? ==> s.tokens[s.mgr.visit.value].k !in s.mgr.todo)
    && (s.mgr.Sweeping? ==> forall k :: k in s.mgr.todo ==> k < |s.descs|)
    && (s.mgr.Matching? || s.mgr.Sweeping? || s.mgr.Detecting? ==> s.alive)
    && (forall t :: 0 <= t < |s.tokens| && (s.tokens[t].Releasing? || s.tokens[t].Killing? || s.tokens[t].Dropping?) ==>
          s.tokens[t].seen != Some(0))
  }

  ghost predicate ListInv(s: State) {
    forall k :: 0 <= k < |s.descs| ==> Listing(s.descs[k], k, s.mgr, s.alive)
  }

  // A descriptor exists while it is listed or, after the manager, while it is referenced; one that was not
  // found exists only while it is referenced, or until the sweep comes to it.
  ghost predicate Listing(desc: Descriptor, k: nat, mgr: Manager, alive: bool) {
    && desc.deleted <= 1
    && (desc.deleted == 1 ==> desc.handleCount == 0 && !desc.enumerated && !desc.listed)
    && (mgr.Sweeping? && k in mgr.todo ==> desc.deleted == 0)
    && (alive ==> (desc.listed <==> desc.deleted == 0))
    && (!alive ==> !desc.listed && !desc.enumerated)
    && (desc.deleted == 0 && !desc.enumerated && !mgr.Matching? && !(mgr.Sweeping? && k in mgr.todo) ==>
          desc.handleCount > 0)
  }

  ghost predicate Inv(s: State) {
    CountInv(s) && LinkInv(s) && ManagerInv(s) && ListInv(s)
  }

  // Links see only devices, the device field of descriptors and the tokens of devices for their descriptors.
  lemma LinksKept(s: State, t: State)
    requires LinkInv(s) && t.devices == s.devices && |t.tokens| >= |s.tokens| && |t.descs| >= |s.descs|
    requires forall i :: 0 <= i < |t.tokens| ==>
                           if i < |s.tokens| && s.tokens[i].Own? then t.tokens[i] == s.tokens[i] else !t.tokens[i].Own?
    requires forall k :: 0 <= k < |t.descs| ==>
                           t.descs[k].device == if k < |s.descs| then s.descs[k].device else None
    ensures LinkInv(t)
  {
    forall d | 0 <= d < |t.devices|
      ensures DeviceLinked(t, d)
    {
      assert DeviceLinked(s, d);
    }
  }

  // ---------- tokens that move without changing what they refer to ----------

  lemma MoveKeeps(s: State, t: State, i: nat, tok: Token)
    requires Inv(s) && i < |s.tokens| && t.tokens == s.tokens[i := tok]
    requires tok.Device() == s.tokens[i].Device() && tok.Desc() == s.tokens[i].Desc()
    requires s.tokens[i].Own? ==> tok == s.tokens[i]
    requires tok.Own? ==> tok == s.tokens[i]
    requires t.devices == s.devices && t.descs == s.descs && t.alive == s.alive
    requires tok.Releasing? || tok.Killing? || tok.Dropping? ==> tok.seen != Some(0)
    requires if tok.Killing? then t.mgr == Busy(i) && (s.mgr.Free? || s.mgr == Busy(i)) else t.mgr == s.mgr
    requires s.mgr == Busy(i) ==> tok.Killing?
    requires s.mgr.Visit() == Some(i) ==> tok.Dropping?
    ensures Inv(t)
  {
    assert DeviceMarks(t.tokens) == DeviceMarks(s.tokens);
    assert DescMarks(t.tokens) == DescMarks(s.tokens);
    LinksKept(s, t);
    assert forall k :: 0 <= k < |s.descs| ==> Listing(s.descs[k], k, s.mgr, s.alive);
  }

  // ---------- one token more, one token less ----------

  lemma AppendCounts(tokens: seq<Token>, tok: Token, x: nat)
    ensures Count(DeviceMarks(tokens + [tok]), x) == Count(DeviceMarks(tokens), x) + One(tok.Device() == Some(x))
    ensures Count(DescMarks(tokens + [tok]), x) == Count(DescMarks(tokens), x) + One(tok.Desc() == Some(x))
  {
    assert DeviceMarks(tokens + [tok]) == DeviceMarks(tokens) + [tok.Device()];
    assert DescMarks(tokens + [tok]) == DescMarks(tokens) + [tok.Desc()];
    CountAppend(DeviceMarks(tokens), tok.Device(), x);
    CountAppend(DescMarks(tokens), tok.Desc(), x);
  }

  lemma UpdateCounts(tokens: seq<Token>, i: nat, tok: Token, x: nat)
    requires i < |tokens|
    ensures Count(DeviceMarks(tokens[i := tok]), x) + One(tokens[i].Device() == Some(x))
            == Count(DeviceMarks(tokens), x) + One(tok.Device() == Some(x))
    ensures Count(DescMarks(tokens[i := tok]), x) + One(tokens[i].Desc() == Some(x))
            == Count(DescMarks(tokens), x) + One(tok.Desc() == Some(x))
  {
    assert DeviceMarks(tokens[i := tok]) == DeviceMarks(tokens)[i := tok.Device()];
    assert DescMarks(tokens[i := tok]) == DescMarks(tokens)[i := tok.Desc()];
    CountUpdate(DeviceMarks(tokens), i, tok.Device(), x);
    CountUpdate(DescMarks(tokens), i, tok.Desc(), x);
  }

  // The counts stay right when one token is added, or one is given up, with the count it belongs to.
  lemma CountsAdded(s: State, t: State, tok: Token)
    requires CountInv(s) && t.tokens == s.tokens + [tok]
    requires |t.devices| == |s.devices| && |t.descs| == |s.descs|
    requires tok.Device().Some? ==> tok.d < |s.devices|
    requires tok.Desc().Some? ==> tok.k < |s.descs|
    requires forall d :: 0 <= d < |s.devices| ==>
                           t.devices[d].refCount == s.devices[d].refCount + One(tok.Device() == Some(d))
    requires forall k :: 0 <= k < |s.descs| ==>
                           t.descs[k].handleCount == s.descs[k].handleCount + One(tok.Desc() == Some(k))
    ensures CountInv(t)
  {
    hide Count;
    forall d | 0 <= d < |t.devices| ensures t.devices[d].refCount == Count(DeviceMarks(t.tokens), d) {
      AppendCounts(s.tokens, tok, d);
    }
    forall k | 0 <= k < |t.descs| ensures t.descs[k].handleCount == Count(DescMarks(t.tokens), k) {
      AppendCounts(s.tokens, tok, k);
    }
  }

  lemma CountsGone(s: State, t: State, i: nat)
    requires CountInv(s) && i < |s.tokens| && t.tokens == s.tokens[i := Gone]
    requires |t.devices| == |s.devices| && |t.descs| == |s.descs|
    requires forall d :: 0 <= d < |s.devices| ==>
                           s.devices[d].refCount == t.devices[d].refCount + One(s.tokens[i].Device() == Some(d))
    requires forall k :: 0 <= k < |s.descs| ==>
                           s.descs[k].handleCount == t.descs[k].handleCount + One(s.tokens[i].Desc() == Some(k))
    ensures CountInv(t)
  {
    hide Count;
    forall d | 0 <= d < |t.devices| ensures t.devices[d].refCount == Count(DeviceMarks(t.tokens), d) {
      UpdateCounts(s.tokens, i, Gone, d);
    }
    forall k | 0 <= k < |t.descs| ensures t.descs[k].handleCount == Count(DescMarks(t.tokens), k) {
      UpdateCounts(s.tokens, i, Gone, k);
    }
  }

  // A counted token keeps its count above 0.
  lemma Counted(s: State, i: nat)
    requires CountInv(s) && i < |s.tokens|
    ensures s.tokens[i].Device().Some? ==> s.devices[s.tokens[i].d].refCount > 0
    ensures s.tokens[i].Desc().Some? ==> s.descs[s.tokens[i].k].handleCount > 0
  {
    if s.tokens[i].Device().Some? {
      CountNone(DeviceMarks(s.tokens), s.tokens[i].d);
      assert DeviceMarks(s.tokens)[i] == Some(s.tokens[i].d);
    }
    if s.tokens[i].Desc().Some? {
      CountNone(DescMarks(s.tokens), s.tokens[i].k);
      assert DescMarks(s.tokens)[i] == Some(s.tokens[i].k);
    }
  }

  // A count of 1 belongs to one token.
  lemma OnlyOne(s: State, i: nat, j: nat)
    requires CountInv(s) && i < |s.tokens| && j < |s.tokens| && i != j
    ensures s.tokens[i].Device().Some? && s.tokens[j].Device() == s.tokens[i].Device() ==>
              s.devices[s.tokens[i].d].refCount >= 2
    ensures s.tokens[i].Desc().Some? && s.tokens[j].Desc() == s.tokens[i].Desc() ==>
              s.descs[s.tokens[i].k].handleCount >= 2
  {
    if s.tokens[i].Device().Some? && s.tokens[j].Device() == s.tokens[i].Device() {
      CountTwo(DeviceMarks(s.tokens), i, j, s.tokens[i].d);
    }
    if s.tokens[i].Desc().Some? && s.tokens[j].Desc() == s.tokens[i].Desc() {
      CountTwo(DescMarks(s.tokens), i, j, s.tokens[i].k);
    }
  }

  // ---------- devices ----------

  lemma AddRefKeeps(s: State, d: nat)
    requires Inv(s) && d < |s.devices| && s.devices[d].refCount > 0
    ensures Inv(AddRef(s, d))
  {
    hide Count, Listing;
    var t := AddRef(s, d);
    CountsAdded(s, t, Held(d));
    forall e | 0 <= e < |t.devices|
      ensures DeviceLinked(t, e)
    {
      assert DeviceLinked(s, e);
    }
  }

  // `t` is s after a reference was dropped by token i.
  lemma DropRefKeeps(s: State, t: State, i: nat)
    requires Inv(s) && DeviceToken(s, i) && s.devices[s.tokens[i].d].refCount > 1
    requires if s.tokens[i].Killing? then t == DropRef(s, i).(mgr := Free) else t == DropRef(s, i)
    ensures Inv(t)
  {
    hide Count, DeviceLinked, LinkInv, ListInv;
    CountsGone(s, t, i);
    DropRefLinks(s, t, i, s.tokens[i].d);
    ListKept(s, t);
  }

  lemma DropRefLinks(s: State, t: State, i: nat, d: nat)
    requires LinkInv(s) && i < |s.tokens| && s.tokens[i].Device() == Some(d) && d < |s.devices|
    requires s.devices[d].refCount > 1
    requires t.tokens == s.tokens[i := Gone] && t.descs == s.descs
    requires t.devices == s.devices[d := s.devices[d].(refCount := s.devices[d].refCount - 1)]
    ensures LinkInv(t)
  {
    forall e | 0 <= e < |t.devices|
      ensures DeviceLinked(t, e)
    {
      assert DeviceLinked(s, e);
    }
  }

  // The list does not notice what happens to devices.
  lemma ListKept(s: State, t: State)
    requires ListInv(s) && t.alive == s.alive && |t.descs| == |s.descs|
    requires forall k :: 0 <= k < |s.descs| ==>
                           && t.descs[k].handleCount == s.descs[k].handleCount
                           && t.descs[k].enumerated == s.descs[k].enumerated
                           && t.descs[k].listed == s.descs[k].listed && t.descs[k].deleted == s.descs[k].deleted
    requires t.mgr == s.mgr || ((s.mgr.Busy? || s.mgr.Free?) && (t.mgr.Busy? || t.mgr.Free?))
    ensures ListInv(t)
  {
    forall k | 0 <= k < |t.descs|
      ensures Listing(t.descs[k], k, t.mgr, t.alive)
    {
      assert Listing(s.descs[k], k, s.mgr, s.alive);
    }
  }

  lemma DestroyCounts(s: State, i: nat)
    requires Inv(s) && DeviceToken(s, i) && s.tokens[i].Killing? && s.devices[s.tokens[i].d].refCount == 1
    requires OwnInPlace(s, i)
    ensures CountInv(Destroy(s, i))
  {
    hide Count;
    var t := Destroy(s, i);
    var d := s.tokens[i].d;
    var dev := s.devices[d];
    assert DeviceLinked(s, d);
    var mid := s.tokens[i := Gone];
    forall e | 0 <= e < |t.devices| ensures t.devices[e].refCount == Count(DeviceMarks(t.tokens), e) {
      UpdateCounts(s.tokens, i, Gone, e);
      UpdateCounts(mid, dev.own, Dropping(dev.desc, None), e);
    }
    forall k | 0 <= k < |t.descs| ensures t.descs[k].handleCount == Count(DescMarks(t.tokens), k) {
      UpdateCounts(s.tokens, i, Gone, k);
      UpdateCounts(mid, dev.own, Dropping(dev.desc, None), k);
    }
  }

  lemma DestroyLinks(s: State, i: nat)
    requires Inv(s) && DeviceToken(s, i) && s.tokens[i].Killing? && s.devices[s.tokens[i].d].refCount == 1
    requires OwnInPlace(s, i)
    ensures LinkInv(Destroy(s, i))
  {
    hide Count, Listing;
    var t := Destroy(s, i);
    var d := s.tokens[i].d;
    var dev := s.devices[d];
    assert DeviceLinked(s, d);
    forall e | 0 <= e < |t.devices|
      ensures DeviceLinked(t, e)
    {
      assert DeviceLinked(s, e);
    }
  }

  lemma DestroyKeeps(s: State, t: State, i: nat)
    requires Inv(s) && DeviceToken(s, i) && s.tokens[i].Killing? && s.devices[s.tokens[i].d].refCount == 1
    requires OwnInPlace(s, i) && t == Destroy(s, i).(mgr := Free)
    ensures Inv(t)
  {
    hide Count, Listing;
    DestroyCounts(s, i);
    DestroyLinks(s, i);
    assert DeviceLinked(s, s.tokens[i].d);
    forall e | 0 <= e < |t.devices|
      ensures DeviceLinked(t, e)
    {
      assert DeviceLinked(Destroy(s, i), e);
    }
    ListKept(s, t);
  }

  lemma NewDeviceKeeps(s: State, k: nat)
    requires Inv(s) && k < |s.descs| && s.descs[k].device.None? && s.descs[k].deleted == 0
    ensures Inv(NewDevice(s, k))
  {
    hide Count;
    var t := NewDevice(s, k);
    var d := |s.devices|;
    forall e | 0 <= e < |t.devices| ensures t.devices[e].refCount == Count(DeviceMarks(t.tokens), e) {
      AppendCounts(s.tokens, Held(d), e);
      AppendCounts(s.tokens + [Held(d)], Own(k, d), e);
      if e == d {
        CountNone(DeviceMarks(s.tokens), d);
      }
    }
    forall m | 0 <= m < |t.descs| ensures t.descs[m].handleCount == Count(DescMarks(t.tokens), m) {
      AppendCounts(s.tokens, Held(d), m);
      AppendCounts(s.tokens + [Held(d)], Own(k, d), m);
    }
    forall e | 0 <= e < |t.devices|
      ensures DeviceLinked(t, e)
    {
      if e < d {
        assert DeviceLinked(s, e);
      }
    }
    forall m | 0 <= m < |t.descs|
      ensures Listing(t.descs[m], m, t.mgr, t.alive)
    {
      assert Listing(s.descs[m], m, s.mgr, s.alive);
    }
  }

  // ---------- descriptors ----------

  // The invariant, but for k, which may have been passed by the sweep and be unreferenced.
  ghost predicate Loose(s: State, k: nat) {
    && CountInv(s) && LinkInv(s) && ManagerInv(s)
    && k < |s.descs|
    && s.descs[k].deleted == 0 && s.descs[k].listed == s.alive && (!s.alive ==> !s.descs[k].enumerated)
    && (forall j :: 0 <= j < |s.descs| && j != k ==> Listing(s.descs[j], j, s.mgr, s.alive))
  }

  lemma LooseAt(s: State, k: nat)
    requires Inv(s) && k < |s.descs| && s.descs[k].deleted == 0
    ensures Loose(s, k)
  {
    assert Listing(s.descs[k], k, s.mgr, s.alive);
  }

  ghost predicate BeginsVisit(s: State, t: State, k: nat, tok: Token) {
    && tok == Dropping(k, None) && s.mgr.Visit().None?
    && match s.mgr {
         case Matching(_) => t.mgr == Matching(Some(|s.tokens|))
         case Detecting(_) => t.mgr == Detecting(Some(|s.tokens|))
         case Sweeping(todo, _) => k !in todo && t.mgr == Sweeping(todo, Some(|s.tokens|))
         case _ => false
       }
  }

  lemma AddHandleKeeps(s: State, t: State, k: nat, tok: Token)
    requires Loose(s, k) && tok in {Handle(k), Dropping(k, None)}
    requires t.tokens == s.tokens + [tok] && t.devices == s.devices && t.alive == s.alive
    requires t.descs == s.descs[k := s.descs[k].(handleCount := s.descs[k].handleCount + 1)]
    requires t.mgr == s.mgr || BeginsVisit(s, t, k, tok)
    ensures Inv(t)
  {
    hide Count;
    CountsAdded(s, t, tok);
    LinksKept(s, t);
    forall j | 0 <= j < |t.descs| ensures Listing(t.descs[j], j, t.mgr, t.alive) {
      assert j != k ==> Listing(s.descs[j], j, s.mgr, s.alive);
    }
  }

  lemma BeginVisitKeeps(s: State, k: nat, keep: bool)
    requires Loose(s, k) && s.mgr.Visit().None?
    requires s.mgr.Matching? || s.mgr.Detecting? || (s.mgr.Sweeping? && k !in s.mgr.todo)
    ensures Inv(BeginVisit(s, k, keep))
  {
    hide CountInv, LinkInv, ManagerInv, ListInv, Listing;
    var t := BeginVisit(s, k, keep);
    if keep {
      var s1 := AddHandle(s, k, Handle(k));
      AddHandleKeeps(s, s1, k, Handle(k));
      HandleIsLoose(s, s1, k);
      assert t.descs == s1.descs[k := s1.descs[k].(handleCount := s1.descs[k].handleCount + 1)];
      AddHandleKeeps(s1, t, k, Dropping(k, None));
    } else {
      AddHandleKeeps(s, t, k, Dropping(k, None));
    }
  }

  lemma HandleIsLoose(s: State, t: State, k: nat)
    requires Loose(s, k) && Inv(t) && |t.descs| == |s.descs|
    requires t.descs[k] == s.descs[k].(handleCount := s.descs[k].handleCount + 1)
    ensures Loose(t, k)
  {
    LooseAt(t, k);
  }

  // Flags do not count.
  lemma FlagsKeep(s: State, t: State)
    requires CountInv(s) && LinkInv(s)
    requires t.tokens == s.tokens && t.devices == s.devices && |t.descs| == |s.descs|
    requires forall k :: 0 <= k < |s.descs| ==>
                           t.descs[k].handleCount == s.descs[k].handleCount && t.descs[k].device == s.descs[k].device
    ensures CountInv(t) && LinkInv(t)
  {
    hide Count;
    LinksKept(s, t);
  }

  // A handle is given up: what it does to counts and links.
  lemma GoneHandle(s: State, t: State, i: nat, k: nat)
    requires CountInv(s) && LinkInv(s) && ManagerInv(s)
    requires i < |s.tokens| && s.tokens[i].Dropping? && s.tokens[i].k == k && k < |s.descs|
    requires t.tokens == s.tokens[i := Gone] && t.devices == s.devices && |t.descs| == |s.descs|
    requires s.descs[k].handleCount > 0 && t.descs[k].handleCount == s.descs[k].handleCount - 1
    requires t.descs[k].device == s.descs[k].device
    requires forall j :: 0 <= j < |s.descs| && j != k ==> t.descs[j] == s.descs[j]
    requires t.mgr == AfterVisit(s.mgr, i) && t.alive == s.alive
    ensures CountInv(t) && LinkInv(t) && ManagerInv(t)
  {
    hide Count, LinkInv, CountInv, ManagerInv;
    CountsGone(s, t, i);
    LinksKept(s, t);
    GoneManager(s, t, i);
  }

  lemma GoneManager(s: State, t: State, i: nat)
    requires ManagerInv(s) && i < |s.tokens| && s.tokens[i].Dropping?
    requires t.tokens == s.tokens[i := Gone] && |t.descs| == |s.descs|
    requires t.mgr == AfterVisit(s.mgr, i) && t.alive == s.alive
    ensures ManagerInv(t)
  {
  }

  lemma DropHandleKeeps(s: State, i: nat)
    requires Inv(s) && DescToken(s, i) && s.tokens[i].Dropping? && s.descs[s.tokens[i].k].handleCount > 1
    ensures Inv(DropHandle(s, i))
  {
    hide CountInv, LinkInv, ManagerInv;
    var t := DropHandle(s, i);
    GoneHandle(s, t, i, s.tokens[i].k);
    forall j | 0 <= j < |t.descs| ensures Listing(t.descs[j], j, t.mgr, t.alive) {
      assert Listing(s.descs[j], j, s.mgr, s.alive);
    }
  }

  // The last handle of a descriptor is not the one its device holds: the assertion in Release.
  lemma LastHandleHasNoDevice(s: State, i: nat)
    requires CountInv(s) && LinkInv(s) && DescToken(s, i) && s.tokens[i].Dropping?
    requires s.descs[s.tokens[i].k].handleCount == 1
    ensures s.descs[s.tokens[i].k].device.None?
  {
    hide Count;
    var k := s.tokens[i].k;
    if s.descs[k].device.Some? {
      var d := s.descs[k].device.value;
      assert DeviceLinked(s, d);
      OnlyOne(s, i, s.devices[d].own);
    }
  }

  lemma DropLastKeeps(s: State, i: nat)
    requires Inv(s) && DescToken(s, i) && s.tokens[i].Dropping? && s.descs[s.tokens[i].k].handleCount == 1
    requires s.mgr.Free? || s.mgr.Visit() == Some(i)
    ensures Inv(DropLastHandle(s, i))
  {
    hide CountInv, LinkInv;
    var t := DropLastHandle(s, i);
    var k := s.tokens[i].k;
    assert Listing(s.descs[k], k, s.mgr, s.alive);
    GoneHandle(s, t, i, k);
    forall j | 0 <= j < |t.descs| ensures Listing(t.descs[j], j, t.mgr, t.alive) {
      assert Listing(s.descs[j], j, s.mgr, s.alive);
    }
  }

  // ---------- enumeration ----------

  lemma FoundKeeps(s: State, k: nat, keep: bool)
    requires Inv(s) && Enabled(s, Found(k, keep))
    ensures Inv(Apply(s, Found(k, keep)))
  {
    var s1 := s.(descs := s.descs[k := s.descs[k].(enumerated := true)]);
    FlagsKeep(s, s1);
    forall j | 0 <= j < |s1.descs| ensures Listing(s1.descs[j], j, s1.mgr, s1.alive) {
      assert Listing(s.descs[j], j, s.mgr, s.alive);
    }
    assert ManagerInv(s1);
    FoundVisit(s, s1, k, keep);
  }

  lemma FoundVisit(s: State, s1: State, k: nat, keep: bool)
    requires Inv(s1) && Enabled(s, Found(k, keep)) && s1 == s.(descs := s.descs[k := s.descs[k].(enumerated := true)])
    ensures Inv(Apply(s, Found(k, keep)))
  {
    assert Listing(s1.descs[k], k, s1.mgr, s1.alive) && s1.alive;
    hide Inv, Loose;
    LooseAt(s1, k);
    BeginVisitKeeps(s1, k, keep);
  }

  lemma NewKeeps(s: State, keep: bool)
    requires Inv(s) && Enabled(s, New(keep))
    ensures Inv(Apply(s, New(keep)))
  {
    hide Count;
    var k := |s.descs|;
    var s1 := s.(descs := s.descs + [Descriptor(0, None, true, true, 0)]);
    CountNone(DescMarks(s.tokens), k);
    assert CountInv(s1);
    LinksKept(s, s1);
    forall j | 0 <= j < |s1.descs| && j != k ensures Listing(s1.descs[j], j, s1.mgr, s1.alive) {
      assert Listing(s.descs[j], j, s.mgr, s.alive);
    }
    BeginVisitKeeps(s1, k, keep);
  }

  lemma VisitKeeps(s: State, k: nat, keep: bool)
    requires Inv(s) && Enabled(s, Visit(k, keep))
    ensures Inv(Apply(s, Visit(k, keep)))
  {
    var s1 := s.(mgr := Sweeping(s.mgr.todo - {k}, None));
    FlagsKeep(s, s1);
    forall j | 0 <= j < |s1.descs| && (j != k || s.descs[k].enumerated)
      ensures Listing(s1.descs[j], j, s1.mgr, s1.alive)
    {
      assert Listing(s.descs[j], j, s.mgr, s.alive);
    }
    assert Listing(s.descs[k], k, s.mgr, s.alive);
    assert ManagerInv(s1);
    if !s.descs[k].enumerated {
      BeginVisitKeeps(s1, k, keep);
    }
  }

  // Marking, the ends of the two phases, and shutdown.
  lemma PhaseKeeps(s: State, step: Step)
    requires Inv(s) && Enabled(s, step) && (step.Mark? || step.Sweep? || step.Done? || step.Detect? || step.Shutdown?)
    ensures Inv(Apply(s, step))
  {
    var t := Apply(s, step);
    FlagsKeep(s, t);
    forall j | 0 <= j < |t.descs| ensures Listing(t.descs[j], j, t.mgr, t.alive) {
      assert Listing(s.descs[j], j, s.mgr, s.alive);
    }
  }

  // ---------- every step ----------

  lemma DeviceStepKeeps(s: State, step: Step)
    requires Inv(s) && Enabled(s, step)
    requires step.CopyDevice? || step.StartRelease? || step.ReadCount? || step.Enqueue? || step.TakeCommand?
    ensures Inv(Apply(s, step))
  {
    hide Count, LinkInv, ListInv;
    Counted(s, step.t);
    match step
    case CopyDevice(i) => AddRefKeeps(s, s.tokens[i].d);
    case StartRelease(i) => MoveKeeps(s, Apply(s, step), i, Releasing(s.tokens[i].d, None));
    case ReadCount(i) => MoveKeeps(s, Apply(s, step), i, Apply(s, step).tokens[i]);
    case Enqueue(i) => MoveKeeps(s, Apply(s, step), i, Queued(s.tokens[i].d));
    case TakeCommand(i) => MoveKeeps(s, Apply(s, step), i, Killing(s.tokens[i].d, None));
  }

  lemma SwapCountKeeps(s: State, i: nat)
    requires Inv(s) && Enabled(s, SwapCount(i))
    ensures Inv(Apply(s, SwapCount(i)))
  {
    hide Count, LinkInv, ListInv, CountInv;
    var t := Swapped(s, i);
    var tok := s.tokens[i];
    var count := s.devices[tok.d].refCount;
    if tok.seen.value > 1 && count == tok.seen.value {
      DropRefKeeps(s, t, i);
    } else if tok.Killing? && tok.seen.value == 1 && count == 1 {
      DestroyKeeps(s, t, i);
    } else {
      MoveKeeps(s, t, i, t.tokens[i]);
    }
  }

  lemma CreateKeeps(s: State, i: nat)
    requires Inv(s) && Enabled(s, Create(i))
    ensures Inv(Apply(s, Create(i)))
  {
    hide Count;
    var k := s.tokens[i].k;
    Counted(s, i);
    assert Listing(s.descs[k], k, s.mgr, s.alive);
    hide Inv, Listing;
    if s.descs[k].device.Some? {
      AddRefKeeps(s, s.descs[k].device.value);
    } else {
      NewDeviceKeeps(s, k);
    }
  }

  lemma HandleStepKeeps(s: State, step: Step)
    requires Inv(s) && Enabled(s, step)
    requires step.CopyHandle? || step.StartDrop? || step.ReadHandles? || step.SwapHandles? || step.DropLast?
    ensures Inv(Apply(s, step))
  {
    hide Count, LinkInv;
    var i := step.t;
    var k := s.tokens[i].k;
    var t := Apply(s, step);
    Counted(s, i);
    match step
    case CopyHandle(_) =>
      assert Listing(s.descs[k], k, s.mgr, s.alive);
      LooseAt(s, k);
      AddHandleKeeps(s, t, k, Handle(k));
    case StartDrop(_) => MoveKeeps(s, t, i, Dropping(k, None));
    case ReadHandles(_) => MoveKeeps(s, t, i, Dropping(k, Some(s.descs[k].handleCount)));
    case SwapHandles(_) =>
      if s.descs[k].handleCount == s.tokens[i].seen.value {
        DropHandleKeeps(s, i);
      } else {
        MoveKeeps(s, t, i, Dropping(k, None));
      }
    case DropLast(_) =>
      if s.descs[k].handleCount == 1 {
        DropLastKeeps(s, i);
      } else {
        MoveKeeps(s, t, i, Dropping(k, None));
      }
  }

  lemma FindHandleKeeps(s: State, k: nat)
    requires Inv(s) && Enabled(s, FindHandle(k))
    ensures Inv(Apply(s, FindHandle(k)))
  {
    assert Listing(s.descs[k], k, s.mgr, s.alive);
    LooseAt(s, k);
    AddHandleKeeps(s, Apply(s, FindHandle(k)), k, Handle(k));
  }

  lemma StepKeeps(s: State, step: Step)
    requires Inv(s) && Enabled(s, step)
    ensures Inv(Apply(s, step))
  {
    hide Inv, Enabled, Apply;
    match step
    case CopyDevice(_) => DeviceStepKeeps(s, step);
    case StartRelease(_) => DeviceStepKeeps(s, step);
    case ReadCount(_) => DeviceStepKeeps(s, step);
    case Enqueue(_) => DeviceStepKeeps(s, step);
    case SwapCount(i) => SwapCountKeeps(s, i);
    case TakeCommand(_) => DeviceStepKeeps(s, step);
    case Create(i) => CreateKeeps(s, i);
    case CopyHandle(_) => HandleStepKeeps(s, step);
    case FindHandle(k) => FindHandleKeeps(s, k);
    case StartDrop(_) => HandleStepKeeps(s, step);
    case ReadHandles(_) => HandleStepKeeps(s, step);
    case SwapHandles(_) => HandleStepKeeps(s, step);
    case DropLast(_) => HandleStepKeeps(s, step);
    case Mark => PhaseKeeps(s, step);
    case Detect => PhaseKeeps(s, step);
    case Found(k, keep) => FoundKeeps(s, k, keep);
    case New(keep) => NewKeeps(s, keep);
    case Sweep => PhaseKeeps(s, step);
    case Visit(k, keep) => VisitKeeps(s, k, keep);
    case Done => PhaseKeeps(s, step);
    case Shutdown => PhaseKeeps(s, step);
  }

  lemma {:induction false} RunKeeps(s: State, steps: seq<Step>, t: State)
    requires Inv(s) && Leads(s, steps, t)
    ensures Inv(t)
    decreases |steps|
  {
    hide Inv, Apply, Enabled;
    if steps != [] {
      StepKeeps(s, steps[0]);
      RunKeeps(Apply(s, steps[0]), steps[1..], t);
    }
  }

  lemma InitInv()
    ensures Inv(INIT)
  {
    hide Inv;
    EmptyInv(INIT);
  }

  lemma EmptyInv(s: State)
    requires s.tokens == [] && s.devices == [] && s.descs == [] && s.mgr == Free
    ensures Inv(s)
  {
    hide Count, Listing, DeviceLinked, DeviceMarks, DescMarks;
  }

  lemma ReachableInv(s: State)
    requires Reachable(s)
    ensures Inv(s)
  {
    hide Leads, Inv;
    var steps :| Leads(INIT, steps, s);
    InitInv();
    RunKeeps(INIT, steps, s);
  }
}
