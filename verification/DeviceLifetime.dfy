// Lifetime of devices and of the descriptors they are created from (OVR_DeviceImpl.cpp, OVR_DeviceHandle.cpp)
// as a state machine. A token stands for one counted reference and for how far the thread that owns it has
// come in giving it up; a compare-and-set is one step, and reading the count before it is another.
module DeviceLifetime {
  import opened Wrappers

  datatype Token =
    // references to device d
    | Held(d: nat)                                  // by a client
    | Releasing(d: nat, seen: Option<nat>)          // in DeviceCommon::DeviceRelease; `seen` is the count it read
    | Queued(d: nat)                                // a ReleaseDevice_MgrThread command in the queue
    | Killing(d: nat, seen: Option<nat>)            // that command, running on the manager thread
    // references to descriptor k
    | Handle(k: nat)                                // a DeviceHandle
    | Own(k: nat, of: nat)                          // pCreateDesc of device `of`
    | Dropping(k: nat, seen: Option<nat>)           // in DeviceCreateDesc::Release
    | Gone
  {
    function Device(): Option<nat> {
      if Held? || Releasing? || Queued? || Killing? then Some(d) else None
    }

    function Desc(): Option<nat> {
      if Handle? || Own? || Dropping? then Some(k) else None
    }
  }

  // `own` is the token of its pCreateDesc; `destroyed` counts how often it has been deleted.
  datatype Device = Device(desc: nat, refCount: nat, own: nat, destroyed: nat)

  datatype Descriptor = Descriptor(handleCount: nat, device: Option<nat>, enumerated: bool, listed: bool, deleted: nat)

  // What the manager thread does while it holds the lock. While it calls a handler about a descriptor, or returns the
  // descriptor, it owns a handle, the token `visit`.
  datatype Manager =
    | Free
    | Busy(token: nat)                                        // in ReleaseDevice_MgrThread
    | Matching(visit: Option<nat>)                            // EnumerateAllFactoryDevices, visiting factories
    | Sweeping(todo: set<nat>, visit: Option<nat>)            // then removing what was not found
    | Detecting(visit: Option<nat>)                           // DetectHIDDevice, adding what has been plugged in
  {
    function Visit(): Option<nat> {
      if Matching? || Sweeping? || Detecting? then visit else None
    }

    function Visited(): Manager {
      match this
      case Matching(_) => Matching(None)
      case Sweeping(todo, _) => Sweeping(todo, None)
      case Detecting(_) => Detecting(None)
      case _ => this
    }
  }

  datatype State = State(tokens: seq<Token>, devices: seq<Device>, descs: seq<Descriptor>, mgr: Manager, alive: bool)

  const INIT := State([], [], [], Free, true)

  datatype Step =
    | CopyDevice(t: nat)          // DeviceAddRef by a holder
    | StartRelease(t: nat)
    | ReadCount(t: nat)           // at first, and again after a failed compare-and-set
    | Enqueue(t: nat)             // the count read was 1: hand the reference to the queue
    | SwapCount(t: nat)           // compare-and-set from the count read
    | TakeCommand(t: nat)         // the manager thread takes the lock for a queued release
    | Create(t: nat)              // DeviceHandle::CreateDevice or CreateDevice_MgrThread, under the lock
    | CopyHandle(t: nat)
    | FindHandle(k: nat)          // a handle made from the list, under the lock
    | StartDrop(t: nat)
    | ReadHandles(t: nat)
    | SwapHandles(t: nat)         // compare-and-set from a count read that was not 1
    | DropLast(t: nat)            // under the lock, compare-and-set from 1 to 0
    | Mark                        // enumeration begins
    | Detect                      // a device is plugged in
    | Found(k: nat, keep: bool)   // a factory finds a listed descriptor; a handler may keep a handle
    | New(keep: bool)             // a factory finds a device without descriptor
    | Sweep                       // the factories are done
    | Visit(k: nat, keep: bool)   // the next descriptor of the sweep
    | Done                        // the sweep, or the detection, is over
    | Shutdown

  // ---------- what the steps do ----------

  function SetToken(s: State, t: nat, tok: Token): State
    requires t < |s.tokens|
  {
    s.(tokens := s.tokens[t := tok])
  }

  function AddRef(s: State, d: nat): State
    requires d < |s.devices|
  {
    s.(tokens := s.tokens + [Held(d)],
       devices := s.devices[d := s.devices[d].(refCount := s.devices[d].refCount + 1)])
  }

  // A successful swap from a count above 1.
  function DropRef(s: State, t: nat): State
    requires t < |s.tokens| && s.tokens[t].Device().Some? && s.tokens[t].d < |s.devices|
    requires s.devices[s.tokens[t].d].refCount > 1
  {
    var d := s.tokens[t].d;
    s.(tokens := s.tokens[t := Gone], devices := s.devices[d := s.devices[d].(refCount := s.devices[d].refCount - 1)])
  }

  // The {1 -> 0} swap: the device is shut down and deleted. Its reference to the descriptor passes to
  // descKeepAlive, which is given up after the lock.
  function Destroy(s: State, t: nat): State
    requires t < |s.tokens| && s.tokens[t].Killing? && s.tokens[t].d < |s.devices|
    requires var dev := s.devices[s.tokens[t].d]; dev.desc < |s.descs| && dev.own < |s.tokens| && dev.own != t
  {
    var d := s.tokens[t].d;
    var dev := s.devices[d];
    s.(tokens := s.tokens[t := Gone][dev.own := Dropping(dev.desc, None)],
       devices := s.devices[d := dev.(refCount := 0, destroyed := dev.destroyed + 1)],
       descs := s.descs[dev.desc := s.descs[dev.desc].(device := None)])
  }

  function NewDevice(s: State, k: nat): State
    requires k < |s.descs|
  {
    var d := |s.devices|;
    s.(tokens := s.tokens + [Held(d)] + [Own(k, d)],
       devices := s.devices + [Device(k, 1, |s.tokens| + 1, 0)],
       descs := s.descs[k := s.descs[k].(device := Some(d), handleCount := s.descs[k].handleCount + 1)])
  }

  function AddHandle(s: State, k: nat, tok: Token): State
    requires k < |s.descs| && tok.Desc() == Some(k)
  {
    s.(tokens := s.tokens + [tok], descs := s.descs[k := s.descs[k].(handleCount := s.descs[k].handleCount + 1)])
  }

  function DropHandle(s: State, t: nat): State
    requires t < |s.tokens| && s.tokens[t].Dropping? && s.tokens[t].k < |s.descs|
    requires s.descs[s.tokens[t].k].handleCount > 1
  {
    var k := s.tokens[t].k;
    s.(tokens := s.tokens[t := Gone], descs := s.descs[k := s.descs[k].(handleCount := s.descs[k].handleCount - 1)],
       mgr := AfterVisit(s.mgr, t))
  }

  // The {1 -> 0} swap of a handle count: the descriptor goes if nobody can find it any more.
  function DropLastHandle(s: State, t: nat): State
    requires t < |s.tokens| && s.tokens[t].Dropping? && s.tokens[t].k < |s.descs|
  {
    var k := s.tokens[t].k;
    var desc := s.descs[k].(handleCount := 0);
    s.(tokens := s.tokens[t := Gone],
       descs := s.descs[k := if !s.alive || !desc.enumerated then desc.(listed := false, deleted := desc.deleted + 1) else desc],
       mgr := AfterVisit(s.mgr, t))
  }

  function AfterVisit(mgr: Manager, t: nat): Manager {
    if mgr.Visit() == Some(t) then mgr.Visited() else mgr
  }

  // The manager makes a handle for a handler, which may keep a copy; its own is then given up.
  function BeginVisit(s: State, k: nat, keep: bool): State
    requires k < |s.descs| && (s.mgr.Matching? || s.mgr.Sweeping? || s.mgr.Detecting?)
  {
    var s1 := if keep then AddHandle(s, k, Handle(k)) else s;
    AddHandle(s1, k, Dropping(k, None)).(
      mgr := match s.mgr
             case Matching(_) => Matching(Some(|s1.tokens|))
             case Sweeping(todo, _) => Sweeping(todo, Some(|s1.tokens|))
             case _ => Detecting(Some(|s1.tokens|)))
  }

  function Marked(descs: seq<Descriptor>): (r: seq<Descriptor>)
    ensures |r| == |descs|
  {
    seq(|descs|, k requires 0 <= k < |descs| => if descs[k].listed then descs[k].(enumerated := false) else descs[k])
  }

  function Emptied(descs: seq<Descriptor>): (r: seq<Descriptor>)
    ensures |r| == |descs|
  {
    seq(|descs|, k requires 0 <= k < |descs| =>
      if descs[k].listed then
        descs[k].(enumerated := false, listed := false,
                  deleted := descs[k].deleted + (if descs[k].handleCount == 0 then 1 else 0))
      else descs[k])
  }

  // ---------- the steps ----------

  predicate DeviceToken(s: State, t: nat) {
    t < |s.tokens| && s.tokens[t].Device().Some? && s.tokens[t].d < |s.devices|
  }

  predicate DescToken(s: State, t: nat) {
    t < |s.tokens| && s.tokens[t].Desc().Some? && s.tokens[t].k < |s.descs|
  }

  predicate Enabled(s: State, step: Step) {
    match step
    case CopyDevice(t) => DeviceToken(s, t) && s.tokens[t].Held?
    case StartRelease(t) => DeviceToken(s, t) && s.tokens[t].Held?
    case ReadCount(t) => DeviceToken(s, t) && (s.tokens[t].Releasing? || s.tokens[t].Killing?) && s.tokens[t].seen.None?
    case Enqueue(t) => DeviceToken(s, t) && s.tokens[t].Releasing? && s.tokens[t].seen == Some(1)
    case SwapCount(t) =>
      DeviceToken(s, t)
      && ((s.tokens[t].Releasing? && s.tokens[t].seen.Some? && s.tokens[t].seen.value > 1)
          || (s.tokens[t].Killing? && s.tokens[t].seen.Some? && OwnInPlace(s, t)))
    case TakeCommand(t) => DeviceToken(s, t) && s.tokens[t].Queued? && s.mgr.Free?
    case Create(t) =>
      DescToken(s, t) && s.tokens[t].Handle? && s.mgr.Free?
      && match s.descs[s.tokens[t].k].device {
           case Some(d) => d < |s.devices|
           case None => s.alive
         }
    case CopyHandle(t) => DescToken(s, t) && s.tokens[t].Handle?
    case FindHandle(k) => k < |s.descs| && s.descs[k].listed && s.mgr.Free?
    case StartDrop(t) => DescToken(s, t) && s.tokens[t].Handle?
    case ReadHandles(t) => DescToken(s, t) && s.tokens[t].Dropping? && s.tokens[t].seen.None?
    case SwapHandles(t) => DescToken(s, t) && s.tokens[t].Dropping? && s.tokens[t].seen.Some? && s.tokens[t].seen.value > 1
    case DropLast(t) =>
      DescToken(s, t) && s.tokens[t].Dropping? && s.tokens[t].seen == Some(1)
      && (s.mgr.Free? || s.mgr.Visit() == Some(t))
    case Mark => s.mgr.Free? && s.alive
    case Detect => s.mgr.Free? && s.alive
    case Found(k, _) => s.mgr in {Matching(None), Detecting(None)} && k < |s.descs| && s.descs[k].listed
    case New(_) => s.mgr in {Matching(None), Detecting(None)}
    case Sweep => s.mgr == Matching(None)
    case Visit(k, _) => s.mgr.Sweeping? && s.mgr.visit.None? && k in s.mgr.todo && k < |s.descs|
    case Done => s.mgr in {Sweeping({}, None), Detecting(None)}
    case Shutdown => s.mgr.Free? && s.alive && forall k :: 0 <= k < |s.descs| ==> s.descs[k].device.None?
  }

  // What Destroy reads is in place; OwnHandleInPlace shows that it always is.
  predicate OwnInPlace(s: State, t: nat)
    requires DeviceToken(s, t)
  {
    var dev := s.devices[s.tokens[t].d];
    dev.desc < |s.descs| && dev.own < |s.tokens| && dev.own != t
  }

  function Apply(s: State, step: Step): State
    requires Enabled(s, step)
  {
    match step
    case CopyDevice(t) => AddRef(s, s.tokens[t].d)
    case StartRelease(t) => SetToken(s, t, Releasing(s.tokens[t].d, None))
    case ReadCount(t) =>
      var d := s.tokens[t].d;
      var seen := Some(s.devices[d].refCount);
      SetToken(s, t, if s.tokens[t].Releasing? then Releasing(d, seen) else Killing(d, seen))
    case Enqueue(t) => SetToken(s, t, Queued(s.tokens[t].d))
    case SwapCount(t) => Swapped(s, t)
    case TakeCommand(t) => SetToken(s, t, Killing(s.tokens[t].d, None)).(mgr := Busy(t))
    case Create(t) =>
      var k := s.tokens[t].k;
      if s.descs[k].device.Some? then AddRef(s, s.descs[k].device.value) else NewDevice(s, k)
    case CopyHandle(t) => AddHandle(s, s.tokens[t].k, Handle(s.tokens[t].k))
    case FindHandle(k) => AddHandle(s, k, Handle(k))
    case StartDrop(t) => SetToken(s, t, Dropping(s.tokens[t].k, None))
    case ReadHandles(t) => SetToken(s, t, Dropping(s.tokens[t].k, Some(s.descs[s.tokens[t].k].handleCount)))
    case SwapHandles(t) =>
      if s.descs[s.tokens[t].k].handleCount == s.tokens[t].seen.value then DropHandle(s, t)
      else SetToken(s, t, Dropping(s.tokens[t].k, None))
    case DropLast(t) =>
      if s.descs[s.tokens[t].k].handleCount == 1 then DropLastHandle(s, t)
      else SetToken(s, t, Dropping(s.tokens[t].k, None))
    case Mark => s.(descs := Marked(s.descs), mgr := Matching(None))
    case Detect => s.(mgr := Detecting(None))
    case Found(k, keep) =>
      var s1 := s.(descs := s.descs[k := s.descs[k].(enumerated := true)]);
      BeginVisit(s1, k, keep)
    case New(keep) =>
      BeginVisit(s.(descs := s.descs + [Descriptor(0, None, true, true, 0)]), |s.descs|, keep)
    case Sweep => s.(mgr := Sweeping((set k: nat | k < |s.descs| && s.descs[k].listed), None))
    case Visit(k, keep) =>
      var s1 := s.(mgr := Sweeping(s.mgr.todo - {k}, None));
      if s.descs[k].enumerated then s1 else BeginVisit(s1, k, keep)
    case Done => s.(mgr := Free)
    case Shutdown => s.(descs := Emptied(s.descs), alive := false)
  }

  // The compare-and-set on a reference count, on a client thread or on the manager thread.
  function Swapped(s: State, t: nat): State
    requires Enabled(s, SwapCount(t))
  {
    var tok := s.tokens[t];
    var count := s.devices[tok.d].refCount;
    if tok.Releasing? then
      if count == tok.seen.value then DropRef(s, t) else SetToken(s, t, Releasing(tok.d, None))
    else if tok.seen.value > 1 then
      if count == tok.seen.value then DropRef(s, t).(mgr := Free) else SetToken(s, t, Killing(tok.d, None))
    else if count == 1 then Destroy(s, t).(mgr := Free)
    else SetToken(s, t, Killing(tok.d, None))
  }

  ghost predicate Leads(s: State, steps: seq<Step>, t: State)
    decreases |steps|
  {
    if steps == [] then s == t
    else Enabled(s, steps[0]) && Leads(Apply(s, steps[0]), steps[1..], t)
  }

  ghost predicate Reachable(s: State) {
    exists steps :: Leads(INIT, steps, s)
  }
}
