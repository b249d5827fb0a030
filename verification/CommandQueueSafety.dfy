// What every step of the command queue keeps: FIFO execution, the two-stage exit, ownership of events,
// and wake-ups that are never lost.
module CommandQueueSafety {
  import opened Wrappers
  import opened CommandBuffer
  import opened CommandQueue

  function BlocksOf(queue: seq<Queued>): (bs: seq<Block>)
    ensures |bs| == |queue|
  {
    seq(|queue|, i requires 0 <= i < |queue| => Block(queue[i].off, queue[i].cmd.size))
  }

  function Commands(queue: seq<Queued>): (cs: seq<Command>)
    ensures |cs| == |queue|
  {
    seq(|queue|, i requires 0 <= i < |queue| => queue[i].cmd)
  }

  // A command popped but not yet executed.
  function InHand(consumer: Consumer): seq<Command> {
    if consumer.Holding? then [consumer.q.cmd] else []
  }

  // The event each call owns.
  function OwnedBy(calls: seq<Call>): (os: seq<Option<Event>>)
    ensures |os| == |calls|
  {
    seq(|calls|, i requires 0 <= i < |calls| => calls[i].Owned())
  }

  // ---------- the invariant ----------

  ghost predicate BufferInv(sh: Shared) {
    && sh.ring.size == CAPACITY
    && Holds(sh.ring, BlocksOf(sh.queue))
    && (forall i :: 0 <= i < |sh.queue| ==> 0 < sh.queue[i].cmd.size <= MAX_COMMAND)
    && (sh.queue != [] ==> sh.commandEvent)
  }

  ghost predicate CallInv(calls: seq<Call>) {
    forall c :: 0 <= c < |calls| ==> calls[c].cmd.id == c && 0 < calls[c].cmd.size <= MAX_COMMAND
  }

  // Commands are accepted at most once, by the call they belong to, and leave in the order they came.
  ghost predicate FifoInv(s: State) {
    && s.accepted == s.executed + InHand(s.consumer) + Commands(s.sh.queue)
    && (forall i :: 0 <= i < |s.accepted| ==> IsFrom(s.accepted[i], s.calls))
    && (forall c :: 0 <= c < |s.calls| && s.calls[c].IsAccepted() ==> s.calls[c].cmd in s.accepted)
    && (forall i, j :: 0 <= i < j < |s.accepted| ==> s.accepted[i] != s.accepted[j])
    && (s.consumer.Executed? ==> s.executed != [] && s.executed[|s.executed| - 1] == s.consumer.q.cmd)
  }

  ghost predicate IsFrom(cmd: Command, calls: seq<Call>) {
    cmd.id < |calls| && calls[cmd.id].cmd == cmd && calls[cmd.id].IsAccepted()
  }

  // There is one exit command; nothing is accepted after it.
  ghost predicate ExitInv(s: State) {
    && (s.sh.exitEnqueued <==> exists c :: 0 <= c < |s.calls| && s.calls[c].cmd.exit)
    && (forall c, d :: 0 <= c < d < |s.calls| ==> !s.calls[c].cmd.exit || !s.calls[d].cmd.exit)
    && (forall i :: 0 <= i < |s.accepted| - 1 ==> !s.accepted[i].exit)
    && (s.sh.exitProcessed <==> s.executed != [] && s.executed[|s.executed| - 1].exit)
    && (s.sh.exitProcessed ==> s.consumer.Executed? || s.consumer.Stopped?)
    && (s.consumer.Stopped? ==> s.sh.exitProcessed)
  }

  // Every allocated event is either free or owned by exactly one call.
  ghost predicate OwnerInv(sh: Shared, owned: seq<Option<Event>>) {
    && (forall e :: e in sh.available ==> e < sh.made)
    && (forall i, j :: 0 <= i < j < |sh.available| ==> sh.available[i] != sh.available[j])
    && (forall c :: 0 <= c < |owned| && owned[c].Some? ==>
          owned[c].value < sh.made && owned[c].value !in sh.available)
    && (forall c, d :: 0 <= c < d < |owned| && owned[c].Some? ==> owned[c] != owned[d])
    && (forall e: Event :: e < sh.made ==> e in sh.available || Some(e) in owned)
  }

  // Where each event stands. Free events are never signalled; a producer waiting for space is in the
  // blocked list until it is woken; a producer waiting for its command is woken once that has run.
  ghost predicate EventInv(s: State) {
    && (forall e :: e in s.sh.signalled ==> e < s.sh.made && e !in s.sh.available)
    && (forall e :: e in s.sh.blocked ==> e < s.sh.made && e !in s.sh.available)
    && (forall c :: 0 <= c < |s.calls| ==> CallEventInv(s, s.calls[c]))
    && (forall i, j :: 0 <= i < j < |s.sh.blocked| ==> s.sh.blocked[i] != s.sh.blocked[j])
  }

  ghost predicate CallEventInv(s: State, call: Call) {
    match call
    case Trying(_, Some(e)) => e !in s.sh.signalled && e !in s.sh.blocked
    case Trying(_, None) => true
    case WaitingSpace(_, e) => e in s.sh.blocked <==> e !in s.sh.signalled
    case WaitingDone(cmd, e) =>
      cmd.wait && e !in s.sh.blocked && (e in s.sh.signalled <==> cmd in s.executed && !Announcing(s, cmd))
    case Completed(cmd, e) => e !in s.sh.blocked && e !in s.sh.signalled && cmd in s.executed
    case Returned(cmd, ok) => if ok then cmd.wait ==> cmd in s.executed else !cmd.exit
  }

  // The consumer has run `cmd` but not yet signalled its event.
  predicate Announcing(s: State, cmd: Command) {
    s.consumer.Executed? && s.consumer.q.cmd == cmd
  }

  // The event stored in a command in flight is the one its producer waits on.
  ghost predicate AttachedInv(s: State) {
    && (forall i :: 0 <= i < |s.sh.queue| ==> Attached(s.calls, s.sh.queue[i]))
    && (s.consumer.Holding? || s.consumer.Executed? ==> Attached(s.calls, s.consumer.q))
  }

  ghost predicate Attached(calls: seq<Call>, q: Queued) {
    && (q.done.Some? <==> q.cmd.wait)
    && (q.done.Some? ==> q.cmd.id < |calls| && calls[q.cmd.id] == WaitingDone(q.cmd, q.done.value))
  }

  // A producer that was woken and has not looked at the buffer since.
  predicate Retrying(sh: Shared, call: Call) {
    || (call.Trying? && call.held.Some?)
    || (call.WaitingSpace? && call.ev in sh.signalled)
  }

  ghost predicate WakeInv(s: State) {
    !s.sh.exitEnqueued && s.sh.blocked != [] ==>
      s.sh.queue != [] || exists c :: 0 <= c < |s.calls| && Retrying(s.sh, s.calls[c])
  }

  ghost predicate Inv(s: State) {
    && BufferInv(s.sh) && CallInv(s.calls) && FifoInv(s) && ExitInv(s)
    && OwnerInv(s.sh, OwnedBy(s.calls)) && EventInv(s) && AttachedInv(s) && WakeInv(s)
  }

  // ---------- what the steps do, as equations ----------

  // `sh'` is `sh` with `held` given back to the pool and, if `taken`, an event taken from it.
  ghost predicate PoolMoves(sh: Shared, held: Option<Event>, taken: Option<Event>, sh': Shared) {
    var s0 := if held.Some? then FreeEvent(sh, held.value) else sh;
    if taken.Some? then
      && taken.value == AllocEvent(s0).0
      && sh'.available == AllocEvent(s0).1.available && sh'.made == AllocEvent(s0).1.made
    else sh'.available == s0.available && sh'.made == s0.made
  }

  ghost predicate SameFlags(sh: Shared, sh': Shared) {
    sh'.signalled == sh.signalled && sh'.exitEnqueued == sh.exitEnqueued && sh'.exitProcessed == sh.exitProcessed
  }

  ghost predicate AttemptBy(s: State, t: State, c: nat, call': Call) {
    && c < |s.calls| && s.calls[c].Trying?
    && call'.cmd == s.calls[c].cmd
    && t.calls == s.calls[c := call']
    && PoolMoves(s.sh, s.calls[c].held, call'.Owned(), t.sh)
    && SameFlags(s.sh, t.sh)
    && t.executed == s.executed && t.consumer == s.consumer
  }

  // The push is refused for good.
  ghost predicate Rejects(s: State, t: State, c: nat) {
    && c < |s.calls| && AttemptBy(s, t, c, Returned(s.calls[c].cmd, false))
    && s.sh.exitEnqueued && !s.calls[c].cmd.exit
    && t.accepted == s.accepted && t.sh.queue == s.sh.queue && t.sh.ring == s.sh.ring
    && t.sh.blocked == s.sh.blocked && t.sh.commandEvent == s.sh.commandEvent
  }

  // The command goes into the buffer as `q`.
  ghost predicate Accepts(s: State, t: State, c: nat, q: Queued) {
    && AttemptBy(s, t, c, AfterAttempt(q.cmd, Outcome.Accepted(q.done)))
    && (q.done.Some? <==> q.cmd.wait)
    && (s.sh.exitEnqueued ==> q.cmd.exit)
    && Reserve(s.sh.ring, q.cmd.size) == (Some(q.off), t.sh.ring)
    && t.accepted == s.accepted + [q.cmd] && t.sh.queue == s.sh.queue + [q]
    && t.sh.blocked == s.sh.blocked
    && t.sh.commandEvent == (s.sh.commandEvent || s.sh.ring.IsEmpty())
  }

  // No room: the call joins the blocked list with event `e`.
  ghost predicate Refuses(s: State, t: State, c: nat, e: Event) {
    && c < |s.calls| && AttemptBy(s, t, c, WaitingSpace(s.calls[c].cmd, e))
    && (s.sh.exitEnqueued ==> s.calls[c].cmd.exit)
    && Reserve(s.sh.ring, s.calls[c].cmd.size).0.None?
    && t.accepted == s.accepted && t.sh.queue == s.sh.queue && t.sh.ring == s.sh.ring
    && t.sh.blocked == s.sh.blocked + [e] && t.sh.commandEvent == s.sh.commandEvent
  }

  lemma AttemptIs(s: State, c: nat)
    requires Enabled(s, Attempt(c))
    ensures var (o, _) := TryPush(s.sh, s.calls[c].cmd, s.calls[c].held);
            var t := Apply(s, Attempt(c));
            match o
            case Rejected => Rejects(s, t, c)
            case Accepted(_) => t.sh.queue != [] && Accepts(s, t, c, t.sh.queue[|t.sh.queue| - 1])
            case Full(e) => Refuses(s, t, c, e)
  {
    hide Reserve;
    var cmd, held := s.calls[c].cmd, s.calls[c].held;
    var (o, sh) := TryPush(s.sh, cmd, held);
    if o.Accepted? {
      var q := Queued(cmd, Reserve(s.sh.ring, cmd.size).0.value, o.done);
      assert sh.queue == s.sh.queue + [q];
    } else if o.Full? {
      assert Reserve(s.sh.ring, cmd.size).0.None?;
    }
  }

  // A pop that finds a command.
  ghost predicate Pops(s: State, t: State, q: Queued) {
    && s.consumer.Idle? && s.sh.queue != [] && q == s.sh.queue[0]
    && t.consumer == Holding(q) && t.calls == s.calls
    && t.accepted == s.accepted && t.executed == s.executed
    && t.sh.queue == s.sh.queue[1..]
    && t.sh.ring == Release(s.sh.ring, q.cmd.size)
    && t.sh.available == s.sh.available && t.sh.made == s.sh.made
    && t.sh.exitEnqueued == s.sh.exitEnqueued && t.sh.exitProcessed == s.sh.exitProcessed
    && t.sh.commandEvent == s.sh.commandEvent
    && (if s.sh.blocked == [] then t.sh.blocked == [] && t.sh.signalled == s.sh.signalled
        else t.sh.blocked == s.sh.blocked[1..] && t.sh.signalled == s.sh.signalled + {s.sh.blocked[0]})
  }

  lemma PopIs(s: State)
    requires Enabled(s, Pop)
    ensures s.sh.queue == [] ==>
              Apply(s, Pop) == s.(consumer := Parked, sh := s.sh.(commandEvent := false))
    ensures s.sh.queue != [] ==> Pops(s, Apply(s, Pop), s.sh.queue[0])
  {
  }

  // ---------- the buffer ----------

  lemma RingMatchesQueue(sh: Shared)
    requires BufferInv(sh)
    ensures sh.ring.IsEmpty() <==> sh.queue == []
  {
    HoldsEmpty(sh.ring, BlocksOf(sh.queue));
  }

  lemma SmallCommandsFit(size: nat)
    requires 0 < size <= MAX_COMMAND
    ensures Requestable(CAPACITY, size) && RoundUp(size) <= MAX_COMMAND
  {
  }

  lemma BufferAccept(s: State, t: State, c: nat, q: Queued)
    requires Accepts(s, t, c, q) && BufferInv(s.sh) && CallInv(s.calls)
    ensures BufferInv(t.sh)
  {
    SmallCommandsFit(q.cmd.size);
    RingMatchesQueue(s.sh);
    HoldsAfterWrite(s.sh.ring, BlocksOf(s.sh.queue), q.cmd.size);
    BlocksAppend(s.sh.queue, q);
  }

  lemma BufferPop(s: State, t: State, q: Queued)
    requires Pops(s, t, q) && BufferInv(s.sh)
    ensures BufferInv(t.sh)
  {
    HoldsAfterRead(s.sh.ring, BlocksOf(s.sh.queue));
    BlocksTail(s.sh.queue);
  }

  lemma BlocksAppend(queue: seq<Queued>, q: Queued)
    ensures BlocksOf(queue + [q]) == BlocksOf(queue) + [Block(q.off, q.cmd.size)]
  {
  }

  lemma BlocksTail(queue: seq<Queued>)
    requires queue != []
    ensures BlocksOf(queue[1..]) == BlocksOf(queue)[1..]
  {
  }

  // A refusal is never due to an empty buffer: more than 1536 of the 2048 bytes are unread.
  lemma RefusalNeedsBytes(sh: Shared, size: nat)
    requires BufferInv(sh) && 0 < size <= MAX_COMMAND
    requires Reserve(sh.ring, size).0.None?
    ensures Occupied(BlocksOf(sh.queue)) > 1536
    ensures sh.queue != []
  {
    SmallCommandsFit(size);
    var bs := BlocksOf(sh.queue);
    forall b | b in bs ensures RoundUp(b.len) <= MAX_COMMAND {
      var i :| 0 <= i < |bs| && bs[i] == b;
      SmallCommandsFit(sh.queue[i].cmd.size);
    }
    HoldsRefusal(sh.ring, bs, size, MAX_COMMAND);
  }

  // ---------- FIFO ----------

  lemma FifoAccept(s: State, t: State, c: nat, q: Queued)
    requires Accepts(s, t, c, q) && CallInv(s.calls) && FifoInv(s)
    ensures FifoInv(t)
  {
    assert Commands(t.sh.queue) == Commands(s.sh.queue) + [q.cmd];
    assert forall i :: 0 <= i < |s.accepted| ==> IsFrom(s.accepted[i], s.calls) && IsFrom(t.accepted[i], t.calls);
    assert q.cmd !in s.accepted;
  }

  lemma FifoPop(s: State, t: State, q: Queued)
    requires Pops(s, t, q) && FifoInv(s)
    ensures FifoInv(t)
  {
    assert Commands(s.sh.queue) == [q.cmd] + Commands(t.sh.queue);
  }

  lemma FifoExecute(s: State, t: State)
    requires Enabled(s, Execute) && t == Apply(s, Execute) && FifoInv(s)
    ensures FifoInv(t)
  {
  }

  // Calls move on, but none becomes accepted.
  lemma FifoCalls(s: State, t: State)
    requires FifoInv(s)
    requires t.accepted == s.accepted && t.executed == s.executed && t.sh.queue == s.sh.queue
    requires InHand(t.consumer) == InHand(s.consumer)
    requires t.consumer.Executed? ==> t.consumer == s.consumer
    requires |t.calls| >= |s.calls|
    requires forall c :: 0 <= c < |s.calls| ==>
                           t.calls[c].cmd == s.calls[c].cmd && t.calls[c].IsAccepted() == s.calls[c].IsAccepted()
    requires forall c :: |s.calls| <= c < |t.calls| ==> !t.calls[c].IsAccepted()
    ensures FifoInv(t)
  {
    forall i | 0 <= i < |t.accepted|
      ensures IsFrom(t.accepted[i], t.calls)
    {
      assert IsFrom(s.accepted[i], s.calls);
    }
  }

  // ---------- exit ----------

  lemma ExitAccept(s: State, t: State, c: nat, q: Queued)
    requires Accepts(s, t, c, q) && CallInv(s.calls) && FifoInv(s) && ExitInv(s)
    ensures ExitInv(t)
  {
    forall i | 0 <= i < |t.accepted| - 1
      ensures !t.accepted[i].exit
    {
      assert IsFrom(s.accepted[i], s.calls);
    }
    assert forall d :: 0 <= d < |s.calls| ==> t.calls[d].cmd == s.calls[d].cmd;
  }

  lemma ExitExecute(s: State, t: State)
    requires Enabled(s, Execute) && t == Apply(s, Execute) && FifoInv(s) && ExitInv(s)
    ensures ExitInv(t)
  {
    var n := |s.executed|;
    assert s.accepted[n] == s.consumer.q.cmd;
  }

  // Calls move on, but the commands, the acceptances and the flags stay.
  lemma ExitCalls(s: State, t: State)
    requires ExitInv(s)
    requires t.accepted == s.accepted && t.executed == s.executed
    requires t.sh.exitEnqueued == s.sh.exitEnqueued && t.sh.exitProcessed == s.sh.exitProcessed
    requires t.consumer == s.consumer || (!t.consumer.Stopped? && !s.sh.exitProcessed)
             || (t.consumer.Stopped? && s.sh.exitProcessed)
    requires |t.calls| >= |s.calls|
    requires forall c :: 0 <= c < |s.calls| ==> t.calls[c].cmd == s.calls[c].cmd
    requires forall c :: |s.calls| <= c < |t.calls| ==> !t.calls[c].cmd.exit
    ensures ExitInv(t)
  {
    if s.sh.exitEnqueued {
      var x :| 0 <= x < |s.calls| && s.calls[x].cmd.exit;
      assert t.calls[x].cmd.exit;
    }
  }

  // ---------- ownership of events ----------

  lemma GiveBack(sh: Shared, owned: seq<Option<Event>>, c: nat)
    requires OwnerInv(sh, owned) && c < |owned| && owned[c].Some?
    ensures OwnerInv(FreeEvent(sh, owned[c].value), owned[c := None])
  {
    var e, owned' := owned[c].value, owned[c := None];
    forall f: Event | f < sh.made && f !in sh.available && f != e
      ensures Some(f) in owned'
    {
      var d :| 0 <= d < |owned| && owned[d] == Some(f);
      assert owned'[d] == Some(f);
    }
  }

  lemma DistinctTail(s: seq<Event>)
    requires s != [] && forall i, j :: 0 <= i < j < |s| ==> s[i] != s[j]
    ensures forall i, j :: 0 <= i < j < |s[1..]| ==> s[1..][i] != s[1..][j]
    ensures s[0] !in s[1..]
    ensures forall e :: e in s <==> e == s[0] || e in s[1..]
  {
    assert forall k :: 0 <= k < |s| - 1 ==> s[1..][k] == s[k + 1];
    assert s == [s[0]] + s[1..];
  }

  lemma TakeFree(sh: Shared, owned: seq<Option<Event>>, c: nat)
    requires OwnerInv(sh, owned) && c < |owned| && owned[c].None? && sh.available != []
    ensures OwnerInv(sh.(available := sh.available[1..]), owned[c := Some(sh.available[0])])
    ensures Some(sh.available[0]) !in owned
  {
    var e := sh.available[0];
    DistinctTail(sh.available);
    var rest, owned' := sh.available[1..], owned[c := Some(e)];
    assert owned'[c] == Some(e);
    forall f: Event | f < sh.made
      ensures f in rest || Some(f) in owned'
    {
      if f !in rest && f != e {
        var d :| 0 <= d < |owned| && owned[d] == Some(f);
        assert owned'[d] == Some(f);
      }
    }
  }

  lemma TakeNew(sh: Shared, owned: seq<Option<Event>>, c: nat)
    requires OwnerInv(sh, owned) && c < |owned| && owned[c].None?
    ensures OwnerInv(sh.(made := sh.made + 1), owned[c := Some(sh.made)])
    ensures Some(sh.made) !in owned
  {
    var owned' := owned[c := Some(sh.made)];
    assert owned'[c] == Some(sh.made);
    forall f: Event | f < sh.made + 1
      ensures f in sh.available || Some(f) in owned'
    {
      if f < sh.made && f !in sh.available {
        var d :| 0 <= d < |owned| && owned[d] == Some(f);
        assert owned'[d] == Some(f);
      }
    }
  }

  lemma Take(sh: Shared, owned: seq<Option<Event>>, c: nat)
    requires OwnerInv(sh, owned) && c < |owned| && owned[c].None?
    ensures OwnerInv(AllocEvent(sh).1, owned[c := Some(AllocEvent(sh).0)])
    ensures Some(AllocEvent(sh).0) !in owned
  {
    hide OwnerInv;
    if sh.available != [] {
      TakeFree(sh, owned, c);
    } else {
      TakeNew(sh, owned, c);
    }
  }

  // An attempt gives back the event of the earlier refusal and may take a fresh one, which no other
  // call owns and which is not signalled.
  lemma OwnerAttempt(s: State, t: State, c: nat, call': Call)
    requires AttemptBy(s, t, c, call') && OwnerInv(s.sh, OwnedBy(s.calls))
    ensures OwnerInv(t.sh, OwnedBy(t.calls))
    ensures call'.Owned().Some? ==>
              forall d :: 0 <= d < |s.calls| && d != c ==> s.calls[d].Owned() != call'.Owned()
  {
    var owned, held := OwnedBy(s.calls), s.calls[c].held;
    var owned0 := owned[c := None];
    var sh0 := if held.Some? then FreeEvent(s.sh, held.value) else s.sh;
    if held.Some? {
      GiveBack(s.sh, owned, c);
    } else {
      assert owned0 == owned;
    }
    if call'.Owned().Some? {
      Take(sh0, owned0, c);
      assert forall d :: 0 <= d < |s.calls| && d != c ==> owned0[d] == s.calls[d].Owned();
    }
    assert OwnedBy(t.calls) == owned0[c := call'.Owned()];
    var sh1 := if call'.Owned().Some? then AllocEvent(sh0).1 else sh0;
    assert OwnerInv(sh1, OwnedBy(t.calls)) by {
      if call'.Owned().None? {
        assert owned0[c := None] == owned0;
      }
    }
    OwnerOnlyPool(sh1, t.sh, OwnedBy(t.calls));
  }

  lemma OwnerOnlyPool(sh: Shared, sh': Shared, owned: seq<Option<Event>>)
    requires OwnerInv(sh, owned) && sh'.available == sh.available && sh'.made == sh.made
    ensures OwnerInv(sh', owned)
  {
  }

  lemma OwnerBegin(sh: Shared, calls: seq<Call>, call: Call)
    requires OwnerInv(sh, OwnedBy(calls)) && call.Owned().None?
    ensures OwnerInv(sh, OwnedBy(calls + [call]))
  {
    var owned, owned' := OwnedBy(calls), OwnedBy(calls + [call]);
    assert owned' == owned + [None];
  }

  // ---------- where the events stand ----------

  // The call that owns an event which is allocated and not free.
  lemma OwnerOf(s: State, e: Event) returns (c: nat)
    requires OwnerInv(s.sh, OwnedBy(s.calls)) && e < s.sh.made && e !in s.sh.available
    ensures c < |s.calls| && s.calls[c].Owned() == Some(e)
  {
    c :| 0 <= c < |OwnedBy(s.calls)| && OwnedBy(s.calls)[c] == Some(e);
  }

  // No two calls own the same event.
  lemma OwnersDiffer(s: State, c: nat, d: nat)
    requires OwnerInv(s.sh, OwnedBy(s.calls)) && c < |s.calls| && d < |s.calls| && c != d
    requires s.calls[c].Owned().Some?
    ensures s.calls[c].Owned() != s.calls[d].Owned()
  {
    var owned := OwnedBy(s.calls);
    assert owned[c] == s.calls[c].Owned() && owned[d] == s.calls[d].Owned();
  }

  // What a call took from the pool is neither signalled nor in the blocked list, and nothing that is
  // went into the pool.
  lemma PoolIsQuiet(s: State, t: State, c: nat, call': Call)
    requires AttemptBy(s, t, c, call') && EventInv(s) && OwnerInv(s.sh, OwnedBy(s.calls))
    ensures call'.Owned().Some? ==>
              var e := call'.Owned().value;
              e < t.sh.made && e !in s.sh.signalled && e !in s.sh.blocked
    ensures t.sh.made >= s.sh.made
    ensures forall e :: e in s.sh.signalled || e in s.sh.blocked ==> e !in t.sh.available
    ensures call'.Owned().Some? ==> call'.Owned().value !in t.sh.available
  {
    OwnerAttempt(s, t, c, call');
    assert CallEventInv(s, s.calls[c]);
    assert OwnedBy(t.calls)[c] == call'.Owned();
    var held := s.calls[c].held;
    var s0 := if held.Some? then FreeEvent(s.sh, held.value) else s.sh;
    assert forall e :: e in s0.available ==> e in s.sh.available || Some(e) == held;
    assert forall e :: e in t.sh.available ==> e in s0.available;
  }

  lemma EventAccept(s: State, t: State, c: nat, q: Queued)
    requires Accepts(s, t, c, q) && CallInv(s.calls) && FifoInv(s)
    requires EventInv(s) && OwnerInv(s.sh, OwnedBy(s.calls))
    ensures EventInv(t)
  {
    var call' := AfterAttempt(q.cmd, Outcome.Accepted(q.done));
    PoolIsQuiet(s, t, c, call');
    forall d | 0 <= d < |t.calls|
      ensures CallEventInv(t, t.calls[d])
    {
      if d == c {
        assert q.cmd !in s.executed by {
          assert forall i :: 0 <= i < |s.executed| ==> s.executed[i] == s.accepted[i];
          assert forall i :: 0 <= i < |s.accepted| ==> IsFrom(s.accepted[i], s.calls);
        }
      } else {
        assert CallEventInv(s, s.calls[d]);
      }
    }
  }

  lemma EventReject(s: State, t: State, c: nat)
    requires Rejects(s, t, c) && EventInv(s) && OwnerInv(s.sh, OwnedBy(s.calls))
    ensures EventInv(t)
  {
    PoolIsQuiet(s, t, c, Returned(s.calls[c].cmd, false));
    forall d | 0 <= d < |t.calls|
      ensures CallEventInv(t, t.calls[d])
    {
      if d != c {
        assert CallEventInv(s, s.calls[d]);
      }
    }
  }

  lemma EventRefuse(s: State, t: State, c: nat, e: Event)
    requires Refuses(s, t, c, e) && EventInv(s) && OwnerInv(s.sh, OwnedBy(s.calls))
    ensures EventInv(t)
  {
    var call' := WaitingSpace(s.calls[c].cmd, e);
    PoolIsQuiet(s, t, c, call');
    OwnerAttempt(s, t, c, call');
    forall d | 0 <= d < |t.calls|
      ensures CallEventInv(t, t.calls[d])
    {
      if d != c {
        assert CallEventInv(s, s.calls[d]);
        assert s.calls[d].Owned() != Some(e);
      }
    }
  }

  // A producer or a waiting call takes its signal.
  lemma EventWake(s: State, t: State, c: nat)
    requires || (Enabled(s, WakeSpace(c)) && t == Apply(s, WakeSpace(c)))
             || (Enabled(s, WakeDone(c)) && t == Apply(s, WakeDone(c)))
    requires EventInv(s) && OwnerInv(s.sh, OwnedBy(s.calls))
    ensures EventInv(t)
  {
    assert CallEventInv(s, s.calls[c]);
    forall d | 0 <= d < |t.calls|
      ensures CallEventInv(t, t.calls[d])
    {
      if d != c {
        assert CallEventInv(s, s.calls[d]);
        OwnersDiffer(s, c, d);
      }
    }
  }

  lemma EventFinish(s: State, t: State, c: nat)
    requires Enabled(s, Finish(c)) && t == Apply(s, Finish(c))
    requires EventInv(s)
    ensures EventInv(t)
  {
    assert CallEventInv(s, s.calls[c]);
    forall d | 0 <= d < |t.calls|
      ensures CallEventInv(t, t.calls[d])
    {
      if d != c {
        assert CallEventInv(s, s.calls[d]);
      }
    }
  }

  lemma EventPop(s: State, t: State, q: Queued)
    requires Pops(s, t, q) && EventInv(s)
    ensures EventInv(t)
  {
    if s.sh.blocked != [] {
      assert s.sh.blocked == [s.sh.blocked[0]] + t.sh.blocked;
      assert s.sh.blocked[0] in s.sh.blocked;
    }
    assert forall e :: e in t.sh.blocked ==> e in s.sh.blocked && e !in t.sh.signalled - s.sh.signalled;
    forall d | 0 <= d < |t.calls|
      ensures CallEventInv(t, t.calls[d])
    {
      assert CallEventInv(s, s.calls[d]);
    }
  }

  lemma EventExecute(s: State, t: State)
    requires Enabled(s, Execute) && t == Apply(s, Execute)
    requires EventInv(s) && FifoInv(s)
    ensures EventInv(t)
  {
    var cmd := s.consumer.q.cmd;
    var n := |s.executed|;
    assert s.accepted[n] == cmd;
    assert forall i :: 0 <= i < n ==> s.executed[i] == s.accepted[i];
    assert cmd !in s.executed;
    forall d | 0 <= d < |t.calls|
      ensures CallEventInv(t, t.calls[d])
    {
      assert CallEventInv(s, s.calls[d]);
    }
  }

  lemma EventNotify(s: State, t: State)
    requires Enabled(s, Notify) && t == Apply(s, Notify)
    requires EventInv(s) && FifoInv(s) && AttachedInv(s) && CallInv(s.calls)
    requires OwnerInv(s.sh, OwnedBy(s.calls))
    ensures EventInv(t)
  {
    var q := s.consumer.q;
    if q.done.Some? {
      var c := q.cmd.id;
      assert CallEventInv(s, s.calls[c]);
      assert OwnedBy(s.calls)[c] == q.done;
    }
    forall d | 0 <= d < |t.calls|
      ensures CallEventInv(t, t.calls[d])
    {
      assert CallEventInv(s, s.calls[d]);
      if q.done.Some? && d != q.cmd.id {
        OwnersDiffer(s, q.cmd.id, d);
      }
      if s.calls[d].WaitingDone? && s.calls[d].cmd == q.cmd {
        assert s.calls[d].cmd.id == d;
      }
    }
  }

  // Steps that touch no event and no command in flight.
  lemma EventCalls(s: State, t: State)
    requires EventInv(s)
    requires t.sh.signalled == s.sh.signalled && t.sh.blocked == s.sh.blocked
    requires t.sh.available == s.sh.available && t.sh.made == s.sh.made
    requires t.executed == s.executed && (s.consumer.Executed? || t.consumer.Executed? ==> t.consumer == s.consumer)
    requires |t.calls| >= |s.calls|
    requires forall c :: 0 <= c < |s.calls| ==> t.calls[c] == s.calls[c]
    requires forall c :: |s.calls| <= c < |t.calls| ==> t.calls[c].Trying? && t.calls[c].held.None?
    ensures EventInv(t)
  {
    forall d | 0 <= d < |t.calls|
      ensures CallEventInv(t, t.calls[d])
    {
      if d < |s.calls| {
        assert CallEventInv(s, s.calls[d]);
      }
    }
  }
}
