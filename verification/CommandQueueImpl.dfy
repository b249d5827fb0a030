// The lock scopes of ThreadCommandQueueImpl in place, over the circular buffer. Each method is proved to
// do exactly what the corresponding step of the state machine does to the shared fields.
module CommandQueueImpl {
  import opened Wrappers
  import opened CommandBuffer
  import opened CommandQueue
  import opened CommandQueueSafety
  import opened CommandQueueRuns

  class ThreadCommandQueueImpl {
    const commandBuffer: CircularBuffer
    // The command objects constructed in the buffer's bytes, by offset.
    var memory: map<nat, Queued>
    var availableEvents: seq<Event>
    var blockedProducers: seq<Event>
    var made: nat
    var signalled: set<Event>
    var exitEnqueued: bool
    var exitProcessed: bool
    var commandEvent: bool
    ghost var queue: seq<Queued>

    ghost function Fields(): Shared
      reads this, commandBuffer
    {
      Shared(commandBuffer.State(), queue, availableEvents, blockedProducers, made, signalled,
             exitEnqueued, exitProcessed, commandEvent)
    }

    ghost predicate Valid()
      reads this, commandBuffer
    {
      && commandBuffer.Valid() && commandBuffer.size == CAPACITY
      && commandBuffer.Blocks() == BlocksOf(queue)
      && InMemory(memory, queue)
    }

    static ghost predicate InMemory(memory: map<nat, Queued>, queue: seq<Queued>) {
      forall i :: 0 <= i < |queue| ==> queue[i].off in memory && memory[queue[i].off] == queue[i]
    }

    constructor ()
      ensures Valid() && Fields() == INIT.sh
    {
      commandBuffer := new CircularBuffer(CAPACITY);
      memory := map[];
      availableEvents, blockedProducers, made, signalled := [], [], 0, {};
      exitEnqueued, exitProcessed, commandEvent := false, false, false;
      queue := [];
      new;
      assert commandBuffer.Blocks() == [] by {
        assert |commandBuffer.Contents()| == 0;
      }
    }

    method AllocNotifyEvent() returns (e: Event)
      modifies this`availableEvents, this`made
      ensures (e, availableEvents, made) ==
              (AllocEvent(old(Fields())).0, AllocEvent(old(Fields())).1.available, AllocEvent(old(Fields())).1.made)
    {
      if availableEvents != [] {
        e, availableEvents := availableEvents[0], availableEvents[1..];
      } else {
        e, made := made, made + 1;
      }
    }

    // Constructing an object in memory ends every object its bytes overlap.
    method CopyConstruct(q: Queued)
      requires InMemory(memory, queue)
      requires forall i :: 0 <= i < |queue| ==> Apart(queue[i], q)
      requires forall i :: 0 <= i < |queue| ==> 0 < queue[i].cmd.size
      requires 0 < q.cmd.size
      modifies this`memory
      ensures memory == (map o | o in old(memory) && Apart(old(memory)[o], q) :: old(memory)[o])[q.off := q]
      ensures InMemory(memory, queue + [q])
    {
      memory := (map o | o in memory && Apart(memory[o], q) :: memory[o])[q.off := q];
    }

    static predicate Apart(a: Queued, b: Queued) {
      a.off + RoundUp(a.cmd.size) <= b.off || b.off + RoundUp(b.cmd.size) <= a.off
    }

    // Writes the command into the buffer, if there is room.
    method WriteCommand(cmd: Command) returns (o: Option<Queued>)
      requires Valid() && 0 < cmd.size <= MAX_COMMAND
      modifies this`memory, this`queue, this`availableEvents, this`made, commandBuffer
      ensures Valid()
      ensures o.None? <==> Reserve(old(commandBuffer.State()), cmd.size).0.None?
      ensures commandBuffer.State() == Reserve(old(commandBuffer.State()), cmd.size).1
      ensures o.None? ==> queue == old(queue) && availableEvents == old(availableEvents) && made == old(made)
      ensures o.Some? ==>
                && o.value.cmd == cmd && queue == old(queue) + [o.value]
                && Some(o.value.off) == Reserve(old(commandBuffer.State()), cmd.size).0
                && (o.value.done.Some? <==> cmd.wait)
      ensures o.Some? && cmd.wait ==>
                (o.value.done.value, availableEvents, made) ==
                (AllocEvent(old(Fields())).0, AllocEvent(old(Fields())).1.available, AllocEvent(old(Fields())).1.made)
      ensures o.Some? && !cmd.wait ==> availableEvents == old(availableEvents) && made == old(made)
    {
      hide Reserve, AllocEvent;
      ghost var s := Fields();
      SmallCommandsFit(cmd.size);
      ghost var blocks := commandBuffer.Blocks();
      commandBuffer.BlocksApart();
      var p := commandBuffer.Write(cmd.size);
      if p.None? {
        return None;
      }
      var done: Option<Event> := None;
      if cmd.wait {
        PoolOnly(s, Fields());
        var e := AllocNotifyEvent();
        done := Some(e);
      }
      var q := Queued(cmd, p.value, done);
      forall i | 0 <= i < |queue|
        ensures Apart(queue[i], q) && 0 < queue[i].cmd.size
      {
        assert BlocksOf(queue)[i] == blocks[i] && blocks[i] in blocks;
      }
      CopyConstruct(q);
      BlocksAppend(queue, q);
      queue := queue + [q];
      o := Some(q);
    }

    // Taking an event looks at the pool alone.
    static lemma PoolOnly(s: Shared, t: Shared)
      requires t.available == s.available && t.made == s.made
      ensures AllocEvent(t).0 == AllocEvent(s).0
      ensures AllocEvent(t).1.available == AllocEvent(s).1.available && AllocEvent(t).1.made == AllocEvent(s).1.made
    {
    }

    // The lock scope in the loop of PushCommand.
    method PushScope(cmd: Command, held: Option<Event>) returns (o: Outcome)
      requires Valid() && 0 < cmd.size <= MAX_COMMAND
      modifies this, commandBuffer
      ensures Valid()
      ensures o == TryPush(old(Fields()), cmd, held).0 && Fields() == TryPush(old(Fields()), cmd, held).1
    {
      if held.Some? {
        availableEvents := availableEvents + [held.value];
      }
      ghost var s0 := Fields();
      assert s0 == if held.Some? then FreeEvent(old(Fields()), held.value) else old(Fields());
      if exitEnqueued && !cmd.exit {
        return Rejected;
      }
      o := PushOpen(cmd);
    }

    // The rest of that lock scope, for a command that may go in.
    method PushOpen(cmd: Command) returns (o: Outcome)
      requires Valid() && 0 < cmd.size <= MAX_COMMAND && (exitEnqueued ==> cmd.exit)
      modifies this, commandBuffer
      ensures Valid()
      ensures o == TryPush(old(Fields()), cmd, None).0 && Fields() == TryPush(old(Fields()), cmd, None).1
    {
      hide Reserve, AllocEvent, BlocksOf, InMemory, TryPush;
      ghost var s := Fields();
      var bufferWasEmpty := commandBuffer.IsEmpty();
      var q := WriteCommand(cmd);
      if q.Some? {
        if bufferWasEmpty {
          commandEvent := true;
        }
        o := Outcome.Accepted(q.value.done);
        PushTaken(s, cmd, q.value);
      } else {
        PushFull(s, cmd);
        var e := AllocNotifyEvent();
        blockedProducers := blockedProducers + [e];
        o := Full(e);
      }
    }

    // The two outcomes of a push that is let in.
    static lemma PushTaken(s: Shared, cmd: Command, q: Queued)
      requires (s.exitEnqueued ==> cmd.exit) && Some(q.off) == Reserve(s.ring, cmd.size).0
      requires q.cmd == cmd && (q.done.Some? <==> cmd.wait) && (cmd.wait ==> q.done.value == AllocEvent(s).0)
      ensures var s1 := if cmd.wait then AllocEvent(s).1 else s;
              TryPush(s, cmd, None) ==
              (Outcome.Accepted(q.done), s1.(ring := Reserve(s.ring, cmd.size).1, queue := s.queue + [q],
                                             commandEvent := s.commandEvent || s.ring.IsEmpty()))
    {
      hide Reserve, AllocEvent;
    }

    static lemma PushFull(s: Shared, cmd: Command)
      requires (s.exitEnqueued ==> cmd.exit) && Reserve(s.ring, cmd.size).0.None?
      ensures var (e, s1) := AllocEvent(s); TryPush(s, cmd, None) == (Full(e), s1.(blocked := s1.blocked + [e]))
    {
      hide Reserve, AllocEvent;
    }

    // Reads the oldest command object out of memory, then gives up its block.
    method ReadCommand() returns (q: Option<Queued>)
      requires Valid()
      modifies this`queue, commandBuffer
      ensures Valid()
      ensures old(commandBuffer.State()).IsEmpty() <==> old(queue) == []
      ensures q.None? <==> old(queue) == []
      ensures q.None? ==> commandBuffer.State() == old(commandBuffer.State()) && queue == old(queue)
      ensures q.Some? ==>
                && q.value == old(queue)[0] && queue == old(queue)[1..]
                && commandBuffer.State() == Release(old(commandBuffer.State()), q.value.cmd.size)
    {
      EmptyExactly(commandBuffer.State(), commandBuffer.front, commandBuffer.back);
      var p := commandBuffer.ReadBegin();
      if p.None? {
        return None;
      }
      assert p.value == BlocksOf(queue)[0].off;
      var command := memory[p.value];
      commandBuffer.BlocksApart();
      BlocksTail(queue);
      commandBuffer.ReadEnd(command.cmd.size);
      queue := queue[1..];
      q := Some(command);
    }

    // PopCommand
    method PopCommand() returns (q: Option<Queued>)
      requires Valid()
      modifies this, commandBuffer
      ensures Valid()
      ensures old(Fields()).ring.IsEmpty() <==> old(Fields()).queue == []
      ensures q == TryPop(old(Fields())).0 && Fields() == TryPop(old(Fields())).1
    {
      q := ReadCommand();
      if q.None? {
        commandEvent := false;
        return;
      }
      if blockedProducers != [] {
        var queueAvailableEvent := blockedProducers[0];
        blockedProducers := blockedProducers[1..];
        signalled := signalled + {queueAvailableEvent};
      }
    }

    // The first lock scope of PushExitCommand; false when exit had been enqueued before.
    method EnqueueExit() returns (first: bool)
      requires Valid()
      modifies this`exitEnqueued
      ensures Valid()
      ensures first <==> !old(exitEnqueued)
      ensures Fields() == old(Fields()).(exitEnqueued := true)
    {
      first := !exitEnqueued;
      if exitEnqueued {
        return;
      }
      exitEnqueued := true;
    }
  }
}
