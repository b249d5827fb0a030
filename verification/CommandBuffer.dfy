// The circular byte buffer that stores commands of different sizes in one block of memory
// (class CircularBuffer of OVR_ThreadCommandQueue.cpp).
//
// `Ring` is the value of the four offsets, `Reserve` and `Release` are what Write and ReadEnd do to them,
// and `Tiled` says which unread blocks the offsets stand for. The class `CircularBuffer` at the end works
// in place on the bytes and is proved against these.
module CommandBuffer {
  import opened Wrappers

  const ALIGN_SIZE: nat := 16

  function RoundUp(n: nat): (r: nat)
    ensures n <= r < n + ALIGN_SIZE && r % ALIGN_SIZE == 0
  {
    (n + ALIGN_SIZE - 1) / ALIGN_SIZE * ALIGN_SIZE
  }

  // `end` is 0 unless the writer has wrapped; then the older blocks stop at `end`.
  datatype Ring = Ring(size: nat, tail: nat, head: nat, end: nat) {
    predicate IsEmpty() { head == tail }
  }

  function EmptyRing(size: nat): Ring {
    Ring(size, 0, 0, 0)
  }

  // What Write demands of its caller: a command is never empty, and the assertion on the rounded size.
  predicate Requestable(size: nat, n: nat) {
    0 < n && RoundUp(n) < size / 2
  }

  // Write: the offset of the new block, or None when the buffer is full.
  function Reserve(r: Ring, n: nat): (res: (Option<nat>, Ring))
    ensures res.0.None? ==> res.1 == r
  {
    var m := RoundUp(n);
    if r.head >= r.tail then
      if r.head + m <= r.size then (Some(r.head), r.(head := r.head + m))
      else if m < r.tail then (Some(0), r.(end := r.head, head := m))
      else (None, r)
    else
      if r.tail > r.head + m then (Some(r.head), r.(head := r.head + m))
      else (None, r)
  }

  // ReadEnd: `n` is the size that was passed to Write for the oldest block.
  function Release(r: Ring, n: nat): Ring {
    var t := r.tail + RoundUp(n);
    if t == r.end then r.(tail := 0, end := 0)
    else if t == r.head then r.(tail := 0, head := 0)
    else r.(tail := t)
  }

  // ---------- the blocks behind the offsets ----------

  // An unread block: where it starts and the size its writer asked for.
  datatype Block = Block(off: nat, len: nat) {
    function Limit(): nat { off + RoundUp(len) }
  }

  // The blocks fill [lo, hi) one after the other, without gap or overlap.
  ghost predicate Fills(bs: seq<Block>, lo: nat, hi: nat)
    decreases |bs|
  {
    if bs == [] then lo == hi
    else bs[0].off == lo && 0 < bs[0].len && Fills(bs[1..], bs[0].Limit(), hi)
  }

  // The older blocks `front` and the younger blocks `back` are what the ring holds.
  // The last conjunct of the wrapped case is history: the block at offset 0 did not fit after `end`.
  ghost predicate Tiled(r: Ring, front: seq<Block>, back: seq<Block>) {
    if r.end == 0 then
      && r.tail <= r.head <= r.size
      && Fills(front, r.tail, r.head)
      && back == []
      && (front == [] ==> r.head == 0)
    else
      && r.head < r.tail < r.end <= r.size
      && front != [] && Fills(front, r.tail, r.end)
      && back != [] && Fills(back, 0, r.head)
      && r.size < r.end + RoundUp(back[0].len)
  }

  // Bytes occupied by the blocks.
  function Occupied(bs: seq<Block>): nat {
    if bs == [] then 0 else RoundUp(bs[0].len) + Occupied(bs[1..])
  }

  lemma {:induction false} FillsLength(bs: seq<Block>, lo: nat, hi: nat)
    requires Fills(bs, lo, hi)
    ensures hi == lo + Occupied(bs)
    ensures bs == [] <==> lo == hi
    decreases |bs|
  {
    if bs != [] {
      FillsLength(bs[1..], bs[0].Limit(), hi);
    }
  }

  lemma {:induction false} FillsAppend(bs: seq<Block>, lo: nat, hi: nat, b: Block)
    requires Fills(bs, lo, hi)
    requires b.off == hi && 0 < b.len
    ensures Fills(bs + [b], lo, b.Limit())
    decreases |bs|
  {
    if bs == [] {
      assert (bs + [b])[1..] == [];
    } else {
      FillsAppend(bs[1..], bs[0].Limit(), hi, b);
      assert (bs + [b])[1..] == bs[1..] + [b];
    }
  }

  // Blocks that fill an interval lie inside it and do not overlap.
  lemma {:induction false} FillsDisjoint(bs: seq<Block>, lo: nat, hi: nat)
    requires Fills(bs, lo, hi)
    ensures forall i :: 0 <= i < |bs| ==> lo <= bs[i].off && 0 < bs[i].len && bs[i].Limit() <= hi
    ensures forall i, j :: 0 <= i < j < |bs| ==> bs[i].Limit() <= bs[j].off
    decreases |bs|
  {
    if bs != [] {
      var rest := bs[1..];
      FillsDisjoint(rest, bs[0].Limit(), hi);
      FillsLength(rest, bs[0].Limit(), hi);
      assert forall i :: 1 <= i < |bs| ==> bs[i] == rest[i - 1];
    }
  }

  lemma {:induction false} OccupiedAppend(a: seq<Block>, b: seq<Block>)
    ensures Occupied(a + b) == Occupied(a) + Occupied(b)
    decreases |a|
  {
    if a == [] {
      assert a + b == b;
    } else {
      OccupiedAppend(a[1..], b);
      assert (a + b)[1..] == a[1..] + b;
    }
  }

  // ---------- Write and ReadEnd on the tiling ----------

  // Where Write files the new block: with the young blocks once the writer has wrapped.
  ghost function FrontAfter(r: Ring, front: seq<Block>, b: Block): seq<Block> {
    if Reserve(r, b.len).1.end == 0 then front + [b] else front
  }

  ghost function BackAfter(r: Ring, back: seq<Block>, b: Block): seq<Block> {
    if Reserve(r, b.len).1.end == 0 then back else back + [b]
  }

  lemma EndMeansWrapped(r: Ring, front: seq<Block>, back: seq<Block>)
    requires Tiled(r, front, back)
    ensures r.head >= r.tail <==> r.end == 0
  {
  }

  // Each case of Write: behind the other blocks, at the start of the buffer, or behind the young blocks.
  lemma WriteBehind(r: Ring, front: seq<Block>, n: nat)
    requires Tiled(r, front, []) && r.end == 0 && 0 < n && r.head + RoundUp(n) <= r.size
    ensures Tiled(r.(head := r.head + RoundUp(n)), front + [Block(r.head, n)], [])
  {
    hide RoundUp;
    FillsAppend(front, r.tail, r.head, Block(r.head, n));
  }

  lemma WriteAround(r: Ring, front: seq<Block>, n: nat)
    requires Tiled(r, front, []) && r.end == 0 && 0 < n && r.size < r.head + RoundUp(n) && RoundUp(n) < r.tail
    ensures Tiled(r.(end := r.head, head := RoundUp(n)), front, [Block(0, n)])
  {
    hide RoundUp;
    FillsLength(front, r.tail, r.head);
    var b := Block(0, n);
    assert [b][1..] == [];
    assert Fills([b], 0, b.Limit());
  }

  lemma WriteYoung(r: Ring, front: seq<Block>, back: seq<Block>, n: nat)
    requires Tiled(r, front, back) && r.end != 0 && 0 < n && r.head + RoundUp(n) < r.tail
    ensures Tiled(r.(head := r.head + RoundUp(n)), front, back + [Block(r.head, n)])
  {
    hide RoundUp;
    FillsAppend(back, 0, r.head, Block(r.head, n));
    assert (back + [Block(r.head, n)])[0] == back[0];
  }

  // Every unread block lies in what the offsets call unread.
  lemma UnreadRegion(r: Ring, front: seq<Block>, back: seq<Block>)
    requires Tiled(r, front, back)
    ensures forall c :: c in front ==> r.tail <= c.off && c.Limit() <= (if r.end == 0 then r.head else r.end)
    ensures forall c :: c in back ==> c.Limit() <= r.head
  {
    FillsDisjoint(front, r.tail, if r.end == 0 then r.head else r.end);
    if r.end != 0 {
      FillsDisjoint(back, 0, r.head);
    }
  }

  // A successful Write appends one block; it lies in memory that no unread block uses, and the two
  // assertions inside Write hold.
  lemma WriteAppends(r: Ring, front: seq<Block>, back: seq<Block>, n: nat)
    requires Tiled(r, front, back) && Requestable(r.size, n)
    requires Reserve(r, n).0.Some?
    ensures r.head >= r.tail <==> r.end == 0
    ensures var (p, r') := Reserve(r, n);
            var b := Block(p.value, n);
            && r'.size == r.size && r'.head != r'.tail
            && b.Limit() <= r.size
            && Tiled(r', FrontAfter(r, front, b), BackAfter(r, back, b))
            && FrontAfter(r, front, b) + BackAfter(r, back, b) == front + back + [b]
            && forall c :: c in front + back ==> c.Limit() <= b.off || b.Limit() <= c.off
  {
    hide Tiled, Fills;
    var (p, r') := Reserve(r, n);
    var b := Block(p.value, n);
    EndMeansWrapped(r, front, back);
    OffsetsInRange(r, front, back);
    UnreadRegion(r, front, back);
    if r.end != 0 {
      WriteYoung(r, front, back, n);
      assert front + (back + [b]) == front + back + [b];
    } else if r.head + RoundUp(n) <= r.size {
      WriteBehind(r, front, n);
      assert front + [b] + back == front + back + [b];
    } else {
      WriteAround(r, front, n);
      assert back + [b] == [b];
    }
  }

  lemma OffsetsInRange(r: Ring, front: seq<Block>, back: seq<Block>)
    requires Tiled(r, front, back)
    ensures r.head <= r.size && r.tail <= r.size
    ensures r.end == 0 ==> back == [] && (r.head == r.tail ==> r.head == 0)
  {
    FillsLength(front, r.tail, if r.end == 0 then r.head else r.end);
  }

  // The blocks left after ReadEnd: when the old blocks run out the young ones take their place.
  ghost function FrontAfterRead(front: seq<Block>, back: seq<Block>): seq<Block>
    requires front != []
  {
    if front[1..] == [] then back else front[1..]
  }

  ghost function BackAfterRead(front: seq<Block>, back: seq<Block>): seq<Block>
    requires front != []
  {
    if front[1..] == [] then [] else back
  }

  // ReadEnd with the size of the oldest block drops exactly that block.
  lemma ReadDropsOldest(r: Ring, front: seq<Block>, back: seq<Block>)
    requires Tiled(r, front, back) && !r.IsEmpty()
    ensures front != [] && front[0].off == r.tail
    ensures r.tail + RoundUp(front[0].len) == r.head ==> r.end == 0
    ensures Release(r, front[0].len).size == r.size
    ensures Tiled(Release(r, front[0].len), FrontAfterRead(front, back), BackAfterRead(front, back))
    ensures FrontAfterRead(front, back) + BackAfterRead(front, back) == (front + back)[1..]
  {
    var limit := if r.end == 0 then r.head else r.end;
    FillsLength(front, r.tail, limit);
    FillsLength(front[1..], front[0].Limit(), limit);
    assert (front + back)[1..] == front[1..] + back;
    if r.end != 0 {
      FillsLength(back, 0, r.head);
    }
  }

  // Empty means no blocks, and then both offsets are 0.
  lemma EmptyExactly(r: Ring, front: seq<Block>, back: seq<Block>)
    requires Tiled(r, front, back)
    ensures r.IsEmpty() <==> front + back == []
    ensures r.IsEmpty() <==> r.head == 0 && r.tail == 0
  {
    FillsLength(front, r.tail, if r.end == 0 then r.head else r.end);
  }

  // The unread bytes in terms of the offsets.
  lemma UnreadBytes(r: Ring, front: seq<Block>, back: seq<Block>)
    requires Tiled(r, front, back)
    ensures Occupied(front + back) == if r.end == 0 then r.head - r.tail else r.end - r.tail + r.head
  {
    FillsLength(front, r.tail, if r.end == 0 then r.head else r.end);
    OccupiedAppend(front, back);
    if r.end != 0 {
      FillsLength(back, 0, r.head);
    }
  }

  // ---------- exactly where a block goes, and when there is no place ----------

  // A block of m bytes cannot start at `off`: it would leave the buffer, or touch an unread block.
  ghost predicate Taken(size: nat, bs: seq<Block>, off: nat, m: nat) {
    off + m > size || exists i :: 0 <= i < |bs| && bs[i].off <= off + m && off < bs[i].Limit()
  }

  // Where the youngest unread block ends.
  function Youngest(bs: seq<Block>): nat {
    if bs == [] then 0 else bs[|bs| - 1].Limit()
  }

  // The place for a block of n bytes: behind the youngest block, or else at the start of the buffer, or else none.
  ghost function PlaceFor(size: nat, bs: seq<Block>, n: nat): Option<nat> {
    if !Taken(size, bs, Youngest(bs), RoundUp(n)) then Some(Youngest(bs))
    else if !Taken(size, bs, 0, RoundUp(n)) then Some(0)
    else None
  }

  lemma {:induction false} FillsLast(bs: seq<Block>, lo: nat, hi: nat)
    requires Fills(bs, lo, hi) && bs != []
    ensures bs[|bs| - 1].Limit() == hi
    decreases |bs|
  {
    if |bs| > 1 {
      FillsLast(bs[1..], bs[0].Limit(), hi);
    }
  }

  // The unread blocks are [tail, head), with the first at tail.
  lemma PlaceInOrder(r: Ring, bs: seq<Block>, n: nat)
    requires r.tail <= r.head <= r.size && Fills(bs, r.tail, r.head) && (bs == [] ==> r.head == 0) && Requestable(r.size, n)
    ensures Youngest(bs) == r.head
    ensures Taken(r.size, bs, r.head, RoundUp(n)) <==> r.head + RoundUp(n) > r.size
    ensures bs != [] ==> (Taken(r.size, bs, 0, RoundUp(n)) <==> r.tail <= RoundUp(n))
  {
    hide RoundUp;
    FillsDisjoint(bs, r.tail, r.head);
    if bs != [] {
      FillsLast(bs, r.tail, r.head);
      assert bs[0].off == r.tail;
    }
  }

  // The unread blocks are [tail, end) and then [0, head), with blocks at tail and at 0.
  lemma PlaceWrapped(r: Ring, front: seq<Block>, back: seq<Block>, n: nat)
    requires r.head < r.tail < r.end <= r.size && Requestable(r.size, n)
    requires front != [] && Fills(front, r.tail, r.end) && back != [] && Fills(back, 0, r.head)
    ensures Youngest(front + back) == r.head
    ensures Taken(r.size, front + back, r.head, RoundUp(n)) <==> r.tail <= r.head + RoundUp(n)
    ensures Taken(r.size, front + back, 0, RoundUp(n))
  {
    hide RoundUp;
    var bs, k := front + back, |front|;
    FillsDisjoint(front, r.tail, r.end);
    FillsDisjoint(back, 0, r.head);
    FillsLast(back, 0, r.head);
    assert bs[0] == front[0] && bs[0].off == r.tail;
    assert bs[k] == back[0] && bs[k].off == 0;
    forall i | 0 <= i < |bs|
      ensures if i < k then bs[i].off >= r.tail else bs[i].Limit() <= r.head
    {
      assert if i < k then bs[i] == front[i] else bs[i] == back[i - k];
    }
  }

  // Write finds exactly that place: it refuses if and only if there is none.
  lemma ReserveExact(r: Ring, front: seq<Block>, back: seq<Block>, n: nat)
    requires Tiled(r, front, back) && Requestable(r.size, n)
    ensures Reserve(r, n).0 == PlaceFor(r.size, front + back, n)
  {
    if r.end == 0 {
      PlaceInOrder(r, front, n);
      assert front + back == front;
    } else {
      PlaceWrapped(r, front, back, n);
    }
    hide Taken, Fills;
  }

  // If no rounded block is larger than `most`, a refusal means that more than size - 2 * most bytes are
  // unread: at most two blocks' worth is lost to fragmentation.
  lemma RefusalMeansNearlyFull(r: Ring, front: seq<Block>, back: seq<Block>, n: nat, most: nat)
    requires Tiled(r, front, back) && Requestable(r.size, n)
    requires RoundUp(n) <= most
    requires forall b :: b in front + back ==> RoundUp(b.len) <= most
    requires Reserve(r, n).0.None?
    ensures Occupied(front + back) + 2 * most > r.size
    ensures front + back != []
  {
    UnreadBytes(r, front, back);
    EmptyExactly(r, front, back);
    if r.end != 0 {
      assert back[0] in front + back;
    }
  }

  // ---------- the same, for a queue of blocks ----------

  // `bs`, oldest first, are the unread blocks of the ring.
  ghost predicate Holds(r: Ring, bs: seq<Block>) {
    exists k :: 0 <= k <= |bs| && Tiled(r, bs[..k], bs[k..])
  }

  lemma HoldsSplit(r: Ring, front: seq<Block>, back: seq<Block>)
    requires Tiled(r, front, back)
    ensures Holds(r, front + back)
  {
    var bs := front + back;
    assert bs[..|front|] == front && bs[|front|..] == back;
  }

  lemma HoldsAfterWrite(r: Ring, bs: seq<Block>, n: nat)
    requires Holds(r, bs) && Requestable(r.size, n)
    requires Reserve(r, n).0.Some?
    ensures Holds(Reserve(r, n).1, bs + [Block(Reserve(r, n).0.value, n)])
    ensures Reserve(r, n).1.size == r.size && !Reserve(r, n).1.IsEmpty()
  {
    var k :| 0 <= k <= |bs| && Tiled(r, bs[..k], bs[k..]);
    var b := Block(Reserve(r, n).0.value, n);
    WriteAppends(r, bs[..k], bs[k..], n);
    HoldsSplit(Reserve(r, n).1, FrontAfter(r, bs[..k], b), BackAfter(r, bs[k..], b));
    assert bs[..k] + bs[k..] == bs;
  }

  lemma HoldsAfterRead(r: Ring, bs: seq<Block>)
    requires Holds(r, bs) && bs != []
    ensures Holds(Release(r, bs[0].len), bs[1..])
    ensures Release(r, bs[0].len).size == r.size
  {
    var k :| 0 <= k <= |bs| && Tiled(r, bs[..k], bs[k..]);
    assert bs[..k] + bs[k..] == bs;
    EmptyExactly(r, bs[..k], bs[k..]);
    ReadDropsOldest(r, bs[..k], bs[k..]);
    HoldsSplit(Release(r, bs[0].len), FrontAfterRead(bs[..k], bs[k..]), BackAfterRead(bs[..k], bs[k..]));
  }

  lemma HoldsEmpty(r: Ring, bs: seq<Block>)
    requires Holds(r, bs)
    ensures r.IsEmpty() <==> bs == []
  {
    var k :| 0 <= k <= |bs| && Tiled(r, bs[..k], bs[k..]);
    assert bs[..k] + bs[k..] == bs;
    EmptyExactly(r, bs[..k], bs[k..]);
  }

  lemma HoldsPlace(r: Ring, bs: seq<Block>, n: nat)
    requires Holds(r, bs) && Requestable(r.size, n)
    ensures Reserve(r, n).0 == PlaceFor(r.size, bs, n)
  {
    var k :| 0 <= k <= |bs| && Tiled(r, bs[..k], bs[k..]);
    assert bs[..k] + bs[k..] == bs;
    ReserveExact(r, bs[..k], bs[k..], n);
  }

  lemma HoldsRefusal(r: Ring, bs: seq<Block>, n: nat, most: nat)
    requires Holds(r, bs) && Requestable(r.size, n)
    requires RoundUp(n) <= most
    requires forall b :: b in bs ==> RoundUp(b.len) <= most
    requires Reserve(r, n).0.None?
    ensures Occupied(bs) + 2 * most > r.size
    ensures bs != []
  {
    var k :| 0 <= k <= |bs| && Tiled(r, bs[..k], bs[k..]);
    assert bs[..k] + bs[k..] == bs;
    RefusalMeansNearlyFull(r, bs[..k], bs[k..], n, most);
  }

  // ---------- the buffer in memory ----------

  class CircularBuffer {
    const buffer: array<Byte>
    const size: nat
    var tail: nat
    var head: nat
    var end: nat
    ghost var front: seq<Block>
    ghost var back: seq<Block>

    ghost function State(): Ring
      reads this
    {
      Ring(size, tail, head, end)
    }

    ghost predicate Valid()
      reads this
    {
      && buffer.Length == RoundUp(size)
      && Tiled(State(), front, back)
    }

    ghost function Blocks(): seq<Block>
      reads this
    {
      front + back
    }

    // The bytes of a block, as its writer left them.
    ghost function Stored(b: Block): seq<Byte>
      reads buffer
    {
      if b.off + b.len <= buffer.Length then buffer[b.off..b.off + b.len] else []
    }

    // The abstract value: the unread commands, oldest first.
    ghost function Contents(): (s: seq<seq<Byte>>)
      reads this, buffer
      ensures |s| == |Blocks()|
    {
      seq(|Blocks()|, i requires 0 <= i < |Blocks()| reads this, buffer => Stored(Blocks()[i]))
    }

    constructor (capacity: nat)
      ensures Valid() && fresh(buffer) && size == capacity
      ensures Contents() == []
    {
      size := capacity;
      buffer := new Byte[RoundUp(capacity)];
      tail, head, end := 0, 0, 0;
      front, back := [], [];
    }

    method IsEmpty() returns (r: bool)
      requires Valid()
      ensures r <==> Contents() == []
      ensures r <==> State().IsEmpty()
      ensures r <==> head == 0 && tail == 0
    {
      hide Tiled;
      r := head == tail;
      EmptyExactly(State(), front, back);
    }

    // Write: claims a block. Nothing unread moves or is touched, and the claimed block overlaps no
    // unread one.
    method Write(n: nat) returns (p: Option<nat>)
      requires Valid() && Requestable(size, n)
      modifies this
      ensures Valid()
      ensures p == Reserve(old(State()), n).0 && State() == Reserve(old(State()), n).1
      ensures p == PlaceFor(size, old(Blocks()), n)
      ensures p.None? ==> Blocks() == old(Blocks())
      ensures p.Some? ==> Blocks() == old(Blocks()) + [Block(p.value, n)]
      ensures p.Some? ==> p.value + RoundUp(n) <= size
      ensures p.Some? ==> forall c :: c in old(Blocks()) ==>
                                        c.Limit() <= p.value || p.value + RoundUp(n) <= c.off
    {
      hide Tiled, RoundUp;
      p := None;
      var m := RoundUp(n);
      ghost var was, f, k := State(), front, back;
      EndMeansWrapped(was, f, k);
      ReserveExact(was, f, k, n);
      hide PlaceFor;
      if head >= tail {
        assert end == 0;
        if m <= size - head {
          p := Some(head);
          head := head + m;
        } else if m < tail {
          p := Some(0);
          end := head;
          head := m;
          assert head != tail;
        }
      } else {
        assert end != 0;
        if tail - head > m {
          p := Some(head);
          head := head + m;
          assert head != tail;
        }
      }
      if p.Some? {
        WriteAppends(was, f, k, n);
        front, back := FrontAfter(was, f, Block(p.value, n)), BackAfter(was, k, Block(p.value, n));
      }
    }

    // The caller's copy-construction of a command into the block it has just claimed.
    method Fill(p: nat, data: seq<Byte>)
      requires Valid() && Blocks() != []
      requires Blocks()[|Blocks()| - 1] == Block(p, |data|)
      modifies buffer
      ensures Contents() == old(Contents())[..|Blocks()| - 1] + [data]
    {
      hide Tiled, RoundUp;
      ghost var bs := Blocks();
      ghost var n := |bs| - 1;
      BlocksApart();
      forall i | 0 <= i < |data| {
        buffer[p + i] := data[i];
      }
      assert forall k :: 0 <= k < buffer.Length && !(p <= k < p + |data|) ==> buffer[k] == old(buffer[k]);
      forall i | 0 <= i < n
        ensures Stored(bs[i]) == old(Stored(bs[i]))
      {
        assert bs[i].Limit() <= bs[n].off || bs[n].Limit() <= bs[i].off;
      }
      assert Stored(bs[n]) == data;
      hide Stored;
      assert forall i :: 0 <= i < n ==> Contents()[i] == old(Contents())[i];
      assert Contents()[n] == data;
    }

    // ReadBegin: the offset of the oldest unread block.
    method ReadBegin() returns (p: Option<nat>)
      requires Valid()
      ensures p.None? <==> Contents() == []
      ensures p.Some? ==> p.value == Blocks()[0].off
    {
      hide Tiled;
      EmptyExactly(State(), front, back);
      if head != tail {
        ReadDropsOldest(State(), front, back);
        p := Some(tail);
      } else {
        p := None;
      }
    }

    // ReadEnd: drops the oldest block; the others keep their bytes and their order.
    method ReadEnd(n: nat)
      requires Valid() && Contents() != [] && n == |Contents()[0]|
      modifies this
      ensures Valid()
      ensures State() == Release(old(State()), n)
      ensures Blocks() == old(Blocks())[1..]
      ensures Contents() == old(Contents())[1..]
    {
      hide Tiled, RoundUp;
      BlocksApart();
      EmptyExactly(State(), front, back);
      assert head != tail;
      ReadDropsOldest(State(), front, back);
      ghost var f, k, c := front, back, Contents();
      assert Blocks()[0] == front[0] && c[0] == Stored(front[0]);
      tail := tail + RoundUp(n);
      if tail == end {
        tail, end := 0, 0;
      } else if tail == head {
        assert end == 0;
        tail, head := 0, 0;
      }
      front, back := FrontAfterRead(f, k), BackAfterRead(f, k);
    }

    lemma BlocksApart()
      requires Valid()
      ensures forall i :: 0 <= i < |Blocks()| ==>
                            Blocks()[i].len > 0 && Blocks()[i].Limit() <= size <= buffer.Length
      ensures forall i, j :: 0 <= i < j < |Blocks()| ==>
                               || Blocks()[i].Limit() <= Blocks()[j].off
                               || Blocks()[j].Limit() <= Blocks()[i].off
    {
      FillsDisjoint(front, tail, if end == 0 then head else end);
      if end != 0 {
        FillsDisjoint(back, 0, head);
      }
    }
  }
}
