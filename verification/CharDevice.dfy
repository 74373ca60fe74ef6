/**
 The character device as the driver runs it: one ring updated in place, one static pending
 entry, one mutex, and a kernel heap in which blocks are taken, filled, read and given back.
 */
module CharDevice {
  import opened Bytes
  import opened CircularBuffer
  import opened CommandLog
  import opened Driver
  import opened DriverInvariant
  import opened DriverRuns
  import opened Ownership

  /** The pending entry is either absent or a live block of its size. */
  ghost predicate PendingIntact(s: Slab, e: Entry) {
    && s.next != NULL && s.next !in s.blocks && NULL !in s.blocks
    && (e.size == 0 ==> e.buffptr == NULL)
    && (e.size != 0 ==> e.buffptr in s.blocks && |s.blocks[e.buffptr]| == e.size)
  }

  lemma InvPendingIntact(d: Device, l: Log)
    requires Inv(d, l)
    ensures PendingIntact(d.slab, d.pending)
  {
    forall p: Ptr | p in d.slab.blocks ensures p != d.slab.next && p != NULL {
      OwnedOnce(Owned(d), d.slab, p);
    }
  }

  /** Once the chunk is gathered, the block looked at and the block to be freed are both live. */
  ghost predicate Committable(g: Device) {
    && InBounds(g.ring)
    && 0 < g.pending.size && g.pending.buffptr in g.slab.blocks
    && |g.slab.blocks[g.pending.buffptr]| == g.pending.size
    && (g.ring.full ==> g.ring.entry[g.ring.inOffs].buffptr in g.slab.blocks)
  }

  /** A write stays inside its blocks exactly when there is a last byte to look at. */
  lemma CommittableIff(d: Device, l: Log, chunk: seq<byte>)
    requires Inv(d, l)
    ensures Committable(Gathered(d, chunk)) <==> chunk != [] || d.pending.size > 0
  {
    PendingText(d, l);
    if l.pending + chunk != [] {
      TextCommittable(d, l, chunk);
    }
  }

  lemma TextCommittable(d: Device, l: Log, chunk: seq<byte>)
    requires Inv(d, l) && l.pending + chunk != []
    ensures Committable(Gathered(d, chunk))
  {
    var g, m := Gathered(d, chunk), Log(l.commands, l.pending + chunk);
    GatheredHolds(d, l, chunk);
    if g.ring.full {
      AddedLive(g.ring, |m.commands|, NOTHING);
      assert Stored(g.slab, Live(g.ring)[0], Visible(m)[0]);
    }
  }

  /** What the body of a write relies on. */
  ghost predicate WriteReady(d: Device, chunk: seq<byte>, env: Env) {
    match env
    case Granted => PendingIntact(d.slab, d.pending) && Committable(Gathered(d, chunk))
    case LockInterrupted => true
    case _ => PendingIntact(d.slab, d.pending)
  }

  /** What the body of a read relies on: what the lookup finds is a live block of its entry's size. */
  ghost predicate ReadReady(d: Device, pos: nat)
    requires InBounds(d.ring)
  {
    match Find(d.ring, pos)
    case None => true
    case Some(Hit(slot, _)) =>
      && d.slab.next != NULL && d.slab.next !in d.slab.blocks
      && d.ring.entry[slot].buffptr in d.slab.blocks
      && |d.slab.blocks[d.ring.entry[slot].buffptr]| == d.ring.entry[slot].size
  }

  /** What a read of a good device relies on, and what it leaves. */
  lemma ReadSafe(d: Device, l: Log, call: Call)
    requires InBounds(d.ring) && Standing(l)(d) && call.Read?
    ensures ReadReady(d, call.pos)
    ensures InBounds(ReadCall(d, call).0.ring) && Standing(l)(ReadCall(d, call).0)
  {
    FindMatches(d, l, call.pos);
    InvPendingIntact(d, l);
    ReadKeeps(d, l, call);
  }

  /** What a write to a good device relies on, and what it leaves. */
  lemma WriteSafe(d: Device, l: Log, call: Call)
    requires InBounds(d.ring) && Standing(l)(d) && call.Write? && Enabled(d, call)
    ensures WriteReady(d, call.chunk, call.env)
    ensures InBounds(WriteCall(d, call).0.ring) && Standing(Effect(l, call))(WriteCall(d, call).0)
  {
    InvPendingIntact(d, l);
    if call.env.Granted? {
      CommittableIff(d, l, call.chunk);
    }
    WriteKeeps(d, l, call);
  }

  /** Slots below `i` are freed; freeing the others will lead to `target`. */
  ghost predicate Freeing(s: Slab, slots: seq<Entry>, i: nat, rest: multiset<Ptr>, target: Slab) {
    i <= |slots| && Accounted(HeldAll(slots[i..]) + rest, s) && FreeSlots(s, slots, i) == target
  }

  lemma FreeingStep(s: Slab, slots: seq<Entry>, i: nat, rest: multiset<Ptr>, target: Slab)
    requires Freeing(s, slots, i, rest, target) && i < |slots|
    ensures slots[i].buffptr == NULL || slots[i].buffptr in s.blocks
    ensures Freeing(Kfree(s, slots[i].buffptr), slots, i + 1, rest, target)
  {
    FreeSlotsStep(s, slots, i, rest);
  }

  lemma FreeingDone(s: Slab, slots: seq<Entry>, rest: multiset<Ptr>, target: Slab)
    requires Freeing(s, slots, |slots|, rest, target)
    ensures s == target && Accounted(rest, s)
  {
    assert HeldAll(slots[|slots|..]) + rest == rest;
  }

  /** A block taken and given back leaves the blocks as they were. */
  lemma ScratchBlocks(s: Slab, contents: seq<byte>)
    requires s.next !in s.blocks && s.next != NULL
    ensures Kfree(Kmalloc(s, contents), s.next) == Slab(s.next + 1, s.blocks, s.frees + [s.next])
  {
    assert s.blocks[s.next := contents] - {s.next} == s.blocks;
  }

  /** kmalloc, kfree and the copies into and out of blocks.  Every access must be inside a live block. */
  class KernelHeap {
    var next: Ptr
    var blocks: map<Ptr, seq<byte>>
    var frees: seq<Ptr>

    ghost function Value(): Slab
      reads this
    {
      Slab(next, blocks, frees)
    }

    constructor ()
      ensures Value() == Slab(1, map[], [])
    {
      next, blocks, frees := 1, map[], [];
    }

    /** A block of `size` bytes with arbitrary contents, or NULL. */
    method Allocate(size: nat, granted: bool) returns (p: Ptr)
      requires next != NULL
      modifies this
      ensures !granted ==> p == NULL && Value() == old(Value())
      ensures granted ==> p == old(next) && p in blocks && |blocks[p]| == size
      ensures granted ==> Value() == Kmalloc(old(Value()), blocks[p])
    {
      if !granted {
        return NULL;
      }
      assert |seq(size, _ => NUL)| == size;
      var junk: seq<byte> :| |junk| == size;
      p := next;
      blocks := blocks[p := junk];
      next := next + 1;
    }

    method Store(p: Ptr, offset: nat, data: seq<byte>)
      requires p in blocks && offset + |data| <= |blocks[p]|
      modifies this`blocks
      ensures blocks == old(blocks)[p := old(blocks[p])[..offset] + data + old(blocks[p])[offset + |data|..]]
    {
      blocks := blocks[p := blocks[p][..offset] + data + blocks[p][offset + |data|..]];
    }

    /** Copying no bytes is allowed from anywhere, NULL included. */
    method Load(p: Ptr, offset: nat, n: nat) returns (data: seq<byte>)
      requires n == 0 || (p in blocks && offset + n <= |blocks[p]|)
      ensures data == if n == 0 then [] else blocks[p][offset..offset + n]
    {
      data := if n == 0 then [] else blocks[p][offset..offset + n];
    }

    /** The bytes of `p` from `offset` on fill the block `copy`. */
    method CopyTail(p: Ptr, offset: nat, copy: Ptr) returns (data: seq<byte>)
      requires p in blocks && copy in blocks && offset + |blocks[copy]| == |blocks[p]|
      modifies this`blocks
      ensures data == old(blocks[p])[offset..] && blocks == old(blocks)[copy := data]
    {
      ghost var was := blocks[copy];
      data := Load(p, offset, |blocks[copy]|);
      assert was[..0] + data + was[|data|..] == data;
      Store(copy, 0, data);
    }

    method Free(p: Ptr)
      requires p == NULL || p in blocks
      modifies this
      ensures Value() == Kfree(old(Value()), p)
    {
      if p != NULL {
        blocks := blocks - {p};
        frees := frees + [p];
      }
    }
  }

  class Chardev {
    const pbuffer: Buffer
    const heap: KernelHeap
    var fullUserEntry: Entry
    var buffSize: nat
    var locked: bool
    ghost var leaked: seq<Ptr>

    ghost function Value(): Device
      reads this, pbuffer, pbuffer.entry, heap
    {
      Device(pbuffer.Value(), heap.Value(), fullUserEntry, buffSize, leaked)
    }

    /** The device stands for log `l` and nobody holds its mutex. */
    ghost predicate Valid(l: Log)
      reads this, pbuffer, pbuffer.entry, heap
    {
      InBounds(pbuffer.Value()) && Standing(l)(Value()) && !locked
    }

    constructor ()
      ensures Valid(EMPTY_LOG) && Value() == Loaded()
      ensures fresh(pbuffer) && fresh(pbuffer.entry) && fresh(heap)
    {
      pbuffer := new Buffer();
      heap := new KernelHeap();
      fullUserEntry, buffSize, locked := NOTHING, 0, false;
      leaked := [];
      new;
      LoadedInv();
    }

    /** Old bytes to the front of a new block, the user's bytes, when they arrive, behind them. */
    method Fill(tmp: Ptr, chunk: seq<byte>, arrives: bool)
      requires fullUserEntry.size != 0 ==>
        && fullUserEntry.buffptr in heap.blocks && tmp != fullUserEntry.buffptr
        && |heap.blocks[fullUserEntry.buffptr]| == fullUserEntry.size
      requires tmp in heap.blocks && |heap.blocks[tmp]| == |chunk| + fullUserEntry.size
      modifies heap`blocks
      ensures tmp in heap.blocks && heap.blocks == old(heap.blocks)[tmp := heap.blocks[tmp]]
      ensures arrives ==>
        heap.blocks[tmp] == (if fullUserEntry.size == 0 then [] else old(heap.blocks[fullUserEntry.buffptr])) + chunk
    {
      var gathered := heap.Load(fullUserEntry.buffptr, 0, fullUserEntry.size);
      heap.Store(tmp, 0, gathered);
      if arrives {
        heap.Store(tmp, fullUserEntry.size, chunk);
      }
    }

    /** The pending entry moves into the ring; on a full ring the block it replaces is freed. */
    method Commit()
      requires locked && InBounds(pbuffer.Value())
      requires pbuffer.full ==> pbuffer.entry[pbuffer.inOffs].buffptr in heap.blocks
      modifies this`fullUserEntry, this`buffSize, pbuffer, pbuffer.entry, heap
      ensures Value() == Committed(old(Value()))
    {
      if pbuffer.full {
        var oldest := pbuffer.RefBuff();
        heap.Free(oldest);
      }
      pbuffer.AddEntry(fullUserEntry);
      buffSize := buffSize + fullUserEntry.size;
      fullUserEntry := NOTHING;
    }

    /** The newline test and what follows from it. */
    method CommitIfComplete()
      requires locked && Committable(Value())
      modifies this`fullUserEntry, this`buffSize, pbuffer, pbuffer.entry, heap
      ensures Value() == CommittedIfComplete(old(Value()))
    {
      var last := heap.Load(fullUserEntry.buffptr, fullUserEntry.size - 1, 1);
      if last[0] == LF {
        Commit();
      }
    }

    /** The first half of a write: the gathered bytes and the chunk in one new block. */
    method Gather(chunk: seq<byte>, env: Env) returns (err: int)
      requires locked && PendingIntact(heap.Value(), fullUserEntry) && !env.LockInterrupted?
      modifies this`fullUserEntry, heap
      ensures err == if env.NoMemory? then -ENOMEM else if env.CopyFault? then -EFAULT else 0
      ensures env.NoMemory? ==> Value() == old(Value())
      ensures env.CopyFault? ==>
        var slab := old(Value()).slab;
        Value() == old(Value()).(slab := Slab(slab.next + 1, slab.blocks, slab.frees + [slab.next]))
      ensures env.Granted? ==> Value() == Gathered(old(Value()), chunk)
    {
      var tmp := heap.Allocate(|chunk| + fullUserEntry.size, !env.NoMemory?);
      if tmp == NULL {
        return -ENOMEM;
      }
      Fill(tmp, chunk, !env.CopyFault?);
      if env.CopyFault? {
        heap.Free(tmp);
        assert heap.blocks == old(heap.blocks);
        return -EFAULT;
      }
      heap.Free(fullUserEntry.buffptr);
      fullUserEntry := Entry(tmp, fullUserEntry.size + |chunk|);
      return 0;
    }

    /** The system call, on a device in which the blocks it touches are live. */
    method DoWrite(pos: nat, chunk: seq<byte>, env: Env) returns (reply: Reply)
      requires InBounds(pbuffer.Value()) && WriteReady(Value(), chunk, env) && !locked
      modifies this, pbuffer, pbuffer.entry, heap
      ensures (Value(), reply) == WriteCall(old(Value()), Call.Write(pos, chunk, env)) && !locked
    {
      if env.LockInterrupted? {
        return Reply(-ERESTARTSYS, pos, []);
      }
      locked := true;
      ScratchBlocks(heap.Value(), Block(heap.Value(), fullUserEntry.buffptr));
      var err := Gather(chunk, env);
      if err != 0 {
        locked := false;
        return Reply(err, pos, []);
      }
      CommitIfComplete();
      locked := false;
      return Reply(|chunk|, pos + |chunk|, []);
    }

    method Write(pos: nat, chunk: seq<byte>, env: Env, ghost l: Log) returns (reply: Reply)
      requires Valid(l) && Enabled(Value(), Call.Write(pos, chunk, env))
      modifies this, pbuffer, pbuffer.entry, heap
      ensures (Value(), reply) == WriteCall(old(Value()), Call.Write(pos, chunk, env))
      ensures Valid(Effect(l, Call.Write(pos, chunk, env)))
    {
      WriteSafe(Value(), l, Call.Write(pos, chunk, env));
      reply := DoWrite(pos, chunk, env);
    }

    /** The system call, on a device in which the block it finds is live. */
    method DoRead(pos: nat, count: nat, env: Env) returns (reply: Reply)
      requires InBounds(pbuffer.Value()) && ReadReady(Value(), pos) && !locked
      modifies this`locked, this`leaked, heap
      ensures (Value(), reply) == ReadCall(old(Value()), Call.Read(pos, count, env)) && !locked
    {
      if env.LockInterrupted? {
        return Reply(-ERESTARTSYS, pos, []);
      }
      locked := true;
      reply := Reply(0, pos, []);
      var hit := pbuffer.FindEntryOffsetForFpos(pos);
      if hit.Some? {
        reply := CopyOut(pbuffer.entry[hit.value.slot], hit.value.offset, pos, count, env);
      }
      locked := false;
    }

    /** The rest of an entry goes to the user by way of a block that nobody frees. */
    method CopyOut(e: Entry, offset: nat, pos: nat, count: nat, env: Env) returns (reply: Reply)
      requires locked && heap.next != NULL && heap.next !in heap.blocks
      requires e.buffptr in heap.blocks && offset < |heap.blocks[e.buffptr]| == e.size
      modifies this`leaked, heap
      ensures env.NoMemory? ==> reply == Reply(-EFAULT, pos, []) && Value() == old(Value())
      ensures !env.NoMemory? ==> Value() == Leaked(old(Value()), old(heap.blocks[e.buffptr])[offset..])
      ensures env.CopyFault? ==> reply == Reply(-EFAULT, pos, [])
      ensures env.Granted? ==>
        var data := old(heap.blocks[e.buffptr])[offset..];
        reply == Reply(if count > |data| then |data| else count, pos + |data|, data)
    {
      var size := e.size - offset;
      var copy := heap.Allocate(size, !env.NoMemory?);
      if copy == NULL {
        return Reply(-EFAULT, pos, []);
      }
      leaked := leaked + [copy];
      var data := heap.CopyTail(e.buffptr, offset, copy);
      assert heap.blocks == old(heap.blocks)[copy := data];
      if env.CopyFault? {
        return Reply(-EFAULT, pos, []);
      }
      return Reply(if count > size then size else count, pos + size, data);
    }

    method Read(pos: nat, count: nat, env: Env, ghost l: Log) returns (reply: Reply)
      requires Valid(l)
      modifies this, heap
      ensures (Value(), reply) == ReadCall(old(Value()), Call.Read(pos, count, env))
      ensures Valid(l)
    {
      ReadSafe(Value(), l, Call.Read(pos, count, env));
      reply := DoRead(pos, count, env);
    }

    /** Any one call; one that has no byte to look at is skipped, and answered with 0. */
    method Perform(call: Call, ghost l: Log) returns (reply: Reply)
      requires Valid(l)
      modifies this, pbuffer, pbuffer.entry, heap
      ensures Value() == Step(old(Value()), call) && !locked
      ensures Enabled(old(Value()), call) ==> reply == Driver.Perform(old(Value()), call).1
    {
      match call
      case Write(pos, chunk, env) =>
        if env.Granted? && chunk == [] && fullUserEntry.size == 0 {
          return Reply(0, pos, []);
        }
        reply := Write(pos, chunk, env, l);
      case Read(pos, count, env) =>
        reply := Read(pos, count, env, l);
    }

    /** The mutex is not taken; `None` stands for -EINVAL. */
    method Seek(pos: nat, off: int, whence: int) returns (r: Option<nat>)
      ensures r == Lseek(Value(), pos, off, whence)
    {
      var newPos := -1;
      match whence {
        case 0 => newPos := off;
        case 1 => newPos := pos + off;
        case 2 => newPos := buffSize;
        case _ => return None;
      }
      if 0 > newPos {
        return None;
      }
      return Some(newPos);
    }

    /** The free loop of the module's exit function. */
    method Unload(ghost l: Log)
      requires Valid(l)
      modifies heap
      ensures heap.Value() == Unloaded(old(Value()))
      ensures Accounted(Held(fullUserEntry) + multiset(leaked), heap.Value())
    {
      SlotsAccounted(Value(), l);
      FreeLoop(Held(fullUserEntry) + multiset(leaked));
    }

    /** Every slot in turn; the ones never used hold NULL. */
    method FreeLoop(ghost rest: multiset<Ptr>)
      requires pbuffer.entry.Length == CAPACITY && Accounted(HeldAll(pbuffer.entry[..][0..]) + rest, heap.Value())
      modifies heap
      ensures heap.Value() == FreeSlots(old(heap.Value()), pbuffer.entry[..], 0)
      ensures Accounted(rest, heap.Value())
    {
      ghost var slots, target := pbuffer.entry[..], FreeSlots(heap.Value(), pbuffer.entry[..], 0);
      for i := 0 to CAPACITY
        invariant Freeing(heap.Value(), slots, i, rest, target)
      {
        FreeingStep(heap.Value(), slots, i, rest, target);
        var p := pbuffer.entry[i].buffptr;
        if p != NULL {
          heap.Free(p);
        }
      }
      FreeingDone(heap.Value(), slots, rest, target);
    }
  }

  /** Call `k` of a run is answered as the run answers it; one that is skipped has no answer. */
  ghost predicate AnswersAt(calls: seq<Call>, k: nat, reply: Reply)
    requires k < |calls|
  {
    Enabled(Run(calls[..k]), calls[k]) ==> reply == Driver.Perform(Run(calls[..k]), calls[k]).1
  }

  ghost predicate AllAnswered(calls: seq<Call>, replies: seq<Reply>) {
    |replies| <= |calls| && forall k :: 0 <= k < |replies| ==> AnswersAt(calls, k, replies[k])
  }

  lemma OneMoreAnswered(calls: seq<Call>, replies: seq<Reply>, reply: Reply)
    requires AllAnswered(calls, replies) && |replies| < |calls| && AnswersAt(calls, |replies|, reply)
    ensures AllAnswered(calls, replies + [reply])
  {
  }

  lemma RunStands(calls: seq<Call>)
    ensures Standing(History(calls))(Run(calls))
  {
    WholeRun(calls);
  }

  lemma RunStep(calls: seq<Call>, n: nat)
    requires n < |calls|
    ensures Run(calls[..n + 1]) == Step(Run(calls[..n]), calls[n])
  {
    RunAppend(calls[..n], calls[n]);
    assert calls[..n + 1] == calls[..n] + [calls[n]];
  }

  /** A device in memory that goes through any calls is the device of the run, and answers as it does. */
  method PerformAll(calls: seq<Call>) returns (dev: Chardev, replies: seq<Reply>)
    ensures fresh(dev) && dev.Valid(History(calls)) && dev.Value() == Run(calls)
    ensures |replies| == |calls| && AllAnswered(calls, replies)
  {
    dev := new Chardev();
    replies := [];
    for n := 0 to |calls|
      invariant fresh(dev) && fresh(dev.pbuffer) && fresh(dev.pbuffer.entry) && fresh(dev.heap)
      invariant dev.Value() == Run(calls[..n]) && !dev.locked
      invariant |replies| == n && AllAnswered(calls, replies)
    {
      RunStands(calls[..n]);
      var reply := dev.Perform(calls[n], History(calls[..n]));
      OneMoreAnswered(calls, replies, reply);
      RunStep(calls, n);
      replies := replies + [reply];
    }
    assert calls[..|calls|] == calls;
    RunStands(calls);
  }
}
