/**
 The character device (main.c) as values: what one call does to the ring, the static pending
 entry, the byte counter and the kernel heap.
 */
module Driver {
  import opened Bytes
  import opened CircularBuffer
  import opened CommandLog

  const EFAULT := 14
  const ENOMEM := 12
  const ERESTARTSYS := 512

  // ---------------------------------------------------------------- the kernel heap

  /** Blocks in use, the next unused address, and every address ever passed to `kfree`. */
  datatype Slab = Slab(next: Ptr, blocks: map<Ptr, seq<byte>>, frees: seq<Ptr>)

  function Kmalloc(s: Slab, contents: seq<byte>): Slab {
    Slab(s.next + 1, s.blocks[s.next := contents], s.frees)
  }

  function Kfree(s: Slab, p: Ptr): Slab {
    if p == NULL then s else Slab(s.next, s.blocks - {p}, s.frees + [p])
  }

  function Block(s: Slab, p: Ptr): seq<byte> {
    if p in s.blocks then s.blocks[p] else []
  }

  /** Every address below `next`, once. */
  function Issued(next: Ptr): multiset<Ptr> {
    if next <= 1 then multiset{} else Issued(next - 1) + multiset{next - 1}
  }

  // ---------------------------------------------------------------- the device and its calls

  /**
   `pending` is the function-static entry of the write path.  `leaked` lists the read buffers,
   which no path releases.
   */
  datatype Device = Device(ring: Ring, slab: Slab, pending: Entry, buffSize: nat, leaked: seq<Ptr>)

  /** What the kernel services do during a call. */
  datatype Env = Granted | LockInterrupted | NoMemory | CopyFault

  /** A system call with the file position it is entered with. */
  datatype Call =
    | Write(pos: nat, chunk: seq<byte>, env: Env)
    | Read(pos: nat, count: nat, env: Env)

  /** The return value, the file position on exit and the bytes copied to the user. */
  datatype Reply = Reply(ret: int, pos: nat, data: seq<byte>)

  const NOTHING := Entry(NULL, 0)

  function Loaded(): Device {
    Device(Zeroed(), Slab(1, map[], []), NOTHING, 0, [])
  }

  /** A write looks at the last gathered byte, so there must be one. */
  predicate Enabled(d: Device, call: Call) {
    call.Write? && call.env.Granted? ==> call.chunk != [] || d.pending.size > 0
  }

  /** The gathered bytes move to a block long enough for them and the new chunk. */
  function Gathered(d: Device, chunk: seq<byte>): Device {
    var text := Block(d.slab, d.pending.buffptr) + chunk;
    d.(slab := Kfree(Kmalloc(d.slab, text), d.pending.buffptr),
       pending := Entry(d.slab.next, d.pending.size + |chunk|))
  }

  /** The pending entry becomes the newest command; on a full ring the oldest one is freed. */
  function Committed(d: Device): Device
    requires InBounds(d.ring)
  {
    Device(Added(d.ring, d.pending),
           if d.ring.full then Kfree(d.slab, d.ring.entry[d.ring.inOffs].buffptr) else d.slab,
           NOTHING, d.buffSize + d.pending.size, d.leaked)
  }

  /** The gathered text is a command once it ends in a newline. */
  function CommittedIfComplete(d: Device): Device
    requires InBounds(d.ring)
  {
    if EndsInNewline(Block(d.slab, d.pending.buffptr)) then Committed(d) else d
  }

  function WriteCall(d: Device, call: Call): (Device, Reply)
    requires InBounds(d.ring) && call.Write?
  {
    match call.env
    case LockInterrupted => (d, Reply(-ERESTARTSYS, call.pos, []))
    case NoMemory => (d, Reply(-ENOMEM, call.pos, []))
    case CopyFault =>
      (d.(slab := Kfree(Kmalloc(d.slab, Block(d.slab, d.pending.buffptr)), d.slab.next)), Reply(-EFAULT, call.pos, []))
    case Granted =>
      (CommittedIfComplete(Gathered(d, call.chunk)), Reply(|call.chunk|, call.pos + |call.chunk|, []))
  }

  /** A read takes a block for its copy of the data and loses it. */
  function Leaked(d: Device, data: seq<byte>): Device {
    d.(slab := Kmalloc(d.slab, data), leaked := d.leaked + [d.slab.next])
  }

  function ReadCall(d: Device, call: Call): (Device, Reply)
    requires InBounds(d.ring) && call.Read?
  {
    if call.env.LockInterrupted? then (d, Reply(-ERESTARTSYS, call.pos, []))
    else
      match Find(d.ring, call.pos)
      case None => (d, Reply(0, call.pos, []))
      case Some(Hit(slot, offset)) =>
        var size := d.ring.entry[slot].size - offset;
        var block := Block(d.slab, d.ring.entry[slot].buffptr);
        var data := if offset <= |block| then block[offset..] else [];
        match call.env
        case NoMemory => (d, Reply(-EFAULT, call.pos, []))
        case CopyFault => (Leaked(d, data), Reply(-EFAULT, call.pos, []))
        case _ => (Leaked(d, data), Reply(if call.count > size then size else call.count, call.pos + size, data))
  }

  function Perform(d: Device, call: Call): (Device, Reply)
    requires InBounds(d.ring)
  {
    if call.Write? then WriteCall(d, call) else ReadCall(d, call)
  }

  /** The device after a call; a call that is not enabled is skipped. */
  function Step(d: Device, call: Call): (d': Device)
    requires InBounds(d.ring)
    ensures InBounds(d'.ring)
  {
    if Enabled(d, call) then Perform(d, call).0 else d
  }

  /** The device after any sequence of calls since the module was loaded. */
  function Run(calls: seq<Call>): (d: Device)
    ensures InBounds(d.ring)
  {
    if calls == [] then Loaded() else Step(Run(calls[..|calls| - 1]), calls[|calls| - 1])
  }

  /** `None` stands for -EINVAL with the position unchanged. */
  function Lseek(d: Device, pos: nat, off: int, whence: int): Option<nat> {
    match whence
    case 0 => if off < 0 then None else Some(off)
    case 1 => if pos + off < 0 then None else Some(pos + off)
    case 2 => Some(d.buffSize)
    case _ => None
  }

  /** The heap after the unload loop has freed slots `i` and up. */
  function FreeSlots(s: Slab, entry: seq<Entry>, i: nat): Slab
    requires i <= |entry|
    decreases |entry| - i
  {
    if i == |entry| then s else FreeSlots(Kfree(s, entry[i].buffptr), entry, i + 1)
  }

  function Unloaded(d: Device): Slab {
    FreeSlots(d.slab, d.ring.entry, 0)
  }

  // ---------------------------------------------------------------- the invariant

  function Ptrs(es: seq<Entry>): seq<Ptr> {
    seq(|es|, i requires 0 <= i < |es| => es[i].buffptr)
  }

  function Held(e: Entry): multiset<Ptr> {
    if e.buffptr == NULL then multiset{} else multiset{e.buffptr}
  }

  /** Everywhere a block can be: a live slot, the pending entry, a lost read buffer. */
  function Owned(d: Device): multiset<Ptr>
    requires InBounds(d.ring)
  {
    multiset(Ptrs(Live(d.ring))) + Held(d.pending) + multiset(d.leaked)
  }

  /** Each address ever issued is either one of `owned` or freed, and only once. */
  ghost predicate Accounted(owned: multiset<Ptr>, s: Slab) {
    && s.next >= 1
    && owned + multiset(s.frees) == Issued(s.next)
    && forall p: Ptr :: p in s.blocks <==> p in owned
  }

  ghost predicate Ledger(d: Device)
    requires InBounds(d.ring)
  {
    Accounted(Owned(d), d.slab)
  }

  ghost predicate Stored(s: Slab, e: Entry, text: seq<byte>) {
    e.buffptr in s.blocks && s.blocks[e.buffptr] == text && e.size == |text|
  }

  ghost predicate AllStored(s: Slab, es: seq<Entry>, ss: seq<seq<byte>>) {
    |es| == |ss| && forall i :: 0 <= i < |es| ==> Stored(s, es[i], ss[i])
  }

  /** The device holds the visible commands and the unfinished one of `l`. */
  ghost predicate Holds(d: Device, l: Log) {
    && Shape(d.ring, |l.commands|)
    && AllStored(d.slab, Live(d.ring), Visible(l))
    && (if l.pending == [] then d.pending == NOTHING else Stored(d.slab, d.pending, l.pending))
    && d.buffSize == |Flatten(l.commands)|
  }

  ghost predicate Inv(d: Device, l: Log) {
    WellFormed(l) && Holds(d, l) && Ledger(d)
  }

  /** The devices that stand for log `l`. */
  ghost function Standing(l: Log): Device -> bool {
    (d: Device) => Inv(d, l)
  }
}
