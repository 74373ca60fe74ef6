/**
 Any number of threads inside the driver at once.  A call is broken into the steps at which
 another thread could come in between; the device mutex decides who takes them.
 */
module Interleaving {
  import opened Bytes
  import opened CircularBuffer
  import opened CommandLog
  import opened Driver
  import opened DriverInvariant
  import opened DriverRuns

  type Tid = nat

  // ---------------------------------------------------------------- one call in small steps

  /** Where a call is, with the locals it needs from there on. */
  datatype Pc =
    | WriteAlloc                       // kmalloc and copy of the gathered bytes
    | WriteCopy(tmp: Ptr)              // copy_from_user
    | WriteFree(tmp: Ptr)              // kfree of the old pending block
    | WriteSwap(tmp: Ptr)              // the new block becomes the pending entry
    | WriteCheck                       // does the gathered text end in a newline?
    | WriteEvict                       // kfree of the block about to be overwritten
    | WriteAdd                         // add to the ring
    | WriteCount                       // buff_size
    | WriteReset                       // nothing is pending any more
    | WriteDone                        // file position and return value
    | ReadFind                         // lookup
    | ReadAlloc(hit: Hit)              // kmalloc and copy of the rest of the entry
    | ReadCopy(size: nat, data: seq<byte>) // copy_to_user, file position and return value
    | Finished(reply: Reply)           // at the unlock

  datatype RawConfig = Config(dev: Device, pc: Pc)

  type Config = c: RawConfig | InBounds(c.dev.ring) witness Config(Loaded(), WriteAlloc)

  function FirstPc(call: Call): Pc {
    if call.Write? then WriteAlloc else ReadFind
  }

  /**
   One small step.  Tests of the kind of call and of the range of a hit only make the function
   total; no call ever meets their other side.
   */
  function Micro(call: Call, c: Config): Config {
    var d := c.dev;
    match c.pc
    case WriteAlloc =>
      if call.env.NoMemory? then Config(d, Finished(Reply(-ENOMEM, call.pos, [])))
      else Config(d.(slab := Kmalloc(d.slab, Block(d.slab, d.pending.buffptr))), WriteCopy(d.slab.next))
    case WriteCopy(tmp) =>
      if call.env.CopyFault? || !call.Write? then
        Config(d.(slab := Kfree(d.slab, tmp)), Finished(Reply(-EFAULT, call.pos, [])))
      else
        var text := Block(d.slab, d.pending.buffptr) + call.chunk;
        Config(d.(slab := d.slab.(blocks := d.slab.blocks[tmp := text])), WriteFree(tmp))
    case WriteFree(tmp) => Config(d.(slab := Kfree(d.slab, d.pending.buffptr)), WriteSwap(tmp))
    case WriteSwap(tmp) =>
      Config(d.(pending := Entry(tmp, d.pending.size + if call.Write? then |call.chunk| else 0)), WriteCheck)
    case WriteCheck =>
      if !EndsInNewline(Block(d.slab, d.pending.buffptr)) then Config(d, WriteDone)
      else Config(d, if d.ring.full then WriteEvict else WriteAdd)
    case WriteEvict => Config(d.(slab := Kfree(d.slab, d.ring.entry[d.ring.inOffs].buffptr)), WriteAdd)
    case WriteAdd => Config(d.(ring := Added(d.ring, d.pending)), WriteCount)
    case WriteCount => Config(d.(buffSize := d.buffSize + d.pending.size), WriteReset)
    case WriteReset => Config(d.(pending := NOTHING), WriteDone)
    case WriteDone =>
      var n := if call.Write? then |call.chunk| else 0;
      Config(d, Finished(Reply(n, call.pos + n, [])))
    case ReadFind =>
      match Find(d.ring, call.pos) {
        case None => Config(d, Finished(Reply(0, call.pos, [])))
        case Some(hit) => Config(d, ReadAlloc(hit))
      }
    case ReadAlloc(Hit(slot, offset)) =>
      if call.env.NoMemory? || slot >= CAPACITY || offset > d.ring.entry[slot].size then
        Config(d, Finished(Reply(-EFAULT, call.pos, [])))
      else
        var block := Block(d.slab, d.ring.entry[slot].buffptr);
        var data := if offset <= |block| then block[offset..] else [];
        Config(Leaked(d, data), ReadCopy(d.ring.entry[slot].size - offset, data))
    case ReadCopy(size, data) =>
      if call.env.CopyFault? || !call.Read? then Config(d, Finished(Reply(-EFAULT, call.pos, [])))
      else Config(d, Finished(Reply(if call.count > size then size else call.count, call.pos + size, data)))
    case Finished(_) => c
  }

  /** The small step of a call, as a function to iterate. */
  function Stepper(call: Call): Config -> Config {
    (c: Config) => Micro(call, c)
  }

  function Iterate<T>(f: T -> T, x: T, n: nat): T {
    if n == 0 then x else f(Iterate(f, x, n - 1))
  }

  /** The configuration `n` small steps later. */
  function Micros(call: Call, c: Config, n: nat): Config {
    Iterate<Config>(Stepper(call), c, n)
  }

  function Begin(d: Device, call: Call): Config
    requires InBounds(d.ring)
  {
    Config(d, FirstPc(call))
  }

  /** Steps left to go never increase and reach 0 only at the unlock. */
  function ToGo(pc: Pc): (n: nat)
    ensures n <= 10
  {
    match pc
    case WriteAlloc => 10
    case WriteCopy(_) => 9
    case WriteFree(_) => 8
    case WriteSwap(_) => 7
    case WriteCheck => 6
    case WriteEvict => 5
    case WriteAdd => 4
    case WriteCount => 3
    case WriteReset => 2
    case WriteDone => 1
    case ReadFind => 3
    case ReadAlloc(_) => 2
    case ReadCopy(_, _) => 1
    case Finished(_) => 0
  }

  lemma MicroProgress(call: Call, c: Config)
    ensures c.pc.Finished? ==> Micro(call, c) == c
    ensures !c.pc.Finished? ==> ToGo(Micro(call, c).pc) < ToGo(c.pc)
  {
  }

  lemma {:induction false} IterateAdd<T>(f: T -> T, x: T, m: nat, n: nat)
    ensures Iterate(f, x, m + n) == Iterate(f, Iterate(f, x, m), n)
  {
    if n > 0 {
      IterateAdd(f, x, m, n - 1);
    }
  }

  lemma {:induction false} IterateStay<T>(f: T -> T, x: T, n: nat)
    requires f(x) == x
    ensures Iterate(f, x, n) == x
  {
    if n > 0 {
      IterateStay(f, x, n - 1);
    }
  }

  lemma IterateSettled<T>(f: T -> T, x: T, m: nat, n: nat)
    requires m <= n && f(Iterate(f, x, m)) == Iterate(f, x, m)
    ensures Iterate(f, x, n) == Iterate(f, x, m)
  {
    IterateAdd(f, x, m, n - m);
    IterateStay(f, Iterate(f, x, m), n - m);
  }

  lemma FinishedFixed(call: Call, c: Config)
    requires c.pc.Finished?
    ensures Stepper(call)(c) == c
  {
  }

  /** A call that has reached the unlock stays there. */
  lemma MicrosSettled(call: Call, c: Config, m: nat, n: nat)
    requires m <= n && Micros(call, c, m).pc.Finished?
    ensures Micros(call, c, n) == Micros(call, c, m)
  {
    FinishedFixed(call, Micros(call, c, m));
    IterateSettled<Config>(Stepper(call), c, m, n);
  }

  lemma MicrosChain(call: Call, c0: Config, m: nat, c1: Config, n: nat, c2: Config)
    requires Micros(call, c0, m) == c1 && Micros(call, c1, n) == c2
    ensures Micros(call, c0, m + n) == c2
  {
    IterateAdd<Config>(Stepper(call), c0, m, n);
  }

  // ---------------------------------------------------------------- small steps make the call

  /** Four steps bring a granted write from its start to the newline check. */
  lemma GatherSteps(d: Device, call: Call) returns (m: nat)
    requires InBounds(d.ring) && call.Write? && call.env.Granted? && d.pending.buffptr != d.slab.next
    ensures m <= 4
    ensures Micros(call, Begin(d, call), m) == Config(Gathered(d, call.chunk), WriteCheck)
  {
    m := 4;
    var tmp, text := d.slab.next, Block(d.slab, d.pending.buffptr) + call.chunk;
    var c0 := Begin(d, call);
    var c1 := Micro(call, c0);
    var c2 := Micro(call, c1);
    assert c1.dev.slab.blocks[tmp := text] == d.slab.blocks[tmp := text];
    assert c2 == Config(d.(slab := Kmalloc(d.slab, text)), WriteFree(tmp));
    var c3 := Micro(call, c2);
    var c4 := Micro(call, c3);
    assert c4 == Config(Gathered(d, call.chunk), WriteCheck);
    assert Micros(call, c0, 1) == c1 && Micros(call, c0, 2) == c2 && Micros(call, c0, 3) == c3;
  }

  /** At most six more bring it to the unlock, by way of the ring if the text is complete. */
  lemma CommitSteps(g: Device, call: Call) returns (m: nat)
    requires InBounds(g.ring) && call.Write?
    ensures m <= 6
    ensures Micros(call, Config(g, WriteCheck), m)
         == Config(CommittedIfComplete(g), Finished(Reply(|call.chunk|, call.pos + |call.chunk|, [])))
  {
    if !EndsInNewline(Block(g.slab, g.pending.buffptr)) {
      m := 2;
      var c0: Config := Config(g, WriteCheck);
      assert Micros(call, c0, 1) == Micro(call, c0) == Config(g, WriteDone);
    } else if g.ring.full {
      var g' := g.(slab := Kfree(g.slab, g.ring.entry[g.ring.inOffs].buffptr));
      var c0: Config := Config(g, WriteCheck);
      assert Micros(call, c0, 1) == Micro(call, c0) == Config(g, WriteEvict);
      assert Micros(call, c0, 2) == Config(g', WriteAdd);
      AddSteps(g', call);
      MicrosChain(call, c0, 2, Config(g', WriteAdd), 4, Micros(call, Config(g', WriteAdd), 4));
      m := 6;
    } else {
      var c0: Config := Config(g, WriteCheck);
      assert Micros(call, c0, 1) == Micro(call, c0) == Config(g, WriteAdd);
      AddSteps(g, call);
      MicrosChain(call, c0, 1, Config(g, WriteAdd), 4, Micros(call, Config(g, WriteAdd), 4));
      m := 5;
    }
  }

  /** From the add to the unlock. */
  lemma AddSteps(g: Device, call: Call)
    requires InBounds(g.ring) && call.Write?
    ensures Micros(call, Config(g, WriteAdd), 4)
         == Config(Device(Added(g.ring, g.pending), g.slab, NOTHING, g.buffSize + g.pending.size, g.leaked),
                   Finished(Reply(|call.chunk|, call.pos + |call.chunk|, [])))
  {
    var c0: Config := Config(g, WriteAdd);
    var c1 := Micro(call, c0);
    var c2 := Micro(call, c1);
    var c3 := Micro(call, c2);
    assert Micros(call, c0, 1) == c1 && Micros(call, c0, 2) == c2 && Micros(call, c0, 3) == c3;
  }

  lemma FailedWriteSteps(d: Device, call: Call)
    requires InBounds(d.ring) && call.Write? && (call.env.NoMemory? || call.env.CopyFault?)
    ensures Micros(call, Begin(d, call), 2) == Config(WriteCall(d, call).0, Finished(WriteCall(d, call).1))
  {
    var c1 := Micro(call, Begin(d, call));
    assert Micros(call, Begin(d, call), 1) == c1;
  }

  lemma ReadSteps(d: Device, call: Call) returns (m: nat)
    requires InBounds(d.ring) && call.Read? && !call.env.LockInterrupted?
    ensures m <= 3
    ensures Micros(call, Begin(d, call), m) == Config(ReadCall(d, call).0, Finished(ReadCall(d, call).1))
  {
    var c0 := Begin(d, call);
    var c1 := Micro(call, c0);
    assert Micros(call, c0, 1) == c1;
    if Find(d.ring, call.pos).None? {
      m := 1;
    } else {
      var c2 := Micro(call, c1);
      assert Micros(call, c0, 2) == c2;
      m := if call.env.NoMemory? then 2 else 3;
    }
  }

  lemma GrantedWriteSteps(d: Device, call: Call) returns (m: nat)
    requires InBounds(d.ring) && call.Write? && call.env.Granted? && d.pending.buffptr != d.slab.next
    ensures m <= 10
    ensures Micros(call, Begin(d, call), m) == Config(WriteCall(d, call).0, Finished(WriteCall(d, call).1))
  {
    var g, done := Gathered(d, call.chunk), Config(WriteCall(d, call).0, Finished(WriteCall(d, call).1));
    var j := GatherSteps(d, call);
    var k := CommitSteps(g, call);
    assert done == Config(CommittedIfComplete(g), Finished(Reply(|call.chunk|, call.pos + |call.chunk|, [])));
    MicrosChain(call, Begin(d, call), j, Config(g, WriteCheck), k, done);
    m := j + k;
  }

  /** The steps a call takes to the unlock, when undisturbed, do what the call does. */
  lemma SomeStepsMakeCall(d: Device, call: Call) returns (m: nat)
    requires InBounds(d.ring) && !call.env.LockInterrupted? && d.pending.buffptr != d.slab.next
    ensures m <= 10
    ensures Micros(call, Begin(d, call), m) == Config(Perform(d, call).0, Finished(Perform(d, call).1))
  {
    if call.Read? {
      m := ReadSteps(d, call);
    } else if call.env.Granted? {
      m := GrantedWriteSteps(d, call);
    } else {
      FailedWriteSteps(d, call);
      m := 2;
    }
  }

  lemma StepsMakeCall(d: Device, call: Call, n: nat)
    requires InBounds(d.ring) && !call.env.LockInterrupted? && d.pending.buffptr != d.slab.next && n >= 10
    ensures Micros(call, Begin(d, call), n) == Config(Perform(d, call).0, Finished(Perform(d, call).1))
  {
    var m := SomeStepsMakeCall(d, call);
    MicrosSettled(call, Begin(d, call), m, n);
  }

  /** A call seen at the unlock, after however many steps, has done what the call does. */
  lemma FinishedMeansDone(d: Device, call: Call, n: nat)
    requires InBounds(d.ring) && !call.env.LockInterrupted? && d.pending.buffptr != d.slab.next
    requires Micros(call, Begin(d, call), n).pc.Finished?
    ensures Micros(call, Begin(d, call), n) == Config(Perform(d, call).0, Finished(Perform(d, call).1))
  {
    StepsMakeCall(d, call, n + 10);
    MicrosSettled(call, Begin(d, call), n, n + 10);
  }

  lemma PendingPtrOld(d: Device, l: Log)
    requires Inv(d, l)
    ensures d.pending.buffptr != d.slab.next
  {
    if d.pending.buffptr in Owned(d) {
      OwnedOnce(Owned(d), d.slab, d.pending.buffptr);
    }
  }
}
