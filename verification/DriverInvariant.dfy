/** Every call keeps the device in step with the command log, and every block accounted for. */
module DriverInvariant {
  import opened Bytes
  import opened CircularBuffer
  import opened CommandLog
  import opened Driver

  lemma {:induction false} IssuedOnce(next: Ptr, p: Ptr)
    ensures Issued(next)[p] == if 1 <= p < next then 1 else 0
  {
    if next > 1 {
      IssuedOnce(next - 1, p);
    }
  }

  // ---------------------------------------------------------------- the heap ledger

  /** An address that is in use is in one place only and has not been freed. */
  lemma OwnedOnce(owned: multiset<Ptr>, s: Slab, p: Ptr)
    requires Accounted(owned, s) && p in owned
    ensures owned[p] == 1 && p !in s.frees && 1 <= p < s.next
  {
    IssuedOnce(s.next, p);
    assert (owned + multiset(s.frees))[p] == owned[p] + multiset(s.frees)[p];
  }

  lemma KmallocAccounted(owned: multiset<Ptr>, s: Slab, contents: seq<byte>)
    requires Accounted(owned, s)
    ensures s.next !in owned
    ensures Accounted(owned + multiset{s.next}, Kmalloc(s, contents))
  {
    if s.next in owned {
      OwnedOnce(owned, s, s.next);
    }
    assert Issued(s.next + 1) == Issued(s.next) + multiset{s.next};
    assert owned + multiset{s.next} + multiset(s.frees) == owned + multiset(s.frees) + multiset{s.next};
  }

  lemma KfreeAccounted(owned: multiset<Ptr>, s: Slab, p: Ptr)
    requires Accounted(owned, s) && p in owned
    ensures p != NULL && p !in owned - multiset{p}
    ensures Accounted(owned - multiset{p}, Kfree(s, p))
  {
    OwnedOnce(owned, s, p);
    assert multiset(s.frees + [p]) == multiset(s.frees) + multiset{p};
    assert owned - multiset{p} + multiset{p} == owned;
  }

  // ---------------------------------------------------------------- one write

  lemma LoadedInv()
    ensures Inv(Loaded(), EMPTY_LOG)
  {
    ZeroedShape();
    assert Owned(Loaded()) == multiset{};
  }

  /** What gathering does to the ledger: the old pending block gives way to the new one. */
  lemma GatheredLedger(d: Device, chunk: seq<byte>)
    requires InBounds(d.ring) && Ledger(d)
    ensures Ledger(Gathered(d, chunk))
    ensures d.slab.next !in Owned(d)
  {
    var text := Block(d.slab, d.pending.buffptr) + chunk;
    KmallocAccounted(Owned(d), d.slab, text);
    GatheredOwned(d, chunk);
    HeldFreed(Owned(d) + multiset{d.slab.next}, Kmalloc(d.slab, text), d.pending);
  }

  lemma HeldFreed(owned: multiset<Ptr>, s: Slab, e: Entry)
    requires Accounted(owned, s) && Held(e) <= owned
    ensures Accounted(owned - Held(e), Kfree(s, e.buffptr))
  {
    if e.buffptr == NULL {
      assert owned - Held(e) == owned;
    } else {
      KfreeAccounted(owned, s, e.buffptr);
    }
  }

  lemma GatheredOwned(d: Device, chunk: seq<byte>)
    requires InBounds(d.ring) && d.slab.next != NULL
    ensures Held(d.pending) <= Owned(d) + multiset{d.slab.next}
    ensures Owned(Gathered(d, chunk)) == Owned(d) + multiset{d.slab.next} - Held(d.pending)
  {
    HeldSwapped(multiset(Ptrs(Live(d.ring))), Held(d.pending), multiset(d.leaked), multiset{d.slab.next});
  }

  lemma HeldSwapped(live: multiset<Ptr>, held: multiset<Ptr>, leaked: multiset<Ptr>, added: multiset<Ptr>)
    ensures live + added + leaked == live + held + leaked + added - held
  {
  }

  lemma PendingText(d: Device, l: Log)
    requires Holds(d, l) && Ledger(d)
    ensures Block(d.slab, d.pending.buffptr) == l.pending && d.pending.size == |l.pending|
  {
    if NULL in d.slab.blocks {
      OwnedOnce(Owned(d), d.slab, NULL);
    }
  }

  /** Blocks that two heaps share have the same bytes. */
  ghost predicate SameBytes(s: Slab, s': Slab) {
    forall p: Ptr :: p in s.blocks && p in s'.blocks ==> s'.blocks[p] == s.blocks[p]
  }

  /** A heap change that keeps the blocks in use keeps what the entries hold. */
  lemma AllStoredKept(s: Slab, s': Slab, owned: multiset<Ptr>, es: seq<Entry>, ss: seq<seq<byte>>)
    requires AllStored(s, es, ss) && SameBytes(s, s')
    requires Accounted(owned, s') && multiset(Ptrs(es)) <= owned
    ensures AllStored(s', es, ss)
  {
    forall i | 0 <= i < |es| ensures Stored(s', es[i], ss[i]) {
      assert Stored(s, es[i], ss[i]);
      assert Ptrs(es)[i] in multiset(Ptrs(es));
    }
  }

  lemma HeapKept(d: Device, d': Device, l: Log)
    requires d'.ring == d.ring && d'.pending == d.pending && d'.buffSize == d.buffSize
    requires Inv(d, l) && Ledger(d') && SameBytes(d.slab, d'.slab)
    ensures Inv(d', l)
  {
    AllStoredKept(d.slab, d'.slab, Owned(d'), Live(d.ring), Visible(l));
    if l.pending != [] {
      PendingPtr(d, l);
      assert d.pending.buffptr in Held(d'.pending);
    }
  }

  lemma GatheredHolds(d: Device, l: Log, chunk: seq<byte>)
    requires Holds(d, l) && Ledger(d) && l.pending + chunk != []
    ensures Holds(Gathered(d, chunk), Log(l.commands, l.pending + chunk))
    ensures Ledger(Gathered(d, chunk))
  {
    var d' := Gathered(d, chunk);
    GatheredLedger(d, chunk);
    PendingText(d, l);
    assert Stored(d'.slab, d'.pending, l.pending + chunk) by {
      assert d'.pending.buffptr in Held(d'.pending);
    }
    AllStoredKept(d.slab, d'.slab, Owned(d'), Live(d.ring), Visible(l));
  }

  lemma PtrsAppend(es: seq<Entry>, e: Entry)
    ensures multiset(Ptrs(es + [e])) == multiset(Ptrs(es)) + multiset{e.buffptr}
  {
    assert Ptrs(es + [e]) == Ptrs(es) + [e.buffptr];
  }

  lemma PtrsTail(es: seq<Entry>)
    requires es != []
    ensures multiset(Ptrs(es)) == multiset{es[0].buffptr} + multiset(Ptrs(es[1..]))
  {
    assert Ptrs(es) == [es[0].buffptr] + Ptrs(es[1..]);
  }

  /** A commit hands the pending block to the ring; on a full ring the oldest block drops out. */
  lemma CommittedOwned(d: Device, n: nat)
    requires Shape(d.ring, n) && d.pending.buffptr != NULL
    ensures n >= CAPACITY ==> |Live(d.ring)| == CAPACITY && Live(d.ring)[0] == d.ring.entry[d.ring.inOffs]
    ensures n >= CAPACITY ==> Live(d.ring)[0].buffptr in Owned(d)
    ensures Owned(Committed(d))
         == if n < CAPACITY then Owned(d) else Owned(d) - multiset{Live(d.ring)[0].buffptr}
  {
    var live := Live(d.ring);
    AddedLive(d.ring, n, d.pending);
    if n < CAPACITY {
      PtrsAppend(live, d.pending);
    } else {
      PtrsTail(live);
      PtrsAppend(live[1..], d.pending);
    }
  }

  /** The block freed on a full ring is the oldest one, the one the add overwrites. */
  lemma CommittedLedger(d: Device, n: nat)
    requires Shape(d.ring, n) && Ledger(d) && d.pending.buffptr != NULL
    ensures Ledger(Committed(d))
    ensures n < CAPACITY ==> Committed(d).slab == d.slab
    ensures n >= CAPACITY ==> FreedOnce(d.slab, DropsOut(d.ring), Committed(d).slab)
  {
    CommittedOwned(d, n);
    OverwritesOldest(d.ring, n);
    if n >= CAPACITY {
      KfreeAccounted(Owned(d), d.slab, Live(d.ring)[0].buffptr);
      OwnedOnce(Owned(d), d.slab, Live(d.ring)[0].buffptr);
    }
  }

  /** The second heap is the first without block `p`, which was in use and never freed before. */
  ghost predicate FreedOnce(s: Slab, p: Ptr, s': Slab) {
    p in s.blocks && p !in s.frees && s'.blocks == s.blocks - {p} && s'.frees == s.frees + [p]
  }

  lemma PendingPtr(d: Device, l: Log)
    requires Holds(d, l) && Ledger(d) && l.pending != []
    ensures d.pending.buffptr != NULL
  {
    if d.pending.buffptr == NULL {
      OwnedOnce(Owned(d), d.slab, NULL);
    }
  }

  lemma AllStoredAppend(s: Slab, es: seq<Entry>, ss: seq<seq<byte>>, e: Entry, text: seq<byte>)
    requires AllStored(s, es, ss) && Stored(s, e, text)
    ensures AllStored(s, es + [e], ss + [text])
  {
  }

  lemma AllStoredTail(s: Slab, es: seq<Entry>, ss: seq<seq<byte>>)
    requires AllStored(s, es, ss) && es != []
    ensures AllStored(s, es[1..], ss[1..])
  {
  }

  /** Before any block is freed, the commands visible after the commit are in their blocks. */
  lemma CommittedEntries(d: Device, l: Log)
    requires Holds(d, l) && l.pending != []
    ensures AllStored(d.slab, Live(Added(d.ring, d.pending)), Latest(l.commands + [l.pending]))
  {
    var live, ss := Live(d.ring), Visible(l);
    AddedLive(d.ring, |l.commands|, d.pending);
    LatestAppend(l.commands, l.pending);
    if |l.commands| < CAPACITY {
      AllStoredAppend(d.slab, live, ss, d.pending, l.pending);
    } else {
      AllStoredTail(d.slab, live, ss);
      AllStoredAppend(d.slab, live[1..], ss[1..], d.pending, l.pending);
    }
  }

  /** The commit frees no block that is still visible. */
  lemma CommittedVisible(d: Device, l: Log)
    requires Holds(d, l) && l.pending != [] && Ledger(Committed(d))
    ensures AllStored(Committed(d).slab, Live(Committed(d).ring), Latest(l.commands + [l.pending]))
  {
    var owned := Owned(Committed(d));
    assert multiset(Ptrs(Live(Committed(d).ring))) <= owned;
    CommittedEntries(d, l);
    AllStoredKept(d.slab, Committed(d).slab, owned, Live(Committed(d).ring), Latest(l.commands + [l.pending]));
  }

  lemma CommittedHolds(d: Device, l: Log)
    requires Holds(d, l) && l.pending != [] && Ledger(Committed(d))
    ensures Holds(Committed(d), Log(l.commands + [l.pending], []))
  {
    CommittedVisible(d, l);
    AddedShape(d.ring, |l.commands|, d.pending);
    FlattenAppend(l.commands, l.pending);
  }

  // ---------------------------------------------------------------- every call

  /** What a call does to the log. */
  function Effect(l: Log, call: Call): Log {
    if call.Write? && call.env.Granted? then Accept(l, call.chunk) else l
  }

  /** What a call answers, said of the log alone. */
  function Answer(l: Log, call: Call): Reply {
    if call.env.LockInterrupted? then Reply(-ERESTARTSYS, call.pos, [])
    else if call.Write? then
      match call.env
      case NoMemory => Reply(-ENOMEM, call.pos, [])
      case CopyFault => Reply(-EFAULT, call.pos, [])
      case _ => Reply(|call.chunk|, call.pos + |call.chunk|, [])
    else
      match Walk(Lengths(Visible(l)), call.pos, 0, 0)
      case None => Reply(0, call.pos, [])
      case Some((k, offset)) =>
        var rest := Visible(l)[k][offset..];
        if call.env.Granted? then Reply(if call.count > |rest| then |rest| else call.count, call.pos + |rest|, rest)
        else Reply(-EFAULT, call.pos, [])
  }

  lemma GrantedWriteKeeps(d: Device, l: Log, chunk: seq<byte>)
    requires Inv(d, l) && l.pending + chunk != []
    ensures Inv(CommittedIfComplete(Gathered(d, chunk)), Accept(l, chunk))
  {
    var m := Log(l.commands, l.pending + chunk);
    GatheredHolds(d, l, chunk);
    PendingText(Gathered(d, chunk), m);
    AcceptKeeps(l, chunk);
    if EndsInNewline(m.pending) {
      PendingPtr(Gathered(d, chunk), m);
      CommittedLedger(Gathered(d, chunk), |m.commands|);
      CommittedHolds(Gathered(d, chunk), m);
    }
  }

  lemma WriteKeeps(d: Device, l: Log, call: Call)
    requires Inv(d, l) && call.Write? && Enabled(d, call)
    ensures Inv(WriteCall(d, call).0, Effect(l, call))
    ensures WriteCall(d, call).1 == Answer(l, call)
  {
    match call.env
    case LockInterrupted =>
    case NoMemory =>
    case CopyFault =>
      ScratchKeeps(d, l, Block(d.slab, d.pending.buffptr));
    case Granted =>
      PendingText(d, l);
      GrantedWriteKeeps(d, l, call.chunk);
  }

  /** Taking a block and giving it back changes nothing but the free list. */
  lemma ScratchKeeps(d: Device, l: Log, contents: seq<byte>)
    requires Inv(d, l)
    ensures Inv(d.(slab := Kfree(Kmalloc(d.slab, contents), d.slab.next)), l)
  {
    var p := d.slab.next;
    var d' := d.(slab := Kfree(Kmalloc(d.slab, contents), p));
    KmallocAccounted(Owned(d), d.slab, contents);
    KfreeAccounted(Owned(d) + multiset{p}, Kmalloc(d.slab, contents), p);
    assert Owned(d') == Owned(d) + multiset{p} - multiset{p};
    HeapKept(d, d', l);
  }

  lemma LeakLedger(d: Device, data: seq<byte>)
    requires InBounds(d.ring) && Ledger(d)
    ensures d.slab.next !in Owned(d)
    ensures Ledger(Leaked(d, data))
  {
    KmallocAccounted(Owned(d), d.slab, data);
    assert multiset(Leaked(d, data).leaked) == multiset(d.leaked) + multiset{d.slab.next};
    assert Owned(Leaked(d, data)) == Owned(d) + multiset{d.slab.next};
  }

  /** A read buffer is taken and never given back; the rest of the device is untouched. */
  lemma LeakKeeps(d: Device, l: Log, data: seq<byte>)
    requires Inv(d, l)
    ensures Inv(Leaked(d, data), l)
  {
    LeakLedger(d, data);
    HeapKept(d, Leaked(d, data), l);
  }

  lemma SizesMatch(d: Device, l: Log)
    requires Holds(d, l)
    ensures Sizes(Live(d.ring)) == Lengths(Visible(l))
  {
  }

  /** The lookup in the ring is the walk over the visible commands, and finds their bytes. */
  lemma FindMatches(d: Device, l: Log, c: nat)
    requires Holds(d, l)
    ensures match Walk(Lengths(Visible(l)), c, 0, 0)
            case None => Find(d.ring, c) == None
            case Some((k, offset)) =>
              && Find(d.ring, c).Some?
              && Find(d.ring, c).value.offset == offset
              && Stored(d.slab, d.ring.entry[Find(d.ring, c).value.slot], Visible(l)[k])
  {
    SizesMatch(d, l);
    var walk := Walk(Lengths(Visible(l)), c, 0, 0);
    if walk.Some? {
      assert Stored(d.slab, Live(d.ring)[walk.value.0], Visible(l)[walk.value.0]);
    }
  }

  lemma ReadAnswers(d: Device, l: Log, call: Call)
    requires Holds(d, l) && call.Read?
    ensures ReadCall(d, call).1 == Answer(l, call)
    ensures ReadCall(d, call).0 == d || exists data :: ReadCall(d, call).0 == Leaked(d, data)
  {
    FindMatches(d, l, call.pos);
  }

  lemma ReadKeeps(d: Device, l: Log, call: Call)
    requires Inv(d, l) && call.Read?
    ensures Inv(ReadCall(d, call).0, l)
    ensures ReadCall(d, call).1 == Answer(l, call)
  {
    ReadAnswers(d, l, call);
    if ReadCall(d, call).0 != d {
      var data :| ReadCall(d, call).0 == Leaked(d, data);
      LeakKeeps(d, l, data);
    }
  }

  /** Every call on the slots and blocks is the same call on the log, answer included. */
  lemma StepRefines(d: Device, l: Log, call: Call)
    requires Inv(d, l)
    ensures Inv(Step(d, call), Effect(l, call))
    ensures Enabled(d, call) ==> Perform(d, call).1 == Answer(l, call)
  {
    if !Enabled(d, call) {
      PendingText(d, l);
      assert Accept(l, []) == l by { assert l.pending + [] == l.pending; }
    } else if call.Write? {
      WriteKeeps(d, l, call);
    } else {
      ReadKeeps(d, l, call);
    }
  }
}
