/** Laws that relate whole runs: what is conserved, what is invisible, what is interchangeable. */
module RunLaws {
  import opened Bytes
  import opened CircularBuffer
  import opened CommandLog
  import opened Driver
  import opened DriverInvariant
  import opened DriverRuns

  // ---------------------------------------------------------------- conservation and seeking

  /** The total the lookup could reach, were it not for its width. */
  function LiveBytes(d: Device): nat
    requires InBounds(d.ring)
  {
    Sum(Sizes(Live(d.ring)))
  }

  lemma LiveBytesIsContent(d: Device, l: Log)
    requires Holds(d, l)
    ensures LiveBytes(d) == |Content(l)|
  {
    SizesMatch(d, l);
    FlattenLength(Visible(l));
  }

  /** No byte is lost or invented, and the size counter never forgets an evicted one. */
  lemma Conservation(calls: seq<Call>)
    ensures |Flatten(Accepted(calls))|
         == LiveBytes(Run(calls)) + |Evicted(History(calls))| + Run(calls).pending.size
    ensures Run(calls).buffSize == LiveBytes(Run(calls)) + |Evicted(History(calls))|
    ensures Run(calls).buffSize == LiveBytes(Run(calls)) <==> |History(calls).commands| <= CAPACITY
  {
    var d, l := Run(calls), History(calls);
    WholeRun(calls);
    LiveBytesIsContent(d, l);
    EvictedAndVisible(l);
    PendingText(d, l);
  }

  /** A read at the position SEEK_END gives finds nothing, whatever `off` and in every state. */
  lemma SeekEndReadsNothing(calls: seq<Call>, pos: nat, off: int, count: nat, env: Env)
    requires !env.LockInterrupted?
    ensures Lseek(Run(calls), pos, off, 2).Some?
    ensures Perform(Run(calls), Read(Lseek(Run(calls), pos, off, 2).value, count, env))
         == (Run(calls), Reply(0, Lseek(Run(calls), pos, off, 2).value, []))
  {
    Conservation(calls);
    WalkMissesBeyond(Sizes(Live(Run(calls).ring)), Run(calls).buffSize, 0, 0);
  }

  /** lseek() of POSIX.1-2017 on a file of `end` bytes. */
  function PosixLseek(end: nat, pos: nat, off: int, whence: int): Option<nat> {
    match whence
    case 0 => if off < 0 then None else Some(off)
    case 1 => if pos + off < 0 then None else Some(pos + off)
    case 2 => if end + off < 0 then None else Some(end + off)
    case _ => None
  }

  lemma LseekIff(d: Device, live: nat, evicted: nat, pos: nat, off: int, whence: int)
    requires d.buffSize == live + evicted
    ensures Lseek(d, pos, off, whence) == PosixLseek(live, pos, off, whence) <==> (whence == 2 ==> off == evicted)
  {
  }

  /** SEEK_END is right only when `off` makes up for the bytes evicted so far. */
  lemma LseekPosixIff(calls: seq<Call>, pos: nat, off: int, whence: int)
    ensures Lseek(Run(calls), pos, off, whence) == PosixLseek(LiveBytes(Run(calls)), pos, off, whence)
       <==> (whence == 2 ==> off == |Evicted(History(calls))|)
  {
    Conservation(calls);
    LseekIff(Run(calls), LiveBytes(Run(calls)), |Evicted(History(calls))|, pos, off, whence);
  }

  // ---------------------------------------------------------------- lookup

  /** The lookup of offset `c` finds the byte of the stream, or nothing beyond its end. */
  ghost predicate FindsByte(d: Device, content: seq<byte>, c: nat)
    requires InBounds(d.ring)
  {
    match Find(d.ring, c)
    case None => c >= |content|
    case Some(Hit(slot, offset)) =>
      var block := Block(d.slab, d.ring.entry[slot].buffptr);
      offset < |block| == d.ring.entry[slot].size && c < |content| && block[offset] == content[c]
  }

  lemma LookupIsIndex(d: Device, l: Log, c: nat)
    requires Holds(d, l) && LiveBytes(d) < UINT_RANGE
    ensures FindsByte(d, Content(l), c)
  {
    LiveBytesIsContent(d, l);
    SizesMatch(d, l);
    WidthBound(Lengths(Visible(l)));
    assert Agrees(Lengths(Visible(l)), c);
    FindMatches(d, l, c);
    var walk := Walk(Lengths(Visible(l)), c, 0, 0);
    if walk.Some? {
      ResolvesByte(Visible(l), c, walk.value.0, walk.value.1);
    }
  }

  /** In every reachable ring below 2^32 live bytes, the lookup is indexing into the stream. */
  lemma LookupIsIndexing(calls: seq<Call>, c: nat)
    requires LiveBytes(Run(calls)) < UINT_RANGE
    ensures FindsByte(Run(calls), Content(History(calls)), c)
  {
    WholeRun(calls);
    LookupIsIndex(Run(calls), History(calls), c);
  }

  /**
   A write that completes a command on a full ring shifts the stream by the size of the entry
   it evicts, and the new command ends it.
   */
  lemma EvictionShiftsStream(calls: seq<Call>, pos: nat, chunk: seq<byte>)
    requires Run(calls).ring.full && EndsInNewline(chunk)
    ensures var d, content := Run(calls), Content(History(calls));
      && d.ring.entry[d.ring.inOffs].size <= |content|
      && Content(History(calls + [Write(pos, chunk, Granted)]))
      == content[d.ring.entry[d.ring.inOffs].size..] + (History(calls).pending + chunk)
  {
    var d, l := Run(calls), History(calls);
    WholeRun(calls);
    AddedLive(d.ring, |l.commands|, NOTHING);
    assert Stored(d.slab, Live(d.ring)[0], Visible(l)[0]);
    AcceptedAppend(calls, Write(pos, chunk, Granted));
    GroupAppend(Accepted(calls), chunk);
    AcceptEnd(l, chunk);
    EvictionShift(l, l.pending + chunk);
  }

  /** The byte that the lookup leads to. */
  function ByteAt(d: Device, c: nat): Option<byte>
    requires InBounds(d.ring)
  {
    match Find(d.ring, c)
    case None => None
    case Some(Hit(slot, offset)) =>
      var block := Block(d.slab, d.ring.entry[slot].buffptr);
      if offset < |block| then Some(block[offset]) else None
  }

  function Nth(s: seq<byte>, c: nat): Option<byte> {
    if c < |s| then Some(s[c]) else None
  }

  lemma ByteAtIsNth(d: Device, l: Log, c: nat)
    requires Holds(d, l) && LiveBytes(d) < UINT_RANGE
    ensures ByteAt(d, c) == Nth(Content(l), c)
  {
    LookupIsIndex(d, l, c);
  }

  /**
   The byte found at `c` is the one found before at `c + gone`; behind the bytes that were
   there before come those of `more`, then nothing.
   */
  ghost predicate ShiftedAt(d: Device, d': Device, gone: nat, more: seq<byte>, c: nat)
    requires InBounds(d.ring) && InBounds(d'.ring)
  {
    && gone <= LiveBytes(d)
    && ByteAt(d', c) == if c < LiveBytes(d) - gone then ByteAt(d, c + gone) else Nth(more, c - (LiveBytes(d) - gone))
  }

  lemma LookupShifted(d: Device, l: Log, d': Device, l': Log, gone: nat, more: seq<byte>, c: nat)
    requires Holds(d, l) && Holds(d', l') && LiveBytes(d) < UINT_RANGE && LiveBytes(d') < UINT_RANGE
    requires gone <= |Content(l)| && Content(l') == Content(l)[gone..] + more
    ensures ShiftedAt(d, d', gone, more, c)
  {
    LiveBytesIsContent(d, l);
    ByteAtIsNth(d', l', c);
    ByteAtIsNth(d, l, c + gone);
    BytesShifted(Content(l), gone, more, ByteAt(d, c + gone), ByteAt(d', c), c);
  }

  lemma BytesShifted(s: seq<byte>, gone: nat, more: seq<byte>, was: Option<byte>, now: Option<byte>, c: nat)
    requires gone <= |s| && was == Nth(s, c + gone) && now == Nth(s[gone..] + more, c)
    ensures now == if c < |s| - gone then was else Nth(more, c - (|s| - gone))
  {
  }

  /** So it does for the lookup, which finds every byte where the shift puts it. */
  lemma EvictionShiftsLookup(calls: seq<Call>, pos: nat, chunk: seq<byte>, c: nat)
    requires Run(calls).ring.full && EndsInNewline(chunk)
    requires LiveBytes(Run(calls)) < UINT_RANGE && LiveBytes(Run(calls + [Write(pos, chunk, Granted)])) < UINT_RANGE
    ensures ShiftedAt(Run(calls), Run(calls + [Write(pos, chunk, Granted)]),
                      Run(calls).ring.entry[Run(calls).ring.inOffs].size, History(calls).pending + chunk, c)
  {
    var calls' := calls + [Write(pos, chunk, Granted)];
    EvictionShiftsStream(calls, pos, chunk);
    WholeRun(calls);
    WholeRun(calls');
    LookupShifted(Run(calls), History(calls), Run(calls'), History(calls'),
                  Run(calls).ring.entry[Run(calls).ring.inOffs].size, History(calls).pending + chunk, c);
  }

  // ---------------------------------------------------------------- what calls lose and free

  /** A read that gets as far as copying: it finds an entry and a block for it. */
  predicate Copies(l: Log, call: Call) {
    call.Read? && (call.env.Granted? || call.env.CopyFault?) && Walk(Lengths(Visible(l)), call.pos, 0, 0).Some?
  }

  /** Below the width bound such a read is one that starts inside the stream. */
  lemma CopiesInside(l: Log, call: Call)
    requires |Content(l)| < UINT_RANGE
    ensures Copies(l, call) <==> call.Read? && (call.env.Granted? || call.env.CopyFault?) && call.pos < |Content(l)|
  {
    var sizes := Lengths(Visible(l));
    FlattenLength(Visible(l));
    WidthBound(sizes);
    assert Agrees(sizes, call.pos);
    var walk := Walk(sizes, call.pos, 0, 0);
    if walk.Some? {
      ResolvesByte(Visible(l), call.pos, walk.value.0, walk.value.1);
    }
  }

  /** The number of blocks a call loses. */
  function Losses(l: Log, call: Call): nat {
    if Copies(l, call) then 1 else 0
  }

  lemma StepLosses(d: Device, l: Log, call: Call)
    requires Holds(d, l)
    ensures |Step(d, call).leaked| == |d.leaked| + Losses(l, call)
  {
    if call.Read? {
      FindMatches(d, l, call.pos);
    }
  }

  lemma RunLosses(calls: seq<Call>, call: Call)
    ensures |Run(calls + [call]).leaked| == |Run(calls).leaked| + Losses(History(calls), call)
  {
    WholeRun(calls);
    StepLosses(Run(calls), History(calls), call);
    RunAppend(calls, call);
  }

  /** Call `k` of a run is such a read. */
  predicate CopiesAt(calls: seq<Call>, k: nat)
    requires k < |calls|
  {
    Copies(History(calls[..k]), calls[k])
  }

  /** The number of blocks that a run loses: one for each read that gets as far as copying. */
  function LossesOf(calls: seq<Call>): nat {
    if calls == [] then 0
    else LossesOf(calls[..|calls| - 1]) + Losses(History(calls[..|calls| - 1]), calls[|calls| - 1])
  }

  lemma LossesOfAppend(calls: seq<Call>, call: Call)
    ensures LossesOf(calls + [call]) == LossesOf(calls) + Losses(History(calls), call)
  {
    assert (calls + [call])[..|calls|] == calls;
  }

  /** The read buffers lost in a run are as many as its calls say. */
  lemma {:induction false} LeakedIsLosses(calls: seq<Call>)
    ensures |Run(calls).leaked| == LossesOf(calls)
  {
    if calls != [] {
      var front, last := calls[..|calls| - 1], calls[|calls| - 1];
      assert calls == front + [last];
      LeakedIsLosses(front);
      RunLosses(front, last);
      LossesOfAppend(front, last);
    }
  }

  ghost predicate NoneCopies(calls: seq<Call>) {
    forall k :: 0 <= k < |calls| ==> !CopiesAt(calls, k)
  }

  lemma CopiesAtAppend(calls: seq<Call>, call: Call, k: nat)
    requires k <= |calls|
    ensures CopiesAt(calls + [call], k) == if k < |calls| then CopiesAt(calls, k) else Copies(History(calls), call)
  {
    assert (calls + [call])[..k] == calls[..k];
    assert calls[..|calls|] == calls;
  }

  lemma NoneCopiesAppend(calls: seq<Call>, call: Call)
    ensures NoneCopies(calls + [call]) <==> NoneCopies(calls) && !Copies(History(calls), call)
  {
    forall k: nat | k <= |calls|
      ensures CopiesAt(calls + [call], k) == if k < |calls| then CopiesAt(calls, k) else Copies(History(calls), call)
    {
      CopiesAtAppend(calls, call, k);
    }
    assert NoneCopies(calls + [call]) ==> !CopiesAt(calls + [call], |calls|);
    assert forall k :: 0 <= k < |calls| ==> CopiesAt(calls + [call], k) == CopiesAt(calls, k);
  }

  lemma {:induction false} NoLossIff(calls: seq<Call>)
    ensures LossesOf(calls) == 0 <==> NoneCopies(calls)
  {
    if calls != [] {
      var front, last := calls[..|calls| - 1], calls[|calls| - 1];
      assert calls == front + [last];
      NoLossIff(front);
      LossesOfAppend(front, last);
      NoneCopiesAppend(front, last);
    }
  }

  /** The number of blocks that a call frees. */
  function Frees(l: Log, call: Call): nat {
    if !call.Write? then 0
    else
      match call.env
      case CopyFault => 1
      case Granted =>
        var text := l.pending + call.chunk;
        if text == [] then 0
        else (if l.pending == [] then 0 else 1) + (if EndsInNewline(text) && |l.commands| >= CAPACITY then 1 else 0)
      case _ => 0
  }

  /** The block in the slot that a full ring overwrites is a real one. */
  lemma OldestReal(d: Device, l: Log)
    requires Holds(d, l) && Ledger(d) && d.ring.full
    ensures d.ring.entry[d.ring.inOffs].buffptr != NULL
  {
    AddedLive(d.ring, |l.commands|, NOTHING);
    assert Stored(d.slab, Live(d.ring)[0], Visible(l)[0]);
    OwnedOnce(Owned(d), d.slab, Live(d.ring)[0].buffptr);
  }

  lemma GatheredFrees(d: Device, l: Log, chunk: seq<byte>)
    requires Inv(d, l)
    ensures |Gathered(d, chunk).slab.frees| == |d.slab.frees| + if l.pending == [] then 0 else 1
  {
    if l.pending != [] {
      PendingPtr(d, l);
    }
  }

  lemma CommittedFrees(g: Device, m: Log)
    requires Holds(g, m) && g.ring.full ==> g.ring.entry[g.ring.inOffs].buffptr != NULL
    requires Holds(g, m) && Block(g.slab, g.pending.buffptr) == m.pending
    ensures |CommittedIfComplete(g).slab.frees|
         == |g.slab.frees| + if EndsInNewline(m.pending) && |m.commands| >= CAPACITY then 1 else 0
  {
  }

  lemma GrantedWriteFrees(d: Device, l: Log, chunk: seq<byte>)
    requires Inv(d, l) && l.pending + chunk != []
    ensures |CommittedIfComplete(Gathered(d, chunk)).slab.frees| == |d.slab.frees| + Frees(l, Write(0, chunk, Granted))
  {
    var g, m := Gathered(d, chunk), Log(l.commands, l.pending + chunk);
    GatheredHolds(d, l, chunk);
    assert |g.slab.frees| == |d.slab.frees| + if l.pending == [] then 0 else 1 by { GatheredFrees(d, l, chunk); }
    PendingText(g, m);
    if g.ring.full {
      OldestReal(g, m);
    }
    CommittedFrees(g, m);
  }

  lemma ReadFreesNothing(d: Device, call: Call)
    requires InBounds(d.ring) && call.Read?
    ensures ReadCall(d, call).0.slab.frees == d.slab.frees
  {
  }

  lemma FailedWriteFrees(d: Device, l: Log, call: Call)
    requires Inv(d, l) && call.Write? && !call.env.Granted?
    ensures |WriteCall(d, call).0.slab.frees| == |d.slab.frees| + Frees(l, call)
  {
  }

  lemma EnabledIff(d: Device, l: Log, call: Call)
    requires Inv(d, l)
    ensures Enabled(d, call) <==> (call.Write? && call.env.Granted? ==> l.pending + call.chunk != [])
  {
    PendingText(d, l);
  }

  lemma StepFrees(d: Device, l: Log, call: Call)
    requires Inv(d, l)
    ensures |Step(d, call).slab.frees| == |d.slab.frees| + Frees(l, call)
  {
    EnabledIff(d, l, call);
    if call.Read? {
      ReadFreesNothing(d, call);
    } else if !call.env.Granted? {
      FailedWriteFrees(d, l, call);
    } else if l.pending + call.chunk != [] {
      GrantedWriteFrees(d, l, call.chunk);
    }
  }

  // ---------------------------------------------------------------- failed writes

  predicate FailedWrite(call: Call) {
    call.Write? && !call.env.Granted?
  }

  function Erase(calls: seq<Call>): seq<Call> {
    if calls == [] then []
    else
      var last := calls[|calls| - 1];
      Erase(calls[..|calls| - 1]) + if FailedWrite(last) then [] else [last]
  }

  lemma {:induction false} EraseAccepted(calls: seq<Call>)
    ensures Accepted(Erase(calls)) == Accepted(calls)
  {
    if calls != [] {
      var front, last := calls[..|calls| - 1], calls[|calls| - 1];
      EraseAccepted(front);
      if FailedWrite(last) {
        assert Erase(front) + [] == Erase(front);
        assert Accepted(front) + [] == Accepted(front);
      } else {
        AcceptedAppend(Erase(front), last);
      }
    }
  }

  lemma EraseAppend(calls: seq<Call>, call: Call)
    ensures Erase(calls + [call]) == if FailedWrite(call) then Erase(calls) else Erase(calls) + [call]
  {
    assert (calls + [call])[..|calls|] == calls;
    RightUnit(Erase(calls));
  }

  lemma {:induction false} EraseLosses(calls: seq<Call>)
    ensures |Run(Erase(calls)).leaked| == |Run(calls).leaked|
  {
    if calls != [] {
      var front, last := calls[..|calls| - 1], calls[|calls| - 1];
      assert calls == front + [last];
      EraseLosses(front);
      OneMoreErasedLoss(front, last);
    }
  }

  lemma OneMoreErasedLoss(front: seq<Call>, last: Call)
    requires |Run(Erase(front)).leaked| == |Run(front).leaked|
    ensures |Run(Erase(front + [last])).leaked| == |Run(front + [last]).leaked|
  {
    EraseAppend(front, last);
    RunLosses(front, last);
    if !FailedWrite(last) {
      assert Losses(History(Erase(front)), last) == Losses(History(front), last) by { EraseAccepted(front); }
      RunLosses(Erase(front), last);
    }
  }

  /** The writes that fail after taking a block, which they give back. */
  function CopyFaults(calls: seq<Call>): nat {
    if calls == [] then 0
    else
      var last := calls[|calls| - 1];
      CopyFaults(calls[..|calls| - 1]) + if last.Write? && last.env.CopyFault? then 1 else 0
  }

  lemma RunFrees(calls: seq<Call>, call: Call)
    ensures |Run(calls + [call]).slab.frees| == |Run(calls).slab.frees| + Frees(History(calls), call)
  {
    WholeRun(calls);
    StepFrees(Run(calls), History(calls), call);
    RunAppend(calls, call);
  }

  lemma {:induction false} EraseFrees(calls: seq<Call>)
    ensures |Run(calls).slab.frees| == |Run(Erase(calls)).slab.frees| + CopyFaults(calls)
  {
    if calls != [] {
      var front, last := calls[..|calls| - 1], calls[|calls| - 1];
      assert calls == front + [last];
      EraseFrees(front);
      OneMoreErasedFree(front, last);
    }
  }

  lemma CopyFaultsAppend(calls: seq<Call>, call: Call)
    ensures CopyFaults(calls + [call]) == CopyFaults(calls) + if call.Write? && call.env.CopyFault? then 1 else 0
  {
    assert (calls + [call])[..|calls|] == calls;
  }

  lemma OneMoreErasedFree(front: seq<Call>, last: Call)
    requires |Run(front).slab.frees| == |Run(Erase(front)).slab.frees| + CopyFaults(front)
    ensures |Run(front + [last]).slab.frees| == |Run(Erase(front + [last])).slab.frees| + CopyFaults(front + [last])
  {
    EraseAppend(front, last);
    CopyFaultsAppend(front, last);
    RunFrees(front, last);
    if !FailedWrite(last) {
      assert Frees(History(Erase(front)), last) == Frees(History(front), last) by { EraseAccepted(front); }
      RunFrees(Erase(front), last);
    }
  }

  /** No call tells the two devices apart. */
  ghost predicate SameToCallers(d: Device, d': Device)
    requires InBounds(d.ring) && InBounds(d'.ring)
  {
    forall call :: (Enabled(d, call) <==> Enabled(d', call))
                && (Enabled(d, call) ==> Perform(d', call).1 == Perform(d, call).1)
  }

  lemma SameLogSameAnswers(d: Device, d': Device, l: Log)
    requires Inv(d, l) && Inv(d', l)
    ensures SameToCallers(d, d')
  {
    forall call
      ensures Enabled(d, call) <==> Enabled(d', call)
      ensures Enabled(d, call) ==> Perform(d', call).1 == Perform(d, call).1
    {
      EnabledIff(d, l, call);
      EnabledIff(d', l, call);
      StepRefines(d, l, call);
      StepRefines(d', l, call);
    }
  }

  /**
   Dropping every failed write from a run leaves the same view of the device, as many blocks
   in use and as many lost, and no call tells the difference.  The only trace of the failed
   writes is one freed block for each copy that failed.
   */
  lemma ErasedRunSame(calls: seq<Call>)
    ensures Observe(Run(Erase(calls))) == Observe(Run(calls)) && SameToCallers(Run(calls), Run(Erase(calls)))
    ensures |Owned(Run(Erase(calls)))| == |Owned(Run(calls))| && |Run(Erase(calls)).leaked| == |Run(calls).leaked|
    ensures |Run(calls).slab.frees| == |Run(Erase(calls)).slab.frees| + CopyFaults(calls)
  {
    var d, d', l := Run(calls), Run(Erase(calls)), History(calls);
    EraseAccepted(calls);
    EraseLosses(calls);
    EraseFrees(calls);
    WholeRun(calls);
    WholeRun(Erase(calls));
    InvObserve(d, l);
    InvObserve(d', l);
    OwnedCount(d, l);
    OwnedCount(d', l);
    SameLogSameAnswers(d, d', l);
  }
}
