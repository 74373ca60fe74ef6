/** What a caller is told: failures, positions of seeks, and the numbers of the source. */
module Answers {
  import opened Bytes
  import opened CircularBuffer
  import opened CommandLog
  import opened Driver
  import opened DriverInvariant
  import opened DriverRuns
  import opened RunLaws

  // ---------------------------------------------------------------- failures

  /** The lock is interrupted, a write is not granted, or a read that finds an entry is not. */
  predicate Fails(d: Device, call: Call)
    requires InBounds(d.ring)
  {
    call.env.LockInterrupted? || (!call.env.Granted? && (call.Write? || Find(d.ring, call.pos).Some?))
  }

  /** The error a failing call reports, as a number. */
  function Code(call: Call): (code: int)
    ensures code < 0
  {
    if call.env.LockInterrupted? then -512
    else if call.Write? && call.env.NoMemory? then -12
    else -14
  }

  /** A failing call reports its error and leaves position and user data alone; any other reports no error. */
  ghost predicate ReportsFailure(d: Device, call: Call, r: Reply)
    requires InBounds(d.ring)
  {
    && (r.ret < 0 <==> Fails(d, call))
    && (Fails(d, call) ==> r == Reply(Code(call), call.pos, []))
    && (!Fails(d, call) && call.Write? ==> r == Reply(|call.chunk|, call.pos + |call.chunk|, []))
    && (!Fails(d, call) && call.Read? && Find(d.ring, call.pos).None? ==> r == Reply(0, call.pos, []))
  }

  lemma CallReportsFailure(d: Device, call: Call)
    requires InBounds(d.ring)
    ensures ReportsFailure(d, call, Perform(d, call).1)
  {
  }

  /** In every run a call reports an error exactly when it fails, and then the device looks as before. */
  lemma FailureReported(calls: seq<Call>, call: Call)
    ensures ReportsFailure(Run(calls), call, Perform(Run(calls), call).1)
    ensures Fails(Run(calls), call) ==> Observe(Run(calls + [call])) == Observe(Run(calls))
  {
    CallReportsFailure(Run(calls), call);
    RunView(calls);
    RunView(calls + [call]);
    HistoryAppend(calls, call);
  }

  /** Below the width bound a read finds an entry exactly when it starts inside the stream. */
  lemma FailsInside(calls: seq<Call>, call: Call)
    requires LiveBytes(Run(calls)) < UINT_RANGE
    ensures Fails(Run(calls), call) <==>
              (call.env.LockInterrupted? || (!call.env.Granted? && (call.Write? || call.pos < LiveBytes(Run(calls)))))
  {
    WholeRun(calls);
    LiveBytesIsContent(Run(calls), History(calls));
    LookupIsIndexing(calls, call.pos);
  }

  // ---------------------------------------------------------------- seeking

  /** The position a seek gives, when `committed` bytes have been committed so far. */
  function SeekResult(committed: nat, pos: nat, off: int, whence: int): Option<nat> {
    if whence == 0 && off >= 0 then Some(off)
    else if whence == 1 && pos + off >= 0 then Some(pos + off)
    else if whence == 2 then Some(committed)
    else None
  }

  lemma LseekIs(d: Device, committed: nat, pos: nat, off: int, whence: int)
    requires d.buffSize == committed
    ensures Lseek(d, pos, off, whence) == SeekResult(committed, pos, off, whence)
  {
  }

  /** The size counter holds the bytes of all commands ever completed, live or evicted. */
  lemma CommittedBytes(calls: seq<Call>)
    ensures Run(calls).buffSize == LiveBytes(Run(calls)) + |Evicted(History(calls))|
    ensures Run(calls).buffSize == |Flatten(History(calls).commands)|
  {
    Conservation(calls);
    WholeRun(calls);
  }

  /**
   SEEK_SET and SEEK_CUR give what they are asked for.  SEEK_END gives the number of bytes ever
   committed, live or evicted, whatever the offset.
   */
  lemma SeekIs(calls: seq<Call>, pos: nat, off: int, whence: int)
    ensures Lseek(Run(calls), pos, off, whence)
         == SeekResult(LiveBytes(Run(calls)) + |Evicted(History(calls))|, pos, off, whence)
    ensures Lseek(Run(calls), pos, off, whence)
         == SeekResult(|Flatten(History(calls).commands)|, pos, off, whence)
  {
    CommittedBytes(calls);
    LseekIs(Run(calls), LiveBytes(Run(calls)) + |Evicted(History(calls))|, pos, off, whence);
    LseekIs(Run(calls), |Flatten(History(calls).commands)|, pos, off, whence);
  }

  // ---------------------------------------------------------------- the numbers of the source

  /** In every run the last ten commands are live, each ends in byte 10 and none is found past 2^32 - 2. */
  lemma TenLiveCommands(calls: seq<Call>, c: nat)
    ensures |Observe(Run(calls)).commands|
         == (if |History(calls).commands| < 10 then |History(calls).commands| else 10)
    ensures forall k :: 0 <= k < |Observe(Run(calls)).commands| ==>
              var command := Observe(Run(calls)).commands[k];
              command != [] && command[|command| - 1] == 0x0A
    ensures c >= 4_294_967_295 ==> Find(Run(calls).ring, c) == None
  {
    RunView(calls);
    NewlineInvariant(calls);
    if c >= 4_294_967_295 {
      WalkMissesBeyond(Sizes(Live(Run(calls).ring)), c, 0, 0);
    }
  }
}
