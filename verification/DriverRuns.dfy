/** What holds of the device after any sequence of calls since the module was loaded. */
module DriverRuns {
  import opened Bytes
  import opened CircularBuffer
  import opened CommandLog
  import opened Driver
  import opened DriverInvariant

  /** The chunk that a call leaves behind, if any. */
  function Taken(call: Call): seq<seq<byte>> {
    if call.Write? && call.env.Granted? then [call.chunk] else []
  }

  /** The chunks that writes have taken, in order. */
  function Accepted(calls: seq<Call>): seq<seq<byte>> {
    if calls == [] then [] else Accepted(calls[..|calls| - 1]) + Taken(calls[|calls| - 1])
  }

  lemma AcceptedAppend(calls: seq<Call>, call: Call)
    ensures Accepted(calls + [call]) == Accepted(calls) + Taken(call)
  {
    assert (calls + [call])[..|calls|] == calls;
  }

  lemma RunAppend(calls: seq<Call>, call: Call)
    ensures Run(calls + [call]) == Step(Run(calls), call)
  {
    assert (calls + [call])[..|calls|] == calls;
  }

  /** The log that a run amounts to. */
  function History(calls: seq<Call>): Log {
    Group(Accepted(calls))
  }

  lemma GroupAppend(chunks: seq<seq<byte>>, chunk: seq<byte>)
    ensures Group(chunks + [chunk]) == Accept(Group(chunks), chunk)
  {
    GroupIsAcceptAll(chunks);
    GroupIsAcceptAll(chunks + [chunk]);
    assert (chunks + [chunk])[..|chunks|] == chunks;
  }

  lemma HistoryStep(calls: seq<Call>)
    requires calls != []
    ensures History(calls) == Effect(History(calls[..|calls| - 1]), calls[|calls| - 1])
  {
    var front, last := calls[..|calls| - 1], calls[|calls| - 1];
    if last.Write? && last.env.Granted? {
      GroupAppend(Accepted(front), last.chunk);
    } else {
      assert Accepted(front) + [] == Accepted(front);
    }
  }

  lemma HistoryAppend(calls: seq<Call>, call: Call)
    ensures History(calls + [call]) == Effect(History(calls), call)
  {
    HistoryStep(calls + [call]);
    assert (calls + [call])[..|calls|] == calls;
  }

  /**
   After any run the ring holds, oldest to newest, the last ten commands of the grouped
   chunks, the pending entry the unfinished rest, and every block is accounted for.
   */
  lemma {:induction false} WholeRun(calls: seq<Call>)
    ensures Inv(Run(calls), History(calls))
    ensures Flatten(History(calls).commands) + History(calls).pending == Flatten(Accepted(calls))
  {
    GroupKeepsBytes(Accepted(calls));
    if calls == [] {
      LoadedInv();
    } else {
      var front := calls[..|calls| - 1];
      WholeRun(front);
      StepRefines(Run(front), History(front), calls[|calls| - 1]);
      HistoryStep(calls);
    }
  }

  /** Every enabled call of every run answers what the log answers. */
  lemma AnswersRefine(calls: seq<Call>, call: Call)
    requires Enabled(Run(calls), call)
    ensures Perform(Run(calls), call).1 == Answer(History(calls), call)
  {
    WholeRun(calls);
    StepRefines(Run(calls), History(calls), call);
  }

  // ---------------------------------------------------------------- observations

  /** All a caller can tell about the device, block addresses aside. */
  datatype View = View(inOffs: nat, outOffs: nat, full: bool,
                       commands: seq<seq<byte>>, pending: seq<byte>, buffSize: nat)

  function Observe(d: Device): View
    requires InBounds(d.ring)
  {
    var live := Live(d.ring);
    View(d.ring.inOffs, d.ring.outOffs, d.ring.full,
         seq(|live|, i requires 0 <= i < |live| => Block(d.slab, live[i].buffptr)),
         Block(d.slab, d.pending.buffptr), d.buffSize)
  }

  /** The closed form of the view of a device that has taken the commands of `l`. */
  function Expected(l: Log): View {
    var n := |l.commands|;
    View(n % CAPACITY, if n < CAPACITY then 0 else n % CAPACITY, n >= CAPACITY,
         Visible(l), l.pending, |Flatten(l.commands)|)
  }

  lemma InvObserve(d: Device, l: Log)
    requires Inv(d, l)
    ensures Observe(d) == Expected(l)
  {
    PendingText(d, l);
    assert forall i :: 0 <= i < |Live(d.ring)| ==> Stored(d.slab, Live(d.ring)[i], Visible(l)[i]);
    assert Observe(d).commands == Visible(l);
  }

  lemma OwnedCount(d: Device, l: Log)
    requires Inv(d, l)
    ensures |Owned(d)| == |Visible(l)| + (if l.pending == [] then 0 else 1) + |d.leaked|
  {
    if l.pending != [] {
      PendingPtr(d, l);
    }
    assert |Ptrs(Live(d.ring))| == |Visible(l)|;
  }

  lemma RunView(calls: seq<Call>)
    ensures Observe(Run(calls)) == Expected(History(calls))
  {
    WholeRun(calls);
    InvObserve(Run(calls), History(calls));
  }

  /** In every run each live block ends in a newline and the pending one does not. */
  lemma NewlineInvariant(calls: seq<Call>)
    ensures forall i :: 0 <= i < |Observe(Run(calls)).commands| ==> EndsInNewline(Observe(Run(calls)).commands[i])
    ensures !EndsInNewline(Observe(Run(calls)).pending)
  {
    RunView(calls);
    GroupKeepsBytes(Accepted(calls));
  }
}
