/** Every client that is ready can be served: the runs that end-to-end correctness speaks of exist. */
module Progress {
  import opened Bytes
  import opened CircularBuffer
  import opened CommandLog
  import opened Driver
  import opened DriverInvariant
  import opened DriverRuns
  import opened ReadBack
  import opened Framing
  import opened FileBuffer
  import opened Server
  import opened Sessions

  lemma OrderlyAppend(wide: bool, acts: seq<Action>, a: Action)
    requires Orderly(wide, acts) && !StrayUnlock(Serve(wide, acts), a)
    ensures Orderly(wide, acts + [a])
  {
    forall k | 0 <= k < |acts + [a]| ensures !StrayUnlock(Serve(wide, (acts + [a])[..k]), (acts + [a])[k]) {
      if k < |acts| {
        assert (acts + [a])[..k] == acts[..k];
      } else {
        assert (acts + [a])[..k] == acts;
      }
    }
  }

  /** One more action that is not a look at a flag that is set. */
  lemma Then(wide: bool, acts: seq<Action>, a: Action) returns (acts': seq<Action>)
    requires Orderly(wide, acts) && (a.CheckFlag? ==> !Serve(wide, acts).terminate)
    ensures acts' == acts + [a] && Orderly(wide, acts')
    ensures Serve(wide, acts') == Next(wide, Serve(wide, acts), a)
  {
    acts' := acts + [a];
    OrderlyAppend(wide, acts, a);
    ServeAppend(wide, acts, a);
  }

  lemma OrderlyIsSound(wide: bool, acts: seq<Action>)
    requires Orderly(wide, acts)
    ensures Sound(Serve(wide, acts))
  {
    assert acts[..|acts|] == acts;
    OrderlySound(wide, acts, |acts|);
  }

  /** A reader finds the log that all lines handed over make. */
  lemma ReaderSeesLines(wide: bool, acts: seq<Action>, t: Tid)
    requires Orderly(wide, acts) && PhaseOf(Serve(wide, acts), t).Reading?
    ensures History(Serve(wide, acts).calls) == Group(Serve(wide, acts).lines)
  {
    OrderlyIsSound(wide, acts);
    assert PhaseOk(Serve(wide, acts), PhaseOf(Serve(wide, acts), t));
  }

  predicate AllBig(counts: seq<nat>) {
    forall i :: 0 <= i < |counts| ==> counts[i] == MSG_LEN
  }

  /** What a request for a whole buffer does to the phase of the thread that makes it. */
  lemma BigReadPhase(l: Log, ph: Phase)
    requires ph.Reading? && |Content(l)| < MSG_LEN && ReadSoFar(l, ph.pos, ph.at, ph.buf, ph.counts)
    ensures var ph' := AfterRead(ph, MSG_LEN, Answer(l, Call.Read(ph.pos, MSG_LEN, Granted)));
      && ph'.line == ph.line && ph'.counts == ph.counts + [MSG_LEN]
      && (if ph.pos < |Content(l)| then ph'.Reading? && ph'.pos == ph.pos + |Remainder(l)(ph.pos)| else ph'.Unlocking?)
  {
    var r := Answer(l, Call.Read(ph.pos, MSG_LEN, Granted));
    assert ph.at + |Given(r)| < MSG_LEN by {
      ReadOn(l, ph.pos, ph.at, ph.buf, ph.counts, MSG_LEN);
      ReadWithin(l, ph.counts + [MSG_LEN]);
    }
    RemainderIsNext(l, ph.pos);
  }

  /** A thread in the middle of reading a stream that fits its buffer, asking for whole buffers. */
  ghost predicate MidRead(s: State, t: Tid, line: seq<byte>, lines: seq<seq<byte>>, l: Log, pos: nat) {
    && PhaseOf(s, t).Reading? && PhaseOf(s, t).line == line && PhaseOf(s, t).pos == pos && AllBig(PhaseOf(s, t).counts)
    && s.lines == lines && History(s.calls) == l && |Content(l)| < MSG_LEN
  }

  /** The thread holds all it will get. */
  ghost predicate ReadOut(s: State, t: Tid, line: seq<byte>, lines: seq<seq<byte>>) {
    s.lines == lines && PhaseOf(s, t).Unlocking? && PhaseOf(s, t).line == line && AllBig(PhaseOf(s, t).counts)
  }

  lemma BigReadStep(wide: bool, s: State, t: Tid, line: seq<byte>, lines: seq<seq<byte>>, l: Log, pos: nat)
    requires PhaseOk(s, PhaseOf(s, t)) && MidRead(s, t, line, lines, l, pos)
    ensures var s' := Next(wide, s, ReadNext(t, MSG_LEN));
      if pos < |Content(l)| then MidRead(s', t, line, lines, l, pos + |Remainder(l)(pos)|)
      else ReadOut(s', t, line, lines)
  {
    ReadStep(wide, s, t, PhaseOf(s, t), MSG_LEN);
    BigReadPhase(l, PhaseOf(s, t));
  }

  lemma OneBigRead(wide: bool, acts: seq<Action>, t: Tid, line: seq<byte>, lines: seq<seq<byte>>, l: Log, pos: nat)
    returns (acts': seq<Action>)
    requires Orderly(wide, acts) && MidRead(Serve(wide, acts), t, line, lines, l, pos)
    ensures acts <= acts' && Orderly(wide, acts')
    ensures if pos < |Content(l)| then MidRead(Serve(wide, acts'), t, line, lines, l, pos + |Remainder(l)(pos)|)
            else ReadOut(Serve(wide, acts'), t, line, lines)
  {
    var s := Serve(wide, acts);
    acts' := Then(wide, acts, ReadNext(t, MSG_LEN));
    assert PhaseOk(s, PhaseOf(s, t)) by { OrderlyIsSound(wide, acts); }
    BigReadStep(wide, s, t, line, lines, l, pos);
  }

  lemma NextPos(l: Log, pos: nat, n: nat) returns (next: nat)
    requires |Content(l)| < MSG_LEN && n >= Ahead(l)(pos)
    ensures next == pos + |Remainder(l)(pos)|
    ensures pos < |Content(l)| ==> n > 0 && n - 1 >= Ahead(l)(next)
  {
    next := pos + |Remainder(l)(pos)|;
    if pos < |Content(l)| {
      AheadDecreases(l, pos);
    }
  }

  /** A reader that asks for whole buffers gets to the end. */
  lemma {:induction false} ReadsOut(wide: bool, acts: seq<Action>, t: Tid, line: seq<byte>, lines: seq<seq<byte>>,
                                    l: Log, pos: nat, n: nat)
    returns (acts': seq<Action>)
    requires Orderly(wide, acts) && MidRead(Serve(wide, acts), t, line, lines, l, pos) && n >= Ahead(l)(pos)
    ensures acts <= acts' && Orderly(wide, acts') && ReadOut(Serve(wide, acts'), t, line, lines)
    decreases n
  {
    var next := NextPos(l, pos, n);
    acts' := OneBigRead(wide, acts, t, line, lines, l, pos);
    if pos < |Content(l)| {
      acts' := ReadsOut(wide, acts', t, line, lines, l, next, n - 1);
    }
  }

  ghost predicate OthersStay(s: State, s': State, t: Tid) {
    forall u :: u != t ==> PhaseOf(s', u) == PhaseOf(s, u)
  }

  /** Locking, writing the line in one piece and rewinding. */
  lemma WriteOutStates(wide: bool, s: State, t: Tid, line: seq<byte>)
    requires PhaseOf(s, t) == Ready(line) && line != [] && s.holder.None?
    ensures var s1 := Next(wide, s, Lock(t));
            var s2 := Next(wide, s1, WriteChunk(t, |line|));
            var s3 := Next(wide, s2, Rewind(t));
            && PhaseOf(s3, t) == Reading(line, 0, 0, Zeros(MSG_LEN), []) && s3.lines == s.lines + [line]
            && OthersStay(s, s3, t)
  {
    var s1 := Next(wide, s, Lock(t));
    assert PhaseOf(s1, t) == Writing(line, line, Run(s.calls).buffSize) && s1.lines == s.lines;
    var s2 := Next(wide, s1, WriteChunk(t, |line|));
    assert PhaseOf(s2, t).Writing? && PhaseOf(s2, t).rest == [] && s2.lines == s.lines + [line];
  }

  lemma WritesOut(wide: bool, acts: seq<Action>, t: Tid, line: seq<byte>) returns (acts': seq<Action>)
    requires Orderly(wide, acts) && Serve(wide, acts).holder.None?
    requires PhaseOf(Serve(wide, acts), t) == Ready(line) && line != []
    ensures acts <= acts' && Orderly(wide, acts') && Serve(wide, acts').lines == Serve(wide, acts).lines + [line]
    ensures PhaseOf(Serve(wide, acts'), t) == Reading(line, 0, 0, Zeros(MSG_LEN), [])
    ensures OthersStay(Serve(wide, acts), Serve(wide, acts'), t)
  {
    WriteOutStates(wide, Serve(wide, acts), t, line);
    acts' := Then(wide, acts, Lock(t));
    acts' := Then(wide, acts', WriteChunk(t, |line|));
    acts' := Then(wide, acts', Rewind(t));
  }

  /** Requests for whole buffers are long enough for any command of a stream that fits one. */
  lemma BigIsLongEnough(l: Log, counts: seq<nat>)
    requires AllBig(counts) && |Content(l)| < MSG_LEN
    ensures LongEnough(l, counts)
  {
    forall k | 0 <= k < |Visible(l)| ensures |Visible(l)[k]| < MSG_LEN {
      FlattenLength(Visible(l));
      SumStep(Lengths(Visible(l)), k);
      SumPrefix(Lengths(Visible(l)), k + 1);
    }
  }

  lemma EndsSession(wide: bool, acts: seq<Action>, t: Tid, ph: Phase) returns (acts': seq<Action>)
    requires Orderly(wide, acts) && PhaseOf(Serve(wide, acts), t) == ph && ph.Unlocking?
    ensures acts <= acts' && Orderly(wide, acts') && Serve(wide, acts').lines == Serve(wide, acts).lines
    ensures Serve(wide, acts').holder.None? && OthersStay(Serve(wide, acts), Serve(wide, acts'), t)
    ensures PhaseOf(Serve(wide, acts'), t) == Sending(ph.line, ph.buf, ph.counts, |Serve(wide, acts).lines|)
  {
    acts' := Then(wide, acts, Unlock(t));
  }

  /** Unlocking after such reads leaves the right reply to send. */
  lemma UnlocksWithReply(wide: bool, acts: seq<Action>, t: Tid, line: seq<byte>, lines: seq<seq<byte>>)
    returns (acts': seq<Action>)
    requires Orderly(wide, acts) && ReadOut(Serve(wide, acts), t, line, lines) && |Content(Group(lines))| < MSG_LEN
    ensures acts <= acts' && Orderly(wide, acts')
    ensures PhaseOf(Serve(wide, acts'), t).Sending? && Serve(wide, acts').lines == lines
    ensures Serve(wide, acts').holder.None? && RightReply(lines, line, Sent(PhaseOf(Serve(wide, acts'), t)))
  {
    acts' := EndsSession(wide, acts, t, PhaseOf(Serve(wide, acts), t));
    LongRequestsSuffice(wide, acts', t);
    BigIsLongEnough(Group(lines), PhaseOf(Serve(wide, acts'), t).counts);
    assert lines[..|lines|] == lines;
  }

  /**
   Whenever the mutex is free, a thread with a line ready can go through its whole session
   and send the right reply, provided the commands will fit its buffer; the mutex is free again.
   */
  lemma SessionCompletes(wide: bool, acts: seq<Action>, t: Tid, line: seq<byte>) returns (acts': seq<Action>)
    requires Orderly(wide, acts) && PhaseOf(Serve(wide, acts), t) == Ready(line) && Serve(wide, acts).holder.None?
    requires |Content(Group(Serve(wide, acts).lines + [line]))| < MSG_LEN
    ensures acts <= acts' && Orderly(wide, acts')
    ensures PhaseOf(Serve(wide, acts'), t).Sending? && Serve(wide, acts').holder.None?
    ensures Serve(wide, acts').lines == Serve(wide, acts).lines + [line]
    ensures RightReply(Serve(wide, acts').lines, line, Sent(PhaseOf(Serve(wide, acts'), t)))
  {
    var lines := Serve(wide, acts).lines + [line];
    assert line != [] by {
      OrderlyIsSound(wide, acts);
      assert PhaseOk(Serve(wide, acts), PhaseOf(Serve(wide, acts), t));
    }
    acts' := WritesOut(wide, acts, t, line);
    ReaderSeesLines(wide, acts', t);
    acts' := ReadsOut(wide, acts', t, line, lines, Group(lines), 0, Ahead(Group(lines))(0));
    acts' := UnlocksWithReply(wide, acts', t, line, lines);
  }

  /** A single complete line is the whole stream. */
  lemma OneLine(line: seq<byte>)
    requires EndsInNewline(line)
    ensures Group([] + [line]) == Log([line], []) && Content(Group([] + [line])) == line
  {
    GroupAppend([], line);
    FlattenSingle(line);
    LeftUnit(line);
  }
}
