/** What the clients of the socket server get back, through framing, driver and all interleavings. */
module Sessions {
  import opened Bytes
  import opened CircularBuffer
  import opened CommandLog
  import opened Driver
  import opened DriverInvariant
  import opened DriverRuns
  import opened ReadBack
  import opened Framing
  import opened FileBuffer
  import opened Server

  /** Where reads that asked for `counts`, from the start of the stream of `l`, have got to. */
  ghost predicate ReadSoFar(l: Log, pos: nat, at: nat, buf: seq<byte>, counts: seq<nat>) {
    && pos == |Met(Remainder(l), 0, |counts|)| && at == |Gained(Remainder(l), 0, counts)|
    && buf == Filled(Remainder(l), MSG_LEN, counts)
  }

  /** Such reads are over: the last one reported nothing, or the buffer is full. */
  ghost predicate ReadToEnd(l: Log, buf: seq<byte>, counts: seq<nat>) {
    && buf == Filled(Remainder(l), MSG_LEN, counts)
    && (|Gained(Remainder(l), 0, counts)| >= MSG_LEN || EndsWithNothing(Remainder(l), counts))
  }

  /** All lines are handed over, `line` last, and the device's log is what they make. */
  ghost predicate LastLine(h: Log, lines: seq<seq<byte>>, line: seq<byte>) {
    lines != [] && lines[|lines| - 1] == line && h == Group(lines)
  }

  /** On top of log `base` a part of a line has been handed over, from the position that SEEK_END gave on. */
  ghost predicate PartWritten(h: Log, base: Log, part: seq<byte>, pos: nat) {
    h == Log(base.commands, base.pending + part) && pos == |Flatten(base.commands)| + |part|
  }

  /** How a thread stands to a device with log `h` and to the lines handed over. */
  ghost predicate Fits(h: Log, lines: seq<seq<byte>>, ph: Phase) {
    match ph
    case Ready(line) => IsLine(line)
    case Writing(line, rest, pos) =>
      && IsLine(line) && |rest| <= |line| && line[|line| - |rest|..] == rest
      && if rest == [] then LastLine(h, lines, line)
         else PartWritten(h, Group(lines), line[..|line| - |rest|], pos)
    case Reading(line, pos, at, buf, counts) =>
      LastLine(h, lines, line) && ReadSoFar(h, pos, at, buf, counts) && at < MSG_LEN
    case Unlocking(line, buf, counts) => LastLine(h, lines, line) && ReadToEnd(h, buf, counts)
    case Sending(line, buf, counts, seen) =>
      0 < seen <= |lines| && lines[seen - 1] == line && ReadToEnd(Group(lines[..seen]), buf, counts)
    case _ => true
  }

  ghost predicate PhaseOk(s: State, ph: Phase) {
    Fits(History(s.calls), s.lines, ph)
  }

  ghost predicate SectionEmpty(s: State) {
    forall t :: !InSection(PhaseOf(s, t))
  }

  ghost predicate Sound(s: State) {
    && Guarded(s)
    && (forall t {:trigger PhaseOk(s, PhaseOf(s, t))} :: PhaseOk(s, PhaseOf(s, t)))
    && (SectionEmpty(s) ==> History(s.calls) == Group(s.lines))
    && (forall i :: 0 <= i < |s.lines| ==> IsLine(s.lines[i]))
  }

  /** A proper part of a line only adds to what is pending. */
  lemma PartOfLine(l: Log, part: seq<byte>)
    requires part != [] && LF !in part
    ensures Accept(l, part) == Log(l.commands, l.pending + part)
  {
    var text := l.pending + part;
    assert text[|text| - 1] == part[|part| - 1];
  }

  /** Handing over the next bytes of a line. */
  lemma ChunkWritten(base: Log, line: seq<byte>, k: nat, n: nat)
    requires IsLine(line) && 0 < n && k + n <= |line|
    ensures Accept(Log(base.commands, base.pending + line[..k]), line[k..][..n])
         == if k + n == |line| then Accept(base, line)
            else Log(base.commands, base.pending + line[..k + n])
  {
    var part := line[k..][..n];
    assert line[..k] + part == line[..k + n];
    Associative(base.pending, line[..k], part);
    if k + n == |line| {
      assert line[..k + n] == line;
    } else {
      assert forall i :: 0 <= i < n ==> part[i] == line[k + i];
      PartOfLine(Log(base.commands, base.pending + line[..k]), part);
    }
  }

  /** Reading on. */
  lemma ReadOn(l: Log, pos: nat, at: nat, buf: seq<byte>, counts: seq<nat>, count: nat)
    requires ReadSoFar(l, pos, at, buf, counts)
    ensures var r := Answer(l, Call.Read(pos, count, Granted));
            var at', buf', counts' := at + |Given(r)|, Laid(buf, at, r.data), counts + [count];
      && ReadSoFar(l, r.pos, at', buf', counts')
      && (r.ret == 0 || at' >= MSG_LEN ==> ReadToEnd(l, buf', counts'))
  {
    AnswerGives(l, pos, count);
    OneMoreLengths(Remainder(l), counts, count);
    FilledAppend(Remainder(l), MSG_LEN, counts, count);
  }

  /** What has been read of a stream is never longer than the stream. */
  lemma ReadWithin(l: Log, counts: seq<nat>)
    requires |Content(l)| < MSG_LEN
    ensures |Gained(Remainder(l), 0, counts)| <= |Met(Remainder(l), 0, |counts|)| <= |Content(l)|
  {
    LogStreams(l);
    MetIsNext(Remainder(l), Ahead(l), Content(l), 0, |counts|);
    GainedIff(Remainder(l), 0, counts);
  }

  /**
   The string that reads leave in the buffer is the whole of a stream that fits it exactly when
   each of them, the last command's aside, asked for what it met.
   */
  lemma ReadAllIff(l: Log, buf: seq<byte>, counts: seq<nat>)
    requires ReadToEnd(l, buf, counts) && |Content(l)| < MSG_LEN && NUL !in Content(l)
    ensures CString(buf) == Content(l) <==> CoversButLast(Remainder(l), 0, counts)
  {
    ReadWithin(l, counts);
    LogStreams(l);
    FilledIff(Remainder(l), Ahead(l), Content(l), MSG_LEN, counts);
  }

  // ---------------------------------------------------------------- every step

  /** A step that leaves device, lines and every other phase alone keeps the rest sound. */
  lemma QuietStep(s: State, s': State, t: Tid)
    requires Sound(s) && Guarded(s') && s'.calls == s.calls && s'.lines == s.lines
    requires forall u :: u != t ==> PhaseOf(s', u) == PhaseOf(s, u)
    requires PhaseOk(s, PhaseOf(s', t))
    requires SectionEmpty(s') ==> History(s.calls) == Group(s.lines)
    ensures Sound(s')
  {
    forall u ensures PhaseOk(s', PhaseOf(s', u)) {
      assert PhaseOk(s, PhaseOf(s, u));
      assert PhaseOk(s, PhaseOf(s', u));
    }
  }

  lemma LockSound(wide: bool, s: State, s': State, a: Action)
    requires Sound(s) && Guarded(s') && s' == Next(wide, s, a) && a.Lock?
    ensures Sound(s')
  {
    var t, ph := a.t, PhaseOf(s, a.t);
    assert s' == Locking(s, t);
    if ph.Ready? && s.holder.None? {
      assert PhaseOk(s, ph);
      assert SectionEmpty(s);
      RightUnit(Group(s.lines).pending);
      assert Run(s.calls).buffSize == |Flatten(Group(s.lines).commands)| by { WholeRun(s.calls); }
      assert InSection(PhaseOf(s', t));
      QuietStep(s, s', t);
    }
  }

  /** Handing over some, but not all, of the rest of a line. */
  lemma MiddleChunkFits(h: Log, lines: seq<seq<byte>>, ph: Phase, n: nat)
    requires ph.Writing? && Fits(h, lines, ph) && 0 < n < |ph.rest|
    ensures Fits(Accept(h, ph.rest[..n]), lines, Writing(ph.line, ph.rest[n..], ph.pos + n))
  {
    var k := |ph.line| - |ph.rest|;
    ChunkWritten(Group(lines), ph.line, k, n);
    assert ph.line[k + n..] == ph.rest[n..];
  }

  /** Handing over all that is left makes the line the last of the lines. */
  lemma LastChunkFits(h: Log, lines: seq<seq<byte>>, ph: Phase)
    requires ph.Writing? && Fits(h, lines, ph) && ph.rest != []
    ensures Fits(Accept(h, ph.rest), lines + [ph.line], Writing(ph.line, [], ph.pos + |ph.rest|))
  {
    ChunkWritten(Group(lines), ph.line, |ph.line| - |ph.rest|, |ph.rest|);
    assert ph.rest[..|ph.rest|] == ph.rest;
    GroupAppend(lines, ph.line);
  }

  /** What a thread outside the section holds does not depend on the device or on later lines. */
  lemma StaysOutside(h: Log, h': Log, lines: seq<seq<byte>>, lines': seq<seq<byte>>, ph: Phase)
    requires Fits(h, lines, ph) && !InSection(ph) && lines <= lines'
    ensures Fits(h', lines', ph)
  {
    if ph.Sending? {
      assert lines'[..ph.seen] == lines[..ph.seen];
    }
  }

  /** A step of the thread in the section: the others have nothing to do with the device. */
  lemma SectionStep(s: State, s': State, t: Tid)
    requires Sound(s) && Guarded(s') && InSection(PhaseOf(s, t)) && InSection(PhaseOf(s', t)) && s.lines <= s'.lines
    requires forall u :: u != t ==> PhaseOf(s', u) == PhaseOf(s, u)
    requires PhaseOk(s', PhaseOf(s', t)) && forall i :: 0 <= i < |s'.lines| ==> IsLine(s'.lines[i])
    ensures Sound(s')
  {
    forall u ensures PhaseOk(s', PhaseOf(s', u)) {
      if u != t {
        assert PhaseOk(s, PhaseOf(s, u));
        StaysOutside(History(s.calls), History(s'.calls), s.lines, s'.lines, PhaseOf(s, u));
      }
    }
  }

  lemma IsLineAppend(lines: seq<seq<byte>>, line: seq<byte>)
    requires IsLine(line) && forall i :: 0 <= i < |lines| ==> IsLine(lines[i])
    ensures forall i :: 0 <= i < |lines + [line]| ==> IsLine((lines + [line])[i])
  {
  }

  lemma ChunkStep(s: State, s': State, t: Tid, ph: Phase, n: nat)
    requires Sound(s) && Guarded(s') && PhaseOf(s, t) == ph && ph.Writing? && 0 < n <= |ph.rest|
    requires s'.calls == s.calls + [Call.Write(ph.pos, ph.rest[..n], Granted)]
    requires s'.lines == if n == |ph.rest| then s.lines + [ph.line] else s.lines
    requires PhaseOf(s', t) == Writing(ph.line, ph.rest[n..], ph.pos + n)
    requires forall u :: u != t ==> PhaseOf(s', u) == PhaseOf(s, u)
    ensures Sound(s')
  {
    assert PhaseOk(s, ph);
    HistoryAppend(s.calls, Call.Write(ph.pos, ph.rest[..n], Granted));
    if n == |ph.rest| {
      assert ph.rest[..n] == ph.rest && ph.rest[n..] == [];
      LastChunkFits(History(s.calls), s.lines, ph);
    } else {
      MiddleChunkFits(History(s.calls), s.lines, ph, n);
    }
    IsLineAppend(s.lines, ph.line);
    SectionStep(s, s', t);
  }

  lemma ChunkSound(wide: bool, s: State, s': State, a: Action)
    requires Sound(s) && Guarded(s') && s' == Next(wide, s, a) && a.WriteChunk?
    ensures Sound(s')
  {
    var t, n, ph := a.t, a.n, PhaseOf(s, a.t);
    assert s' == WritingChunk(s, t, n);
    if ph.Writing? && 0 < n <= |ph.rest| {
      ChunkStep(s, s', t, ph, n);
    }
  }

  lemma RewindSound(wide: bool, s: State, s': State, a: Action)
    requires Sound(s) && Guarded(s') && s' == Next(wide, s, a) && a.Rewind?
    ensures Sound(s')
  {
    var t, ph := a.t, PhaseOf(s, a.t);
    assert s' == Rewinding(s, t);
    if ph.Writing? && ph.rest == [] {
      assert PhaseOk(s, ph);
      assert InSection(PhaseOf(s', t));
      QuietStep(s, s', t);
    }
  }

  /** What the log answers to a read takes the phase on. */
  lemma ReadFits(h: Log, lines: seq<seq<byte>>, ph: Phase, count: nat)
    requires ph.Reading? && Fits(h, lines, ph)
    ensures Fits(h, lines, AfterRead(ph, count, Answer(h, Call.Read(ph.pos, count, Granted))))
  {
    ReadOn(h, ph.pos, ph.at, ph.buf, ph.counts, count);
  }

  /** A read by a thread in `ph`, said of the log. */
  lemma ReadStep(wide: bool, s: State, t: Tid, ph: Phase, count: nat)
    requires PhaseOf(s, t) == ph && ph.Reading?
    ensures var s' := Next(wide, s, ReadNext(t, count));
      && PhaseOf(s', t) == AfterRead(ph, count, Answer(History(s.calls), Call.Read(ph.pos, count, Granted)))
      && s'.lines == s.lines && History(s'.calls) == History(s.calls)
      && forall u :: u != t ==> PhaseOf(s', u) == PhaseOf(s, u)
  {
    var call := Call.Read(ph.pos, count, Granted);
    assert History(s.calls + [call]) == History(s.calls) by { HistoryAppend(s.calls, call); }
    assert Perform(Run(s.calls), call).1 == Answer(History(s.calls), call) by { AnswersRefine(s.calls, call); }
    assert Next(wide, s, ReadNext(t, count))
        == Goes(s.(calls := s.calls + [call]), t, AfterRead(ph, count, Perform(Run(s.calls), call).1));
  }

  lemma ReadSound(wide: bool, s: State, s': State, a: Action)
    requires Sound(s) && Guarded(s') && s' == Next(wide, s, a) && a.ReadNext?
    ensures Sound(s')
  {
    var ph := PhaseOf(s, a.t);
    if ph.Reading? {
      assert PhaseOk(s, ph);
      ReadStep(wide, s, a.t, ph, a.count);
      ReadFits(History(s.calls), s.lines, ph, a.count);
      SectionStep(s, s', a.t);
    } else {
      assert s' == s;
    }
  }

  /** A thread that ends up outside the section was outside, or had finished reading. */
  lemma OutsideStep(s: State, s': State, t: Tid)
    requires Sound(s) && Guarded(s') && s'.calls == s.calls && s'.lines == s.lines
    requires forall u :: u != t ==> PhaseOf(s', u) == PhaseOf(s, u)
    requires PhaseOk(s, PhaseOf(s', t)) && !InSection(PhaseOf(s', t))
    requires InSection(PhaseOf(s, t)) ==> PhaseOf(s, t).Unlocking?
    ensures Sound(s')
  {
    assert PhaseOk(s, PhaseOf(s, t));
    if SectionEmpty(s') && !SectionEmpty(s) {
      var u :| InSection(PhaseOf(s, u));
      assert u == t || PhaseOf(s', u) == PhaseOf(s, u);
    }
    QuietStep(s, s', t);
  }

  lemma RecvSound(wide: bool, s: State, s': State, a: Action)
    requires Sound(s) && Guarded(s') && s' == Next(wide, s, a) && a.Recv?
    ensures Sound(s')
  {
    assert s' == Receives(wide, s, a.t, a.msg);
    if PhaseOf(s, a.t).Receiving? && Framable(wide, a.msg) {
      FramedIsLine(wide, a.msg);
      OutsideStep(s, s', a.t);
    }
  }

  lemma UnlockFits(h: Log, lines: seq<seq<byte>>, ph: Phase)
    requires ph.Unlocking? && Fits(h, lines, ph)
    ensures Fits(h, lines, Sending(ph.line, ph.buf, ph.counts, |lines|))
  {
    assert lines[..|lines|] == lines;
  }

  lemma UnlockSound(wide: bool, s: State, s': State, a: Action)
    requires Sound(s) && Guarded(s') && s' == Next(wide, s, a) && (a.Unlock? || a.UnlockGivesUp?)
    ensures Sound(s')
  {
    var ph := PhaseOf(s, a.t);
    if ph.Unlocking? {
      assert PhaseOk(s, ph);
      UnlockFits(History(s.calls), s.lines, ph);
      OutsideStep(s, s', a.t);
    }
  }

  /** The remaining steps of threads outside the section. */
  lemma OutsideSound(wide: bool, s: State, s': State, a: Action)
    requires Sound(s) && Guarded(s') && s' == Next(wide, s, a)
    requires a.CheckFlag? || a.RecvNothing? || a.LockGivesUp? || a.Send?
    ensures Sound(s')
  {
    if s' != s {
      assert PhaseOk(s, PhaseOf(s, a.t));
      OutsideStep(s, s', a.t);
    }
  }

  lemma SoundWithFlag(wide: bool, s: State, s': State, a: Action)
    requires Sound(s) && s' == Next(wide, s, a) && a.Terminate?
    ensures Sound(s')
  {
    assert s' == s.(terminate := true);
    assert forall t :: PhaseOf(s', t) == PhaseOf(s, t);
    assert forall t :: PhaseOk(s, PhaseOf(s, t)) ==> PhaseOk(s', PhaseOf(s, t));
  }

  /** Every step that leaves the section guarded. */
  lemma StepSound(wide: bool, s: State, s': State, a: Action)
    requires Sound(s) && Guarded(s') && s' == Next(wide, s, a)
    ensures Sound(s')
  {
    if a.Lock? {
      LockSound(wide, s, s', a);
    } else if a.WriteChunk? {
      ChunkSound(wide, s, s', a);
    } else if a.Rewind? {
      RewindSound(wide, s, s', a);
    } else if a.ReadNext? {
      ReadSound(wide, s, s', a);
    } else if a.Recv? {
      RecvSound(wide, s, s', a);
    } else if a.Unlock? || a.UnlockGivesUp? {
      UnlockSound(wide, s, s', a);
    } else if a.Terminate? {
      SoundWithFlag(wide, s, s', a);
    } else {
      OutsideSound(wide, s, s', a);
    }
  }

  lemma NextSound(wide: bool, s: State, a: Action)
    requires Sound(s) && !StrayUnlock(s, a)
    ensures Sound(Next(wide, s, a))
  {
    assert Guarded(Next(wide, s, a)) by { NextGuarded(wide, s, a); }
    StepSound(wide, s, Next(wide, s, a), a);
  }

  lemma {:induction false} OrderlySound(wide: bool, acts: seq<Action>, k: nat)
    requires Orderly(wide, acts) && k <= |acts|
    ensures Sound(Serve(wide, acts[..k]))
  {
    if k > 0 {
      OrderlySound(wide, acts, k - 1);
      NextSound(wide, Serve(wide, acts[..k - 1]), acts[k - 1]);
      ServeStep(wide, acts, k - 1);
    }
  }

  // ---------------------------------------------------------------- the reply

  lemma {:induction false} LinesNulFree(lines: seq<seq<byte>>)
    requires forall i :: 0 <= i < |lines| ==> IsLine(lines[i])
    ensures NUL !in Flatten(lines)
  {
    if lines != [] {
      LinesNulFree(lines[..|lines| - 1]);
    }
  }

  /** The stream of a device that has only taken framed lines has no NUL in it. */
  lemma ContentNulFree(lines: seq<seq<byte>>)
    requires forall i :: 0 <= i < |lines| ==> IsLine(lines[i])
    ensures NUL !in Content(Group(lines))
  {
    var l := Group(lines);
    LinesNulFree(lines);
    GroupKeepsBytes(lines);
    EvictedAndVisible(l);
    assert forall b :: b in Content(l) ==> b in Evicted(l) + Content(l) && b in Flatten(l.commands) + l.pending;
  }

  /** A line that ends in a newline is the end of the newest command, and of the stream. */
  lemma OwnLineLast(lines: seq<seq<byte>>)
    requires lines != [] && EndsInNewline(lines[|lines| - 1])
    ensures var front, line := lines[..|lines| - 1], lines[|lines| - 1];
      && Group(lines).commands == Group(front).commands + [Group(front).pending + line]
      && Group(lines).pending == []
      && |line| <= |Content(Group(lines))| && Content(Group(lines))[|Content(Group(lines))| - |line|..] == line
  {
    var front, line := lines[..|lines| - 1], lines[|lines| - 1];
    assert lines == front + [line];
    GroupAppend(front, line);
    AcceptEnd(Group(front), line);
    var command := Group(front).pending + line;
    LatestAppend(Group(front).commands, command);
    var older := Visible(Group(lines))[..|Visible(Group(lines))| - 1];
    FlattenAppend(older, command);
    assert Visible(Group(lines)) == older + [command];
    Associative(Flatten(older), Group(front).pending, line);
  }

  /**
   The reply that belongs to a list of lines: the last ten commands made of them.  If the last
   line ends in a newline it completed exactly one command, and the reply ends with it.  A NUL
   must follow it in the buffer.
   */
  ghost predicate RightReply(lines: seq<seq<byte>>, line: seq<byte>, sent: seq<byte>) {
    && lines != [] && lines[|lines| - 1] == line
    && sent == Flatten(Latest(Group(lines).commands)) && |sent| < MSG_LEN
    && (EndsInNewline(line) ==>
          var before := Group(lines[..|lines| - 1]);
          && Group(lines).commands == before.commands + [before.pending + line]
          && |line| <= |sent| && sent[|sent| - |line|..] == line)
  }

  lemma StreamIsRightReply(lines: seq<seq<byte>>)
    requires lines != [] && |Content(Group(lines))| < MSG_LEN
    ensures RightReply(lines, lines[|lines| - 1], Content(Group(lines)))
  {
    if EndsInNewline(lines[|lines| - 1]) {
      OwnLineLast(lines);
    }
  }

  lemma RightReplyIff(lines: seq<seq<byte>>, buf: seq<byte>, counts: seq<nat>)
    requires lines != [] && forall i :: 0 <= i < |lines| ==> IsLine(lines[i])
    requires ReadToEnd(Group(lines), buf, counts)
    ensures RightReply(lines, lines[|lines| - 1], CString(buf))
       <==> |Content(Group(lines))| < MSG_LEN && CoversButLast(Remainder(Group(lines)), 0, counts)
  {
    if |Content(Group(lines))| < MSG_LEN {
      ContentNulFree(lines);
      ReadAllIff(Group(lines), buf, counts);
      StreamIsRightReply(lines);
    }
  }

  /**
   Of the lines that all clients had handed over by the end of a session, in lock order: the
   thread sends the right reply to them, its own line last, if and only if the last ten
   commands fit its buffer and each of its reads, the last command's aside, asked for what
   was left of the command it met.
   */
  ghost predicate RepliesIff(lines: seq<seq<byte>>, ph: Phase)
    requires ph.Sending?
  {
    RightReply(lines, ph.line, Sent(ph))
    <==> |Content(Group(lines))| < MSG_LEN && CoversButLast(Remainder(Group(lines)), 0, ph.counts)
  }

  lemma FittingReplies(h: Log, lines: seq<seq<byte>>, ph: Phase)
    requires ph.Sending? && Fits(h, lines, ph) && forall i :: 0 <= i < |lines| ==> IsLine(lines[i])
    ensures ph.seen <= |lines| && RepliesIff(lines[..ph.seen], ph)
  {
    RightReplyIff(lines[..ph.seen], ph.buf, ph.counts);
  }

  lemma SoundReplies(s: State, t: Tid)
    requires Sound(s) && PhaseOf(s, t).Sending?
    ensures PhaseOf(s, t).seen <= |s.lines| && RepliesIff(s.lines[..PhaseOf(s, t).seen], PhaseOf(s, t))
  {
    assert PhaseOk(s, PhaseOf(s, t));
    FittingReplies(History(s.calls), s.lines, PhaseOf(s, t));
  }

  /** End to end: so it is with every thread about to send after a session, in every orderly run. */
  lemma EndToEnd(wide: bool, acts: seq<Action>, t: Tid)
    requires Orderly(wide, acts) && PhaseOf(Serve(wide, acts), t).Sending?
    ensures PhaseOf(Serve(wide, acts), t).seen <= |Serve(wide, acts).lines|
    ensures RepliesIff(Serve(wide, acts).lines[..PhaseOf(Serve(wide, acts), t).seen], PhaseOf(Serve(wide, acts), t))
  {
    assert acts[..|acts|] == acts;
    OrderlySound(wide, acts, |acts|);
    SoundReplies(Serve(wide, acts), t);
  }

  /** While the stream fits the file buffer, whatever a read asks for, its data stays inside. */
  lemma ReadsInsideBuffer(wide: bool, acts: seq<Action>, t: Tid, count: nat)
    requires Orderly(wide, acts) && PhaseOf(Serve(wide, acts), t).Reading?
    requires |Content(Group(Serve(wide, acts).lines))| < MSG_LEN
    ensures var s, ph := Serve(wide, acts), PhaseOf(Serve(wide, acts), t);
      ph.at + |Perform(Run(s.calls), Call.Read(ph.pos, count, Granted)).1.data| < MSG_LEN
  {
    var s, ph := Serve(wide, acts), PhaseOf(Serve(wide, acts), t);
    assert PhaseOk(s, ph) by {
      assert acts[..|acts|] == acts;
      OrderlySound(wide, acts, |acts|);
    }
    AnswersRefine(s.calls, Call.Read(ph.pos, count, Granted));
    NextReadInside(History(s.calls), ph, count);
  }

  lemma NextReadInside(l: Log, ph: Phase, count: nat)
    requires ph.Reading? && ReadSoFar(l, ph.pos, ph.at, ph.buf, ph.counts) && |Content(l)| < MSG_LEN
    ensures ph.at + |Answer(l, Call.Read(ph.pos, count, Granted)).data| < MSG_LEN
  {
    AnswerGives(l, ph.pos, count);
    OneMoreLengths(Remainder(l), ph.counts, count);
    ReadWithin(l, ph.counts);
    ReadWithin(l, ph.counts + [count]);
  }

  /** Each request is at least as long as the longest command. */
  ghost predicate LongEnough(l: Log, counts: seq<nat>) {
    forall i, k :: 0 <= i < |counts| && 0 <= k < |Visible(l)| ==> |Visible(l)[k]| <= counts[i]
  }

  lemma {:induction false} LongRequestsCover(l: Log, p: nat, counts: seq<nat>)
    requires LongEnough(l, counts)
    ensures CoversButLast(Remainder(l), p, counts)
    decreases |counts|
  {
    if counts != [] {
      RemainderWithin(l, p, counts[0]);
      LongRequestsCover(l, p + |Remainder(l)(p)|, counts[1..]);
    }
  }

  /** In particular it is enough that each read asks for as much as the longest command. */
  lemma LongRequestsSuffice(wide: bool, acts: seq<Action>, t: Tid)
    requires Orderly(wide, acts) && PhaseOf(Serve(wide, acts), t).Sending?
    ensures PhaseOf(Serve(wide, acts), t).seen <= |Serve(wide, acts).lines|
    ensures var ph := PhaseOf(Serve(wide, acts), t);
            var lines := Serve(wide, acts).lines[..ph.seen];
            |Content(Group(lines))| < MSG_LEN && LongEnough(Group(lines), ph.counts) ==>
              RightReply(lines, ph.line, Sent(ph))
  {
    EndToEnd(wide, acts, t);
    var ph := PhaseOf(Serve(wide, acts), t);
    var l := Group(Serve(wide, acts).lines[..ph.seen]);
    if LongEnough(l, ph.counts) {
      LongRequestsCover(l, 0, ph.counts);
    }
  }
}
