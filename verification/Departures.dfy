/**
 Inputs at which the code departs from what its comments, its names or POSIX promise.  Each
 lies outside the exact condition that another module proves for the departure.
 */
module Departures {
  import opened Bytes
  import opened CircularBuffer
  import opened CommandLog
  import opened Driver
  import opened DriverInvariant
  import opened DriverRuns
  import opened RunLaws
  import opened Ownership
  import opened ReadBack
  import opened CharDevice
  import opened Framing
  import opened FileBuffer
  import opened Server
  import opened Sessions
  import opened Progress
  import PortList

  const LETTER: byte := 65

  // ---------------------------------------------------------------- the driver

  lemma AfterOneWrite(text: seq<byte>)
    ensures History([Call.Write(0, text, Granted)]) == Accept(EMPTY_LOG, text)
  {
    AcceptedAppend([], Call.Write(0, text, Granted));
    assert [] + [Call.Write(0, text, Granted)] == [Call.Write(0, text, Granted)];
    GroupAppend([], text);
  }

  lemma AfterOneCommand(text: seq<byte>)
    requires EndsInNewline(text)
    ensures History([Call.Write(0, text, Granted)]) == Log([text], [])
    ensures Visible(Log([text], [])) == [text] && Content(Log([text], [])) == text
  {
    AfterOneWrite(text);
    LeftUnit(text);
    FlattenSingle(text);
  }

  /** One byte is asked for and reported; two are copied, and the position moves over two. */
  lemma ShortRead()
    ensures Perform(Run([Call.Write(0, [LETTER, LF], Granted)]), Call.Read(0, 1, Granted)).1 == Reply(1, 2, [LETTER, LF])
  {
    var text := [LETTER, LF];
    AnswersRefine([Call.Write(0, text, Granted)], Call.Read(0, 1, Granted));
    AfterOneCommand(text);
    ReadFromStart(text, 1);
  }

  /** A read at the start of a stream of one command. */
  lemma ReadFromStart(text: seq<byte>, count: nat)
    requires 0 < |text| < UINT_RANGE
    ensures Answer(Log([text], []), Call.Read(0, count, Granted))
         == Reply(if count > |text| then |text| else count, |text|, text)
  {
    FlattenSingle(text);
    assert Lengths([text])[..0] == [];
    ReadsCommand(Log([text], []), 0, 0, count);
  }

  /** A read at the start of visible command `k`. */
  lemma ReadsCommand(l: Log, p: nat, k: nat, count: nat)
    requires |Content(l)| < UINT_RANGE && Resolves(Lengths(Visible(l)), p, k, 0)
    ensures var command := Visible(l)[k];
      Answer(l, Call.Read(p, count, Granted))
      == Reply(if count > |command| then |command| else count, p + |command|, command)
  {
    RemainderIs(l, p, k, 0);
    AnswerGives(l, p, count);
    assert Visible(l)[k][0..] == Visible(l)[k];
  }

  /** `n` commands that are a bare newline. */
  function Newlines(n: nat): seq<seq<byte>> {
    seq(n, _ => [LF])
  }

  function NewlineWrites(n: nat): seq<Call> {
    seq(n, _ => Call.Write(0, [LF], Granted))
  }

  lemma {:induction false} NewlinesLength(n: nat)
    ensures |Flatten(Newlines(n))| == n
  {
    if n > 0 {
      NewlinesLength(n - 1);
      assert Newlines(n) == Newlines(n - 1) + [[LF]];
      FlattenAppend(Newlines(n - 1), [LF]);
    }
  }

  lemma {:induction false} NewlinesHistory(n: nat)
    ensures History(NewlineWrites(n)) == Log(Newlines(n), [])
  {
    if n > 0 {
      NewlinesHistory(n - 1);
      assert NewlineWrites(n) == NewlineWrites(n - 1) + [Call.Write(0, [LF], Granted)];
      assert Newlines(n) == Newlines(n - 1) + [[LF]];
      OneMoreNewline(NewlineWrites(n - 1), Newlines(n - 1));
    }
  }

  lemma OneMoreNewline(calls: seq<Call>, commands: seq<seq<byte>>)
    requires History(calls) == Log(commands, [])
    ensures History(calls + [Call.Write(0, [LF], Granted)]) == Log(commands + [[LF]], [])
  {
    HistoryAppend(calls, Call.Write(0, [LF], Granted));
    LeftUnit([LF]);
  }

  /** After more than ten newlines SEEK_END lies as far behind the end of the stream as there were too many. */
  lemma SeekEndBeyondStream(n: nat, pos: nat)
    requires n > CAPACITY
    ensures Lseek(Run(NewlineWrites(n)), pos, 0, 2) == Some(n)
    ensures PosixLseek(LiveBytes(Run(NewlineWrites(n))), pos, 0, 2) == Some(CAPACITY)
  {
    var d, l := Run(NewlineWrites(n)), Log(Newlines(n), []);
    assert Holds(d, l) by {
      NewlinesHistory(n);
      WholeRun(NewlineWrites(n));
    }
    NewlinesLength(n);
    assert LiveBytes(d) == CAPACITY by {
      LiveBytesIsContent(d, l);
      LastTenNewlines(n);
    }
  }

  lemma LastTenNewlines(n: nat)
    requires n > CAPACITY
    ensures |Content(Log(Newlines(n), []))| == CAPACITY
  {
    assert Visible(Log(Newlines(n), [])) == Newlines(CAPACITY);
    NewlinesLength(CAPACITY);
  }

  /** One read is enough for unloading to leave a block behind. */
  lemma ReadLeavesBlock()
    ensures Unloaded(Run([Call.Write(0, [LF], Granted), Call.Read(0, 1, Granted)])).blocks != map[]
  {
    var calls := [Call.Write(0, [LF], Granted), Call.Read(0, 1, Granted)];
    assert CopiesAt(calls, 1) by {
      assert calls[..1] == [Call.Write(0, [LF], Granted)];
      AfterOneCommand([LF]);
      assert Lengths([[LF]]) == [1];
      assert Walk([1], 0, 0, 0) == Some((0, 0));
    }
    UnloadReleases(calls);
  }

  /** So is an unfinished command. */
  lemma UnfinishedLeavesBlock()
    ensures Unloaded(Run([Call.Write(0, [LETTER], Granted)])).blocks != map[]
  {
    AfterOneWrite([LETTER]);
    LeftUnit([LETTER]);
    UnloadReleases([Call.Write(0, [LETTER], Granted)]);
  }

  /** A command of 2^32 bytes is in the stream, but its size wraps to 0 and no offset finds it. */
  lemma WrappedCommandInvisible(text: seq<byte>, c: nat, count: nat)
    requires |text| == UINT_RANGE && EndsInNewline(text)
    ensures Content(History([Call.Write(0, text, Granted)])) == text
    ensures Perform(Run([Call.Write(0, text, Granted)]), Call.Read(c, count, Granted)).1 == Reply(0, c, [])
  {
    AfterOneCommand(text);
    AnswersRefine([Call.Write(0, text, Granted)], Call.Read(c, count, Granted));
    assert Walk(Lengths([text]), c, 0, 0) == None by {
      assert Lengths([text]) == [UINT_RANGE];
      WrapsToNothing(c);
    }
  }

  lemma WrapsToNothing(c: nat)
    ensures Walk([UINT_RANGE], c, 0, 0) == None
  {
  }

  /** A write of no bytes to a freshly loaded device has no last byte to look at. */
  lemma EmptyWriteHasNoLastByte()
    ensures Run([]) == Loaded() && !Committable(Gathered(Run([]), []))
  {
    WholeRun([]);
    CommittableIff(Run([]), History([]), []);
  }

  // ---------------------------------------------------------------- the server

  /** A receive buffer full of letters is read past its end, whatever its length. */
  lemma FullBufferOverruns(wide: bool, data: seq<byte>)
    requires forall i :: 0 <= i < |data| ==> data[i] == LETTER
    ensures Framed(wide, data) == None
  {
    RightUnit(data);
    assert Padded(data, |data|) == data;
    FramingInBoundsIff(wide, data, data, [], |data|);
  }

  /** A line that fills its buffer is framed inside it, but leaves no NUL for `strlen`. */
  lemma FullLineUnterminated(wide: bool, letters: seq<byte>)
    requires forall i :: 0 <= i < |letters| ==> letters[i] == LETTER
    ensures Framed(wide, letters + [LF]) == Some(letters + [LF])
  {
    StopAtIs(wide, letters + [LF], |letters|);
    assert (letters + [LF])[..|letters|] == letters;
  }

  /** A message of one line and zeros behind it is framed as that line. */
  lemma LineReceived(wide: bool)
    ensures Framable(wide, Padded([LETTER, LF], MSG_LEN))
    ensures Framed(wide, Padded([LETTER, LF], MSG_LEN)) == Some([LETTER, LF])
  {
    var data: seq<byte> := [LETTER, LF];
    assert data == [LETTER] + [LF];
    assert Splits(wide, data, [LETTER], [LF]);
    FramedLine(wide, data, [LETTER], [LF], MSG_LEN);
    assert Terminator(wide, [LF]) == [LF];
  }

  /** A thread at the top receives the line. */
  lemma GetsLine(wide: bool, acts: seq<Action>, t: Tid) returns (acts': seq<Action>)
    requires PhaseOf(Serve(wide, acts), t).AtTop? && !Serve(wide, acts).terminate && Terminate !in acts
    ensures Terminate !in acts'
    ensures Serve(wide, acts') == Goes(Goes(Serve(wide, acts), t, Receiving), t, Ready([LETTER, LF]))
  {
    LineReceived(wide);
    acts' := Acted(wide, acts, CheckFlag(t));
    acts' := Acted(wide, acts', Recv(t, Padded([LETTER, LF], MSG_LEN)));
  }

  /** Two clients have sent the same line. */
  lemma BothReady(wide: bool, line: seq<byte>) returns (acts: seq<Action>)
    requires line == [LETTER, LF]
    ensures Orderly(wide, acts) && Serve(wide, acts).holder.None? && Serve(wide, acts).lines == []
    ensures PhaseOf(Serve(wide, acts), 0) == Ready(line) && PhaseOf(Serve(wide, acts), 1) == Ready(line)
  {
    acts := GetsLine(wide, [], 0);
    acts := GetsLine(wide, acts, 1);
    OrderlyBeforeTerminate(wide, acts);
  }

  /** A read by a thread, given what it leads to on the log. */
  lemma AsksFor(wide: bool, acts: seq<Action>, t: Tid, count: nat, l: Log, ph: Phase, ph': Phase)
    returns (acts': seq<Action>)
    requires Orderly(wide, acts) && PhaseOf(Serve(wide, acts), t) == ph && ph.Reading?
    requires History(Serve(wide, acts).calls) == l
    requires ph' == AfterRead(ph, count, Answer(l, Call.Read(ph.pos, count, Granted)))
    ensures Orderly(wide, acts') && PhaseOf(Serve(wide, acts'), t) == ph'
    ensures OthersStay(Serve(wide, acts), Serve(wide, acts'), t)
    ensures History(Serve(wide, acts').calls) == l && Serve(wide, acts').lines == Serve(wide, acts).lines
  {
    ReadStep(wide, Serve(wide, acts), t, ph, count);
    acts' := Then(wide, acts, ReadNext(t, count));
  }

  /** Reads of whole buffers on a stream of one two-byte command. */
  lemma ReadsOneLine(line: seq<byte>, ph: Phase, ph': Phase)
    requires |line| == 2 && ph.Reading? && ph.pos == 0 && ph.at == 0
    requires ph' == AfterRead(ph, MSG_LEN, Answer(Log([line], []), Call.Read(0, MSG_LEN, Granted)))
    ensures ph'.Reading? && ph'.pos == 2
    ensures AfterRead(ph', MSG_LEN, Answer(Log([line], []), Call.Read(2, MSG_LEN, Granted))).Unlocking?
  {
    ReadFromStart(line, MSG_LEN);
    FlattenSingle(line);
    EndAnswersZero(Log([line], []), 2, MSG_LEN);
  }

  /** The first client's line is written and its thread is about to read. */
  lemma FirstLineWritten(wide: bool, line: seq<byte>) returns (acts: seq<Action>)
    requires line == [LETTER, LF]
    ensures Orderly(wide, acts) && PhaseOf(Serve(wide, acts), 0) == Reading(line, 0, 0, Zeros(MSG_LEN), [])
    ensures History(Serve(wide, acts).calls) == Log([line], []) && Serve(wide, acts).lines == [line]
    ensures PhaseOf(Serve(wide, acts), 1) == Ready(line)
  {
    acts := BothReady(wide, line);
    acts := WritesOut(wide, acts, 0, line);
    ReaderSeesLines(wide, acts, 0);
    assert [] + [line] == [line];
    OneLine(line);
  }

  /** The first client's session, with reads of whole buffers. */
  lemma FirstClientServed(wide: bool, line: seq<byte>) returns (acts: seq<Action>)
    requires line == [LETTER, LF]
    ensures Orderly(wide, acts) && Serve(wide, acts).holder.None?
    ensures Serve(wide, acts).lines == [line] && PhaseOf(Serve(wide, acts), 1) == Ready(line)
  {
    var l, ph := Log([line], []), Reading(line, 0, 0, Zeros(MSG_LEN), []);
    var ph1 := AfterRead(ph, MSG_LEN, Answer(l, Call.Read(0, MSG_LEN, Granted)));
    ReadsOneLine(line, ph, ph1);
    var ph2 := AfterRead(ph1, MSG_LEN, Answer(l, Call.Read(2, MSG_LEN, Granted)));
    acts := FirstLineWritten(wide, line);
    acts := AsksFor(wide, acts, 0, MSG_LEN, l, ph, ph1);
    acts := AsksFor(wide, acts, 0, MSG_LEN, l, ph1, ph2);
    acts := EndsSession(wide, acts, 0, ph2);
  }

  lemma TwoLines(line: seq<byte>)
    requires EndsInNewline(line)
    ensures Group([line, line]) == Log([line, line], [])
  {
    OneLine(line);
    assert [] + [line] == [line] && [line] + [line] == [line, line];
    GroupAppend([line], line);
    AcceptEnd(Log([line], []), line);
    LeftUnit(line);
  }

  /** The second client's line is written and its thread is about to read. */
  lemma BothLinesWritten(wide: bool, line: seq<byte>) returns (acts: seq<Action>)
    requires line == [LETTER, LF]
    ensures Orderly(wide, acts) && PhaseOf(Serve(wide, acts), 1) == Reading(line, 0, 0, Zeros(MSG_LEN), [])
    ensures History(Serve(wide, acts).calls) == Log([line, line], []) && Serve(wide, acts).lines == [line, line]
  {
    acts := FirstClientServed(wide, line);
    acts := WritesOut(wide, acts, 1, line);
    ReaderSeesLines(wide, acts, 1);
    assert [line] + [line] == [line, line];
    TwoLines(line);
  }

  /** What reads of one byte answer on a stream of two equal two-byte commands. */
  lemma OneByteReads(line: seq<byte>)
    requires |line| == 2
    ensures var l := Log([line, line], []);
      && Answer(l, Call.Read(0, 1, Granted)) == Reply(1, 2, line)
      && Answer(l, Call.Read(2, 1, Granted)) == Reply(1, 4, line)
      && Answer(l, Call.Read(4, 1, Granted)) == Reply(0, 4, [])
  {
    var l := Log([line, line], []);
    FlattenLength([line, line]);
    SizesOfTwo(line);
    ReadsCommand(l, 0, 0, 1);
    ReadsCommand(l, 2, 1, 1);
    EndAnswersZero(l, 4, 1);
  }

  lemma SizesOfTwo(line: seq<byte>)
    requires |line| == 2
    ensures var sizes := Lengths([line, line]);
      Sum(sizes) == 4 && Resolves(sizes, 0, 0, 0) && Resolves(sizes, 2, 1, 0)
  {
    assert Lengths([line, line]) == [2, 2] && [2, 2][..0] == [] && [2, 2][..1] == [2] && [2][..0] == [];
  }

  /** Two copies of the line, the second laid over the end of the first. */
  lemma LaidOver(line: seq<byte>, len: nat)
    requires line == [LETTER, LF] && len > 3
    ensures CString(Laid(Laid(Zeros(len), 0, line), 1, line)) == [LETTER, LETTER, LF]
  {
    var first, both, text := Laid(Zeros(len), 0, line), Laid(Laid(Zeros(len), 0, line), 1, line), [LETTER, LETTER, LF];
    forall i: nat | i < len ensures both[i] == if i < 3 then text[i] else NUL {
      LaidAt(Zeros(len), 0, line, i);
      LaidAt(first, 1, line, i);
    }
    assert both[..3] == text;
    TextThenZeros(both, text);
  }

  /** The phases of a thread that reads the two lines one byte at a time. */
  lemma OneByteAtATime(line: seq<byte>, b0: seq<byte>, b1: seq<byte>, b2: seq<byte>)
    requires |line| == 2 && b1 == Laid(b0, 0, line) && b2 == Laid(b1, 1, line)
    ensures var l := Log([line, line], []);
      && AfterRead(Reading(line, 0, 0, b0, []), 1, Answer(l, Call.Read(0, 1, Granted)))
      == Reading(line, 2, 1, b1, [1])
      && AfterRead(Reading(line, 2, 1, b1, [1]), 1, Answer(l, Call.Read(2, 1, Granted)))
      == Reading(line, 4, 2, b2, [1, 1])
      && AfterRead(Reading(line, 4, 2, b2, [1, 1]), 1, Answer(l, Call.Read(4, 1, Granted)))
      == Unlocking(line, b2, [1, 1, 1])
  {
    OneByteReads(line);
    assert [] + [1] == [1] && [1] + [1] == [1, 1] && [1, 1] + [1] == [1, 1, 1];
    AfterOneByte(Reading(line, 0, 0, b0, []), line, 2);
    AfterOneByte(Reading(line, 2, 1, b1, [1]), line, 4);
    AfterNothing(Reading(line, 4, 2, b2, [1, 1]), 1, 4);
  }

  /** A read that copies `data` and reports one byte. */
  lemma AfterOneByte(ph: Phase, data: seq<byte>, pos: nat)
    requires ph.Reading? && ph.at + 1 < MSG_LEN && |data| > 0
    ensures AfterRead(ph, 1, Reply(1, pos, data))
         == Reading(ph.line, pos, ph.at + 1, Laid(ph.buf, ph.at, data), ph.counts + [1])
  {
  }

  /** A read at the end of the stream. */
  lemma AfterNothing(ph: Phase, count: nat, pos: nat)
    requires ph.Reading?
    ensures AfterRead(ph, count, Reply(0, pos, [])) == Unlocking(ph.line, ph.buf, ph.counts + [count])
  {
    LaidNothing(ph.buf, ph.at);
  }

  /** From there on, three reads that ask for one byte each, and the unlock. */
  lemma ReadsOver(wide: bool, acts: seq<Action>, line: seq<byte>, b0: seq<byte>, b1: seq<byte>, b2: seq<byte>)
    returns (acts': seq<Action>)
    requires Orderly(wide, acts) && PhaseOf(Serve(wide, acts), 1) == Reading(line, 0, 0, b0, [])
    requires History(Serve(wide, acts).calls) == Log([line, line], [])
    requires |line| == 2 && b1 == Laid(b0, 0, line) && b2 == Laid(b1, 1, line)
    ensures Orderly(wide, acts') && Serve(wide, acts').lines == Serve(wide, acts).lines
    ensures PhaseOf(Serve(wide, acts'), 1) == Sending(line, b2, [1, 1, 1], |Serve(wide, acts).lines|)
  {
    var l := Log([line, line], []);
    OneByteAtATime(line, b0, b1, b2);
    acts' := AsksFor(wide, acts, 1, 1, l, Reading(line, 0, 0, b0, []), Reading(line, 2, 1, b1, [1]));
    acts' := AsksFor(wide, acts', 1, 1, l, Reading(line, 2, 1, b1, [1]), Reading(line, 4, 2, b2, [1, 1]));
    acts' := AsksFor(wide, acts', 1, 1, l, Reading(line, 4, 2, b2, [1, 1]), Unlocking(line, b2, [1, 1, 1]));
    acts' := EndsSession(wide, acts', 1, Unlocking(line, b2, [1, 1, 1]));
  }

  /**
   Two clients send the same line, and the second one's reads ask for one byte each.  The
   first command is cut short and the second laid over the end of it.
   */
  lemma GarbledReply(wide: bool) returns (acts: seq<Action>)
    ensures Orderly(wide, acts) && Serve(wide, acts).lines == [[LETTER, LF], [LETTER, LF]]
    ensures PhaseOf(Serve(wide, acts), 1).Sending? && PhaseOf(Serve(wide, acts), 1).counts == [1, 1, 1]
    ensures Sent(PhaseOf(Serve(wide, acts), 1)) == [LETTER, LETTER, LF]
    ensures !RightReply(Serve(wide, acts).lines, [LETTER, LF], [LETTER, LETTER, LF])
  {
    var line: seq<byte> := [LETTER, LF];
    var b0 := Zeros(MSG_LEN);
    var b1 := Laid(b0, 0, line);
    var b2 := Laid(b1, 1, line);
    acts := BothLinesWritten(wide, line);
    acts := ReadsOver(wide, acts, line, b0, b1, b2);
    LaidOver(line, MSG_LEN);
    NotBothLines(line);
  }

  lemma NotBothLines(line: seq<byte>)
    requires line == [LETTER, LF]
    ensures !RightReply([line, line], line, [LETTER, LETTER, LF])
  {
    TwoLines(line);
    FlattenLength([line, line]);
    assert Lengths([line, line]) == [2, 2] && [2, 2][..1] == [2] && [2][..0] == [];
  }

  // ---------------------------------------------------------------- the list of ports

  /** Removing a port that no item has loses the list. */
  lemma AbsentPortLosesList(item: PortList.Item, port: int)
    requires item.commSocketPortNo != port
    ensures PortList.DoAll([PortList.Add(item), PortList.Remove(port)]) == PortList.Ledger([], [], [item])
  {
    var ops := [PortList.Add(item), PortList.Remove(port)];
    assert ops[..1] == [PortList.Add(item)] && [PortList.Add(item)][..0] == [];
    assert PortList.DoAll([PortList.Add(item)]) == PortList.Ledger([item], [], []);
  }

  /** Removing the item at the head returns no value. */
  lemma HeadRemovalReturnsNothing(items: seq<PortList.Item>)
    requires items != []
    ensures PortList.Removal(items, items[0].commSocketPortNo) == PortList.Outcome(items[1..], PortList.NoValue)
    ensures PortList.PromisedRemoval(items, items[0].commSocketPortNo)
         == PortList.Outcome(items[1..], PortList.Returned(0))
  {
    PortList.FirstWithIs(items, items[0].commSocketPortNo, 0);
    LeftUnit(items[1..]);
  }
}
