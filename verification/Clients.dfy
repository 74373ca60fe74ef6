/** From the message a client sends to the reply it gets: what a thread carries, and that it can be served again. */
module Clients {
  import opened Bytes
  import opened CircularBuffer
  import opened CommandLog
  import opened Driver
  import opened DriverRuns
  import opened ReadBack
  import opened Framing
  import opened FileBuffer
  import opened Server
  import opened Sessions
  import opened Progress

  // ---------------------------------------------------------------- the line a thread carries

  /** The line of a thread, from framing until it is answered. */
  function LineOf(ph: Phase): Option<seq<byte>> {
    match ph
    case Ready(line) => Some(line)
    case Writing(line, _, _) => Some(line)
    case Reading(line, _, _, _, _) => Some(line)
    case Unlocking(line, _, _) => Some(line)
    case Sending(line, _, _, _) => Some(line)
    case Echoing(line) => Some(line)
    case _ => None
  }

  /** Thread `t` is in recv() and takes a message that it can frame. */
  predicate Takes(wide: bool, s: State, a: Action, t: Tid) {
    a.Recv? && a.t == t && PhaseOf(s, t).Receiving? && Framable(wide, a.msg)
  }

  /** A step gives a thread the framing of the message it takes; only sending takes a line away. */
  lemma LineStep(wide: bool, s: State, a: Action, t: Tid)
    ensures var ph, ph' := PhaseOf(s, t), PhaseOf(Next(wide, s, a), t);
      LineOf(ph') == if Takes(wide, s, a, t) then Some(Framed(wide, a.msg).value)
                     else if a == Send(t) && (ph.Sending? || ph.Echoing?) then None
                     else LineOf(ph)
  {
  }

  /** Action `k` of a run is thread `t` taking a message. */
  predicate TakesAt(wide: bool, acts: seq<Action>, k: nat, t: Tid)
    requires k < |acts|
  {
    Takes(wide, Serve(wide, acts[..k]), acts[k], t)
  }

  /** A thread that takes a message carries its framing until it sends, whatever all threads do. */
  lemma {:induction false} CarriesMessage(wide: bool, acts: seq<Action>, k: nat, t: Tid, j: nat)
    requires k < j <= |acts| && TakesAt(wide, acts, k, t) && Send(t) !in acts[k + 1..j]
    ensures LineOf(PhaseOf(Serve(wide, acts[..j]), t)) == Some(Framed(wide, acts[k].msg).value)
    decreases j
  {
    if j == k + 1 {
      TakenAt(wide, acts, k, t);
    } else {
      NotSent(acts, k, t, j);
      CarriesMessage(wide, acts, k, t, j - 1);
      KeptAt(wide, acts, j - 1, t);
    }
  }

  lemma TakenAt(wide: bool, acts: seq<Action>, j: nat, t: Tid)
    requires j < |acts| && TakesAt(wide, acts, j, t)
    ensures LineOf(PhaseOf(Serve(wide, acts[..j + 1]), t)) == Some(Framed(wide, acts[j].msg).value)
  {
    ServeStep(wide, acts, j);
    LineStep(wide, Serve(wide, acts[..j]), acts[j], t);
  }

  lemma KeptAt(wide: bool, acts: seq<Action>, j: nat, t: Tid)
    requires j < |acts| && LineOf(PhaseOf(Serve(wide, acts[..j]), t)).Some? && acts[j] != Send(t)
    ensures LineOf(PhaseOf(Serve(wide, acts[..j + 1]), t)) == LineOf(PhaseOf(Serve(wide, acts[..j]), t))
  {
    ServeStep(wide, acts, j);
    LineStep(wide, Serve(wide, acts[..j]), acts[j], t);
  }

  lemma NotSent(acts: seq<Action>, k: nat, t: Tid, j: nat)
    requires k + 1 < j <= |acts| && Send(t) !in acts[k + 1..j]
    ensures acts[j - 1] != Send(t) && Send(t) !in acts[k + 1..j - 1]
  {
    assert acts[k + 1..j][j - k - 2] == acts[j - 1];
    assert acts[k + 1..j - 1] == acts[k + 1..j][..j - k - 2];
  }

  // ---------------------------------------------------------------- the lines handed over

  /** The message that thread `t` took last. */
  function LastTaken(wide: bool, acts: seq<Action>, t: Tid): seq<byte> {
    if acts == [] then []
    else
      var front, last := acts[..|acts| - 1], acts[|acts| - 1];
      if Takes(wide, Serve(wide, front), last, t) then last.msg else LastTaken(wide, front, t)
  }

  /** A step writes the last bytes of a thread's line. */
  predicate Completes(s: State, a: Action) {
    a.WriteChunk? && PhaseOf(s, a.t).Writing? && PhaseOf(s, a.t).rest != [] && a.n == |PhaseOf(s, a.t).rest|
  }

  /** The messages whose lines have been handed over, in the order of the mutex. */
  function HandedOver(wide: bool, acts: seq<Action>): seq<seq<byte>> {
    if acts == [] then []
    else
      var front, last := acts[..|acts| - 1], acts[|acts| - 1];
      HandedOver(wide, front)
      + if Completes(Serve(wide, front), last) then [LastTaken(wide, front, last.t)] else []
  }

  function FramedAll(wide: bool, msgs: seq<seq<byte>>): seq<seq<byte>> {
    seq(|msgs|, i requires 0 <= i < |msgs| => Line(wide, msgs[i]))
  }

  function Line(wide: bool, msg: seq<byte>): seq<byte> {
    if Framed(wide, msg).Some? then Framed(wide, msg).value else []
  }

  lemma {:induction false} CarriesLastTaken(wide: bool, acts: seq<Action>, t: Tid)
    ensures var line := LineOf(PhaseOf(Serve(wide, acts), t));
      line.Some? ==> line.value == Line(wide, LastTaken(wide, acts, t)) && Framable(wide, LastTaken(wide, acts, t))
  {
    if acts != [] {
      var front, last := acts[..|acts| - 1], acts[|acts| - 1];
      CarriesLastTaken(wide, front, t);
      LineStep(wide, Serve(wide, front), last, t);
    }
  }

  lemma LinesStep(wide: bool, s: State, a: Action)
    ensures Next(wide, s, a).lines == s.lines + if Completes(s, a) then [LineOf(PhaseOf(s, a.t)).value] else []
  {
    RightUnit(s.lines);
  }

  lemma FramedAllAppend(wide: bool, msgs: seq<seq<byte>>, more: seq<seq<byte>>)
    ensures FramedAll(wide, msgs + more) == FramedAll(wide, msgs) + FramedAll(wide, more)
  {
  }

  /** The lines handed over are the framings of messages received, in the order of the mutex. */
  lemma {:induction false} LinesAreFramed(wide: bool, acts: seq<Action>)
    ensures Serve(wide, acts).lines == FramedAll(wide, HandedOver(wide, acts))
  {
    if acts != [] {
      var front, last := acts[..|acts| - 1], acts[|acts| - 1];
      LinesAreFramed(wide, front);
      LinesStep(wide, Serve(wide, front), last);
      if Completes(Serve(wide, front), last) {
        CarriesLastTaken(wide, front, last.t);
        FramedAllAppend(wide, HandedOver(wide, front), [LastTaken(wide, front, last.t)]);
      } else {
        RightUnit(HandedOver(wide, front));
        RightUnit(Serve(wide, front).lines);
      }
    }
  }

  /** Some thread has taken the message in the run. */
  ghost predicate Received(wide: bool, acts: seq<Action>, msg: seq<byte>) {
    exists k: nat, t: Tid :: k < |acts| && acts[k] == Recv(t, msg) && TakesAt(wide, acts, k, t)
  }

  lemma ReceivedLater(wide: bool, front: seq<Action>, last: Action, msg: seq<byte>)
    requires Received(wide, front, msg)
    ensures Received(wide, front + [last], msg)
  {
    var k: nat, t: Tid :| k < |front| && front[k] == Recv(t, msg) && TakesAt(wide, front, k, t);
    assert (front + [last])[..k] == front[..k];
    assert TakesAt(wide, front + [last], k, t);
  }

  lemma ReceivedNow(wide: bool, front: seq<Action>, last: Action, t: Tid)
    requires Takes(wide, Serve(wide, front), last, t)
    ensures Received(wide, front + [last], last.msg)
  {
    assert (front + [last])[..|front|] == front;
    assert TakesAt(wide, front + [last], |front|, t);
  }

  lemma {:induction false} LastTakenReceived(wide: bool, acts: seq<Action>, t: Tid)
    requires Framable(wide, LastTaken(wide, acts, t))
    ensures Received(wide, acts, LastTaken(wide, acts, t))
  {
    if acts != [] {
      var front, last := acts[..|acts| - 1], acts[|acts| - 1];
      assert acts == front + [last];
      if Takes(wide, Serve(wide, front), last, t) {
        ReceivedNow(wide, front, last, t);
      } else {
        LastTakenReceived(wide, front, t);
        ReceivedLater(wide, front, last, LastTaken(wide, acts, t));
      }
    }
  }

  /** Every message handed over was received. */
  lemma {:induction false} HandedOverReceived(wide: bool, acts: seq<Action>, i: nat)
    requires i < |HandedOver(wide, acts)|
    ensures Received(wide, acts, HandedOver(wide, acts)[i])
  {
    if acts != [] {
      var front, last := acts[..|acts| - 1], acts[|acts| - 1];
      assert acts == front + [last];
      if i < |HandedOver(wide, front)| {
        HandedOverReceived(wide, front, i);
      } else {
        CarriesLastTaken(wide, front, last.t);
        LastTakenReceived(wide, front, last.t);
      }
      ReceivedLater(wide, front, last, HandedOver(wide, acts)[i]);
    }
  }

  /** The next `n` bytes of a line of which `rest` is left, behind `committed` bytes and those of the line before them. */
  function NextPiece(committed: nat, line: seq<byte>, rest: seq<byte>, n: nat): Call
    requires n <= |rest| <= |line|
  {
    var k := |line| - |rest|;
    Call.Write(committed + k, line[k..k + n], Granted)
  }

  lemma FittingPiece(h: Log, lines: seq<seq<byte>>, ph: Phase, n: nat)
    requires ph.Writing? && Fits(h, lines, ph) && 0 < n <= |ph.rest|
    ensures |ph.rest| <= |ph.line|
    ensures Call.Write(ph.pos, ph.rest[..n], Granted) == NextPiece(|Flatten(h.commands)|, ph.line, ph.rest, n)
  {
    var k := |ph.line| - |ph.rest|;
    assert ph.rest[..n] == ph.line[k..][..n] == ph.line[k..k + n];
  }

  lemma ChunkCall(wide: bool, s: State, t: Tid, ph: Phase, n: nat)
    requires PhaseOf(s, t) == ph && ph.Writing? && 0 < n <= |ph.rest|
    ensures Next(wide, s, WriteChunk(t, n)).calls == s.calls + [Call.Write(ph.pos, ph.rest[..n], Granted)]
  {
  }

  /**
   In every orderly run each piece of a line goes behind the bytes committed so far, where
   SEEK_END pointed, and the pieces of the line before it.
   */
  lemma WritesBehindEnd(wide: bool, acts: seq<Action>, t: Tid, n: nat)
    requires Orderly(wide, acts) && PhaseOf(Serve(wide, acts), t).Writing?
    requires 0 < n <= |PhaseOf(Serve(wide, acts), t).rest|
    ensures |PhaseOf(Serve(wide, acts), t).rest| <= |PhaseOf(Serve(wide, acts), t).line|
    ensures var s, ph := Serve(wide, acts), PhaseOf(Serve(wide, acts), t);
      Serve(wide, acts + [WriteChunk(t, n)]).calls
      == s.calls + [NextPiece(|Flatten(History(s.calls).commands)|, ph.line, ph.rest, n)]
  {
    var s, ph := Serve(wide, acts), PhaseOf(Serve(wide, acts), t);
    assert PhaseOk(s, ph) by { OrderlyIsSound(wide, acts); }
    FittingPiece(History(s.calls), s.lines, ph, n);
    ChunkCall(wide, s, t, ph, n);
    ServeAppend(wide, acts, WriteChunk(t, n));
  }

  // ---------------------------------------------------------------- what the client gets

  /** A client's data as the receive buffer holds it, framed as `line`. */
  ghost predicate FramesAs(wide: bool, data: seq<byte>, body: seq<byte>, rest: seq<byte>, line: seq<byte>) {
    && Splits(wide, data, body, rest) && |data| <= MSG_LEN
    && |body| + (if BreakAt(rest, 0) then 2 else 1) < MSG_LEN
    && line == body + Terminator(wide, rest)
  }

  lemma DataFramed(wide: bool, data: seq<byte>, body: seq<byte>, rest: seq<byte>, line: seq<byte>)
    requires FramesAs(wide, data, body, rest, line)
    ensures Framable(wide, Padded(data, MSG_LEN)) && Framed(wide, Padded(data, MSG_LEN)).value == line
  {
    FramingTerminatedIff(wide, data, body, rest, MSG_LEN);
    FramingInBoundsIff(wide, data, body, rest, MSG_LEN);
    FramedLine(wide, data, body, rest, MSG_LEN);
  }

  /** Of the lines made of plain bytes and a newline, those below 100000 bytes can be served. */
  lemma LongestLine(wide: bool, body: seq<byte>)
    requires PlainNumbers(wide, body) && |body| < MSG_LEN
    ensures Framable(wide, Padded(body + [10], MSG_LEN)) <==> |body| + 1 < 100_000
  {
    assert Splits(wide, body + [10], body, [10]);
    FramingTerminatedIff(wide, body + [10], body, [10], MSG_LEN);
  }

  /** Action `k` hands the client's data to thread `t`, which has not sent anything since. */
  ghost predicate Serving(wide: bool, acts: seq<Action>, k: nat, t: Tid, data: seq<byte>) {
    && k < |acts| && |data| <= MSG_LEN && acts[k] == Recv(t, Padded(data, MSG_LEN))
    && PhaseOf(Serve(wide, acts[..k]), t).Receiving? && Send(t) !in acts[k + 1..]
  }

  lemma ServingLine(wide: bool, acts: seq<Action>, k: nat, t: Tid, data: seq<byte>, body: seq<byte>, rest: seq<byte>,
                    line: seq<byte>)
    requires Serving(wide, acts, k, t, data) && FramesAs(wide, data, body, rest, line)
    ensures LineOf(PhaseOf(Serve(wide, acts), t)) == Some(line)
  {
    DataFramed(wide, data, body, rest, line);
    assert acts[k + 1..|acts|] == acts[k + 1..] && acts[..|acts|] == acts;
    CarriesMessage(wide, acts, k, t, |acts|);
  }

  /**
   The client's end of the law.  In every orderly run take a client whose data has been received
   by a thread that is now about to send after a session.  It is sent the last ten commands made
   of the framings of the messages handed over so far, its own data's framing last, if and only
   if those are shorter than the buffer and the thread's reads asked for enough.
   */
  lemma ClientReply(wide: bool, acts: seq<Action>, k: nat, t: Tid, data: seq<byte>, body: seq<byte>, rest: seq<byte>,
                    line: seq<byte>)
    requires Orderly(wide, acts) && Serving(wide, acts, k, t, data) && FramesAs(wide, data, body, rest, line)
    requires PhaseOf(Serve(wide, acts), t).Sending?
    ensures PhaseOf(Serve(wide, acts), t).seen <= |HandedOver(wide, acts)|
    ensures var ph := PhaseOf(Serve(wide, acts), t);
            var lines := FramedAll(wide, HandedOver(wide, acts)[..ph.seen]);
      RightReply(lines, line, Sent(ph))
      <==> |Content(Group(lines))| < MSG_LEN && CoversButLast(Remainder(Group(lines)), 0, ph.counts)
  {
    var ph, msgs := PhaseOf(Serve(wide, acts), t), HandedOver(wide, acts);
    LinesAreFramed(wide, acts);
    ServingLine(wide, acts, k, t, data, body, rest, line);
    EndToEnd(wide, acts, t);
    assert FramedAll(wide, msgs)[..ph.seen] == FramedAll(wide, msgs[..ph.seen]);
  }

  /** A client whose thread never got the mutex is sent its own data's framing. */
  lemma ClientEcho(wide: bool, acts: seq<Action>, k: nat, t: Tid, data: seq<byte>, body: seq<byte>, rest: seq<byte>,
                   line: seq<byte>)
    requires Serving(wide, acts, k, t, data) && FramesAs(wide, data, body, rest, line)
    requires PhaseOf(Serve(wide, acts), t).Echoing?
    ensures Sent(PhaseOf(Serve(wide, acts), t)) == line == CString(Padded(line, MSG_LEN))
  {
    ServingLine(wide, acts, k, t, data, body, rest, line);
    DataFramed(wide, data, body, rest, line);
    FramedIsLine(wide, Padded(data, MSG_LEN));
    CStringPadded(line, MSG_LEN);
  }

  /** Giving up on the mutex leads there, and touches neither device nor lines nor mutex. */
  lemma GivesUp(wide: bool, acts: seq<Action>, t: Tid)
    requires PhaseOf(Serve(wide, acts), t).Ready?
    ensures var s, s' := Serve(wide, acts), Serve(wide, acts + [LockGivesUp(t)]);
      && PhaseOf(s', t) == Echoing(PhaseOf(s, t).line) && OthersStay(s, s', t)
      && s'.calls == s.calls && s'.lines == s.lines && s'.holder == s.holder
  {
    ServeAppend(wide, acts, LockGivesUp(t));
  }

  // ---------------------------------------------------------------- serving a client

  /** A thread between two lines: about to send, at the top, or in recv(). */
  predicate BetweenLines(ph: Phase) {
    ph.Sending? || ph.Echoing? || ph.AtTop? || ph.Receiving?
  }

  /** Nothing but the phase of one thread has changed. */
  ghost predicate OnlyPhase(s: State, s': State, t: Tid) {
    s'.calls == s.calls && s'.lines == s.lines && s'.holder == s.holder && OthersStay(s, s', t)
  }

  lemma GetsToTop(wide: bool, acts: seq<Action>, t: Tid) returns (acts': seq<Action>)
    requires Orderly(wide, acts) && BetweenLines(PhaseOf(Serve(wide, acts), t))
    ensures acts <= acts' && Orderly(wide, acts') && PhaseOf(Serve(wide, acts'), t).AtTop?
    ensures Serve(wide, acts').terminate == Serve(wide, acts).terminate
    ensures OnlyPhase(Serve(wide, acts), Serve(wide, acts'), t)
  {
    acts' := acts;
    if !PhaseOf(Serve(wide, acts), t).AtTop? {
      var a := if PhaseOf(Serve(wide, acts), t).Receiving? then RecvNothing(t) else Send(t);
      TopStep(wide, Serve(wide, acts), t, a);
      acts' := Then(wide, acts, a);
    }
  }

  /** Sending ends the work on a line, and receiving nothing starts none. */
  lemma TopStep(wide: bool, s: State, t: Tid, a: Action)
    requires (a == Send(t) && (PhaseOf(s, t).Sending? || PhaseOf(s, t).Echoing?))
          || (a == RecvNothing(t) && PhaseOf(s, t).Receiving?)
    ensures var s' := Next(wide, s, a);
      PhaseOf(s', t).AtTop? && s'.terminate == s.terminate && OnlyPhase(s, s', t)
  {
  }

  /** While the flag is clear, a thread between two lines can take any message that it can frame. */
  lemma NextLine(wide: bool, acts: seq<Action>, t: Tid, msg: seq<byte>) returns (acts': seq<Action>)
    requires Orderly(wide, acts) && BetweenLines(PhaseOf(Serve(wide, acts), t))
    requires !Serve(wide, acts).terminate && Framable(wide, msg)
    ensures acts <= acts' && Orderly(wide, acts') && PhaseOf(Serve(wide, acts'), t) == Ready(Framed(wide, msg).value)
    ensures OnlyPhase(Serve(wide, acts), Serve(wide, acts'), t)
  {
    acts' := GetsToTop(wide, acts, t);
    var top := Serve(wide, acts');
    TakesNext(wide, top, t, msg);
    acts' := Then(wide, acts', CheckFlag(t));
    acts' := Then(wide, acts', Recv(t, msg));
    OnlyPhaseTwice(Serve(wide, acts), top, Serve(wide, acts'), t);
  }

  lemma TakesNext(wide: bool, s: State, t: Tid, msg: seq<byte>)
    requires PhaseOf(s, t).AtTop? && !s.terminate && Framable(wide, msg)
    ensures var s' := Next(wide, Next(wide, s, CheckFlag(t)), Recv(t, msg));
      PhaseOf(s', t) == Ready(Framed(wide, msg).value) && OnlyPhase(s, s', t)
  {
  }

  lemma OnlyPhaseTwice(s: State, s': State, s'': State, t: Tid)
    requires OnlyPhase(s, s', t) && OnlyPhase(s', s'', t)
    ensures OnlyPhase(s, s'', t)
  {
  }

  /**
   Whenever the mutex and the flag are clear, a thread between two lines can serve any client:
   it receives the client's data and sends the right reply, which ends with the framing of the
   data where that is a newline-terminated line.
   */
  lemma ClientServed(wide: bool, acts: seq<Action>, t: Tid, data: seq<byte>, body: seq<byte>, rest: seq<byte>,
                     line: seq<byte>)
    returns (acts': seq<Action>)
    requires Orderly(wide, acts) && BetweenLines(PhaseOf(Serve(wide, acts), t)) && FramesAs(wide, data, body, rest, line)
    requires !Serve(wide, acts).terminate && Serve(wide, acts).holder.None?
    requires |Content(Group(Serve(wide, acts).lines + [line]))| < MSG_LEN
    ensures acts <= acts' && Orderly(wide, acts') && PhaseOf(Serve(wide, acts'), t).Sending?
    ensures Serve(wide, acts').holder.None? && Serve(wide, acts').lines == Serve(wide, acts).lines + [line]
    ensures RightReply(Serve(wide, acts').lines, line, Sent(PhaseOf(Serve(wide, acts'), t)))
  {
    DataFramed(wide, data, body, rest, line);
    acts' := NextLine(wide, acts, t, Padded(data, MSG_LEN));
    acts' := SessionCompletes(wide, acts', t, line);
  }

  /** In particular the first client gets its own line back, whatever it sends. */
  lemma FirstClient(wide: bool, t: Tid, data: seq<byte>, body: seq<byte>, rest: seq<byte>, line: seq<byte>)
    returns (acts: seq<Action>)
    requires FramesAs(wide, data, body, rest, line) && EndsInNewline(line)
    ensures Orderly(wide, acts) && PhaseOf(Serve(wide, acts), t).Sending?
    ensures Sent(PhaseOf(Serve(wide, acts), t)) == line
  {
    OneLine(line);
    assert |line| < MSG_LEN by { DataFramed(wide, data, body, rest, line); }
    acts := ClientServed(wide, [], t, data, body, rest, line);
    assert [] + [line] == [line];
  }

  // ---------------------------------------------------------------- shutdown

  /** The flag is set, and the thread has stopped or will when it looks at the flag. */
  predicate Stopping(s: State, t: Tid) {
    s.terminate && (PhaseOf(s, t).AtTop? || PhaseOf(s, t).Stopped?)
  }

  lemma StopStep(wide: bool, s: State, a: Action, t: Tid)
    requires Stopping(s, t)
    ensures Stopping(Next(wide, s, a), t)
    ensures PhaseOf(Next(wide, s, a), t) == if a == CheckFlag(t) then Stopped else PhaseOf(s, t)
  {
  }

  lemma StoppingStep(wide: bool, acts: seq<Action>, j: nat, t: Tid)
    requires j < |acts| && Stopping(Serve(wide, acts[..j]), t)
    ensures Stopping(Serve(wide, acts[..j + 1]), t)
    ensures PhaseOf(Serve(wide, acts[..j]), t).Stopped? || acts[j] == CheckFlag(t) ==>
              PhaseOf(Serve(wide, acts[..j + 1]), t).Stopped?
  {
    ServeStep(wide, acts, j);
    StopStep(wide, Serve(wide, acts[..j]), acts[j], t);
  }

  /**
   Once the flag is set, a thread at the top never takes another message, and has stopped for
   good when it has looked at the flag once.
   */
  lemma {:induction false} NoneStartsAfterShutdown(wide: bool, acts: seq<Action>, k: nat, j: nat, t: Tid)
    requires k <= j <= |acts| && Stopping(Serve(wide, acts[..k]), t)
    ensures Stopping(Serve(wide, acts[..j]), t)
    ensures (exists i :: k <= i < j && acts[i] == CheckFlag(t)) ==> PhaseOf(Serve(wide, acts[..j]), t).Stopped?
    decreases j
  {
    if j > k {
      NoneStartsAfterShutdown(wide, acts, k, j - 1, t);
      StoppingStep(wide, acts, j - 1, t);
    }
  }
}
