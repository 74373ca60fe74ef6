/**
 The socket server's threads (server_thread): frame a line, take the file mutex, write the line
 to the device, read the device back, release the mutex, send what was read.  Threads are
 interleaved at every step; the device behind them is the driver of the other modules.
 */
module Server {
  import opened Bytes
  import opened CircularBuffer
  import opened CommandLog
  import opened Driver
  import opened DriverInvariant
  import opened DriverRuns
  import opened ReadBack
  import opened Framing
  import opened FileBuffer

  const MSG_LEN: nat := 100_000

  type Tid = nat

  datatype Phase =
    | AtTop                                                        // before the test of the terminate flag
    | Receiving                                                    // in recv()
    | Ready(line: seq<byte>)                                       // framed, waiting for the mutex
    | Writing(line: seq<byte>, rest: seq<byte>, pos: nat)          // in fwrite(), `rest` still to be handed over
    | Reading(line: seq<byte>, pos: nat, at: nat, buf: seq<byte>, counts: seq<nat>) // in fread()
    | Unlocking(line: seq<byte>, buf: seq<byte>, counts: seq<nat>) // file closed, mutex still held
    | Sending(line: seq<byte>, buf: seq<byte>, counts: seq<nat>, seen: nat) // in send(), after a session
    | Echoing(line: seq<byte>)                                     // in send(), without one
    | Stopped

  /**
   `holder` is the thread that locked the mutex last, until somebody unlocks it.
   `calls` lists every system call made on the device, so the device is `Run(calls)`.
   `lines` lists the lines that have been handed over completely.
   In a phase, `buf` is the file buffer, `at` the number of bytes in it that fread() has been
   told of, `counts` lists the bytes that the session's reads asked for, and `seen` is the number
   of lines that had been handed over when the session ended.
   */
  datatype State = State(holder: Option<Tid>, terminate: bool, phases: map<Tid, Phase>,
                         calls: seq<Call>, lines: seq<seq<byte>>)

  datatype Action =
    | Terminate                        // the main thread sets the terminate flag
    | CheckFlag(t: Tid)
    | Recv(t: Tid, msg: seq<byte>)     // the receive buffer, as it is when recv() returns
    | RecvNothing(t: Tid)              // recv() returned 0
    | Lock(t: Tid)
    | LockGivesUp(t: Tid)              // all retries failed
    | WriteChunk(t: Tid, n: nat)       // stdio writes the next n bytes
    | Rewind(t: Tid)                   // fseek to the start
    | ReadNext(t: Tid, count: nat)     // stdio asks for count bytes
    | Unlock(t: Tid)
    | UnlockGivesUp(t: Tid)
    | Send(t: Tid)

  function PhaseOf(s: State, t: Tid): Phase {
    if t in s.phases then s.phases[t] else AtTop
  }

  function Goes(s: State, t: Tid, ph: Phase): State {
    s.(phases := s.phases[t := ph])
  }

  predicate InSection(ph: Phase) {
    ph.Writing? || ph.Reading? || ph.Unlocking?
  }

  /** A thread that finds the flag set unlocks the mutex, whoever holds it, and stops. */
  function CheckingFlag(s: State, t: Tid): State {
    if !PhaseOf(s, t).AtTop? then s
    else if s.terminate then Goes(s.(holder := None), t, Stopped)
    else Goes(s, t, Receiving)
  }

  /** Framing that stays inside its buffers and leaves a NUL behind the line. */
  predicate Framable(wide: bool, msg: seq<byte>) {
    |msg| == MSG_LEN && Framed(wide, msg).Some? && |Framed(wide, msg).value| < MSG_LEN
  }

  function Receives(wide: bool, s: State, t: Tid, msg: seq<byte>): State {
    if PhaseOf(s, t).Receiving? && Framable(wide, msg) then Goes(s, t, Ready(Framed(wide, msg).value)) else s
  }

  function Locking(s: State, t: Tid): State {
    var ph := PhaseOf(s, t);
    if ph.Ready? && s.holder.None?
    then Goes(s.(holder := Some(t)), t, Writing(ph.line, ph.line, Run(s.calls).buffSize)) else s
  }

  function WritingChunk(s: State, t: Tid, n: nat): State {
    var ph := PhaseOf(s, t);
    if ph.Writing? && 0 < n <= |ph.rest| then
      var s' := Goes(s.(calls := s.calls + [Call.Write(ph.pos, ph.rest[..n], Granted)]), t,
                     Writing(ph.line, ph.rest[n..], ph.pos + n));
      if n == |ph.rest| then s'.(lines := s.lines + [ph.line]) else s'
    else s
  }

  function Rewinding(s: State, t: Tid): State {
    var ph := PhaseOf(s, t);
    if ph.Writing? && ph.rest == [] then Goes(s, t, Reading(ph.line, 0, 0, Zeros(MSG_LEN), [])) else s
  }

  /**
   The driver copies all of its data to where fread() wants the next bytes.  fread() goes on
   behind the bytes it is told of, until it is told 0 or its buffer is full.
   */
  function AfterRead(ph: Phase, count: nat, r: Reply): Phase
    requires ph.Reading?
  {
    var at, buf, counts := ph.at + |Given(r)|, Laid(ph.buf, ph.at, r.data), ph.counts + [count];
    if r.ret == 0 || at >= MSG_LEN then Unlocking(ph.line, buf, counts)
    else Reading(ph.line, r.pos, at, buf, counts)
  }

  function ReadingNext(s: State, t: Tid, count: nat): State {
    var ph := PhaseOf(s, t);
    if !ph.Reading? then s
    else
      var call := Call.Read(ph.pos, count, Granted);
      Goes(s.(calls := s.calls + [call]), t, AfterRead(ph, count, Perform(Run(s.calls), call).1))
  }

  /** What send() is given: the string in the file buffer. */
  function Sent(ph: Phase): seq<byte>
    requires ph.Sending? || ph.Echoing?
  {
    if ph.Sending? then CString(ph.buf) else ph.line
  }

  /** The end of a session; `holder` is who holds the mutex afterwards. */
  function Unlocked(s: State, t: Tid, holder: Option<Tid>): State {
    var ph := PhaseOf(s, t);
    if ph.Unlocking? then Goes(s.(holder := holder), t, Sending(ph.line, ph.buf, ph.counts, |s.lines|)) else s
  }

  function Next(wide: bool, s: State, a: Action): State {
    match a
    case Terminate => s.(terminate := true)
    case CheckFlag(t) => CheckingFlag(s, t)
    case Recv(t, msg) => Receives(wide, s, t, msg)
    case RecvNothing(t) => if PhaseOf(s, t).Receiving? then Goes(s, t, AtTop) else s
    case Lock(t) => Locking(s, t)
    case LockGivesUp(t) => if PhaseOf(s, t).Ready? then Goes(s, t, Echoing(PhaseOf(s, t).line)) else s
    case WriteChunk(t, n) => WritingChunk(s, t, n)
    case Rewind(t) => Rewinding(s, t)
    case ReadNext(t, count) => ReadingNext(s, t, count)
    case Unlock(t) => Unlocked(s, t, None)
    case UnlockGivesUp(t) => Unlocked(s, t, s.holder)
    case Send(t) => if PhaseOf(s, t).Sending? || PhaseOf(s, t).Echoing? then Goes(s, t, AtTop) else s
  }

  function Serve(wide: bool, acts: seq<Action>): State {
    if acts == [] then State(None, false, map[], [], [])
    else Next(wide, Serve(wide, acts[..|acts| - 1]), acts[|acts| - 1])
  }

  // ---------------------------------------------------------------- mutual exclusion

  /** A thread between lock and unlock holds the mutex, so there is at most one. */
  ghost predicate Guarded(s: State) {
    forall t: Tid :: InSection(PhaseOf(s, t)) ==> s.holder == Some(t)
  }

  /** The shutdown branch unlocks a mutex that another thread is using. */
  ghost predicate StrayUnlock(s: State, a: Action) {
    a.CheckFlag? && s.terminate && PhaseOf(s, a.t).AtTop? && exists u :: InSection(PhaseOf(s, u))
  }

  ghost predicate Orderly(wide: bool, acts: seq<Action>) {
    forall k :: 0 <= k < |acts| ==> !StrayUnlock(Serve(wide, acts[..k]), acts[k])
  }

  ghost predicate GuardedThroughout(wide: bool, acts: seq<Action>) {
    forall k :: 0 <= k <= |acts| ==> Guarded(Serve(wide, acts[..k]))
  }

  /** A thread enters the section only by locking a free mutex. */
  lemma EntersByLocking(wide: bool, s: State, a: Action, t: Tid)
    requires InSection(PhaseOf(Next(wide, s, a), t)) && !InSection(PhaseOf(s, t))
    ensures a == Lock(t) && s.holder.None? && Next(wide, s, a).holder == Some(t)
  {
  }

  /** While a thread stays in the section, nobody but a stray unlock takes the mutex from it. */
  lemma KeepsHolding(wide: bool, s: State, a: Action, t: Tid)
    requires Guarded(s) && !StrayUnlock(s, a)
    requires InSection(PhaseOf(s, t)) && InSection(PhaseOf(Next(wide, s, a), t))
    ensures Next(wide, s, a).holder == Some(t)
  {
    if a.Unlock? && InSection(PhaseOf(s, a.t)) {
      assert s.holder == Some(a.t);
    }
  }

  lemma NextGuarded(wide: bool, s: State, a: Action)
    requires Guarded(s) && !StrayUnlock(s, a)
    ensures Guarded(Next(wide, s, a))
  {
    forall t: Tid | InSection(PhaseOf(Next(wide, s, a), t)) ensures Next(wide, s, a).holder == Some(t) {
      if InSection(PhaseOf(s, t)) {
        KeepsHolding(wide, s, a, t);
      } else {
        EntersByLocking(wide, s, a, t);
      }
    }
  }

  /** A stray unlock leaves a thread in the section with the mutex free. */
  lemma StrayBreaksGuard(wide: bool, s: State, a: Action)
    requires StrayUnlock(s, a)
    ensures !Guarded(Next(wide, s, a))
  {
    var u :| InSection(PhaseOf(s, u));
    assert InSection(PhaseOf(Next(wide, s, a), u));
  }

  lemma ServeStep(wide: bool, acts: seq<Action>, k: nat)
    requires k < |acts|
    ensures Serve(wide, acts[..k + 1]) == Next(wide, Serve(wide, acts[..k]), acts[k])
  {
    assert acts[..k + 1][..k] == acts[..k];
  }

  /** The mutex guards the section throughout a run exactly when no stray unlock happens in it. */
  lemma ExclusionIff(wide: bool, acts: seq<Action>)
    ensures GuardedThroughout(wide, acts) <==> Orderly(wide, acts)
  {
    if Orderly(wide, acts) {
      forall k | 0 <= k <= |acts| ensures Guarded(Serve(wide, acts[..k])) {
        OrderlyGuarded(wide, acts, k);
      }
    } else {
      var k :| 0 <= k < |acts| && StrayUnlock(Serve(wide, acts[..k]), acts[k]);
      ServeStep(wide, acts, k);
      StrayBreaksGuard(wide, Serve(wide, acts[..k]), acts[k]);
      assert !Guarded(Serve(wide, acts[..k + 1]));
    }
  }

  lemma {:induction false} OrderlyGuarded(wide: bool, acts: seq<Action>, k: nat)
    requires Orderly(wide, acts) && k <= |acts|
    ensures Guarded(Serve(wide, acts[..k]))
  {
    if k > 0 {
      OrderlyGuarded(wide, acts, k - 1);
      ServeStep(wide, acts, k - 1);
      NextGuarded(wide, Serve(wide, acts[..k - 1]), acts[k - 1]);
    }
  }

  /** In an orderly run a thread that ends its session holds the mutex, and is alone in the section. */
  lemma UnlocksOwnMutex(wide: bool, acts: seq<Action>, k: nat)
    requires Orderly(wide, acts) && k < |acts| && (acts[k].Unlock? || acts[k].UnlockGivesUp?)
    requires PhaseOf(Serve(wide, acts[..k]), acts[k].t).Unlocking?
    ensures Serve(wide, acts[..k]).holder == Some(acts[k].t)
    ensures forall u :: InSection(PhaseOf(Serve(wide, acts[..k]), u)) ==> u == acts[k].t
    ensures Serve(wide, acts[..k + 1]).holder == if acts[k].Unlock? then None else Some(acts[k].t)
  {
    OrderlyGuarded(wide, acts, k);
    ServeStep(wide, acts, k);
    assert InSection(PhaseOf(Serve(wide, acts[..k]), acts[k].t));
  }

  /** Before the terminate flag is set, no unlock is stray. */
  lemma OrderlyBeforeTerminate(wide: bool, acts: seq<Action>)
    requires Terminate !in acts
    ensures Orderly(wide, acts)
  {
    forall k | 0 <= k < |acts| ensures !StrayUnlock(Serve(wide, acts[..k]), acts[k]) {
      FlagStaysClear(wide, acts[..k]);
    }
  }

  lemma {:induction false} FlagStaysClear(wide: bool, acts: seq<Action>)
    requires Terminate !in acts
    ensures !Serve(wide, acts).terminate
  {
    if acts != [] {
      FlagStaysClear(wide, acts[..|acts| - 1]);
    }
  }

  lemma ServeAppend(wide: bool, acts: seq<Action>, a: Action)
    ensures Serve(wide, acts + [a]) == Next(wide, Serve(wide, acts), a)
  {
    assert (acts + [a])[..|acts|] == acts;
  }

  /** One more action. */
  lemma Acted(wide: bool, acts: seq<Action>, a: Action) returns (acts': seq<Action>)
    ensures acts' == acts + [a] && Serve(wide, acts') == Next(wide, Serve(wide, acts), a)
  {
    acts' := acts + [a];
    ServeAppend(wide, acts, a);
  }

  /** An empty receive buffer frames as a bare newline. */
  lemma BlankFrames(wide: bool)
    ensures Framable(wide, Zeros(MSG_LEN)) && Framed(wide, Zeros(MSG_LEN)).value == [LF]
  {
    var blank := Zeros(MSG_LEN);
    StopAtIs(wide, blank, 0);
    assert blank[..0] + [LF] == [LF];
  }

  /** A thread at the top can get a line ready. */
  lemma GetsReady(wide: bool, acts: seq<Action>, t: Tid) returns (acts': seq<Action>)
    requires PhaseOf(Serve(wide, acts), t).AtTop? && !Serve(wide, acts).terminate
    ensures acts' == acts + [CheckFlag(t)] + [Recv(t, Zeros(MSG_LEN))]
    ensures Serve(wide, acts') == Goes(Goes(Serve(wide, acts), t, Receiving), t, Ready([LF]))
  {
    BlankFrames(wide);
    acts' := Acted(wide, acts, CheckFlag(t));
    acts' := Acted(wide, acts', Recv(t, Zeros(MSG_LEN)));
  }

  /** A thread at the top that sees the flag lets a second thread in. */
  lemma ShutdownLetsIn(wide: bool, s: State, t: Tid, u: Tid, v: Tid)
    requires t != u && u != v && t != v && s.holder.None?
    requires PhaseOf(s, t).Ready? && PhaseOf(s, u).Ready? && PhaseOf(s, v).AtTop?
    ensures var s1 := Next(wide, s, Lock(t));
            var s2 := Next(wide, s1, Terminate);
            var s3 := Next(wide, s2, CheckFlag(v));
            var s4 := Next(wide, s3, Lock(u));
            InSection(PhaseOf(s4, t)) && InSection(PhaseOf(s4, u))
  {
    var s2 := Next(wide, Next(wide, s, Lock(t)), Terminate);
    assert PhaseOf(s2, t).Writing? && PhaseOf(s2, u).Ready? && PhaseOf(s2, v).AtTop? && s2.terminate;
    var s3 := Next(wide, s2, CheckFlag(v));
    assert PhaseOf(s3, t).Writing? && PhaseOf(s3, u).Ready? && s3.holder.None?;
  }

  /** Shutdown can let two threads into the section at once. */
  lemma TwoInside(wide: bool) returns (acts: seq<Action>)
    ensures InSection(PhaseOf(Serve(wide, acts), 0)) && InSection(PhaseOf(Serve(wide, acts), 1))
  {
    acts := GetsReady(wide, [], 0);
    acts := GetsReady(wide, acts, 1);
    ShutdownLetsIn(wide, Serve(wide, acts), 0, 1, 2);
    acts := Acted(wide, acts, Lock(0));
    acts := Acted(wide, acts, Terminate);
    acts := Acted(wide, acts, CheckFlag(2));
    acts := Acted(wide, acts, Lock(1));
  }
}
