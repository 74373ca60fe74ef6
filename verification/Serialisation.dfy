/** Every interleaving of calls under the device mutex is a sequential run in lock order. */
module Serialisation {
  import opened Bytes
  import opened CircularBuffer
  import opened CommandLog
  import opened Driver
  import opened DriverInvariant
  import opened DriverRuns
  import opened Interleaving

  /** `steps` counts the small steps taken since the mutex was acquired. */
  datatype Thread = Idle | Waiting(call: Call) | Inside(call: Call, pc: Pc, steps: nat)

  /** `done` and `answers` record the calls and their replies in the order of release. */
  datatype RawSystem = System(dev: Device, lock: Option<Tid>, threads: map<Tid, Thread>,
                              done: seq<Call>, answers: seq<Reply>)

  type System = s: RawSystem | InBounds(s.dev.ring) witness System(Loaded(), None, map[], [], [])

  datatype Action =
    | Invoke(t: Tid, call: Call)
    | Acquire(t: Tid)
    | Interrupt(t: Tid)
    | Work(t: Tid)
    | Release(t: Tid)

  function ThreadOf(s: System, t: Tid): Thread {
    if t in s.threads then s.threads[t] else Idle
  }

  function SetThread(s: System, t: Tid, th: Thread): System {
    s.(threads := s.threads[t := th])
  }

  /** One action of one thread.  An action that cannot happen changes nothing. */
  function Act(s: System, a: Action): System {
    var th := ThreadOf(s, a.t);
    match a
    case Invoke(t, call) =>
      if th.Idle? && !call.env.LockInterrupted? then SetThread(s, t, Waiting(call)) else s
    case Acquire(t) =>
      if th.Waiting? && s.lock.None? && Enabled(s.dev, th.call)
      then SetThread(s.(lock := Some(t)), t, Inside(th.call, FirstPc(th.call), 0)) else s
    case Interrupt(t) =>
      if th.Waiting? then SetThread(s, t, Idle) else s
    case Work(t) =>
      if th.Inside? && !th.pc.Finished? then
        var c := Micro(th.call, Config(s.dev, th.pc));
        SetThread(s.(dev := c.dev), t, Inside(th.call, c.pc, th.steps + 1))
      else s
    case Release(t) =>
      if th.Inside? && th.pc.Finished?
      then SetThread(s.(lock := None, done := s.done + [th.call], answers := s.answers + [th.pc.reply]), t, Idle)
      else s
  }

  function Start(): System {
    System(Loaded(), None, map[], [], [])
  }

  function Interleaved(acts: seq<Action>): System {
    if acts == [] then Start() else Act(Interleaved(acts[..|acts| - 1]), acts[|acts| - 1])
  }

  /** What the calls answer when they run one after the other. */
  function SequentialAnswers(calls: seq<Call>): seq<Reply> {
    if calls == [] then []
    else
      var front := calls[..|calls| - 1];
      SequentialAnswers(front) + [Perform(Run(front), calls[|calls| - 1]).1]
  }

  // ---------------------------------------------------------------- the invariant

  /** The thread inside has taken some steps of its call from where the calls before it ended. */
  ghost predicate InProgress(s: System, th: Thread) {
    && th.Inside?
    && Enabled(Run(s.done), th.call) && !th.call.env.LockInterrupted?
    && Micros(th.call, Begin(Run(s.done), th.call), th.steps) == Config(s.dev, th.pc)
  }

  ghost predicate NoneWaitsInterrupted(s: System) {
    forall t :: t in s.threads && s.threads[t].Waiting? ==> !s.threads[t].call.env.LockInterrupted?
  }

  ghost predicate OnlyHolderInside(s: System) {
    forall t :: t in s.threads && s.threads[t].Inside? ==> s.lock == Some(t)
  }

  ghost predicate Serial(s: System) {
    && NoneWaitsInterrupted(s) && OnlyHolderInside(s)
    && s.answers == SequentialAnswers(s.done)
    && (s.lock.None? ==> s.dev == Run(s.done))
    && (s.lock.Some? ==> InProgress(s, ThreadOf(s, s.lock.value)))
  }

  /** One more small step of the call in progress. */
  lemma StepInProgress(s: System, th: Thread, s': System, th': Thread)
    requires InProgress(s, th) && th'.Inside? && th'.call == th.call && th'.steps == th.steps + 1
    requires s'.done == s.done && Config(s'.dev, th'.pc) == Micro(th.call, Config(s.dev, th.pc))
    ensures InProgress(s', th')
  {
  }

  lemma WorkKeeps(s: System, t: Tid)
    requires Serial(s)
    ensures Serial(Act(s, Work(t)))
  {
    var th, s' := ThreadOf(s, t), Act(s, Work(t));
    if s' != s {
      assert s.lock == Some(t) && InProgress(s, th);
      StepInProgress(s, th, s', ThreadOf(s', t));
    }
  }

  lemma RunEnd(calls: seq<Call>, call: Call)
    requires Enabled(Run(calls), call)
    ensures Run(calls + [call]) == Perform(Run(calls), call).0
    ensures SequentialAnswers(calls + [call]) == SequentialAnswers(calls) + [Perform(Run(calls), call).1]
  {
    assert (calls + [call])[..|calls|] == calls;
  }

  /** A call at the unlock has brought the device to the end of the run that it extends. */
  lemma CompletedCall(s: System, th: Thread)
    requires InProgress(s, th) && th.pc.Finished?
    ensures s.dev == Run(s.done + [th.call])
    ensures SequentialAnswers(s.done + [th.call]) == SequentialAnswers(s.done) + [th.pc.reply]
  {
    WholeRun(s.done);
    PendingPtrOld(Run(s.done), History(s.done));
    FinishedMeansDone(Run(s.done), th.call, th.steps);
    RunEnd(s.done, th.call);
  }

  lemma ReleaseKeeps(s: System, t: Tid)
    requires Serial(s)
    ensures Serial(Act(s, Release(t)))
  {
    var th := ThreadOf(s, t);
    if th.Inside? && th.pc.Finished? {
      CompletedCall(s, th);
    }
  }

  lemma ActKeeps(s: System, a: Action)
    requires Serial(s)
    ensures Serial(Act(s, a))
  {
    match a
    case Work(t) => WorkKeeps(s, t);
    case Release(t) => ReleaseKeeps(s, t);
    case _ =>
  }

  /**
   In every interleaving the device, whenever the mutex is free, is what the completed calls
   make of it one after the other in lock order, and they have answered the same.
   */
  lemma {:induction false} Serialised(acts: seq<Action>)
    ensures Serial(Interleaved(acts))
  {
    if acts != [] {
      Serialised(acts[..|acts| - 1]);
      ActKeeps(Interleaved(acts[..|acts| - 1]), acts[|acts| - 1]);
    }
  }

  // ---------------------------------------------------------------- the mutex is always released

  /** Thread `t` holds the mutex for `call`, after the calls `done`, with at most `left` steps to go. */
  ghost predicate Holding(s: System, t: Tid, call: Call, done: seq<Call>, left: nat) {
    && s.lock == Some(t) && OnlyHolderInside(s) && s.done == done
    && ThreadOf(s, t).Inside? && ThreadOf(s, t).call == call && ToGo(ThreadOf(s, t).pc) <= left
  }

  /** Nobody but the holder can change that: it works, or is through and releases. */
  lemma ActHolding(s: System, t: Tid, call: Call, done: seq<Call>, left: nat, a: Action)
    requires Holding(s, t, call, done, left)
    ensures Act(s, a).done == done ==>
              Holding(Act(s, a), t, call, done, if a == Work(t) && left > 0 then left - 1 else left)
    ensures Act(s, a).done != done ==> a == Release(t) && Act(s, a).done == done + [call] && Act(s, a).lock.None?
    ensures a == Release(t) && left == 0 ==> Act(s, a).done != done && ThreadOf(Act(s, a), t).Idle?
  {
    MicroProgress(call, Config(s.dev, ThreadOf(s, t).pc));
  }

  lemma DoneGrows(s: System, a: Action)
    ensures s.done <= Act(s, a).done
  {
  }

  /** How often thread `t` is scheduled to work. */
  function WorkTurns(acts: seq<Action>, t: Tid): nat {
    if acts == [] then 0
    else WorkTurns(acts[..|acts| - 1], t) + if acts[|acts| - 1] == Work(t) then 1 else 0
  }

  lemma WorkTurnsAppend(acts: seq<Action>, a: Action, t: Tid)
    ensures WorkTurns(acts + [a], t) == WorkTurns(acts, t) + if a == Work(t) then 1 else 0
  {
    assert (acts + [a])[..|acts|] == acts;
  }

  lemma InterleavedAppend(acts: seq<Action>, a: Action)
    ensures Interleaved(acts + [a]) == Act(Interleaved(acts), a)
  {
    assert (acts + [a])[..|acts|] == acts;
  }

  function Left(turns: nat): nat {
    if turns >= 10 then 0 else 10 - turns
  }

  /** The call of the holder is done, or it still holds the mutex and each turn has brought it on. */
  ghost predicate GetsOn(s: System, t: Tid, call: Call, done: seq<Call>, acts: seq<Action>) {
    || (done + [call] <= s.done && Release(t) in acts)
    || Holding(s, t, call, done, Left(WorkTurns(acts, t)))
  }

  lemma OneMoreGetsOn(s: System, t: Tid, call: Call, done: seq<Call>, acts: seq<Action>, a: Action)
    requires GetsOn(s, t, call, done, acts)
    ensures GetsOn(Act(s, a), t, call, done, acts + [a])
  {
    WorkTurnsAppend(acts, a, t);
    DoneGrows(s, a);
    if Holding(s, t, call, done, Left(WorkTurns(acts, t))) {
      ActHolding(s, t, call, done, Left(WorkTurns(acts, t)), a);
    }
  }

  lemma {:induction false} HolderGetsOn(before: seq<Action>, acts: seq<Action>, t: Tid, call: Call, done: seq<Call>)
    requires Holding(Interleaved(before), t, call, done, 10)
    ensures GetsOn(Interleaved(before + acts), t, call, done, acts)
    decreases |acts|
  {
    if acts == [] {
      RightUnit(before);
    } else {
      var front, last := acts[..|acts| - 1], acts[|acts| - 1];
      HolderGetsOn(before, front, t, call, done);
      Associative(before, front, [last]);
      assert acts == front + [last];
      InterleavedAppend(before + front, last);
      OneMoreGetsOn(Interleaved(before + front), t, call, done, front, last);
    }
  }

  lemma InsideHolds(s: System, t: Tid)
    requires Serial(s) && ThreadOf(s, t).Inside?
    ensures Holding(s, t, ThreadOf(s, t).call, s.done, 10)
  {
  }

  /**
   Whatever path a call is on and whatever the other threads do meanwhile, ten turns of its own
   bring it to the unlock: once it is scheduled to release after that, its call is the next one
   done.  If it was not scheduled to release before, the mutex is free then.
   */
  lemma AlwaysReleases(before: seq<Action>, acts: seq<Action>, t: Tid)
    requires ThreadOf(Interleaved(before), t).Inside? && WorkTurns(acts, t) >= 10
    ensures var s, s' := Interleaved(before), Interleaved(before + acts + [Release(t)]);
      && s.done + [ThreadOf(s, t).call] <= s'.done
      && (Release(t) !in acts ==>
            s'.lock.None? && ThreadOf(s', t).Idle? && s'.done == s.done + [ThreadOf(s, t).call])
  {
    var call, done := ThreadOf(Interleaved(before), t).call, Interleaved(before).done;
    Serialised(before);
    InsideHolds(Interleaved(before), t);
    HolderGetsOn(before, acts, t, call, done);
    InterleavedAppend(before + acts, Release(t));
    DoneGrows(Interleaved(before + acts), Release(t));
    if Holding(Interleaved(before + acts), t, call, done, 0) {
      ActHolding(Interleaved(before + acts), t, call, done, 0, Release(t));
    }
  }

  // ---------------------------------------------------------------- the seek that takes no mutex

  /** Past the point where `buff_size` changes, or not on a path that changes it. */
  predicate Counted(pc: Pc) {
    pc.WriteReset? || pc.WriteDone? || pc.Finished?
  }

  lemma MicroCount(call: Call, c: Config)
    ensures !Counted(Micro(call, c).pc) || Counted(c.pc) ==> Micro(call, c).dev.buffSize == c.dev.buffSize
    ensures Counted(c.pc) ==> Counted(Micro(call, c).pc)
  {
  }

  lemma {:induction false} CountBefore(call: Call, c: Config, n: nat)
    requires !Counted(Micros(call, c, n).pc)
    ensures Micros(call, c, n).dev.buffSize == c.dev.buffSize
  {
    if n > 0 {
      MicroCount(call, Micros(call, c, n - 1));
      CountBefore(call, c, n - 1);
    }
  }

  lemma {:induction false} CountAfter(call: Call, c: Config, m: nat, n: nat)
    requires m <= n && Counted(Micros(call, c, m).pc)
    ensures Counted(Micros(call, c, n).pc)
    ensures Micros(call, c, n).dev.buffSize == Micros(call, c, m).dev.buffSize
  {
    if m < n {
      CountAfter(call, c, m, n - 1);
      MicroCount(call, Micros(call, c, n - 1));
    }
  }

  /** At every step the size counter is that before the call or that after it. */
  lemma CountBeforeOrAfter(d: Device, call: Call, n: nat)
    requires InBounds(d.ring) && !call.env.LockInterrupted? && d.pending.buffptr != d.slab.next
    ensures Micros(call, Begin(d, call), n).dev.buffSize in {d.buffSize, Perform(d, call).0.buffSize}
  {
    if Counted(Micros(call, Begin(d, call), n).pc) {
      CountAfter(call, Begin(d, call), n, n + 10);
      StepsMakeCall(d, call, n + 10);
    } else {
      CountBefore(call, Begin(d, call), n);
    }
  }

  /**
   SEEK_END reads the size counter without the mutex.  It still sees the counter of a
   sequential run: the one before the call in progress, or the one after it.
   */
  lemma SeekSeesBeforeOrAfter(acts: seq<Action>)
    ensures var s := Interleaved(acts);
      || s.dev.buffSize == Run(s.done).buffSize
      || (&& s.lock.Some? && ThreadOf(s, s.lock.value).Inside?
          && s.dev.buffSize == Run(s.done + [ThreadOf(s, s.lock.value).call]).buffSize)
  {
    var s := Interleaved(acts);
    Serialised(acts);
    if s.lock.Some? {
      var th := ThreadOf(s, s.lock.value);
      WholeRun(s.done);
      PendingPtrOld(Run(s.done), History(s.done));
      CountBeforeOrAfter(Run(s.done), th.call, th.steps);
      RunEnd(s.done, th.call);
    }
  }
}
