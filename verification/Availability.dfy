/** The mutex admits every caller: each sequential run is an interleaving, and a waiting call can always be served. */
module Availability {
  import opened Bytes
  import opened CircularBuffer
  import opened CommandLog
  import opened Driver
  import opened DriverInvariant
  import opened DriverRuns
  import opened Interleaving
  import opened Serialisation

  // ---------------------------------------------------------------- a waiting call

  lemma Admitted(before: seq<Action>, t: Tid)
    requires Interleaved(before).lock.None? && ThreadOf(Interleaved(before), t).Waiting?
    requires Enabled(Run(Interleaved(before).done), ThreadOf(Interleaved(before), t).call)
    ensures var s, s' := Interleaved(before), Interleaved(before + [Acquire(t)]);
      ThreadOf(s', t).Inside? && ThreadOf(s', t).call == ThreadOf(s, t).call && s'.done == s.done
  {
    Serialised(before);
    InterleavedAppend(before, Acquire(t));
  }

  /** The call that thread `t` waits with is done next, the mutex is free again and the answer is the run's. */
  ghost predicate ServedNext(s: System, s': System, t: Tid, call: Call) {
    && s'.done == s.done + [call] && s'.lock.None? && ThreadOf(s', t).Idle?
    && s'.dev == Run(s'.done) && s'.answers == SequentialAnswers(s'.done)
  }

  /**
   In every reachable state with the mutex free, a waiting call with a byte to look at can be
   admitted, and is the next one done, whatever the other threads do meanwhile.
   */
  lemma WaitingServed(before: seq<Action>, acts: seq<Action>, t: Tid)
    requires Interleaved(before).lock.None? && ThreadOf(Interleaved(before), t).Waiting?
    requires Enabled(Run(Interleaved(before).done), ThreadOf(Interleaved(before), t).call)
    requires WorkTurns(acts, t) >= 10 && Release(t) !in acts
    ensures ServedNext(Interleaved(before), Interleaved(before + [Acquire(t)] + acts + [Release(t)]), t,
                       ThreadOf(Interleaved(before), t).call)
  {
    Admitted(before, t);
    AlwaysReleases(before + [Acquire(t)], acts, t);
    Serialised(before + [Acquire(t)] + acts + [Release(t)]);
  }

  /** Ten turns of thread `t`. */
  function TenTurns(t: Tid): seq<Action> {
    seq(10, _ => Work(t))
  }

  lemma {:induction false} TurnsCount(t: Tid, n: nat)
    ensures WorkTurns(seq(n, _ => Work(t)), t) == n
  {
    if n > 0 {
      TurnsCount(t, n - 1);
      WorkTurnsAppend(seq(n - 1, _ => Work(t)), Work(t), t);
      assert seq(n, _ => Work(t)) == seq(n - 1, _ => Work(t)) + [Work(t)];
    }
  }

  lemma TenTurnsEnough(t: Tid)
    ensures WorkTurns(TenTurns(t), t) == 10 && Release(t) !in TenTurns(t)
  {
    TurnsCount(t, 10);
  }

  /** Also when the mutex is taken a waiting call can be the next one done, once the holder is through. */
  lemma WaitingServedAfterHolder(before: seq<Action>, t: Tid, u: Tid) returns (acts: seq<Action>)
    requires ThreadOf(Interleaved(before), u).Inside? && ThreadOf(Interleaved(before), t).Waiting?
    requires Enabled(Run(Interleaved(before).done + [ThreadOf(Interleaved(before), u).call]),
                     ThreadOf(Interleaved(before), t).call)
    ensures var s, s' := Interleaved(before), Interleaved(before + acts);
      s'.done == s.done + [ThreadOf(s, u).call] + [ThreadOf(s, t).call] && s'.lock.None?
  {
    var freed := TenTurns(u) + [Release(u)];
    TenTurnsEnough(u);
    AlwaysReleases(before, TenTurns(u), u);
    Associative(before, TenTurns(u), [Release(u)]);
    OthersKept(before, freed, u, t);
    TenTurnsEnough(t);
    WaitingServed(before + freed, TenTurns(t), t);
    acts := freed + [Acquire(t)] + TenTurns(t) + [Release(t)];
    assert before + acts == before + freed + [Acquire(t)] + TenTurns(t) + [Release(t)];
  }

  /** What one thread does leaves the other threads where they are. */
  lemma {:induction false} OthersKept(before: seq<Action>, acts: seq<Action>, u: Tid, t: Tid)
    requires t != u && forall i :: 0 <= i < |acts| ==> acts[i].t == u
    ensures ThreadOf(Interleaved(before + acts), t) == ThreadOf(Interleaved(before), t)
    decreases |acts|
  {
    if acts == [] {
      RightUnit(before);
    } else {
      var front, last := acts[..|acts| - 1], acts[|acts| - 1];
      OthersKept(before, front, u, t);
      Associative(before, front, [last]);
      assert acts == front + [last];
      InterleavedAppend(before + front, last);
      OtherKept(Interleaved(before + front), last, t);
    }
  }

  lemma OtherKept(s: System, a: Action, t: Tid)
    requires a.t != t
    ensures ThreadOf(Act(s, a), t) == ThreadOf(s, t)
  {
  }

  /** A wait that is interrupted leaves no trace but a thread that may call again. */
  lemma InterruptedLeavesNoTrace(before: seq<Action>, t: Tid, u: Tid)
    requires ThreadOf(Interleaved(before), t).Waiting?
    ensures var s, s' := Interleaved(before), Interleaved(before + [Interrupt(t)]);
      && s'.dev == s.dev && s'.lock == s.lock && s'.done == s.done && s'.answers == s.answers
      && ThreadOf(s', u) == if u == t then Idle else ThreadOf(s, u)
  {
    InterleavedAppend(before, Interrupt(t));
  }

  // ---------------------------------------------------------------- every sequential run

  /** Each call has a byte to look at when its turn comes, and no lock is interrupted. */
  ghost predicate Feasible(calls: seq<Call>) {
    forall k :: 0 <= k < |calls| ==> Enabled(Run(calls[..k]), calls[k]) && !calls[k].env.LockInterrupted?
  }

  /** One call by one thread, from entry to return. */
  function WholeCall(t: Tid, call: Call): seq<Action> {
    [Invoke(t, call)] + [Acquire(t)] + TenTurns(t) + [Release(t)]
  }

  /** The calls one after the other, the `k`-th by thread `who[k]`. */
  function Schedule(who: seq<Tid>, calls: seq<Call>): seq<Action>
    requires |who| == |calls|
  {
    if calls == [] then []
    else Schedule(who[..|who| - 1], calls[..|calls| - 1]) + WholeCall(who[|who| - 1], calls[|calls| - 1])
  }

  /** All threads are idle, the mutex is free and `calls` are done. */
  ghost predicate Quiet(s: System, calls: seq<Call>) {
    s.done == calls && s.lock.None? && forall t :: ThreadOf(s, t).Idle?
  }

  lemma Invoked(before: seq<Action>, t: Tid, call: Call)
    requires ThreadOf(Interleaved(before), t).Idle? && !call.env.LockInterrupted?
    ensures var s, s' := Interleaved(before), Interleaved(before + [Invoke(t, call)]);
      s'.done == s.done && s'.lock == s.lock && ThreadOf(s', t) == Waiting(call)
  {
    InterleavedAppend(before, Invoke(t, call));
  }

  lemma WholeCallSplit(before: seq<Action>, t: Tid, call: Call)
    ensures before + WholeCall(t, call)
         == before + [Invoke(t, call)] + [Acquire(t)] + TenTurns(t) + [Release(t)]
    ensures forall i :: 0 <= i < |WholeCall(t, call)| ==> WholeCall(t, call)[i].t == t
  {
  }

  lemma CallDone(before: seq<Action>, calls: seq<Call>, t: Tid, call: Call)
    requires Quiet(Interleaved(before), calls) && Enabled(Run(calls), call) && !call.env.LockInterrupted?
    ensures ServedNext(Interleaved(before), Interleaved(before + WholeCall(t, call)), t, call)
  {
    Invoked(before, t, call);
    TenTurnsEnough(t);
    WaitingServed(before + [Invoke(t, call)], TenTurns(t), t);
    WholeCallSplit(before, t, call);
  }

  lemma OneWholeCall(before: seq<Action>, calls: seq<Call>, t: Tid, call: Call)
    requires Quiet(Interleaved(before), calls) && Enabled(Run(calls), call) && !call.env.LockInterrupted?
    ensures Quiet(Interleaved(before + WholeCall(t, call)), calls + [call])
  {
    CallDone(before, calls, t, call);
    forall u ensures ThreadOf(Interleaved(before + WholeCall(t, call)), u).Idle? {
      if u != t {
        WholeCallSplit(before, t, call);
        OthersKept(before, WholeCall(t, call), t, u);
      }
    }
  }

  lemma FeasibleFront(calls: seq<Call>)
    requires Feasible(calls) && calls != []
    ensures Feasible(calls[..|calls| - 1])
    ensures Enabled(Run(calls[..|calls| - 1]), calls[|calls| - 1]) && !calls[|calls| - 1].env.LockInterrupted?
  {
    var front := calls[..|calls| - 1];
    forall k | 0 <= k < |front| ensures Enabled(Run(front[..k]), front[k]) && !front[k].env.LockInterrupted? {
      assert front[..k] == calls[..k];
    }
  }

  lemma {:induction false} ScheduleDoes(who: seq<Tid>, calls: seq<Call>)
    requires |who| == |calls| && Feasible(calls)
    ensures Quiet(Interleaved(Schedule(who, calls)), calls)
  {
    if calls == [] {
      NothingDone();
    } else {
      var front, last := calls[..|calls| - 1], calls[|calls| - 1];
      var before := Schedule(who[..|who| - 1], front);
      FeasibleFront(calls);
      ScheduleDoes(who[..|who| - 1], front);
      ScheduleStep(who, calls);
      LastApart(calls);
      OneMoreScheduled(before, front, who[|who| - 1], last, Schedule(who, calls), calls);
    }
  }

  lemma ScheduleStep(who: seq<Tid>, calls: seq<Call>)
    requires |who| == |calls| && calls != []
    ensures Schedule(who, calls)
         == Schedule(who[..|who| - 1], calls[..|calls| - 1]) + WholeCall(who[|who| - 1], calls[|calls| - 1])
  {
  }

  lemma LastApart(calls: seq<Call>)
    requires calls != []
    ensures calls == calls[..|calls| - 1] + [calls[|calls| - 1]]
  {
  }

  lemma NothingDone()
    ensures Quiet(Interleaved([]), [])
  {
  }

  lemma OneMoreScheduled(before: seq<Action>, front: seq<Call>, t: Tid, last: Call, acts: seq<Action>, calls: seq<Call>)
    requires Quiet(Interleaved(before), front) && Enabled(Run(front), last) && !last.env.LockInterrupted?
    requires acts == before + WholeCall(t, last) && calls == front + [last]
    ensures Quiet(Interleaved(acts), calls)
  {
    OneWholeCall(before, front, t, last);
  }

  /**
   Every sequence of calls, each with a byte to look at when its turn comes, made by any threads,
   is what some interleaving does: the converse of serialisation.
   */
  lemma EverySequenceHappens(who: seq<Tid>, calls: seq<Call>)
    requires |who| == |calls| && Feasible(calls)
    ensures Quiet(Interleaved(Schedule(who, calls)), calls)
    ensures Interleaved(Schedule(who, calls)).dev == Run(calls)
    ensures Interleaved(Schedule(who, calls)).answers == SequentialAnswers(calls)
  {
    ScheduleDoes(who, calls);
    Serialised(Schedule(who, calls));
  }
}
