/** Requests through any number of open files, each with a position that its calls and seeks move. */
module OpenFiles {
  import opened Bytes
  import opened CircularBuffer
  import opened CommandLog
  import opened Driver
  import opened DriverInvariant
  import opened DriverRuns
  import opened RunLaws
  import opened ReadBack
  import opened Answers

  type File = nat

  datatype Request =
    | Put(chunk: seq<byte>, env: Env)
    | Get(count: nat, env: Env)
    | Seek(off: int, whence: int)

  /** The calls made so far and the file positions they leave; a file starts at 0. */
  datatype Files = Files(calls: seq<Call>, pos: map<File, nat>)

  const UNUSED := Files([], map[])

  function At(pos: map<File, nat>, file: File): nat {
    if file in pos then pos[file] else 0
  }

  function Moved(pos: map<File, nat>, file: File, q: nat): map<File, nat> {
    if At(pos, file) == q then pos else pos[file := q]
  }

  /** A call at the position of a file, which moves to the position that the reply gives. */
  function Called(f: Files, file: File, call: Call): Files {
    Files(f.calls + [call], Moved(f.pos, file, Perform(Run(f.calls), call).1.pos))
  }

  function Asked(f: Files, file: File, req: Request): Files {
    var p := At(f.pos, file);
    match req
    case Put(chunk, env) => Called(f, file, Write(p, chunk, env))
    case Get(count, env) => Called(f, file, Read(p, count, env))
    case Seek(off, whence) => Sought(f, file, Lseek(Run(f.calls), p, off, whence))
  }

  function Sought(f: Files, file: File, q: Option<nat>): Files {
    if q.None? then f else f.(pos := Moved(f.pos, file, q.value))
  }

  function AskAll(f: Files, reqs: seq<(File, Request)>): Files
    decreases |reqs|
  {
    if reqs == [] then f
    else
      var (file, req) := reqs[|reqs| - 1];
      Asked(AskAll(f, reqs[..|reqs| - 1]), file, req)
  }

  lemma AskAllAppend(f: Files, reqs: seq<(File, Request)>, last: (File, Request))
    ensures AskAll(f, reqs + [last]) == Asked(AskAll(f, reqs), last.0, last.1)
  {
    assert (reqs + [last])[..|reqs|] == reqs;
  }

  /** The call that a request makes. */
  function CallOf(f: Files, file: File, req: Request): Call
    requires !req.Seek?
  {
    if req.Put? then Write(At(f.pos, file), req.chunk, req.env) else Read(At(f.pos, file), req.count, req.env)
  }

  /** A write or read makes its call at its file's position, and moves no file when it fails. */
  lemma FailedRequestStays(f: Files, file: File, req: Request, g: File)
    requires !req.Seek?
    ensures Asked(f, file, req).calls == f.calls + [CallOf(f, file, req)]
    ensures Fails(Run(f.calls), CallOf(f, file, req)) ==> At(Asked(f, file, req).pos, g) == At(f.pos, g)
    ensures g != file ==> At(Asked(f, file, req).pos, g) == At(f.pos, g)
  {
    CallReportsFailure(Run(f.calls), CallOf(f, file, req));
  }

  // ---------------------------------------------------------------- seeking and reading

  /**
   Where a seek leaves a file that was at `p`: a valid one moves it, by SEEK_END to the number
   of bytes committed so far, and an invalid one does not.
   */
  function SeekGoal(committed: nat, p: nat, off: int, whence: int): nat {
    match SeekResult(committed, p, off, whence)
    case None => p
    case Some(q) => q
  }

  /** A seek moves its own file there, and nothing else. */
  lemma SeekMoves(f: Files, file: File, off: int, whence: int, g: File)
    ensures var f' := Asked(f, file, Seek(off, whence));
            var goal := SeekGoal(|Flatten(History(f.calls).commands)|, At(f.pos, file), off, whence);
      f'.calls == f.calls && At(f'.pos, g) == if g == file then goal else At(f.pos, g)
  {
    SeekIs(f.calls, At(f.pos, file), off, whence);
  }

  /** The bytes that a request gives its caller. */
  function GivenTo(f: Files, file: File, req: Request): seq<byte> {
    if req.Get? then Given(Perform(Run(f.calls), Read(At(f.pos, file), req.count, req.env)).1) else []
  }

  /** The bytes that successive requests give, end to end. */
  function GivenAll(f: Files, reqs: seq<(File, Request)>): seq<byte>
    decreases |reqs|
  {
    if reqs == [] then []
    else
      var front, last := reqs[..|reqs| - 1], reqs[|reqs| - 1];
      GivenAll(f, front) + GivenTo(AskAll(f, front), last.0, last.1)
  }

  lemma GivenAllAppend(f: Files, reqs: seq<(File, Request)>, last: (File, Request))
    ensures GivenAll(f, reqs + [last]) == GivenAll(f, reqs) + GivenTo(AskAll(f, reqs), last.0, last.1)
  {
    assert (reqs + [last])[..|reqs|] == reqs;
  }

  /** Successful reads through one file. */
  function Gets(file: File, counts: seq<nat>): seq<(File, Request)> {
    seq(|counts|, i requires 0 <= i < |counts| => (file, Get(counts[i], Granted)))
  }

  lemma GetsAppend(file: File, counts: seq<nat>, count: nat)
    ensures Gets(file, counts + [count]) == Gets(file, counts) + [(file, Get(count, Granted))]
  {
  }

  /** A read through a file gives what the log has there and moves the file over all it met. */
  lemma OneGet(f: Files, file: File, count: nat, g: File)
    ensures var f', meet := Asked(f, file, Get(count, Granted)), Remainder(History(f.calls));
      && History(f'.calls) == History(f.calls)
      && GivenTo(f, file, Get(count, Granted)) == Clip(meet(At(f.pos, file)), count)
      && At(f'.pos, g) == At(f.pos, g) + if g == file then |meet(At(f.pos, file))| else 0
  {
    var p := At(f.pos, file);
    ReadGives(f.calls, p, count);
    OneCall(f, file, Read(p, count, Granted), g);
  }

  lemma OneCall(f: Files, file: File, call: Call, g: File)
    ensures var f' := Called(f, file, call);
      && History(f'.calls) == Effect(History(f.calls), call)
      && At(f'.pos, g) == if g == file then Perform(Run(f.calls), call).1.pos else At(f.pos, g)
  {
    HistoryAppend(f.calls, call);
    MovedAt(f.pos, file, Perform(Run(f.calls), call).1.pos, g);
  }

  lemma MovedAt(pos: map<File, nat>, file: File, q: nat, g: File)
    ensures At(Moved(pos, file, q), g) == if g == file then q else At(pos, g)
  {
  }

  lemma ReadGives(calls: seq<Call>, p: nat, count: nat)
    ensures var r, meet := Perform(Run(calls), Read(p, count, Granted)).1, Remainder(History(calls));
      Given(r) == Clip(meet(p), count) && r.pos == p + |meet(p)|
  {
    AnswersRefine(calls, Read(p, count, Granted));
    AnswerGives(History(calls), p, count);
  }

  /** Reads from `p` that asked for `counts` have given `bytes` and come to `q`. */
  ghost predicate ReadTo(meet: nat -> seq<byte>, p: nat, counts: seq<nat>, bytes: seq<byte>, q: nat) {
    bytes == Gained(meet, p, counts) && q == p + |Met(meet, p, |counts|)|
  }

  lemma OneMoreReadTo(meet: nat -> seq<byte>, p: nat, counts: seq<nat>, bytes: seq<byte>, q: nat, count: nat)
    requires ReadTo(meet, p, counts, bytes, q)
    ensures ReadTo(meet, p, counts + [count], bytes + Clip(meet(q), count), q + |meet(q)|)
  {
    OneMoreRead(meet, p, counts, count);
  }

  /** What successive reads through one file leave, in terms of the log; file `g` is another one. */
  ghost predicate HaveRead(f: Files, file: File, counts: seq<nat>, g: File) {
    var end := AskAll(f, Gets(file, counts));
    && History(end.calls) == History(f.calls) && (g != file ==> At(end.pos, g) == At(f.pos, g))
    && ReadTo(Remainder(History(f.calls)), At(f.pos, file), counts, GivenAll(f, Gets(file, counts)), At(end.pos, file))
  }

  lemma OneMoreHasRead(f: Files, file: File, counts: seq<nat>, count: nat, g: File)
    requires HaveRead(f, file, counts, g)
    ensures HaveRead(f, file, counts + [count], g)
  {
    var reqs := Gets(file, counts);
    var mid, req := AskAll(f, reqs), (file, Get(count, Granted));
    assert Gets(file, counts + [count]) == reqs + [req] by { GetsAppend(file, counts, count); }
    AskAllAppend(f, reqs, req);
    GivenAllAppend(f, reqs, req);
    OneGet(mid, file, count, file);
    OneGet(mid, file, count, g);
    OneMoreReadTo(Remainder(History(f.calls)), At(f.pos, file), counts, GivenAll(f, reqs), At(mid.pos, file), count);
  }

  lemma {:induction false} GetsRead(f: Files, file: File, counts: seq<nat>, g: File)
    ensures HaveRead(f, file, counts, g)
    decreases |counts|
  {
    if counts != [] {
      var front, last := counts[..|counts| - 1], counts[|counts| - 1];
      assert counts == front + [last];
      GetsRead(f, file, front, g);
      OneMoreHasRead(f, file, front, last, g);
    }
  }

  /**
   From whatever state of the files: a seek to `p` and ten reads or more through one file leave
   it at the end of the stream, or at `p` beyond it.  They give the stream from `p` on if and
   only if each asks for what it meets.  No other file moves and the device looks as before.
   */
  ghost predicate ReadsBackThrough(f: Files, file: File, p: nat, counts: seq<nat>) {
    var start := Asked(f, file, Seek(p, 0));
    var end, content := AskAll(start, Gets(file, counts)), Content(History(f.calls));
    && At(end.pos, file) == p + |From(content, p)|
    && (GivenAll(start, Gets(file, counts)) == From(content, p)
        <==> Covering(Remainder(History(f.calls)), p, counts))
    && (forall g :: g != file ==> At(end.pos, g) == At(f.pos, g))
    && Observe(Run(end.calls)) == Observe(Run(f.calls))
  }

  lemma SeekAndReadBack(f: Files, file: File, p: nat, counts: seq<nat>)
    requires |Content(History(f.calls))| < UINT_RANGE && |counts| >= CAPACITY
    ensures ReadsBackThrough(f, file, p, counts)
  {
    var start := Asked(f, file, Seek(p, 0));
    SeekMoves(f, file, p, 0, file);
    GetsRead(start, file, counts, file);
    TenReads(History(f.calls), p, counts);
    forall g | g != file ensures At(AskAll(start, Gets(file, counts)).pos, g) == At(f.pos, g) {
      SeekMoves(f, file, p, 0, g);
      GetsRead(start, file, counts, g);
    }
    RunView(f.calls);
    RunView(AskAll(start, Gets(file, counts)).calls);
  }

  /** A file that has not been used yet reads the stream from its start. */
  lemma FreshFileReads(f: Files, file: File, counts: seq<nat>)
    requires file !in f.pos && |Content(History(f.calls))| < UINT_RANGE && |counts| >= CAPACITY
    ensures var content := Content(History(f.calls));
      && At(AskAll(f, Gets(file, counts)).pos, file) == |content|
      && (GivenAll(f, Gets(file, counts)) == content <==> Covering(Remainder(History(f.calls)), 0, counts))
  {
    GetsRead(f, file, counts, file);
    TenReads(History(f.calls), 0, counts);
  }

  // ---------------------------------------------------------------- failed writes

  predicate Failed(req: Request) {
    req.Put? && !req.env.Granted?
  }

  /** The requests without the writes that fail. */
  function Sifted(reqs: seq<(File, Request)>): seq<(File, Request)> {
    if reqs == [] then []
    else
      var last := reqs[|reqs| - 1];
      Sifted(reqs[..|reqs| - 1]) + if Failed(last.1) then [] else [last]
  }

  lemma SiftedAppend(reqs: seq<(File, Request)>, last: (File, Request))
    ensures Sifted(reqs + [last]) == if Failed(last.1) then Sifted(reqs) else Sifted(reqs) + [last]
  {
    assert (reqs + [last])[..|reqs|] == reqs;
    RightUnit(Sifted(reqs));
  }

  /** The files as they are when the failed writes have not been made. */
  function WithoutFailed(f: Files): Files {
    f.(calls := Erase(f.calls))
  }

  /** A failed write moves no position. */
  lemma FailedStays(f: Files, file: File, req: Request)
    requires Failed(req)
    ensures Asked(f, file, req).pos == f.pos && WithoutFailed(Asked(f, file, req)) == WithoutFailed(f)
  {
    EraseAppend(f.calls, Write(At(f.pos, file), req.chunk, req.env));
  }

  /** A call moves its file to the same position whether or not the failed writes were made. */
  lemma SamePosition(calls: seq<Call>, call: Call)
    ensures Perform(Run(Erase(calls)), call).1.pos == Perform(Run(calls), call).1.pos
  {
    ErasedRunSame(calls);
  }

  lemma CalledWithoutFailed(f: Files, file: File, call: Call)
    requires !FailedWrite(call)
    ensures Called(WithoutFailed(f), file, call) == WithoutFailed(Called(f, file, call))
  {
    SamePosition(f.calls, call);
    EraseAppend(f.calls, call);
  }

  lemma SoughtWithoutFailed(f: Files, file: File, off: int, whence: int)
    ensures Asked(WithoutFailed(f), file, Seek(off, whence)) == WithoutFailed(Asked(f, file, Seek(off, whence)))
  {
    SameCounter(f.calls);
    SameSeek(Run(f.calls), Run(Erase(f.calls)), At(f.pos, file), off, whence);
  }

  lemma SameCounter(calls: seq<Call>)
    ensures Run(Erase(calls)).buffSize == Run(calls).buffSize
  {
    ErasedRunSame(calls);
  }

  lemma SameSeek(d: Device, d': Device, pos: nat, off: int, whence: int)
    requires d'.buffSize == d.buffSize
    ensures Lseek(d', pos, off, whence) == Lseek(d, pos, off, whence)
  {
  }

  lemma AskedWithoutFailed(f: Files, file: File, req: Request)
    requires !Failed(req)
    ensures Asked(WithoutFailed(f), file, req) == WithoutFailed(Asked(f, file, req))
  {
    var p := At(f.pos, file);
    match req
    case Put(chunk, env) => CalledWithoutFailed(f, file, Write(p, chunk, env));
    case Get(count, env) => CalledWithoutFailed(f, file, Read(p, count, env));
    case Seek(off, whence) => SoughtWithoutFailed(f, file, off, whence);
  }

  /** Leaving out the failed writes leaves the other calls, at the same positions. */
  lemma {:induction false} SiftedRun(f: Files, reqs: seq<(File, Request)>)
    ensures AskAll(WithoutFailed(f), Sifted(reqs)) == WithoutFailed(AskAll(f, reqs))
    decreases |reqs|
  {
    if reqs != [] {
      var front, last := reqs[..|reqs| - 1], reqs[|reqs| - 1];
      assert reqs == front + [last];
      SiftedRun(f, front);
      SiftedAppend(front, last);
      AskAllAppend(f, front, last);
      if Failed(last.1) {
        FailedStays(AskAll(f, front), last.0, last.1);
      } else {
        AskAllAppend(WithoutFailed(f), Sifted(front), last);
        AskedWithoutFailed(AskAll(f, front), last.0, last.1);
      }
    }
  }

  /**
   Whatever was asked through the open files, leaving out all failed writes leaves every file
   at the same position, the same view of the device, as many blocks in use and as many lost,
   and no later call tells the difference; one block less is freed for each copy that failed.
   */
  lemma FailedWritesInvisible(reqs: seq<(File, Request)>)
    ensures var f, f' := AskAll(UNUSED, reqs), AskAll(UNUSED, Sifted(reqs));
            var d, d' := Run(f.calls), Run(f'.calls);
      && f'.pos == f.pos && f'.calls == Erase(f.calls)
      && Observe(d') == Observe(d) && SameToCallers(d, d')
      && |Owned(d')| == |Owned(d)| && |d'.leaked| == |d.leaked|
      && |d.slab.frees| == |d'.slab.frees| + CopyFaults(f.calls)
  {
    SiftedRun(UNUSED, reqs);
    ErasedRunSame(AskAll(UNUSED, reqs).calls);
  }

  // ---------------------------------------------------------------- chunking

  /** One successful write per piece through one file. */
  function WriteOut(f: Files, file: File, pieces: seq<seq<byte>>): Files
    decreases |pieces|
  {
    if pieces == [] then f
    else Asked(WriteOut(f, file, pieces[..|pieces| - 1]), file, Put(pieces[|pieces| - 1], Granted))
  }

  lemma WriteOutAppend(f: Files, file: File, pieces: seq<seq<byte>>, piece: seq<byte>)
    ensures WriteOut(f, file, pieces + [piece]) == Asked(WriteOut(f, file, pieces), file, Put(piece, Granted))
  {
    assert (pieces + [piece])[..|pieces|] == pieces;
  }

  lemma {:induction false} WriteOutAccepted(f: Files, file: File, pieces: seq<seq<byte>>)
    ensures Accepted(WriteOut(f, file, pieces).calls) == Accepted(f.calls) + pieces
    decreases |pieces|
  {
    if pieces == [] {
      RightUnit(Accepted(f.calls));
    } else {
      var front, last := pieces[..|pieces| - 1], pieces[|pieces| - 1];
      assert pieces == front + [last];
      WriteOutAccepted(f, file, front);
      OneMoreAccepted(f, file, front, last);
    }
  }

  lemma OneMoreAccepted(f: Files, file: File, front: seq<seq<byte>>, last: seq<byte>)
    requires Accepted(WriteOut(f, file, front).calls) == Accepted(f.calls) + front
    ensures Accepted(WriteOut(f, file, front + [last]).calls) == Accepted(f.calls) + (front + [last])
  {
    var before := WriteOut(f, file, front);
    WriteOutAppend(f, file, front, last);
    AcceptedAppend(before.calls, Write(At(before.pos, file), last, Granted));
    Associative(Accepted(f.calls), front, [last]);
  }

  lemma PutMoves(f: Files, file: File, chunk: seq<byte>, g: File)
    ensures At(Asked(f, file, Put(chunk, Granted)).pos, g) == At(f.pos, g) + if g == file then |chunk| else 0
  {
  }

  /** The position threaded through the replies ends behind the whole text; no other file moves. */
  lemma {:induction false} WriteOutEndsAt(f: Files, file: File, pieces: seq<seq<byte>>, g: File)
    ensures At(WriteOut(f, file, pieces).pos, g) == At(f.pos, g) + if g == file then |Flatten(pieces)| else 0
    decreases |pieces|
  {
    if pieces != [] {
      var front, last := pieces[..|pieces| - 1], pieces[|pieces| - 1];
      assert pieces == front + [last];
      WriteOutEndsAt(f, file, front, g);
      WriteOutAppend(f, file, front, last);
      PutMoves(WriteOut(f, file, front), file, last, g);
      FlattenAppend(front, last);
    }
  }

  lemma WriteOutHistory(f: Files, file: File, pieces: seq<seq<byte>>)
    ensures History(WriteOut(f, file, pieces).calls) == AcceptAll(History(f.calls), pieces)
  {
    var chunks := Accepted(f.calls);
    WriteOutAccepted(f, file, pieces);
    GroupIsAcceptAll(chunks);
    GroupIsAcceptAll(chunks + pieces);
    AcceptAllConcat(EMPTY_LOG, chunks, pieces);
  }

  /**
   Splitting a write into non-empty pieces leaves every file at the same position as the single
   write, and is invisible exactly when no piece before the last ends in a newline.
   */
  lemma ChunkingIndependence(f: Files, file: File, pieces: seq<seq<byte>>)
    requires pieces != [] && forall i :: 0 <= i < |pieces| ==> pieces[i] != []
    ensures forall g :: At(WriteOut(f, file, pieces).pos, g) == At(WriteOut(f, file, [Flatten(pieces)]).pos, g)
    ensures Observe(Run(WriteOut(f, file, pieces).calls))
         == Observe(Run(WriteOut(f, file, [Flatten(pieces)]).calls))
       <==> forall i :: 0 <= i < |pieces| - 1 ==> !EndsInNewline(pieces[i])
  {
    var text := Flatten(pieces);
    forall g: File
      ensures At(WriteOut(f, file, pieces).pos, g) == At(WriteOut(f, file, [text]).pos, g)
    {
      WriteOutEndsAt(f, file, pieces, g);
      WriteOutEndsAt(f, file, [text], g);
      FlattenSingle(text);
    }
    SplitViews(f, file, pieces);
  }

  lemma SplitViews(f: Files, file: File, pieces: seq<seq<byte>>)
    requires pieces != [] && forall i :: 0 <= i < |pieces| ==> pieces[i] != []
    ensures Observe(Run(WriteOut(f, file, pieces).calls))
         == Observe(Run(WriteOut(f, file, [Flatten(pieces)]).calls))
       <==> forall i :: 0 <= i < |pieces| - 1 ==> !EndsInNewline(pieces[i])
  {
    var l, text := History(f.calls), Flatten(pieces);
    RunView(WriteOut(f, file, pieces).calls);
    RunView(WriteOut(f, file, [text]).calls);
    WriteOutHistory(f, file, pieces);
    WriteOutHistory(f, file, [text]);
    AcceptAllOne(l, text);
    GroupKeepsBytes(Accepted(f.calls));
    ChunkingViews(l, pieces);
  }

  lemma ChunkingViews(l: Log, pieces: seq<seq<byte>>)
    requires WellFormed(l) && pieces != [] && forall i :: 0 <= i < |pieces| ==> pieces[i] != []
    ensures Expected(AcceptAll(l, pieces)) == Expected(Accept(l, Flatten(pieces)))
       <==> forall i :: 0 <= i < |pieces| - 1 ==> !EndsInNewline(pieces[i])
  {
    ChunkingIff(l, pieces);
    if FirstCut(pieces) < |pieces| - 1 {
      CutTooEarly(l, pieces);
      NewestVisible(AcceptAll(l, pieces));
      NewestVisible(Accept(l, Flatten(pieces)));
    }
  }

  lemma NewestVisible(l: Log)
    ensures Newest(l) == if Visible(l) == [] then None else Some(Visible(l)[|Visible(l)| - 1])
  {
  }
}
