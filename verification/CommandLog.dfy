/**
 What the device promises its users, without slots, blocks or a lock: an unbounded log of
 newline-terminated commands and the bytes of a command that is still unfinished.
 */
module CommandLog {
  import opened Bytes
  import opened CircularBuffer

  datatype Log = Log(commands: seq<seq<byte>>, pending: seq<byte>)

  const EMPTY_LOG := Log([], [])

  /** One successful write: bytes gather until the gathered text ends in a newline. */
  function Accept(l: Log, chunk: seq<byte>): Log {
    var text := l.pending + chunk;
    if EndsInNewline(text) then Log(l.commands + [text], []) else Log(l.commands, text)
  }

  function AcceptAll(l: Log, chunks: seq<seq<byte>>): Log {
    if chunks == [] then l else Accept(AcceptAll(l, chunks[..|chunks| - 1]), chunks[|chunks| - 1])
  }

  /** The commands a reader can still see, oldest first. */
  function Visible(l: Log): seq<seq<byte>> {
    Latest(l.commands)
  }

  /** The device as one byte stream. */
  function Content(l: Log): seq<byte> {
    Flatten(Visible(l))
  }

  /** Every command is complete and the unfinished one is not. */
  ghost predicate WellFormed(l: Log) {
    && (forall i :: 0 <= i < |l.commands| ==> EndsInNewline(l.commands[i]))
    && !EndsInNewline(l.pending)
  }

  // ---------------------------------------------------------------- grouping, stated on its own

  /** The index of the first chunk that ends in a newline, or the number of chunks. */
  function FirstCut(chunks: seq<seq<byte>>): (i: nat)
    ensures i <= |chunks|
    ensures i < |chunks| ==> EndsInNewline(chunks[i])
    ensures forall j :: 0 <= j < i ==> !EndsInNewline(chunks[j])
  {
    if chunks == [] || EndsInNewline(chunks[0]) then 0 else 1 + FirstCut(chunks[1..])
  }

  /** Cut the chunk list after each chunk that ends in a newline; each piece is a command. */
  function Group(chunks: seq<seq<byte>>): Log {
    var i := FirstCut(chunks);
    if i == |chunks| then Log([], Flatten(chunks))
    else Prepended(Flatten(chunks[..i + 1]), Group(chunks[i + 1..]))
  }

  function Prepended(command: seq<byte>, l: Log): Log {
    Log([command] + l.commands, l.pending)
  }

  lemma {:induction false} AcceptAllConcat(l: Log, a: seq<seq<byte>>, b: seq<seq<byte>>)
    ensures AcceptAll(l, a + b) == AcceptAll(AcceptAll(l, a), b)
    decreases |b|
  {
    if b == [] {
      assert a + b == a;
    } else {
      AcceptAllConcat(l, a, b[..|b| - 1]);
      assert (a + b)[..|a + b| - 1] == a + b[..|b| - 1];
    }
  }

  lemma AcceptAllOne(l: Log, chunk: seq<byte>)
    ensures AcceptAll(l, [chunk]) == Accept(l, chunk)
  {
    assert AcceptAll(l, [chunk][..0]) == l;
  }

  /** The last byte of a concatenation is the last byte of its last non-empty part. */
  lemma EndOfConcat(a: seq<byte>, b: seq<byte>)
    ensures EndsInNewline(a + b) == EndsInNewline(if b == [] then a else b)
  {
    if b == [] {
      RightUnit(a);
    }
  }

  /** As long as no chunk ends in a newline, chunks only gather. */
  lemma {:induction false} Gathering(l: Log, chunks: seq<seq<byte>>)
    requires !EndsInNewline(l.pending)
    requires forall i :: 0 <= i < |chunks| ==> !EndsInNewline(chunks[i])
    ensures AcceptAll(l, chunks) == Log(l.commands, l.pending + Flatten(chunks))
    ensures !EndsInNewline(l.pending + Flatten(chunks))
  {
    if chunks == [] {
      RightUnit(l.pending);
    } else {
      var front, last := chunks[..|chunks| - 1], chunks[|chunks| - 1];
      Gathering(l, front);
      EndOfConcat(l.pending + Flatten(front), last);
      Associative(l.pending, Flatten(front), last);
    }
  }

  /** A chunk that ends in a newline completes whatever is pending. */
  lemma AcceptEnd(l: Log, chunk: seq<byte>)
    requires EndsInNewline(chunk)
    ensures Accept(l, chunk) == Log(l.commands + [l.pending + chunk], [])
  {
  }

  /** The first chunk that ends in a newline completes the command. */
  lemma Completing(l: Log, chunks: seq<seq<byte>>)
    requires !EndsInNewline(l.pending) && chunks != [] && EndsInNewline(chunks[|chunks| - 1])
    requires forall i :: 0 <= i < |chunks| - 1 ==> !EndsInNewline(chunks[i])
    ensures AcceptAll(l, chunks) == Log(l.commands + [l.pending + Flatten(chunks)], [])
  {
    var front, last := chunks[..|chunks| - 1], chunks[|chunks| - 1];
    Gathering(l, front);
    AcceptEnd(AcceptAll(l, front), last);
    Associative(l.pending, Flatten(front), last);
  }

  /** Writing chunk by chunk is grouping the chunks, from any log with nothing pending. */
  lemma {:induction false} AcceptAllIsGroup(commands: seq<seq<byte>>, chunks: seq<seq<byte>>)
    ensures AcceptAll(Log(commands, []), chunks)
         == Log(commands + Group(chunks).commands, Group(chunks).pending)
    decreases |chunks|
  {
    var l, i := Log(commands, []), FirstCut(chunks);
    if i == |chunks| {
      Gathering(l, chunks);
      LeftUnit(Flatten(chunks));
      RightUnit(commands);
    } else {
      var command, tail := Flatten(chunks[..i + 1]), chunks[i + 1..];
      assert AcceptAll(l, chunks) == AcceptAll(Log(commands + [command], []), tail) by {
        AfterFirstCut(l, chunks);
        LeftUnit(command);
      }
      AcceptAllIsGroup(commands + [command], tail);
      assert Group(chunks) == Prepended(command, Group(tail));
      Associative(commands, [command], Group(tail).commands);
    }
  }

  /** Everything up to the first chunk that ends in a newline becomes one command. */
  lemma AfterFirstCut(l: Log, chunks: seq<seq<byte>>)
    requires !EndsInNewline(l.pending) && FirstCut(chunks) < |chunks|
    ensures AcceptAll(l, chunks)
         == AcceptAll(Log(l.commands + [l.pending + Flatten(chunks[..FirstCut(chunks) + 1])], []),
                      chunks[FirstCut(chunks) + 1..])
  {
    var i := FirstCut(chunks);
    Completing(l, chunks[..i + 1]);
    AcceptAllConcat(l, chunks[..i + 1], chunks[i + 1..]);
    assert chunks == chunks[..i + 1] + chunks[i + 1..];
  }

  lemma AcceptKeeps(l: Log, chunk: seq<byte>)
    requires WellFormed(l)
    ensures WellFormed(Accept(l, chunk))
    ensures l.commands <= Accept(l, chunk).commands
    ensures Flatten(Accept(l, chunk).commands) + Accept(l, chunk).pending
         == Flatten(l.commands) + l.pending + chunk
  {
    var text := l.pending + chunk;
    assert (l.commands + [text])[..|l.commands|] == l.commands;
    Associative(Flatten(l.commands), l.pending, chunk);
  }

  lemma {:induction false} AcceptAllKeeps(l: Log, chunks: seq<seq<byte>>)
    requires WellFormed(l)
    ensures WellFormed(AcceptAll(l, chunks))
    ensures l.commands <= AcceptAll(l, chunks).commands
    ensures Flatten(AcceptAll(l, chunks).commands) + AcceptAll(l, chunks).pending
         == Flatten(l.commands) + l.pending + Flatten(chunks)
  {
    if chunks == [] {
      assert Flatten(l.commands) + l.pending + [] == Flatten(l.commands) + l.pending;
    } else {
      var front, last := chunks[..|chunks| - 1], chunks[|chunks| - 1];
      AcceptAllKeeps(l, front);
      AcceptKeeps(AcceptAll(l, front), last);
      Associative(Flatten(l.commands) + l.pending, Flatten(front), last);
    }
  }

  /** Commands and unfinished bytes together are exactly the bytes written, in order. */
  lemma GroupKeepsBytes(chunks: seq<seq<byte>>)
    ensures WellFormed(Group(chunks))
    ensures Flatten(Group(chunks).commands) + Group(chunks).pending == Flatten(chunks)
  {
    GroupIsAcceptAll(chunks);
    AcceptAllKeeps(EMPTY_LOG, chunks);
    LeftUnit(Flatten(chunks));
  }

  lemma GroupIsAcceptAll(chunks: seq<seq<byte>>)
    ensures AcceptAll(EMPTY_LOG, chunks) == Group(chunks)
  {
    AcceptAllIsGroup([], chunks);
    LeftUnit(Group(chunks).commands);
  }

  lemma ShorterTail(pieces: seq<seq<byte>>, k: nat)
    requires k < |pieces| && pieces[k] != []
    ensures |Flatten(pieces[k + 1..])| < |Flatten(pieces)|
  {
    assert pieces == pieces[..k + 1] + pieces[k + 1..];
    FlattenConcat(pieces[..k + 1], pieces[k + 1..]);
    assert pieces[..k + 1][..k] == pieces[..k];
  }

  /** The newest command a reader can see. */
  function Newest(l: Log): Option<seq<byte>> {
    if l.commands == [] then None else Some(l.commands[|l.commands| - 1])
  }

  /** What is pending has less than `n` bytes; if nothing is, the newest command has. */
  predicate EndsShort(l: Log, n: nat) {
    |l.pending| < n && (l.pending == [] ==> Newest(l).Some? && |Newest(l).value| < n)
  }

  /** Nothing that grouping makes of some chunks is longer than the chunks. */
  lemma GroupShort(chunks: seq<seq<byte>>, n: nat)
    requires chunks != [] && chunks[|chunks| - 1] != [] && |Flatten(chunks)| < n
    ensures EndsShort(Group(chunks), n)
  {
    GroupKeepsBytes(chunks);
  }

  lemma EndsShortAfter(base: seq<seq<byte>>, l: Log, n: nat)
    requires EndsShort(l, n)
    ensures EndsShort(Log(base + l.commands, l.pending), n)
  {
  }

  /** Past the first cut, nothing as long as the whole text is left to complete or to keep. */
  lemma AfterCutShorter(l: Log, pieces: seq<seq<byte>>)
    requires !EndsInNewline(l.pending) && FirstCut(pieces) < |pieces| - 1 && pieces[|pieces| - 1] != []
    ensures EndsShort(AcceptAll(l, pieces), |Flatten(pieces)|)
  {
    var c := FirstCut(pieces);
    var base, tail := l.commands + [l.pending + Flatten(pieces[..c + 1])], pieces[c + 1..];
    ShorterTail(pieces, c);
    GroupShort(tail, |Flatten(pieces)|);
    EndsShortAfter(base, Group(tail), |Flatten(pieces)|);
    assert AcceptAll(l, pieces) == Log(base + Group(tail).commands, Group(tail).pending) by {
      AfterFirstCut(l, pieces);
      AcceptAllIsGroup(base, tail);
    }
  }

  /** A piece that ends a command early leaves something a reader can tell apart. */
  lemma CutTooEarly(l: Log, pieces: seq<seq<byte>>)
    requires WellFormed(l) && FirstCut(pieces) < |pieces| - 1 && pieces[|pieces| - 1] != []
    ensures AcceptAll(l, pieces).pending != Accept(l, Flatten(pieces)).pending
         || Newest(AcceptAll(l, pieces)) != Newest(Accept(l, Flatten(pieces)))
  {
    AfterCutShorter(l, pieces);
  }

  /**
   Splitting one write into several has no effect exactly when no piece before the last ends
   in a newline.
   */
  lemma ChunkingIff(l: Log, pieces: seq<seq<byte>>)
    requires WellFormed(l) && pieces != []
    requires forall i :: 0 <= i < |pieces| ==> pieces[i] != []
    ensures AcceptAll(l, pieces) == Accept(l, Flatten(pieces))
       <==> forall i :: 0 <= i < |pieces| - 1 ==> !EndsInNewline(pieces[i])
  {
    var c := FirstCut(pieces);
    if c == |pieces| {
      Gathering(l, pieces);
    } else if c == |pieces| - 1 {
      Completing(l, pieces);
      FlattenEnd(pieces);
      AcceptEnd(l, Flatten(pieces));
    } else {
      CutTooEarly(l, pieces);
    }
  }

  /** The last piece decides how a non-empty concatenation ends. */
  lemma FlattenEnd(pieces: seq<seq<byte>>)
    requires pieces != [] && pieces[|pieces| - 1] != []
    ensures EndsInNewline(Flatten(pieces)) == EndsInNewline(pieces[|pieces| - 1])
  {
  }

  // ---------------------------------------------------------------- eviction

  /** A new command on a full device shifts the stream by the size of the oldest command. */
  lemma EvictionShift(l: Log, command: seq<byte>)
    requires |l.commands| >= CAPACITY
    ensures |Visible(l)[0]| <= |Content(l)|
    ensures Content(Log(l.commands + [command], [])) == Content(l)[|Visible(l)[0]|..] + command
    ensures forall p :: 0 <= p && p + |Visible(l)[0]| < |Content(l)| ==>
              Content(Log(l.commands + [command], []))[p] == Content(l)[p + |Visible(l)[0]|]
  {
    LatestAppend(l.commands, command);
    FlattenTail(Visible(l));
    FlattenConcat(Visible(l)[1..], [command]);
    FlattenSingle(command);
  }

  /** Bytes that have left the stream. */
  function Evicted(l: Log): seq<byte> {
    Flatten(l.commands[..|l.commands| - |Visible(l)|])
  }

  lemma EvictedAndVisible(l: Log)
    ensures Flatten(l.commands) == Evicted(l) + Content(l)
    ensures WellFormed(l) ==> (Evicted(l) == [] <==> |l.commands| <= CAPACITY)
  {
    var k := |l.commands| - |Visible(l)|;
    assert l.commands == l.commands[..k] + l.commands[k..];
    FlattenConcat(l.commands[..k], l.commands[k..]);
    assert Visible(l) == l.commands[k..];
    if WellFormed(l) && k > 0 {
      assert EndsInNewline(l.commands[k - 1]);
    }
  }
}
