/** Reading the device from any position until it answers 0. */
module ReadBack {
  import opened Bytes
  import opened CircularBuffer
  import opened CommandLog
  import opened Driver
  import opened DriverInvariant
  import opened DriverRuns
  import opened RunLaws

  /** The bytes that a reply tells its caller to look at. */
  function Given(r: Reply): seq<byte> {
    if 0 <= r.ret <= |r.data| then r.data[..r.ret] else []
  }

  /** The device after some reads, the bytes gained and the final position. */
  datatype Gain = Gain(device: Device, bytes: seq<byte>, pos: nat)

  /** A way of reading: device, position and count to device and reply. */
  type Reader = (Device, nat, nat) -> (Device, Reply)

  /** Successive reads. */
  function Reads(read: Reader, d: Device, p: nat, counts: seq<nat>): Gain
    decreases |counts|
  {
    if counts == [] then Gain(d, [], p)
    else
      var (d', r) := read(d, p, counts[0]);
      var g := Reads(read, d', r.pos, counts[1..]);
      g.(bytes := Given(r) + g.bytes)
  }

  /** The reader that the driver is when its kernel services succeed. */
  function DriverReader(): Reader {
    (d: Device, p: nat, count: nat) =>
      if InBounds(d.ring) then ReadCall(d, Read(p, count, Granted)) else (d, Reply(0, p, []))
  }

  // ---------------------------------------------------------------- a stream met piece by piece

  // A read at position `q` meets `meet(q)`: the position moves over all of it, and the caller
  // is told of as many bytes as were asked for.

  function Clip(piece: seq<byte>, count: nat): seq<byte> {
    if count < |piece| then piece[..count] else piece
  }

  /** What successive reads from `p` give. */
  function Gained(meet: nat -> seq<byte>, p: nat, counts: seq<nat>): seq<byte>
    decreases |counts|
  {
    if counts == [] then [] else Clip(meet(p), counts[0]) + Gained(meet, p + |meet(p)|, counts[1..])
  }

  /** What `n` successive reads from `p` move over. */
  function Met(meet: nat -> seq<byte>, p: nat, n: nat): seq<byte>
    decreases n
  {
    if n == 0 then [] else meet(p) + Met(meet, p + |meet(p)|, n - 1)
  }

  /** Each read asks for at least what it meets. */
  predicate Covering(meet: nat -> seq<byte>, p: nat, counts: seq<nat>)
    decreases |counts|
  {
    counts == [] || (|meet(p)| <= counts[0] && Covering(meet, p + |meet(p)|, counts[1..]))
  }

  /** Nothing is lost exactly when every read asks for enough. */
  lemma {:induction false} GainedIff(meet: nat -> seq<byte>, p: nat, counts: seq<nat>)
    ensures |Gained(meet, p, counts)| <= |Met(meet, p, |counts|)|
    ensures Gained(meet, p, counts) == Met(meet, p, |counts|) <==> Covering(meet, p, counts)
    ensures !Covering(meet, p, counts) ==> |Gained(meet, p, counts)| < |Met(meet, p, |counts|)|
    decreases |counts|
  {
    if counts != [] {
      GainedIff(meet, p + |meet(p)|, counts[1..]);
    }
  }

  /** One more read. */
  lemma {:induction false} OneMoreRead(meet: nat -> seq<byte>, p: nat, counts: seq<nat>, count: nat)
    ensures var q := p + |Met(meet, p, |counts|)|;
      && Met(meet, p, |counts| + 1) == Met(meet, p, |counts|) + meet(q)
      && Gained(meet, p, counts + [count]) == Gained(meet, p, counts) + Clip(meet(q), count)
      && (Covering(meet, p, counts + [count]) <==> Covering(meet, p, counts) && |meet(q)| <= count)
    decreases |counts|
  {
    if counts == [] {
      assert [count][1..] == [];
    } else {
      var more, q := counts + [count], p + |Met(meet, p, |counts|)|;
      OneMoreRead(meet, p + |meet(p)|, counts[1..], count);
      assert more[1..] == counts[1..] + [count];
      Associative(meet(p), Met(meet, p + |meet(p)|, |counts| - 1), meet(q));
      Associative(Clip(meet(p), counts[0]), Gained(meet, p + |meet(p)|, counts[1..]), Clip(meet(q), count));
    }
  }

  /** Bytes from position `p` on, none when it lies beyond the end. */
  function From(s: seq<byte>, p: nat): seq<byte> {
    if p <= |s| then s[p..] else []
  }

  /** The bytes of `content` from `p` on start with `piece`. */
  predicate IsNext(content: seq<byte>, p: nat, piece: seq<byte>) {
    From(content, p) == piece + From(content, p + |piece|)
  }

  /** A read at `q` meets the next bytes of `content`. */
  ghost predicate MeetsNext(meet: nat -> seq<byte>, content: seq<byte>, q: nat) {
    IsNext(content, q, meet(q))
  }

  /** A read at `q` that meets anything leaves fewer reads to go. */
  ghost predicate Advances(meet: nat -> seq<byte>, ahead: nat -> nat, content: seq<byte>, q: nat) {
    q < |content| ==> ahead(q + |meet(q)|) < ahead(q)
  }

  ghost predicate Streams(meet: nat -> seq<byte>, ahead: nat -> nat, content: seq<byte>) {
    forall q: nat {:trigger MeetsNext(meet, content, q)} ::
      MeetsNext(meet, content, q) && Advances(meet, ahead, content, q)
  }

  /** Enough successive reads move over the rest of the stream. */
  lemma MetIsRest(meet: nat -> seq<byte>, ahead: nat -> nat, content: seq<byte>, p: nat, n: nat)
    requires Streams(meet, ahead, content) && n >= ahead(p)
    ensures Met(meet, p, n) == From(content, p)
  {
    MetIsNext(meet, ahead, content, p, n);
    MetReachesEnd(meet, ahead, content, p, n);
    RightUnit(Met(meet, p, n));
  }

  lemma {:induction false} MetReachesEnd(meet: nat -> seq<byte>, ahead: nat -> nat, content: seq<byte>, p: nat, n: nat)
    requires Streams(meet, ahead, content) && n >= ahead(p)
    ensures p + |Met(meet, p, n)| >= |content|
    decreases n
  {
    assert MeetsNext(meet, content, p) && Advances(meet, ahead, content, p);
    if p < |content| {
      MetReachesEnd(meet, ahead, content, p + |meet(p)|, n - 1);
    }
  }

  /** Whatever successive reads move over is the next of the stream. */
  lemma {:induction false} MetIsNext(meet: nat -> seq<byte>, ahead: nat -> nat, content: seq<byte>, p: nat, n: nat)
    requires Streams(meet, ahead, content)
    ensures IsNext(content, p, Met(meet, p, n))
    decreases n
  {
    if n == 0 {
      LeftUnit(From(content, p));
    } else {
      assert MeetsNext(meet, content, p);
      MetIsNext(meet, ahead, content, p + |meet(p)|, n - 1);
      NextThen(content, p, meet(p), Met(meet, p + |meet(p)|, n - 1));
    }
  }

  lemma NextThen(content: seq<byte>, p: nat, first: seq<byte>, more: seq<byte>)
    requires IsNext(content, p, first) && IsNext(content, p + |first|, more)
    ensures IsNext(content, p, first + more)
  {
    Associative(first, more, From(content, p + |first| + |more|));
  }

  // ---------------------------------------------------------------- the device as such a stream

  /** What is left, from a given position, of the command that covers it. */
  function Remainder(l: Log): nat -> seq<byte> {
    (p: nat) => Answer(l, Read(p, 0, Granted)).data
  }

  /** How many commands still lie ahead of a given position. */
  function Ahead(l: Log): nat -> nat {
    (p: nat) =>
      match Walk(Lengths(Visible(l)), p, 0, 0)
      case None => 0
      case Some((k, _)) => |Visible(l)| - k
  }

  /** Below the width bound a read meets the next bytes of the stream, up to a command's end. */
  lemma RemainderIsNext(l: Log, p: nat)
    requires |Content(l)| < UINT_RANGE
    ensures IsNext(Content(l), p, Remainder(l)(p))
    ensures Remainder(l)(p) == [] <==> p >= |Content(l)|
  {
    var sizes := Lengths(Visible(l));
    FlattenLength(Visible(l));
    WidthBound(sizes);
    assert Agrees(sizes, p);
    var walk := Walk(sizes, p, 0, 0);
    if walk.Some? {
      ResolvesByte(Visible(l), p, walk.value.0, walk.value.1);
    }
  }

  /** Below the width bound a read meets the rest of the command it falls in, up to its last byte. */
  lemma RemainderIs(l: Log, p: nat, k: nat, offset: nat)
    requires |Content(l)| < UINT_RANGE && Resolves(Lengths(Visible(l)), p, k, offset)
    ensures Remainder(l)(p) == Visible(l)[k][offset..]
  {
    var sizes := Lengths(Visible(l));
    FlattenLength(Visible(l));
    WidthBound(sizes);
    assert Agrees(sizes, p);
    var walk := Walk(sizes, p, 0, 0);
    assert walk.Some? by { ResolvesByte(Visible(l), p, k, offset); }
    ResolvesUnique(sizes, p, k, offset, walk.value.0, walk.value.1);
  }

  /** A read never meets more than a whole command. */
  lemma RemainderWithin(l: Log, p: nat, most: nat)
    requires forall k :: 0 <= k < |Visible(l)| ==> |Visible(l)[k]| <= most
    ensures |Remainder(l)(p)| <= most
  {
  }

  /** Each read that meets anything leaves fewer commands ahead. */
  lemma AheadDecreases(l: Log, p: nat)
    requires |Content(l)| < UINT_RANGE && p < |Content(l)|
    ensures Ahead(l)(p + |Remainder(l)(p)|) < Ahead(l)(p)
  {
    var sizes := Lengths(Visible(l));
    var q := p + |Remainder(l)(p)|;
    FlattenLength(Visible(l));
    WidthBound(sizes);
    assert Agrees(sizes, p) && Agrees(sizes, q);
    var (k, offset) := Walk(sizes, p, 0, 0).value;
    SumStep(sizes, k);
    var next := Walk(sizes, q, 0, 0);
    if next.Some? {
      ResolvesBeyond(sizes, k, next.value.0, next.value.1);
    }
  }

  /** The offset just behind entry `k` falls in a later entry. */
  lemma ResolvesBeyond(sizes: seq<nat>, k: nat, j: nat, offset: nat)
    requires k < |sizes| && Resolves(sizes, Sum(sizes[..k + 1]), j, offset)
    ensures j > k
  {
    if j <= k {
      SumStep(sizes, j);
      assert sizes[..k + 1][..j + 1] == sizes[..j + 1];
      SumPrefix(sizes[..k + 1], j + 1);
    }
  }

  lemma LogStreams(l: Log)
    requires |Content(l)| < UINT_RANGE
    ensures Streams(Remainder(l), Ahead(l), Content(l))
  {
    forall q: nat
      ensures MeetsNext(Remainder(l), Content(l), q) && Advances(Remainder(l), Ahead(l), Content(l), q)
    {
      RemainderIsNext(l, q);
      if q < |Content(l)| {
        AheadDecreases(l, q);
      }
    }
  }

  /** The position moves over the whole remainder, but only `count` bytes of it are given. */
  lemma OneRead(d: Device, l: Log, p: nat, count: nat)
    requires Inv(d, l)
    ensures Given(ReadCall(d, Read(p, count, Granted)).1) == Clip(Remainder(l)(p), count)
    ensures ReadCall(d, Read(p, count, Granted)).1.pos == p + |Remainder(l)(p)|
  {
    assert ReadCall(d, Read(p, count, Granted)).1 == Answer(l, Read(p, count, Granted)) by {
      ReadAnswers(d, l, Read(p, count, Granted));
    }
    AnswerGives(l, p, count);
  }

  lemma AnswerGives(l: Log, p: nat, count: nat)
    ensures var r := Answer(l, Read(p, count, Granted));
      && r.data == Remainder(l)(p) && r.pos == p + |Remainder(l)(p)|
      && Given(r) == Clip(Remainder(l)(p), count) && r.ret == |Given(r)|
  {
  }

  /** A reader that leaves good devices good and gives the clipped pieces of `meet`. */
  ghost predicate Faithful(read: Reader, good: Device -> bool, meet: nat -> seq<byte>) {
    forall d: Device, p: nat, count: nat {:trigger read(d, p, count)} :: good(d) ==>
      && good(read(d, p, count).0)
      && Given(read(d, p, count).1) == Clip(meet(p), count)
      && read(d, p, count).1.pos == p + |meet(p)|
  }

  lemma DriverReads(d: Device, l: Log, p: nat, count: nat)
    requires Inv(d, l)
    ensures Standing(l)(DriverReader()(d, p, count).0)
    ensures Given(DriverReader()(d, p, count).1) == Clip(Remainder(l)(p), count)
    ensures DriverReader()(d, p, count).1.pos == p + |Remainder(l)(p)|
  {
    ReadKeeps(d, l, Read(p, count, Granted));
    OneRead(d, l, p, count);
  }

  lemma DriverFaithful(l: Log)
    ensures Faithful(DriverReader(), Standing(l), Remainder(l))
  {
    forall d: Device, p: nat, count: nat | Standing(l)(d)
      ensures Standing(l)(DriverReader()(d, p, count).0)
      ensures Given(DriverReader()(d, p, count).1) == Clip(Remainder(l)(p), count)
      ensures DriverReader()(d, p, count).1.pos == p + |Remainder(l)(p)|
    {
      DriverReads(d, l, p, count);
    }
  }

  /** Successive reads give clipped pieces one after the other. */
  lemma {:induction false} ReadsGain(read: Reader, d: Device, good: Device -> bool, meet: nat -> seq<byte>,
                                     p: nat, counts: seq<nat>)
    requires good(d) && Faithful(read, good, meet)
    ensures good(Reads(read, d, p, counts).device)
    ensures Reads(read, d, p, counts).bytes == Gained(meet, p, counts)
    ensures Reads(read, d, p, counts).pos == p + |Met(meet, p, |counts|)|
    decreases |counts|
  {
    if counts != [] {
      ReadsGain(read, read(d, p, counts[0]).0, good, meet, p + |meet(p)|, counts[1..]);
    }
  }

  lemma AheadAtMostTen(l: Log, p: nat)
    ensures Ahead(l)(p) <= CAPACITY
  {
  }

  /** Ten reads reach the end of the stream and give all of it if and only if each asks for enough. */
  lemma TenReads(l: Log, p: nat, counts: seq<nat>)
    requires |Content(l)| < UINT_RANGE && |counts| >= CAPACITY
    ensures Met(Remainder(l), p, |counts|) == From(Content(l), p)
    ensures Gained(Remainder(l), p, counts) == From(Content(l), p) <==> Covering(Remainder(l), p, counts)
  {
    LogStreams(l);
    AheadAtMostTen(l, p);
    MetIsRest(Remainder(l), Ahead(l), Content(l), p, |counts|);
    GainedIff(Remainder(l), p, counts);
  }

  /** Reads on slots and blocks are reads of the log, clipped to what each asked for. */
  lemma ReadsRefine(d: Device, l: Log, p: nat, counts: seq<nat>)
    requires Inv(d, l) && |Content(l)| < UINT_RANGE && |counts| >= CAPACITY
    ensures var g := Reads(DriverReader(), d, p, counts);
      && Inv(g.device, l)
      && (g.bytes == From(Content(l), p) <==> Covering(Remainder(l), p, counts))
      && g.pos == p + |From(Content(l), p)|
  {
    DriverFaithful(l);
    ReadsGain(DriverReader(), d, Standing(l), Remainder(l), p, counts);
    TenReads(l, p, counts);
  }

  lemma EndAnswersZero(l: Log, q: nat, count: nat)
    requires q >= |Content(l)|
    ensures Answer(l, Read(q, count, Granted)) == Reply(0, q, [])
  {
    FlattenLength(Visible(l));
    WalkMissesBeyond(Lengths(Visible(l)), q, 0, 0);
  }

  lemma ReadsEnd(d: Device, l: Log, q: nat, count: nat)
    requires Inv(d, l) && q >= |Content(l)|
    ensures DriverReader()(d, q, count).1 == Reply(0, q, [])
  {
    ReadKeeps(d, l, Read(q, count, Granted));
    EndAnswersZero(l, q, count);
  }

  /**
   Ten reads from any position reach the end of the stream.  They return exactly the bytes
   from that position on if and only if each asks for what is left of the command it meets;
   the next read answers 0, and the device looks as before.
   */
  ghost predicate ReadsBack(d: Device, l: Log, p: nat, counts: seq<nat>)
    requires InBounds(d.ring)
  {
    var g := Reads(DriverReader(), d, p, counts);
    && (g.bytes == From(Content(l), p) <==> Covering(Remainder(l), p, counts))
    && g.pos == p + |From(Content(l), p)|
    && (forall count :: DriverReader()(g.device, g.pos, count).1 == Reply(0, g.pos, []))
    && InBounds(g.device.ring) && Observe(g.device) == Observe(d)
  }

  lemma InvReadsBack(d: Device, l: Log, p: nat, counts: seq<nat>)
    requires Inv(d, l) && |Content(l)| < UINT_RANGE && |counts| >= CAPACITY
    ensures ReadsBack(d, l, p, counts)
  {
    var g := Reads(DriverReader(), d, p, counts);
    ReadsRefine(d, l, p, counts);
    assert Observe(g.device) == Observe(d) by {
      InvObserve(d, l);
      InvObserve(g.device, l);
    }
    forall count ensures DriverReader()(g.device, g.pos, count).1 == Reply(0, g.pos, []) {
      ReadsEnd(g.device, l, g.pos, count);
    }
  }

  lemma StreamReadBack(calls: seq<Call>, p: nat, counts: seq<nat>)
    requires LiveBytes(Run(calls)) < UINT_RANGE && |counts| >= CAPACITY
    ensures ReadsBack(Run(calls), History(calls), p, counts)
  {
    WholeRun(calls);
    LiveBytesIsContent(Run(calls), History(calls));
    InvReadsBack(Run(calls), History(calls), p, counts);
  }

  /** What a read answers, in terms of the entry it finds. */
  ghost predicate CopiesAllLeft(ring: Ring, p: nat, count: nat, r: Reply)
    requires InBounds(ring)
  {
    match Find(ring, p)
    case None => r == Reply(0, p, [])
    case Some(Hit(slot, offset)) =>
      var left := ring.entry[slot].size - offset;
      && |r.data| == left && r.pos == p + left
      && (r.pos == p + r.ret <==> left <= count)
      && (Given(r) == r.data <==> left <= count)
  }

  lemma HoldsCopiesAllLeft(d: Device, l: Log, p: nat, count: nat)
    requires Holds(d, l)
    ensures CopiesAllLeft(d.ring, p, count, ReadCall(d, Read(p, count, Granted)).1)
  {
    FindMatches(d, l, p);
  }

  /**
   A read copies all that is left of the entry it finds, however many bytes were asked for.
   The position moves by the bytes reported exactly when `count` covers what is left.
   */
  lemma CopyFitsIff(calls: seq<Call>, p: nat, count: nat)
    ensures CopiesAllLeft(Run(calls).ring, p, count, Perform(Run(calls), Read(p, count, Granted)).1)
  {
    WholeRun(calls);
    HoldsCopiesAllLeft(Run(calls), History(calls), p, count);
  }

  /** In terms of the commands: position `p` falls in visible command `k`, at `offset`. */
  lemma CopiesRest(calls: seq<Call>, p: nat, count: nat, k: nat, offset: nat)
    requires LiveBytes(Run(calls)) < UINT_RANGE && Resolves(Lengths(Visible(History(calls))), p, k, offset)
    ensures var r, command := Perform(Run(calls), Read(p, count, Granted)).1, Visible(History(calls))[k];
      && r.data == command[offset..] && r.pos == p + |command| - offset
      && r.ret == (if count > |command| - offset then |command| - offset else count)
      && (r.pos == p + r.ret <==> |command| - offset <= count)
  {
    WholeRun(calls);
    LiveBytesIsContent(Run(calls), History(calls));
    RemainderIs(History(calls), p, k, offset);
    ReadAnswers(Run(calls), History(calls), Read(p, count, Granted));
  }
}
