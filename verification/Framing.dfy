/** How the socket server cuts one line out of its receive buffer (the framing loop of server_thread). */
module Framing {
  import opened Bytes

  // `wide` tells whether plain `char` is unsigned, as on Arm, or signed, as on x86: only an
  // unsigned byte can equal the constant 0xDA.

  predicate Stops(wide: bool, b: byte) {
    b == NUL || b == LF || b == CR || (wide && b == CRLF)
  }

  /** The index at which the copying loop ends. */
  function StopAt(wide: bool, msg: seq<byte>): (s: nat)
    ensures s <= |msg|
    ensures forall i :: 0 <= i < s ==> !Stops(wide, msg[i])
    ensures s < |msg| ==> Stops(wide, msg[s])
  {
    if msg == [] || Stops(wide, msg[0]) then 0 else 1 + StopAt(wide, msg[1..])
  }

  /** The framed line; `None` when the code would read past the end of the buffer. */
  function Framed(wide: bool, msg: seq<byte>): Option<seq<byte>> {
    var s := StopAt(wide, msg);
    if s == |msg| then None
    else if msg[s] == LF then Some(msg[..s] + [LF])
    else if s + 1 == |msg| then None
    else if msg[s] == CR && msg[s + 1] == LF then Some(msg[..s] + [CR, LF])
    else if msg[s + 1] == CR then Some(msg[..s] + [CR])
    else if wide && msg[s + 1] == CRLF then Some(msg[..s] + [CRLF])
    else Some(msg[..s] + [LF])
  }

  /** The copying loop: plain bytes move to the file buffer until one stops it. */
  method CopyPlain(wide: bool, msg: array<byte>, fileBuffer: array<byte>) returns (i: nat)
    requires msg != fileBuffer && msg.Length == fileBuffer.Length
    modifies fileBuffer
    ensures i == StopAt(wide, msg[..]) <= fileBuffer.Length
    ensures fileBuffer[..] == msg[..i] + old(fileBuffer[..])[i..]
  {
    i := 0;
    var j := 0;
    while i < msg.Length && msg[i] != NUL
      invariant i == j <= msg.Length
      invariant forall k :: 0 <= k < i ==> !Stops(wide, msg[k])
      invariant forall k :: 0 <= k < i ==> fileBuffer[k] == msg[k]
      invariant forall k :: i <= k < fileBuffer.Length ==> fileBuffer[k] == old(fileBuffer[k])
    {
      if !Stops(wide, msg[i]) {
        fileBuffer[j] := msg[i];
        i, j := i + 1, j + 1;
      } else {
        break;
      }
    }
    if i < msg.Length {
      StopAtIs(wide, msg[..], i);
    }
  }

  /** One more byte behind the bytes already there. */
  method Put(a: array<byte>, j: nat, b: byte, ghost front: seq<byte>, ghost was: seq<byte>)
    requires j == |front| < a.Length == |was| && a[..] == front + was[j..]
    modifies a
    ensures a[..] == (front + [b]) + was[j + 1..]
  {
    a[j] := b;
    assert a[..] == (front + was[j..])[j := b];
  }

  /** The branches after the loop; `ok` is false where an index would leave the buffer. */
  method PutTerminator(wide: bool, msg: array<byte>, fileBuffer: array<byte>, j0: nat, ghost was: seq<byte>)
    returns (ok: bool)
    requires msg != fileBuffer && msg.Length == fileBuffer.Length == |was| && j0 == StopAt(wide, msg[..])
    requires fileBuffer[..] == msg[..j0] + was[j0..]
    modifies fileBuffer
    ensures ok <==> Framed(wide, msg[..]).Some?
    ensures ok ==> var line := Framed(wide, msg[..]).value;
      |line| <= fileBuffer.Length && fileBuffer[..] == line + was[|line|..]
  {
    var i, j := j0, j0;
    ghost var body := msg[..j0];
    if i == msg.Length {
      return false;
    }
    if msg[i] == LF {
      Put(fileBuffer, j, LF, body, was);
      return true;
    }
    i := i + 1;
    if i == msg.Length {
      return false;
    }
    ok := true;
    if msg[i - 1] == CR && msg[i] == LF {
      Put(fileBuffer, j, CR, body, was);
      j := j + 1;
      Put(fileBuffer, j, LF, body + [CR], was);
      assert body + [CR] + [LF] == body + [CR, LF];
      return;
    } else if msg[i] == CR {
      Put(fileBuffer, j, CR, body, was);
      return;
    } else if wide && msg[i] == CRLF {
      Put(fileBuffer, j, CRLF, body, was);
      return;
    } else {
      Put(fileBuffer, j, LF, body, was);
      return;
    }
  }

  /** The whole of the framing, from receive buffer to file buffer. */
  method Frame(wide: bool, msg: array<byte>, fileBuffer: array<byte>) returns (ok: bool)
    requires msg != fileBuffer && msg.Length == fileBuffer.Length
    modifies fileBuffer
    ensures ok <==> Framed(wide, msg[..]).Some?
    ensures ok ==> var line := Framed(wide, msg[..]).value;
      |line| <= fileBuffer.Length && fileBuffer[..] == line + old(fileBuffer[..])[|line|..]
  {
    ghost var was := fileBuffer[..];
    var i := CopyPlain(wide, msg, fileBuffer);
    ok := PutTerminator(wide, msg, fileBuffer, i, was);
  }

  // ---------------------------------------------------------------- what the line is

  function Zeros(n: nat): seq<byte> {
    seq(n, _ => NUL)
  }

  /** The receive buffer after `data` has arrived in it. */
  function Padded(data: seq<byte>, len: nat): seq<byte>
    requires |data| <= len
  {
    data + Zeros(len - |data|)
  }

  ghost predicate Plain(wide: bool, body: seq<byte>) {
    forall i :: 0 <= i < |body| ==> !Stops(wide, body[i])
  }

  /** A message is its longest plain prefix and the rest, which starts with a byte that stops the loop. */
  ghost predicate Splits(wide: bool, data: seq<byte>, body: seq<byte>, rest: seq<byte>) {
    && data == body + rest && Plain(wide, body)
    && (rest != [] ==> Stops(wide, rest[0]))
  }

  /** What a terminator turns into. */
  function Terminator(wide: bool, rest: seq<byte>): seq<byte> {
    if |rest| < 2 || rest[0] == LF then [LF]
    else if rest[0] == CR && rest[1] == LF then [CR, LF]
    else if rest[1] == CR then [CR]
    else if wide && rest[1] == CRLF then [CRLF]
    else [LF]
  }

  lemma StopAtIs(wide: bool, msg: seq<byte>, s: nat)
    requires s < |msg| && Stops(wide, msg[s]) && forall i :: 0 <= i < s ==> !Stops(wide, msg[i])
    ensures StopAt(wide, msg) == s
  {
  }

  /** There is room to look two bytes past the prefix, or the byte behind it settles the matter. */
  predicate RoomToLook(body: seq<byte>, rest: seq<byte>, len: nat) {
    |body| + 1 < len || (|body| + 1 == len && rest != [] && rest[0] == LF)
  }

  /** Every message for which framing stays inside its buffer becomes its plain prefix and one terminator. */
  lemma FramedLine(wide: bool, data: seq<byte>, body: seq<byte>, rest: seq<byte>, len: nat)
    requires Splits(wide, data, body, rest) && |data| <= len && RoomToLook(body, rest, len)
    ensures Framed(wide, Padded(data, len)) == Some(body + Terminator(wide, rest))
  {
    var msg, s := Padded(data, len), |body|;
    assert msg[..s] == body;
    assert msg[s] == if rest == [] then NUL else rest[0];
    assert s + 1 < len ==> msg[s + 1] == if |rest| < 2 then NUL else rest[1];
    PaddedStop(wide, data, body, rest, len);
  }

  /** Bytes that the framing loop copies, as numbers. */
  ghost predicate PlainNumbers(wide: bool, body: seq<byte>) {
    forall i :: 0 <= i < |body| ==> body[i] !in {0, 10, 13} && !(wide && body[i] == 0xDA)
  }

  /** What a message of plain bytes and an ending becomes, with the numbers of the source written out. */
  function EndingNumbers(wide: bool, rest: seq<byte>): seq<byte> {
    if rest == [13, 10] then [13, 10]
    else if rest == [13, 13] then [13]
    else if wide && rest == [13, 0xDA] then [0xDA]
    else [10]
  }

  lemma FramedNumbers(wide: bool, body: seq<byte>, rest: seq<byte>, len: nat)
    requires PlainNumbers(wide, body) && |body| + 2 <= len
    requires rest in {[], [10], [13], [13, 10], [13, 13], [13, 0xDA]} || (wide && rest == [0xDA])
    ensures Framed(wide, Padded(body + rest, len)) == Some(body + EndingNumbers(wide, rest))
  {
    assert Plain(wide, body);
    FramedLine(wide, body + rest, body, rest, len);
  }

  /** A line break of two bytes at index `s`. */
  predicate BreakAt(msg: seq<byte>, s: nat) {
    s + 1 < |msg| && msg[s] == CR && msg[s + 1] == LF
  }

  /** When framing stays inside the buffer, and how long the line then is. */
  lemma FramedSize(wide: bool, msg: seq<byte>)
    ensures var s := StopAt(wide, msg);
      && (Framed(wide, msg).Some? <==> s < |msg| && (msg[s] == LF || s + 1 < |msg|))
      && (Framed(wide, msg).Some? ==> |Framed(wide, msg).value| == s + if BreakAt(msg, s) then 2 else 1)
  {
  }

  /**
   For any message that fits the buffer, framing reads inside it exactly when two bytes are
   left behind the plain prefix, or one that is a newline.
   */
  lemma FramingInBoundsIff(wide: bool, data: seq<byte>, body: seq<byte>, rest: seq<byte>, len: nat)
    requires Splits(wide, data, body, rest) && |data| <= len
    ensures Framed(wide, Padded(data, len)).Some? <==> RoomToLook(body, rest, len)
  {
    var msg, s := Padded(data, len), |body|;
    PaddedStop(wide, data, body, rest, len);
    FramedSize(wide, msg);
    assert s < len ==> msg[s] == if rest == [] then NUL else rest[0];
  }

  /**
   The framed line also ends before the file buffer does, as `strlen` needs, exactly when
   prefix and terminator together are shorter than the buffer.
   */
  lemma FramingTerminatedIff(wide: bool, data: seq<byte>, body: seq<byte>, rest: seq<byte>, len: nat)
    requires Splits(wide, data, body, rest) && |data| <= len
    ensures Framed(wide, Padded(data, len)).Some? && |Framed(wide, Padded(data, len)).value| < len
       <==> |body| + (if BreakAt(rest, 0) then 2 else 1) < len
  {
    var msg, s := Padded(data, len), |body|;
    PaddedStop(wide, data, body, rest, len);
    FramedSize(wide, msg);
    assert forall i :: 0 <= i < |rest| ==> msg[s + i] == rest[i];
    assert forall i :: |data| <= i < len ==> msg[i] == NUL;
  }

  /** The copying loop stops behind the plain prefix. */
  lemma PaddedStop(wide: bool, data: seq<byte>, body: seq<byte>, rest: seq<byte>, len: nat)
    requires Splits(wide, data, body, rest) && |data| <= len
    ensures StopAt(wide, Padded(data, len)) == |body|
  {
    var msg, s := Padded(data, len), |body|;
    assert forall i :: 0 <= i < s ==> msg[i] == body[i];
    if s < len {
      assert msg[s] == if rest == [] then NUL else rest[0];
      StopAtIs(wide, msg, s);
    }
  }

  /** A framed line is not empty, has no NUL, and no newline before its last byte. */
  ghost predicate IsLine(line: seq<byte>) {
    && line != [] && NUL !in line
    && forall i :: 0 <= i < |line| - 1 ==> line[i] != LF
  }

  lemma FramedIsLine(wide: bool, msg: seq<byte>)
    requires Framed(wide, msg).Some?
    ensures IsLine(Framed(wide, msg).value)
  {
    var s, line := StopAt(wide, msg), Framed(wide, msg).value;
    assert forall i :: 0 <= i < s ==> line[i] == msg[i] && !Stops(wide, line[i]);
  }

  /** A framed line splits where its message did. */
  lemma FramedSplits(wide: bool, msg: seq<byte>)
    requires Framed(wide, msg).Some?
    ensures var s, line := StopAt(wide, msg), Framed(wide, msg).value;
      s < |line| && Splits(wide, line, line[..s], line[s..])
  {
    var s, line := StopAt(wide, msg), Framed(wide, msg).value;
    FramedIsLine(wide, msg);
    assert line == line[..s] + line[s..];
    assert forall i :: 0 <= i < s ==> line[i] == msg[i];
  }

  /** Framing a framed line again gives it back exactly when it ends in a newline. */
  lemma ReframedIff(wide: bool, msg: seq<byte>, len: nat)
    requires Framed(wide, msg).Some? && |Framed(wide, msg).value| <= len
    ensures var line := Framed(wide, msg).value;
      Framed(wide, Padded(line, len)) == Some(line) <==> EndsInNewline(line)
  {
    var s, line := StopAt(wide, msg), Framed(wide, msg).value;
    var body, rest := line[..s], line[s..];
    FramedSplits(wide, msg);
    assert line == body + rest;
    assert rest in {[LF], [CR, LF], [CR], [CRLF]};
    FramingInBoundsIff(wide, line, body, rest, len);
    if RoomToLook(body, rest, len) {
      FramedLine(wide, line, body, rest, len);
      OwnTerminatorIff(wide, rest);
      SameEnd(body, Terminator(wide, rest), rest);
    }
  }

  lemma OwnTerminatorIff(wide: bool, rest: seq<byte>)
    requires rest in {[LF], [CR, LF], [CR], [CRLF]}
    ensures Terminator(wide, rest) == rest <==> EndsInNewline(rest)
  {
  }

  lemma SameEnd(body: seq<byte>, a: seq<byte>, b: seq<byte>)
    ensures body + a == body + b <==> a == b
  {
    assert (body + a)[|body|..] == a && (body + b)[|body|..] == b;
  }

  // ---------------------------------------------------------------- strlen

  /** The C string at the start of a buffer. */
  function CString(buf: seq<byte>): seq<byte> {
    if buf == [] || buf[0] == NUL then [] else [buf[0]] + CString(buf[1..])
  }

  /** A NUL-free text with zeros behind it is read back whole. */
  lemma {:induction false} CStringPadded(text: seq<byte>, len: nat)
    requires NUL !in text && |text| < len
    ensures CString(Padded(text, len)) == text
  {
    if text != [] {
      assert Padded(text, len)[1..] == Padded(text[1..], len - 1);
      CStringPadded(text[1..], len - 1);
    }
  }
}
