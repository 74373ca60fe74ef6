/**
 The server's file buffer under successive reads.  The driver copies all that is left of the
 command it meets, whatever was asked for; the next read is placed behind the bytes that the
 last one reported, and `strlen` decides what is sent.
 */
module FileBuffer {
  import opened Bytes
  import opened ReadBack
  import opened Framing

  /** `data` copied into the buffer at `at`; what would go past the end is not recorded. */
  function Laid(buf: seq<byte>, at: nat, data: seq<byte>): (r: seq<byte>)
    ensures |r| == |buf|
  {
    if at >= |buf| then buf
    else if at + |data| <= |buf| then buf[..at] + data + buf[at + |data|..]
    else buf[..at] + data[..|buf| - at]
  }

  /** A zeroed buffer of `len` bytes after reads from the start that asked for `counts`. */
  function Filled(meet: nat -> seq<byte>, len: nat, counts: seq<nat>): (r: seq<byte>)
    ensures |r| == len
    decreases |counts|
  {
    if counts == [] then Zeros(len)
    else
      var front := counts[..|counts| - 1];
      Laid(Filled(meet, len, front), |Gained(meet, 0, front)|, meet(|Met(meet, 0, |front|)|))
  }

  lemma FilledAppend(meet: nat -> seq<byte>, len: nat, counts: seq<nat>, count: nat)
    ensures Filled(meet, len, counts + [count])
         == Laid(Filled(meet, len, counts), |Gained(meet, 0, counts)|, meet(|Met(meet, 0, |counts|)|))
  {
    assert (counts + [count])[..|counts|] == counts;
  }

  /** Each read asks for at least what it meets, or meets the last of the stream. */
  predicate CoversButLast(meet: nat -> seq<byte>, p: nat, counts: seq<nat>)
    decreases |counts|
  {
    counts == [] || ((|meet(p)| <= counts[0] || meet(p + |meet(p)|) == [])
                     && CoversButLast(meet, p + |meet(p)|, counts[1..]))
  }

  lemma {:induction false} OneMoreCovers(meet: nat -> seq<byte>, p: nat, counts: seq<nat>, count: nat)
    ensures var q := p + |Met(meet, p, |counts|)|;
      CoversButLast(meet, p, counts + [count])
      <==> CoversButLast(meet, p, counts) && (|meet(q)| <= count || meet(q + |meet(q)|) == [])
    decreases |counts|
  {
    if counts == [] {
      assert [count][1..] == [];
    } else {
      OneMoreCovers(meet, p + |meet(p)|, counts[1..], count);
      assert (counts + [count])[1..] == counts[1..] + [count];
    }
  }

  // ---------------------------------------------------------------- what the buffer holds

  ghost predicate ZeroFrom(buf: seq<byte>, k: int) {
    forall i :: 0 <= i < |buf| && k <= i ==> buf[i] == NUL
  }

  /**
   After reads that moved to `p` and reported `at` bytes.  If only the last command was cut
   short, the buffer holds the stream so far; otherwise it holds less than has been read.
   */
  ghost predicate HoldsSoFar(content: seq<byte>, p: nat, at: nat, buf: seq<byte>, careful: bool) {
    && at <= p <= |content| < |buf| && ZeroFrom(buf, p)
    && (careful ==> buf[..p] == content[..p] && (at == p || p == |content|))
    && (!careful ==> at < p && (p < |content| || ZeroFrom(buf, p - 1)))
  }

  /** Each byte of the buffer afterwards, also when the data would go past its end. */
  lemma LaidAt(buf: seq<byte>, at: nat, data: seq<byte>, i: nat)
    requires i < |buf|
    ensures Laid(buf, at, data)[i] == if at <= i < at + |data| then data[i - at] else buf[i]
  {
  }

  lemma LaidNothing(buf: seq<byte>, at: nat)
    ensures Laid(buf, at, []) == buf
  {
  }

  /** Bytes laid below `k` leave zeros from `k` on. */
  lemma LaidZeros(buf: seq<byte>, at: nat, data: seq<byte>, k: nat)
    requires at + |data| <= k <= |buf| && ZeroFrom(buf, k)
    ensures ZeroFrom(Laid(buf, at, data), k)
  {
    forall i | k <= i < |buf| ensures Laid(buf, at, data)[i] == NUL {
      LaidAt(buf, at, data, i);
    }
  }

  /** The next bytes of a text laid behind the ones before. */
  lemma LaidNext(buf: seq<byte>, content: seq<byte>, p: nat, piece: seq<byte>)
    requires p <= |content| <= |buf| && buf[..p] == content[..p] && IsNext(content, p, piece)
    ensures p + |piece| <= |content| && Laid(buf, p, piece)[..p + |piece|] == content[..p + |piece|]
  {
    assert |piece| <= |content[p..]|;
    forall i: nat | i < p + |piece| ensures Laid(buf, p, piece)[i] == content[i] {
      LaidAt(buf, p, piece, i);
      if i < p {
        assert buf[..p][i] == content[..p][i];
      } else {
        assert content[p..][i - p] == piece[i - p];
      }
    }
  }

  /** One more read that meets `piece` and reports `given` bytes of it. */
  lemma OneMoreLaid(content: seq<byte>, p: nat, at: nat, buf: seq<byte>, careful: bool, piece: seq<byte>, given: nat,
                    p': nat, at': nat, buf': seq<byte>, careful': bool)
    requires HoldsSoFar(content, p, at, buf, careful) && given <= |piece|
    requires IsNext(content, p, piece) && (piece == [] <==> p >= |content|)
    requires p' == p + |piece| && at' == at + given && buf' == Laid(buf, at, piece)
    requires careful' <==> careful && (given == |piece| || p' >= |content|)
    ensures HoldsSoFar(content, p', at', buf', careful')
  {
    if piece == [] {
      LaidNothing(buf, at);
    } else {
      assert |piece| <= |content[p..]|;
      if careful {
        LaidNext(buf, content, p, piece);
        LaidZeros(buf, at, piece, p + |piece|);
      } else {
        LaidZeros(buf, at, piece, p + |piece| - 1);
      }
    }
  }

  /** A stream of pieces is over exactly where a read meets nothing. */
  lemma StreamsEnd(meet: nat -> seq<byte>, ahead: nat -> nat, content: seq<byte>, q: nat)
    requires Streams(meet, ahead, content)
    ensures meet(q) == [] <==> q >= |content|
  {
    assert MeetsNext(meet, content, q) && Advances(meet, ahead, content, q);
  }

  lemma {:induction false} FilledHolds(meet: nat -> seq<byte>, ahead: nat -> nat, content: seq<byte>, len: nat,
                                       counts: seq<nat>)
    requires Streams(meet, ahead, content) && |content| < len
    ensures HoldsSoFar(content, |Met(meet, 0, |counts|)|, |Gained(meet, 0, counts)|, Filled(meet, len, counts),
                       CoversButLast(meet, 0, counts))
    decreases |counts|
  {
    if counts != [] {
      var front, last := counts[..|counts| - 1], counts[|counts| - 1];
      assert counts == front + [last];
      FilledHolds(meet, ahead, content, len, front);
      OneMoreHolds(meet, ahead, content, len, front, last);
    }
  }

  lemma OneMoreLengths(meet: nat -> seq<byte>, counts: seq<nat>, count: nat)
    ensures var q := |Met(meet, 0, |counts|)|;
      && |Met(meet, 0, |counts| + 1)| == q + |meet(q)|
      && |Gained(meet, 0, counts + [count])| == |Gained(meet, 0, counts)| + |Clip(meet(q), count)|
  {
    OneMoreRead(meet, 0, counts, count);
  }

  /** Whether the reads are still careful, in terms of the stream. */
  lemma StillCareful(meet: nat -> seq<byte>, ahead: nat -> nat, content: seq<byte>, counts: seq<nat>, count: nat)
    requires Streams(meet, ahead, content)
    ensures var q := |Met(meet, 0, |counts|)|;
      CoversButLast(meet, 0, counts + [count])
      <==> CoversButLast(meet, 0, counts) && (|Clip(meet(q), count)| == |meet(q)| || q + |meet(q)| >= |content|)
  {
    var q := |Met(meet, 0, |counts|)|;
    OneMoreCovers(meet, 0, counts, count);
    StreamsEnd(meet, ahead, content, q + |meet(q)|);
  }

  lemma OneMoreHolds(meet: nat -> seq<byte>, ahead: nat -> nat, content: seq<byte>, len: nat, counts: seq<nat>,
                     count: nat)
    requires Streams(meet, ahead, content)
    requires HoldsSoFar(content, |Met(meet, 0, |counts|)|, |Gained(meet, 0, counts)|, Filled(meet, len, counts),
                        CoversButLast(meet, 0, counts))
    ensures HoldsSoFar(content, |Met(meet, 0, |counts| + 1)|, |Gained(meet, 0, counts + [count])|,
                       Filled(meet, len, counts + [count]), CoversButLast(meet, 0, counts + [count]))
  {
    var p, more := |Met(meet, 0, |counts|)|, counts + [count];
    StillCareful(meet, ahead, content, counts, count);
    PieceMet(meet, ahead, content, p);
    OneMoreLengths(meet, counts, count);
    FilledAppend(meet, len, counts, count);
    OneMoreLaid(content, p, |Gained(meet, 0, counts)|, Filled(meet, len, counts), CoversButLast(meet, 0, counts),
                meet(p), |Clip(meet(p), count)|, |Met(meet, 0, |counts| + 1)|, |Gained(meet, 0, more)|,
                Filled(meet, len, more), CoversButLast(meet, 0, more));
  }

  lemma PieceMet(meet: nat -> seq<byte>, ahead: nat -> nat, content: seq<byte>, q: nat)
    requires Streams(meet, ahead, content)
    ensures IsNext(content, q, meet(q)) && (meet(q) == [] <==> q >= |content|)
  {
    assert MeetsNext(meet, content, q);
    StreamsEnd(meet, ahead, content, q);
  }

  // ---------------------------------------------------------------- what is sent of it

  lemma {:induction false} CStringStops(buf: seq<byte>, i: nat)
    requires i < |buf| && buf[i] == NUL
    ensures |CString(buf)| <= i
  {
    if buf[0] != NUL {
      CStringStops(buf[1..], i - 1);
    }
  }

  lemma TextThenZeros(buf: seq<byte>, text: seq<byte>)
    requires NUL !in text && |text| < |buf| && buf[..|text|] == text && ZeroFrom(buf, |text|)
    ensures CString(buf) == text
  {
    assert buf == Padded(text, |buf|);
    CStringPadded(text, |buf|);
  }

  /** The string in a buffer that the reads have filled to the end of their stream, or not. */
  lemma HoldsIff(content: seq<byte>, p: nat, at: nat, buf: seq<byte>, careful: bool)
    requires HoldsSoFar(content, p, at, buf, careful) && NUL !in content
    ensures CString(buf) == content <==> careful && p == |content|
  {
    if careful && p == |content| {
      assert content[..p] == content;
      TextThenZeros(buf, content);
    } else if p < |content| {
      CStringStops(buf, p);
    } else {
      CStringStops(buf, p - 1);
    }
  }

  /** The last of the reads reported nothing. */
  predicate EndsWithNothing(meet: nat -> seq<byte>, counts: seq<nat>) {
    counts != [] && Clip(meet(|Met(meet, 0, |counts| - 1)|), counts[|counts| - 1]) == []
  }

  /**
   Reads until one reports nothing leave a stream of no NULs, shorter than the buffer, as the
   string in the buffer exactly when each of them, the last command's aside, asked for what
   it met.
   */
  lemma FilledIff(meet: nat -> seq<byte>, ahead: nat -> nat, content: seq<byte>, len: nat, counts: seq<nat>)
    requires Streams(meet, ahead, content) && |content| < len && NUL !in content && EndsWithNothing(meet, counts)
    ensures CString(Filled(meet, len, counts)) == content <==> CoversButLast(meet, 0, counts)
  {
    FilledHolds(meet, ahead, content, len, counts);
    HoldsIff(content, |Met(meet, 0, |counts|)|, |Gained(meet, 0, counts)|, Filled(meet, len, counts),
             CoversButLast(meet, 0, counts));
    if CoversButLast(meet, 0, counts) {
      CarefulReachesEnd(meet, ahead, content, counts);
    }
  }

  lemma CarefulReachesEnd(meet: nat -> seq<byte>, ahead: nat -> nat, content: seq<byte>, counts: seq<nat>)
    requires Streams(meet, ahead, content) && EndsWithNothing(meet, counts) && CoversButLast(meet, 0, counts)
    ensures |Met(meet, 0, |counts|)| >= |content|
  {
    var front, last := counts[..|counts| - 1], counts[|counts| - 1];
    var q := |Met(meet, 0, |front|)|;
    assert counts == front + [last];
    OneMoreCovers(meet, 0, front, last);
    OneMoreLengths(meet, front, last);
    StreamsEnd(meet, ahead, content, q);
    StreamsEnd(meet, ahead, content, q + |meet(q)|);
  }
}
