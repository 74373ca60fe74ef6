/**
 The ten-slot ring of commands (aesd-circular-buffer.c and .h): the value it holds, the two
 operations on it, and the class that performs them in place.
 */
module CircularBuffer {
  import opened Bytes

  /** A kernel address.  Only its identity matters. */
  type Ptr = nat

  const NULL: Ptr := 0
  const CAPACITY: nat := 10
  const UINT_RANGE: nat := 0x1_0000_0000

  datatype Entry = Entry(buffptr: Ptr, size: nat)

  datatype Ring = Ring(entry: seq<Entry>, inOffs: nat, outOffs: nat, full: bool)

  /** Where an offset was found: the array slot and the byte inside its block. */
  datatype Hit = Hit(slot: nat, offset: nat)

  predicate InBounds(r: Ring) {
    |r.entry| == CAPACITY && r.inOffs < CAPACITY && r.outOffs < CAPACITY
  }

  function Zeroed(): Ring {
    Ring(seq(CAPACITY, _ => Entry(NULL, 0)), 0, 0, false)
  }

  function Added(r: Ring, e: Entry): Ring
    requires InBounds(r)
  {
    var entry := r.entry[r.inOffs := e];
    var out := if r.full then (r.outOffs + 1) % CAPACITY else r.outOffs;
    if r.inOffs + 1 == CAPACITY then Ring(entry, 0, out, true) else Ring(entry, r.inOffs + 1, out, r.full)
  }

  /** One past the last value of the lookup's unwrapped counter. */
  function WalkEnd(r: Ring): nat {
    if r.full then CAPACITY + r.inOffs else r.inOffs
  }

  /** The entries in the order in which the lookup visits them. */
  function Live(r: Ring): seq<Entry>
    requires InBounds(r)
  {
    var n := WalkEnd(r) - r.outOffs;
    seq(if n < 0 then 0 else n, i requires 0 <= i => r.entry[(r.outOffs + i) % CAPACITY])
  }

  function Sizes(es: seq<Entry>): seq<nat> {
    seq(|es|, i requires 0 <= i < |es| => es[i].size)
  }

  /** The last ten elements of a history, or all of it when it is shorter. */
  function Latest<T>(h: seq<T>): seq<T> {
    if |h| <= CAPACITY then h else h[|h| - CAPACITY..]
  }

  // ---------------------------------------------------------------- the ring and its history

  /** The offsets and the flag of a ring that has taken `n` entries, and its untouched slots. */
  ghost predicate Shape(r: Ring, n: nat) {
    && |r.entry| == CAPACITY
    && r.inOffs == n % CAPACITY
    && r.full == (n >= CAPACITY)
    && r.outOffs == (if n < CAPACITY then 0 else n % CAPACITY)
    && forall i :: n <= i < CAPACITY ==> r.entry[i] == Entry(NULL, 0)
  }

  /** The ring after initialisation and one `add` per entry of `h`. */
  function AfterAdds(h: seq<Entry>): (r: Ring)
    ensures InBounds(r)
  {
    if h == [] then Zeroed() else Added(AfterAdds(h[..|h| - 1]), h[|h| - 1])
  }

  lemma ZeroedShape()
    ensures Shape(Zeroed(), 0) && Live(Zeroed()) == []
  {
  }

  lemma AddedShape(r: Ring, n: nat, e: Entry)
    requires Shape(r, n)
    ensures Shape(Added(r, e), n + 1)
  {
  }

  /** The slot that the `i`-th oldest entry occupies. */
  lemma LiveAt(r: Ring, n: nat, i: nat)
    requires Shape(r, n)
    ensures |Live(r)| == if n < CAPACITY then n else CAPACITY
    ensures i < |Live(r)| ==> Live(r)[i] == r.entry[if n < CAPACITY then i else (n + i) % CAPACITY]
  {
    if n < CAPACITY {
      assert i < n ==> (0 + i) % CAPACITY == i;
    } else {
      WrapsOnce(n, i);
    }
  }

  lemma WrapsOnce(n: nat, i: nat)
    ensures (n % CAPACITY + i) % CAPACITY == (n + i) % CAPACITY
  {
  }

  /** Where each entry, old or new, is found after an add. */
  lemma AddedLiveAt(r: Ring, n: nat, e: Entry, i: nat)
    requires Shape(r, n) && i < CAPACITY
    ensures Shape(Added(r, e), n + 1)
    ensures n < CAPACITY && i < n ==> Live(Added(r, e))[i] == Live(r)[i]
    ensures n >= CAPACITY && i + 1 < CAPACITY ==> Live(Added(r, e))[i] == Live(r)[i + 1]
    ensures i == |Live(Added(r, e))| - 1 ==> Live(Added(r, e))[i] == e
  {
    AddedShape(r, n, e);
    LiveAt(Added(r, e), n + 1, i);
    LiveAt(r, n, if n < CAPACITY then i else i + 1);
  }

  /** An add appends to the live entries and, on a full ring, drops exactly the oldest one. */
  lemma AddedLive(r: Ring, n: nat, e: Entry)
    requires Shape(r, n)
    ensures Shape(Added(r, e), n + 1)
    ensures |Live(r)| == if n < CAPACITY then n else CAPACITY
    ensures Live(Added(r, e)) == (if n < CAPACITY then Live(r) else Live(r)[1..]) + [e]
    ensures n >= CAPACITY ==> r.entry[r.inOffs] == Live(r)[0]
  {
    AddedShape(r, n, e);
    LiveAt(r, n, 0);
    LiveAt(Added(r, e), n + 1, 0);
    var expected := (if n < CAPACITY then Live(r) else Live(r)[1..]) + [e];
    forall i | 0 <= i < |expected|
      ensures Live(Added(r, e))[i] == expected[i]
    {
      AddedLiveAt(r, n, e, i);
    }
  }

  /** The block that leaves the live entries when one more is added: the oldest, if there are ten. */
  function DropsOut(r: Ring): Ptr
    requires InBounds(r)
  {
    if |Live(r)| == CAPACITY then Live(r)[0].buffptr else NULL
  }

  /** The slot the next add overwrites holds the oldest entry of a full ring, and no block before that. */
  lemma OverwritesOldest(r: Ring, n: nat)
    requires Shape(r, n)
    ensures r.entry[r.inOffs].buffptr == DropsOut(r)
  {
    AddedLive(r, n, Entry(NULL, 0));
  }

  /** Adding one more entry keeps the latest ten in step with the history. */
  lemma LatestAppend<T>(h: seq<T>, x: T)
    ensures Latest(h + [x]) == (if |h| < CAPACITY then Latest(h) else Latest(h)[1..]) + [x]
  {
  }

  /** The live entry that history index `k` became sits in slot `k mod 10`. */
  lemma SlotOf(r: Ring, n: nat, k: nat)
    requires Shape(r, n) && k < n <= k + CAPACITY
    ensures |Live(r)| == if n < CAPACITY then n else CAPACITY
    ensures r.entry[k % CAPACITY] == Live(r)[k - (n - |Live(r)|)]
  {
    if n < CAPACITY {
      LiveAt(r, n, k);
    } else {
      LiveAt(r, n, k + CAPACITY - n);
      WrapsOnce(k, CAPACITY);
    }
  }

  lemma OneMoreEntry(r: Ring, h: seq<Entry>, e: Entry)
    requires Shape(r, |h|) && Live(r) == Latest(h)
    ensures Shape(Added(r, e), |h + [e]|)
    ensures Live(Added(r, e)) == Latest(h + [e])
  {
    AddedLive(r, |h|, e);
    LatestAppend(h, e);
  }

  /** Read oldest to newest, the ring is the last ten entries ever added. */
  lemma {:induction false} LiveIsLatest(h: seq<Entry>)
    ensures Shape(AfterAdds(h), |h|)
    ensures Live(AfterAdds(h)) == Latest(h)
  {
    if h == [] {
      ZeroedShape();
    } else {
      var front, last := h[..|h| - 1], h[|h| - 1];
      LiveIsLatest(front);
      OneMoreEntry(AfterAdds(front), front, last);
      assert h == front + [last];
    }
  }

  lemma SlotHoldsEntry(h: seq<Entry>, k: nat)
    requires k < |h| <= k + CAPACITY
    ensures AfterAdds(h).entry[k % CAPACITY] == h[k]
  {
    LiveIsLatest(h);
    SlotOf(AfterAdds(h), |h|, k);
  }

  /** The closed form of every reachable ring, slot by slot. */
  lemma ClosedForm(h: seq<Entry>)
    ensures Shape(AfterAdds(h), |h|)
    ensures forall k :: 0 <= k < |h| <= k + CAPACITY ==> AfterAdds(h).entry[k % CAPACITY] == h[k]
  {
    LiveIsLatest(h);
    forall k | 0 <= k < |h| <= k + CAPACITY ensures AfterAdds(h).entry[k % CAPACITY] == h[k] {
      SlotHoldsEntry(h, k);
    }
  }

  // ---------------------------------------------------------------- the lookup

  /**
   The walk from visit `k` on, with the 32-bit running total `acc` of the sizes before it.
   The total wraps; the offset looked for does not.
   */
  function Walk(sizes: seq<nat>, c: nat, k: nat, acc: nat): (hit: Option<(nat, nat)>)
    requires k <= |sizes| && acc <= c
    ensures hit.Some? ==> k <= hit.value.0 < |sizes| && hit.value.1 < sizes[hit.value.0]
    decreases |sizes| - k
  {
    if k == |sizes| then None
    else
      var total := (acc + sizes[k]) % UINT_RANGE;
      if c < total then Some((k, c - acc)) else Walk(sizes, c, k + 1, total)
  }

  function Find(r: Ring, c: nat): (hit: Option<Hit>)
    requires InBounds(r)
    ensures hit.Some? ==> hit.value.slot < CAPACITY && hit.value.offset < r.entry[hit.value.slot].size
  {
    match Walk(Sizes(Live(r)), c, 0, 0)
    case None => None
    case Some((k, offset)) => Some(Hit((r.outOffs + k) % CAPACITY, offset))
  }

  /** Byte `offset` of string `k` is byte `c` of strings of these sizes laid end to end. */
  predicate Resolves(sizes: seq<nat>, c: nat, k: nat, offset: nat) {
    k < |sizes| && offset < sizes[k] && Sum(sizes[..k]) + offset == c
  }

  /** The walk gives the position that plain unbounded indexing gives. */
  ghost predicate Agrees(sizes: seq<nat>, c: nat) {
    match Walk(sizes, c, 0, 0)
    case None => c >= Sum(sizes)
    case Some((k, offset)) => Resolves(sizes, c, k, offset)
  }

  lemma {:induction false} WalkAgrees(sizes: seq<nat>, c: nat, k: nat)
    requires k <= |sizes| && Sum(sizes[..k]) <= c && Sum(sizes) < UINT_RANGE
    ensures match Walk(sizes, c, k, Sum(sizes[..k]))
            case None => c >= Sum(sizes)
            case Some((j, offset)) => Resolves(sizes, c, j, offset)
    decreases |sizes| - k
  {
    if k == |sizes| {
      assert sizes[..k] == sizes;
    } else {
      SumStep(sizes, k);
      SumPrefix(sizes, k + 1);
      if c >= Sum(sizes[..k + 1]) {
        WalkAgrees(sizes, c, k + 1);
      }
    }
  }

  /** A 32-bit total never reaches past the largest 32-bit number, nor past the true total. */
  lemma {:induction false} WalkMissesBeyond(sizes: seq<nat>, c: nat, k: nat, acc: nat)
    requires k <= |sizes| && acc <= c && acc <= Sum(sizes[..k])
    requires c >= UINT_RANGE - 1 || c >= Sum(sizes)
    ensures Walk(sizes, c, k, acc) == None
    decreases |sizes| - k
  {
    if k < |sizes| {
      var total := (acc + sizes[k]) % UINT_RANGE;
      SumStep(sizes, k);
      SumPrefix(sizes, k + 1);
      WalkMissesBeyond(sizes, c, k + 1, total);
    }
  }

  /** The 32-bit walk is right at every offset exactly when the live bytes number below 2^32. */
  lemma WidthBound(sizes: seq<nat>)
    ensures (forall c: nat :: Agrees(sizes, c)) <==> Sum(sizes) < UINT_RANGE
  {
    if Sum(sizes) < UINT_RANGE {
      forall c: nat ensures Agrees(sizes, c) {
        WalkAgrees(sizes, c, 0);
      }
    } else {
      WalkMissesBeyond(sizes, UINT_RANGE - 1, 0, 0);
      assert !Agrees(sizes, UINT_RANGE - 1);
    }
  }

  /** At most one position resolves an offset. */
  lemma ResolvesUnique(sizes: seq<nat>, c: nat, k: nat, o: nat, k': nat, o': nat)
    requires Resolves(sizes, c, k, o) && Resolves(sizes, c, k', o')
    ensures k == k' && o == o'
  {
    if k < k' {
      assert sizes[..k'][..k + 1] == sizes[..k + 1] && sizes[..k + 1][..k] == sizes[..k];
      SumPrefix(sizes[..k'], k + 1);
    } else if k' < k {
      assert sizes[..k][..k' + 1] == sizes[..k' + 1] && sizes[..k' + 1][..k'] == sizes[..k'];
      SumPrefix(sizes[..k], k' + 1);
    }
  }

  /** A resolved position holds the byte that indexing the concatenation gives. */
  lemma ResolvesByte(ss: seq<seq<byte>>, c: nat, k: nat, offset: nat)
    requires Resolves(Lengths(ss), c, k, offset)
    ensures c < |Flatten(ss)| && Flatten(ss)[c] == ss[k][offset]
    ensures Flatten(ss)[c..] == ss[k][offset..] + Flatten(ss[k + 1..])
  {
    assert ss == ss[..k + 1] + ss[k + 1..];
    FlattenConcat(ss[..k + 1], ss[k + 1..]);
    assert ss[..k + 1][..k] == ss[..k];
    FlattenLength(ss[..k]);
    assert Lengths(ss)[..k] == Lengths(ss[..k]);
  }

  // ---------------------------------------------------------------- the class

  class Buffer {
    const entry: array<Entry>
    var inOffs: nat
    var outOffs: nat
    var full: bool

    ghost function Value(): Ring
      reads this, entry
    {
      Ring(entry[..], inOffs, outOffs, full)
    }

    constructor ()
      ensures Value() == Zeroed() && fresh(entry)
    {
      entry := new Entry[CAPACITY](_ => Entry(NULL, 0));
      inOffs, outOffs, full := 0, 0, false;
      new;
      assert entry[..] == Zeroed().entry;
    }

    method AddEntry(e: Entry)
      requires InBounds(Value())
      modifies this, entry
      ensures Value() == Added(old(Value()), e)
    {
      entry[inOffs] := e;
      if full {
        outOffs := (outOffs + 1) % CAPACITY;
      }
      if inOffs + 1 == CAPACITY {
        full := true;
        inOffs := 0;
      } else {
        inOffs := inOffs + 1;
      }
    }

    /** The block in the slot that the next add overwrites: on any ring made by adds, the oldest if full. */
    method RefBuff() returns (p: Ptr)
      requires InBounds(Value())
      ensures p == entry[inOffs].buffptr
      ensures forall n :: Shape(Value(), n) ==> p == DropsOut(Value())
    {
      p := entry[inOffs].buffptr;
      forall n | Shape(Value(), n) ensures p == DropsOut(Value()) {
        OverwritesOldest(Value(), n);
      }
    }

    method FindEntryOffsetForFpos(charOffset: nat) returns (hit: Option<Hit>)
      requires InBounds(Value())
      ensures hit == Find(Value(), charOffset)
    {
      var entrySize := if full then CAPACITY + inOffs else inOffs;
      var entryCounter := outOffs;
      var totalCharSize: nat := 0;
      ghost var sizes := Sizes(Live(Value()));
      while entryCounter < entrySize
        invariant outOffs <= entryCounter && totalCharSize <= charOffset
        invariant entryCounter - outOffs <= |sizes|
        invariant Walk(sizes, charOffset, 0, 0) == Walk(sizes, charOffset, entryCounter - outOffs, totalCharSize)
      {
        assert sizes[entryCounter - outOffs] == entry[entryCounter % CAPACITY].size;
        var prevCharSize := totalCharSize;
        totalCharSize := (totalCharSize + entry[entryCounter % CAPACITY].size) % UINT_RANGE;
        if charOffset < totalCharSize {
          return Some(Hit(entryCounter % CAPACITY, charOffset - prevCharSize));
        }
        entryCounter := entryCounter + 1;
      }
      return None;
    }
  }
}
