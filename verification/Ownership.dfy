/** Who owns the blocks of the kernel heap during a run, and which ones unloading releases. */
module Ownership {
  import opened Bytes
  import opened CircularBuffer
  import opened CommandLog
  import opened Driver
  import opened DriverInvariant
  import opened DriverRuns
  import opened RunLaws

  ghost predicate NoRepeats(ps: seq<Ptr>) {
    forall i, j :: 0 <= i < j < |ps| ==> ps[i] != ps[j]
  }

  /** Elements that occur once in a multiset cannot repeat in a sequence below it. */
  lemma AtMostOnce(ps: seq<Ptr>, all: multiset<Ptr>)
    requires multiset(ps) <= all && forall p: Ptr :: all[p] <= 1
    ensures NoRepeats(ps)
  {
    forall i, j | 0 <= i < j < |ps| ensures ps[i] != ps[j] {
      assert ps == ps[..i] + [ps[i]] + ps[i + 1..];
      assert ps[j] == ps[i + 1..][j - i - 1];
      assert ps[j] in multiset(ps[i + 1..]);
      assert multiset(ps)[ps[i]] == multiset(ps[..i])[ps[i]] + 1 + multiset(ps[i + 1..])[ps[i]];
    }
  }

  /** The slots own distinct blocks, no block is freed twice and no block in use is freed. */
  lemma LedgerDisjoint(owned: multiset<Ptr>, s: Slab)
    requires Accounted(owned, s)
    ensures NoRepeats(s.frees)
    ensures forall p: Ptr :: owned[p] + multiset(s.frees)[p] == if 1 <= p < s.next then 1 else 0
    ensures forall p :: p in s.frees ==> p !in s.blocks
  {
    forall p: Ptr ensures owned[p] + multiset(s.frees)[p] == if 1 <= p < s.next then 1 else 0 {
      IssuedOnce(s.next, p);
      assert (owned + multiset(s.frees))[p] == owned[p] + multiset(s.frees)[p];
    }
    AtMostOnce(s.frees, multiset(s.frees));
  }

  lemma LiveDistinct(d: Device)
    requires InBounds(d.ring) && Ledger(d)
    ensures NoRepeats(Ptrs(Live(d.ring)))
  {
    LedgerDisjoint(Owned(d), d.slab);
    forall p: Ptr ensures multiset(Ptrs(Live(d.ring)))[p] <= 1 {
      assert Owned(d)[p] + multiset(d.slab.frees)[p] <= 1;
    }
    AtMostOnce(Ptrs(Live(d.ring)), multiset(Ptrs(Live(d.ring))));
  }

  /** In every run each address is owned once or freed once, and live slots never share one. */
  lemma RunOwnership(calls: seq<Call>)
    ensures forall p: Ptr :: Owned(Run(calls))[p] + multiset(Run(calls).slab.frees)[p]
                          == (if 1 <= p < Run(calls).slab.next then 1 else 0)
    ensures forall p: Ptr :: p in Run(calls).slab.blocks <==> p in Owned(Run(calls))
    ensures NoRepeats(Ptrs(Live(Run(calls).ring))) && NoRepeats(Run(calls).slab.frees)
  {
    WholeRun(calls);
    LiveDistinct(Run(calls));
    LedgerDisjoint(Owned(Run(calls)), Run(calls).slab);
  }

  // ---------------------------------------------------------------- unloading

  /** The non-null addresses in a list of slots. */
  function HeldAll(es: seq<Entry>): multiset<Ptr> {
    multiset(Ptrs(es))[NULL := 0]
  }

  lemma HeldAllTail(es: seq<Entry>)
    requires es != []
    ensures HeldAll(es) == Held(es[0]) + HeldAll(es[1..])
  {
    PtrsTail(es);
  }

  lemma HeldAllConcat(a: seq<Entry>, b: seq<Entry>)
    ensures HeldAll(a + b) == HeldAll(a) + HeldAll(b)
  {
    assert Ptrs(a + b) == Ptrs(a) + Ptrs(b);
  }

  lemma HeldAllUnused(es: seq<Entry>)
    requires forall i :: 0 <= i < |es| ==> es[i] == NOTHING
    ensures HeldAll(es) == multiset{}
  {
    assert forall p :: p in Ptrs(es) ==> p == NULL;
  }

  /** `live` is what the slots hold when they are read from slot `k` on, wrapping if `full`. */
  ghost predicate Rotated(entry: seq<Entry>, k: nat, full: bool, live: seq<Entry>) {
    && k <= |entry|
    && live == (if full then entry[k..] + entry[..k] else entry[..k])
    && (!full ==> forall i :: k <= i < |entry| ==> entry[i] == NOTHING)
  }

  lemma LiveIsRotation(r: Ring, n: nat)
    requires Shape(r, n)
    ensures Rotated(r.entry, r.inOffs, r.full, Live(r))
  {
  }

  lemma RotationHolds(entry: seq<Entry>, k: nat, full: bool, live: seq<Entry>)
    requires Rotated(entry, k, full, live)
    ensures HeldAll(entry) == HeldAll(live)
  {
    assert entry == entry[..k] + entry[k..];
    HeldAllConcat(entry[..k], entry[k..]);
    if full {
      HeldAllConcat(entry[k..], entry[..k]);
    } else {
      HeldAllUnused(entry[k..]);
    }
  }

  /** The ten slots in array order hold what the live entries hold in age order. */
  lemma SlotsHoldLive(r: Ring, n: nat)
    requires Shape(r, n)
    ensures HeldAll(r.entry) == HeldAll(Live(r))
  {
    LiveIsRotation(r, n);
    RotationHolds(r.entry, r.inOffs, r.full, Live(r));
  }

  /** Freeing a slot, used or not, leaves the rest accounted for. */
  lemma FreeOne(s: Slab, e: Entry, rest: multiset<Ptr>)
    requires Accounted(Held(e) + rest, s)
    ensures Accounted(rest, Kfree(s, e.buffptr))
  {
    if e.buffptr == NULL {
      assert Held(e) + rest == rest;
    } else {
      KfreeAccounted(Held(e) + rest, s, e.buffptr);
      assert Held(e) + rest - multiset{e.buffptr} == rest;
    }
  }

  lemma SplitFirst(entry: seq<Entry>, i: nat, other: multiset<Ptr>)
    requires i < |entry|
    ensures HeldAll(entry[i..]) + other == Held(entry[i]) + (HeldAll(entry[i + 1..]) + other)
  {
    HeldAllTail(entry[i..]);
    assert entry[i..][1..] == entry[i + 1..];
  }

  /** One round of the unload loop: the slot's block is in use, and freeing it keeps the books. */
  lemma FreeSlotsStep(s: Slab, entry: seq<Entry>, i: nat, other: multiset<Ptr>)
    requires i < |entry| && Accounted(HeldAll(entry[i..]) + other, s)
    ensures entry[i].buffptr == NULL || entry[i].buffptr in s.blocks
    ensures Accounted(HeldAll(entry[i + 1..]) + other, Kfree(s, entry[i].buffptr))
    ensures FreeSlots(s, entry, i) == FreeSlots(Kfree(s, entry[i].buffptr), entry, i + 1)
  {
    SplitFirst(entry, i, other);
    FreeOne(s, entry[i], HeldAll(entry[i + 1..]) + other);
  }

  lemma {:induction false} FreeSlotsAccounted(s: Slab, entry: seq<Entry>, i: nat, other: multiset<Ptr>)
    requires i <= |entry| && Accounted(HeldAll(entry[i..]) + other, s)
    ensures Accounted(other, FreeSlots(s, entry, i))
    decreases |entry| - i
  {
    if i == |entry| {
      assert HeldAll(entry[i..]) + other == other;
    } else {
      FreeSlotsStep(s, entry, i, other);
      FreeSlotsAccounted(Kfree(s, entry[i].buffptr), entry, i + 1, other);
    }
  }

  /** Slots, pending entry and lost buffers hold every block in use. */
  lemma SlotsAccounted(d: Device, l: Log)
    requires Inv(d, l)
    ensures Accounted(HeldAll(d.ring.entry[0..]) + (Held(d.pending) + multiset(d.leaked)), d.slab)
  {
    LivePtrsReal(d, l);
    NoNullHeld(Live(d.ring));
    SlotsHoldLive(d.ring, |l.commands|);
    assert d.ring.entry[0..] == d.ring.entry;
    assert HeldAll(d.ring.entry) + (Held(d.pending) + multiset(d.leaked)) == Owned(d);
  }

  /**
   Unloading frees each slot's block once and nothing else: what stays behind is an
   unfinished command and one buffer for each read that got as far as copying.  It leaves
   nothing behind exactly when no command is unfinished and no read got that far.
   */
  lemma UnloadReleases(calls: seq<Call>)
    ensures Accounted(Held(Run(calls).pending) + multiset(Run(calls).leaked), Unloaded(Run(calls)))
    ensures NoRepeats(Unloaded(Run(calls)).frees)
    ensures |Held(Run(calls).pending)| == (if History(calls).pending == [] then 0 else 1)
    ensures |Run(calls).leaked| == LossesOf(calls)
    ensures Unloaded(Run(calls)).blocks == map[]
       <==> History(calls).pending == [] && NoneCopies(calls)
  {
    var d, l := Run(calls), History(calls);
    var rest := Held(d.pending) + multiset(d.leaked);
    WholeRun(calls);
    SlotsAccounted(d, l);
    FreeSlotsAccounted(d.slab, d.ring.entry, 0, rest);
    LedgerDisjoint(rest, Unloaded(d));
    RestEmpty(d, l);
    HeldPending(d, l);
    LeakedIsLosses(calls);
    NoLossIff(calls);
  }

  lemma HeldPending(d: Device, l: Log)
    requires Inv(d, l)
    ensures |Held(d.pending)| == if l.pending == [] then 0 else 1
  {
    if l.pending != [] {
      PendingPtr(d, l);
    }
  }

  lemma NoNullHeld(es: seq<Entry>)
    requires forall i :: 0 <= i < |es| ==> es[i].buffptr != NULL
    ensures HeldAll(es) == multiset(Ptrs(es))
  {
    assert NULL !in Ptrs(es);
  }

  lemma LivePtrsReal(d: Device, l: Log)
    requires Inv(d, l)
    ensures forall i :: 0 <= i < |Live(d.ring)| ==> Live(d.ring)[i].buffptr != NULL
  {
    forall i | 0 <= i < |Live(d.ring)| ensures Live(d.ring)[i].buffptr != NULL {
      assert Stored(d.slab, Live(d.ring)[i], Visible(l)[i]);
      OwnedOnce(Owned(d), d.slab, Live(d.ring)[i].buffptr);
    }
  }

  lemma RestEmpty(d: Device, l: Log)
    requires Inv(d, l)
    requires Accounted(Held(d.pending) + multiset(d.leaked), Unloaded(d))
    ensures Unloaded(d).blocks == map[] <==> l.pending == [] && d.leaked == []
  {
    var rest := Held(d.pending) + multiset(d.leaked);
    assert rest == multiset{} <==> l.pending == [] && d.leaked == [] by {
      HeldPending(d, l);
      assert |rest| == |Held(d.pending)| + |d.leaked|;
    }
    assert forall p: Ptr :: p in Unloaded(d).blocks <==> p in rest;
  }
}
