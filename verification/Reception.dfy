/**
 What becomes of every packet the worker receives (full_custom/processing_thread.c:124-193), for every run.

 A packet is refused, falls outside the window, or is kept for the block with some order; and the block of
 that order, in a slot or handed over, has got exactly the packets kept for it, in the order they came.
 None of this depends on packet numbers not wrapping.
 */
module Reception {
  import opened DataFormats
  import opened Window
  import opened WindowLedger
  import opened BlockContents

  datatype Fate = Refused | Outside | Kept(order: nat)

  /** Told from the window at the start of the batch: is the packet wanted, and is its block there? */
  function FateOf(p: Params, w: Window, pk: Packet): Fate
    requires ValidParams(p)
  {
    var k := FindSlot(w.slots, PacketFilter(pk.pckt));
    if !Accepts(p, pk) then Refused else if k == -1 then Outside else Kept(w.slots[k].order)
  }

  datatype Entry = Entry(pk: Packet, fate: Fate)

  function BatchEntries(p: Params, w: Window, batch: seq<Packet>): (es: seq<Entry>)
    requires ValidParams(p)
    ensures |es| == |batch|
    ensures forall i :: 0 <= i < |es| ==> es[i] == Entry(batch[i], FateOf(p, w, batch[i]))
  {
    seq(|batch|, i requires 0 <= i < |batch| => Entry(batch[i], FateOf(p, w, batch[i])))
  }

  /** All packets of a run with their fates, in order of arrival. */
  function Entries(p: Params, batches: seq<seq<Packet>>): seq<Entry>
    requires ValidParams(p)
  {
    if batches == [] then []
    else
      var init := batches[..|batches| - 1];
      Entries(p, init) + BatchEntries(p, Run(p, init), batches[|batches| - 1])
  }

  /** The packets kept for one block. */
  function KeptFor(es: seq<Entry>, order: nat): seq<Packet> {
    if es == [] then []
    else
      var rest, e := KeptFor(es[..|es| - 1], order), es[|es| - 1];
      if e.fate == Kept(order) then rest + [e.pk] else rest
  }

  /** Packets that were not kept. */
  function NotKept(es: seq<Entry>): nat {
    if es == [] then 0 else NotKept(es[..|es| - 1]) + if es[|es| - 1].fate.Kept? then 0 else 1
  }

  lemma EntryNext(es: seq<Entry>, e: Entry)
    ensures forall o: nat :: KeptFor(es + [e], o) == KeptFor(es, o) + if e.fate == Kept(o) then [e.pk] else []
    ensures NotKept(es + [e]) == NotKept(es) + if e.fate.Kept? then 0 else 1
  {
    assert (es + [e])[..|es|] == es;
  }

  /** Every block has got exactly the packets kept for it. */
  ghost predicate Logged(w: Window, es: seq<Entry>) {
    && (forall i :: 0 <= i < |w.slots| ==> w.slots[i].got == KeptFor(es, w.slots[i].order))
    && (forall j :: 0 <= j < |w.handed| ==> w.handed[j].got == KeptFor(es, w.handed[j].order))
    && (forall o: nat :: o >= w.nextOrder ==> KeptFor(es, o) == [])
    && |es| == NotKept(es) + GotIn(w.handed) + GotIn(w.slots)
  }

  function Wrapped(p: Params, order: int): int {
    PacketNoOf(p, order) % PCKT_MODULUS
  }

  /** Packet numbers follow orders, up to the wrap of the counter. */
  ghost predicate Circular(p: Params, w: Window) {
    && w.nextPkt == Wrapped(p, w.nextOrder)
    && (forall i :: 0 <= i < |w.slots| ==> w.slots[i].packetNo % PCKT_MODULUS == Wrapped(p, w.slots[i].order))
    && (forall j :: 0 <= j < |w.handed| ==> w.handed[j].packetNo % PCKT_MODULUS == Wrapped(p, w.handed[j].order))
  }

  ghost predicate Receives(p: Params, w: Window, es: seq<Entry>) {
    Shape(p, w) && Split(w) && Circular(p, w) && Logged(w, es)
  }

  // Placing.

  lemma FindSlotSame(ss: seq<Slot>, ss': seq<Slot>, x: nat)
    requires |ss| == |ss'| && forall i :: 0 <= i < |ss| ==> ss[i].packetNo == ss'[i].packetNo
    ensures FindSlot(ss, x) == FindSlot(ss', x)
  {
    var r, r' := FindSlot(ss, x), FindSlot(ss', x);
    assert r >= 0 ==> ss'[r].packetNo == x;
    assert r' >= 0 ==> ss[r'].packetNo == x;
  }

  lemma FateSame(p: Params, w: Window, w': Window, pk: Packet)
    requires ValidParams(p) && SameOrders(w, w')
    ensures FateOf(p, w, pk) == FateOf(p, w', pk)
  {
    FindSlotSame(w.slots, w'.slots, PacketFilter(pk.pckt));
  }

  lemma {:induction false} GotInUpdate(ss: seq<Slot>, k: nat, s: Slot)
    requires k < |ss|
    ensures GotIn(ss[k := s]) == GotIn(ss) - |ss[k].got| + |s.got|
  {
    var n := |ss| - 1;
    if k < n {
      GotInUpdate(ss[..n], k, s);
      assert ss[k := s][..n] == ss[..n][k := s];
    } else {
      assert ss[k := s][..n] == ss[..n];
    }
  }

  /** One packet goes into slot k and nowhere else. */
  lemma StoreLogged(w: Window, es: seq<Entry>, k: nat, s: Slot, pk: Packet)
    requires Split(w) && Logged(w, es) && k < |w.slots|
    requires s.order == w.slots[k].order && s.got == w.slots[k].got + [pk]
    ensures Logged(w.(slots := w.slots[k := s]), es + [Entry(pk, Kept(s.order))])
  {
    var w' := w.(slots := w.slots[k := s]);
    EntryNext(es, Entry(pk, Kept(s.order)));
    GotInUpdate(w.slots, k, s);
    forall i | 0 <= i < |w'.slots| ensures w'.slots[i].got
      == KeptFor(es + [Entry(pk, Kept(s.order))], w'.slots[i].order) {
      if i != k { assert w.slots[i].order != w.slots[k].order; }
    }
  }

  lemma SplitSame(w: Window, w': Window)
    requires Split(w) && SameOrders(w, w')
    ensures Split(w')
  {
    forall o | 1 <= o < w'.nextOrder ensures InSlots(w', o) || InHanded(w', o) {
      if InSlots(w, o) {
        var i :| 0 <= i < |w.slots| && w.slots[i].order == o;
        assert w'.slots[i].order == o;
      }
    }
  }

  lemma StoreReceives(p: Params, w: Window, w': Window, es: seq<Entry>, k: nat, s: Slot, pk: Packet)
    requires Receives(p, w, es) && k < SLOTS && w' == w.(slots := w.slots[k := s])
    requires s.order == w.slots[k].order && s.packetNo == w.slots[k].packetNo && s.got == w.slots[k].got + [pk]
    requires |s.block| == BlockLen(p)
    ensures Receives(p, w', es + [Entry(pk, Kept(s.order))])
  {
    StoreLogged(w, es, k, s, pk);
    assert SameOrders(w, w');
    SplitSame(w, w');
  }

  lemma PlaceLogged(p: Params, w: Window, w': Window, es: seq<Entry>, pk: Packet)
    requires Receives(p, w, es) && w' == Place(p, w, pk)
    ensures Receives(p, w', es + [Entry(pk, FateOf(p, w, pk))])
  {
    var k := FindSlot(w.slots, PacketFilter(pk.pckt));
    if Accepts(p, pk) && k != -1 {
      StoreReceives(p, w, w', es, k, Store(p, w.slots[k], pk), pk);
    } else {
      EntryNext(es, Entry(pk, FateOf(p, w, pk)));
    }
  }

  lemma OneMore(es: seq<Entry>, all: seq<Entry>, n: nat, e: Entry)
    requires n < |all| && all[n] == e
    ensures es + all[..n + 1] == es + all[..n] + [e]
  {
  }

  lemma {:induction false} PlaceAllLogged(p: Params, w: Window, w': Window, es: seq<Entry>, batch: seq<Packet>,
                                          n: nat)
    requires Receives(p, w, es) && n <= |batch| && w' == PlaceFirst(p, w, batch, n)
    ensures Receives(p, w', es + BatchEntries(p, w, batch)[..n])
    decreases n
  {
    var all := BatchEntries(p, w, batch);
    if n == 0 {
      assert es + all[..0] == es;
    } else {
      var v := PlaceFirst(p, w, batch, n - 1);
      var pk := batch[n - 1];
      PlaceKeepsOrders(p, w, batch, n - 1);
      FateSame(p, w, v, pk);
      PlaceAllLogged(p, w, v, es, batch, n - 1);
      PlaceLogged(p, v, w', es + all[..n - 1], pk);
      OneMore(es, all, n - 1, Entry(pk, FateOf(p, v, pk)));
    }
  }

  // Handing over.

  lemma WrapNext(p: Params, order: int)
    ensures (Wrapped(p, order) + TIME_INT_PER_BUFFER) % PCKT_MODULUS == Wrapped(p, order + 1)
    ensures Wrapped(p, order) % PCKT_MODULUS == Wrapped(p, order)
  {
  }

  /** Only the marks that no block depends on differ. */
  ghost predicate SameBlocks(w: Window, v: Window) {
    v == w.(lastSent := v.lastSent, noMissing := v.noMissing)
  }

  lemma SameBlocksReceive(p: Params, w: Window, v: Window, es: seq<Entry>)
    requires Receives(p, w, es) && SameBlocks(w, v)
    ensures Receives(p, v, es)
  {
    assert forall o :: InSlots(w, o) == InSlots(v, o) && InHanded(w, o) == InHanded(v, o);
  }

  lemma RecycleLogs(p: Params, w: Window, w': Window, es: seq<Entry>, k: nat)
    requires Shape(p, w) && Split(w) && Logged(w, es) && k < SLOTS && w' == Recycle(p, w, k)
    ensures Logged(w', es)
  {
    GotInUpdate(w.slots, k, w'.slots[k]);
    assert w'.handed[..|w.handed|] == w.handed;
    assert forall j :: 0 <= j < |w'.handed| ==> w'.handed[j] == if j < |w.handed| then w.handed[j] else w.slots[k];
  }

  lemma RecycleCircular(p: Params, w: Window, w': Window, k: nat)
    requires Shape(p, w) && Circular(p, w) && k < SLOTS && w' == Recycle(p, w, k)
    ensures Circular(p, w')
  {
    WrapNext(p, w.nextOrder);
    assert forall j :: 0 <= j < |w'.handed| ==> w'.handed[j] == if j < |w.handed| then w.handed[j] else w.slots[k];
  }

  lemma RecycleLogged(p: Params, w: Window, w': Window, es: seq<Entry>, k: nat)
    requires Receives(p, w, es) && k < SLOTS && w' == Recycle(p, w, k)
    ensures Receives(p, w', es)
  {
    RecycleDistinct(p, w, k);
    RecycleKnown(p, w, k);
    RecycleLogs(p, w, w', es, k);
    RecycleCircular(p, w, w', k);
    assert forall j :: 0 <= j < |w'.handed| ==> w'.handed[j] == if j < |w.handed| then w.handed[j] else w.slots[k];
  }

  lemma {:induction false} SendFullLogged(p: Params, w: Window, n: nat, r: Sweep, es: seq<Entry>)
    requires Receives(p, w, es) && n <= SLOTS && r == SendFull(p, w, n)
    ensures Receives(p, r.w, es)
  {
    if n > 0 {
      var before := SendFull(p, w, n - 1);
      SendFullLogged(p, w, n - 1, before, es);
      SendFullAtLogged(p, before, r, n - 1, es);
    }
  }

  lemma SendFullAtLogged(p: Params, r: Sweep, r': Sweep, k: nat, es: seq<Entry>)
    requires Receives(p, r.w, es) && k < SLOTS && r' == SendFullAt(p, r, k)
    ensures Receives(p, r'.w, es)
  {
    if r.w.slots[k].nToFull == 0 {
      var v := r.w.(lastSent := r.w.slots[k].packetNo);
      SameBlocksReceive(p, r.w, v, es);
      RecycleLogged(p, v, r'.w, es, k);
    }
  }

  lemma {:induction false} SendEarlierLogged(p: Params, w: Window, n: nat, w': Window, es: seq<Entry>)
    requires Receives(p, w, es) && n <= SLOTS && w' == SendEarlier(p, w, n)
    ensures Receives(p, w', es)
  {
    if n > 0 {
      var before := SendEarlier(p, w, n - 1);
      SendEarlierLogged(p, w, n - 1, before, es);
      SendEarlierAtLogged(p, before, w', n - 1, es);
    }
  }

  lemma SendEarlierAtLogged(p: Params, w: Window, w': Window, k: nat, es: seq<Entry>)
    requires Receives(p, w, es) && k < SLOTS && w' == SendEarlierAt(p, w, k)
    ensures Receives(p, w', es)
  {
    if IsEarlier(w.slots[k].packetNo, w.lastSent) {
      var v := w.(noMissing := w.noMissing + w.slots[k].nToFull);
      SameBlocksReceive(p, w, v, es);
      RecycleLogged(p, v, w', es, k);
    }
  }

  lemma TurnLogged(p: Params, w: Window, w': Window, es: seq<Entry>, batch: seq<Packet>)
    requires Receives(p, w, es) && w' == Turn(p, w, batch)
    ensures Receives(p, w', es + BatchEntries(p, w, batch))
  {
    var all := BatchEntries(p, w, batch);
    if batch == [] {
      assert es + all == es;
    } else {
      var w1 := PlaceFirst(p, w, batch, |batch|);
      PlaceAllLogged(p, w, w1, es, batch, |batch|);
      assert all[..|batch|] == all;
      var r := SendFull(p, w1, SLOTS);
      SendFullLogged(p, w1, SLOTS, r, es + all);
      SameBlocksReceive(p, r.w, MarkHalf(r), es + all);
      SendEarlierLogged(p, MarkHalf(r), SLOTS, w', es + all);
    }
  }

  lemma OpenReceives(p: Params)
    requires ValidParams(p)
    ensures Receives(p, Open(p), [])
  {
    var w := Open(p);
    OpenLedger(p);
    LedgerSplits(p, w);
    assert forall i :: 0 <= i < |w.slots| ==> Listed(p, w, w.slots[i]) && w.slots[i].got == [];
    NoneGot(w.slots);
  }

  lemma {:induction false} NoneGot(ss: seq<Slot>)
    requires forall i :: 0 <= i < |ss| ==> ss[i].got == []
    ensures GotIn(ss) == 0
  {
    if ss != [] {
      NoneGot(ss[..|ss| - 1]);
    }
  }

  /**
   After every run, wrap or not: orders 1..nextOrder-1 split exactly into handed over once and held in one
   slot; packet numbers follow them modulo 2^38; every block has got exactly the packets kept for it, in
   order; and every packet received is in one block or was not kept.
   */
  lemma {:induction false} ReceptionTheorem(p: Params, batches: seq<seq<Packet>>)
    requires ValidParams(p)
    ensures Receives(p, Run(p, batches), Entries(p, batches))
  {
    if batches == [] {
      OpenReceives(p);
    } else {
      var init := batches[..|batches| - 1];
      ReceptionTheorem(p, init);
      TurnLogged(p, Run(p, init), Run(p, batches), Entries(p, init), batches[|batches| - 1]);
    }
  }
}
