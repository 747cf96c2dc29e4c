/**
 Runs on which the worker departs from what it promises, each from its start: a packet sent many times, and
 packet numbers that wrap (full_custom/processing_thread.c:134, 179-181).  One antenna and one channel group,
 so that 128 packets fill a block.
 */
module Departures {
  import opened DataFormats
  import opened Window
  import opened WindowLedger
  import opened BlockContents

  /** Antenna 0 alone, channels from 0. */
  function Single(start: nat): Params {
    Params(1, 1, 0, [0, UNCLAIMED, UNCLAIMED, UNCLAIMED], start)
  }

  function PacketNo(pckt: nat): Packet
    requires pckt < PCKT_MODULUS
  {
    RawPacket(0, 0, pckt, true, Zeros(RX_DATA_LEN))
  }

  lemma SingleAccepts(p: Params, pckt: nat)
    requires p == Single(p.start) && ValidParams(p) && pckt < PCKT_MODULUS
    ensures Accepts(p, PacketNo(pckt)) && CellOf(p, PacketNo(pckt)) == PacketRest(pckt)
  {
    assert p.ants[..1][0] == 0;
    assert AntIndex(p.ants, 0, 1) == 0;
    ChanIndexIsFloor(0, 0);
  }

  /** All packets of the batch belong to the block in slot 0. */
  ghost predicate ForFirst(p: Params, w: Window, batch: seq<Packet>)
    requires Shape(p, w)
  {
    forall i :: 0 <= i < |batch| ==> Accepts(p, batch[i]) && PacketFilter(batch[i].pckt) == w.slots[0].packetNo
  }

  /** w' is w with the packets in slot 0, counted and logged. */
  ghost predicate FirstGets(w: Window, w': Window, pks: seq<Packet>) {
    && w.slots != [] && w'.slots != []
    && w' == w.(slots := w.slots[0 := w'.slots[0]])
    && w'.slots[0] == w.slots[0].(nToFull := w.slots[0].nToFull - |pks|, got := w.slots[0].got + pks,
                                  block := w'.slots[0].block)
  }

  lemma PlacedOne(p: Params, w: Window, v: Window, v': Window, pks: seq<Packet>, pks': seq<Packet>, pk: Packet)
    requires Shape(p, v) && FirstGets(w, v, pks) && v' == Place(p, v, pk) && pks' == pks + [pk]
    requires Accepts(p, pk) && PacketFilter(pk.pckt) == w.slots[0].packetNo
    ensures FirstGets(w, v', pks')
  {
    assert FindSlot(v.slots, PacketFilter(pk.pckt)) == 0;
    assert w.slots[0].got + pks' == w.slots[0].got + pks + [pk];
    assert v'.slots == w.slots[0 := v'.slots[0]];
  }

  lemma PlacedNext(p: Params, w: Window, v: Window, v': Window, batch: seq<Packet>, k: nat)
    requires Shape(p, w) && ForFirst(p, w, batch) && k < |batch|
    requires Shape(p, v) && FirstGets(w, v, batch[..k]) && v' == Place(p, v, batch[k])
    ensures FirstGets(w, v', batch[..k + 1])
  {
    PlacedOne(p, w, v, v', batch[..k], batch[..k + 1], batch[k]);
  }

  lemma GetsNothing(w: Window, pks: seq<Packet>)
    requires w.slots != [] && |pks| == 0
    ensures FirstGets(w, w, pks)
  {
    assert w.slots[0].got + pks == w.slots[0].got;
    assert w.slots[0 := w.slots[0]] == w.slots;
  }

  lemma {:induction false} PlacedInFirst(p: Params, w: Window, w': Window, batch: seq<Packet>, n: nat)
    requires Shape(p, w) && ForFirst(p, w, batch) && n <= |batch| && w' == PlaceFirst(p, w, batch, n)
    ensures FirstGets(w, w', batch[..n])
    decreases n
  {
    if n == 0 {
      GetsNothing(w, batch[..0]);
    } else {
      var v := PlaceFirst(p, w, batch, n - 1);
      PlacedInFirst(p, w, v, batch, n - 1);
      PlacedNext(p, w, v, w', batch, n - 1);
    }
  }

  /** All slots but the first are new. */
  ghost predicate OthersNew(p: Params, w: Window)
    requires Shape(p, w)
  {
    forall i :: 1 <= i < SLOTS ==> w.slots[i].nToFull == PacketsPerBlock(p)
  }

  lemma {:induction false} OnlyFirstFull(p: Params, w: Window, n: nat)
    requires Shape(p, w) && OthersNew(p, w) && PacketsPerBlock(p) > 0 && 1 <= n <= SLOTS
    ensures SendFull(p, w, n) == SendFullAt(p, Sweep(w, 0), 0)
  {
    if n > 1 {
      OnlyFirstFull(p, w, n - 1);
    } else {
      assert SendFull(p, w, 0) == Sweep(w, 0);
    }
  }

  lemma {:induction false} OnlyFirstEarlier(p: Params, w: Window, n: nat)
    requires Shape(p, w) && 1 <= n <= SLOTS
    requires forall i :: 1 <= i < SLOTS ==> !IsEarlier(w.slots[i].packetNo, w.lastSent)
    ensures SendEarlier(p, w, n) == SendEarlierAt(p, w, 0)
  {
    if n > 1 {
      OnlyFirstEarlier(p, w, n - 1);
    } else {
      assert SendEarlier(p, w, 0) == w;
    }
  }

  /** Slot 0 is new and the batch fills it; no other slot is started, or older than it. */
  ghost predicate Fills(p: Params, w: Window, batch: seq<Packet>) {
    && Shape(p, w) && ForFirst(p, w, batch) && OthersNew(p, w)
    && w.slots[0].got == [] && w.slots[0].nToFull == PacketsPerBlock(p) == |batch| && |batch| > 0
    && forall i :: 1 <= i < SLOTS ==> !IsEarlier(w.slots[i].packetNo, w.slots[0].packetNo)
  }

  ghost predicate IsFilled(p: Params, s: Slot, batch: seq<Packet>, full: Slot) {
    full == s.(nToFull := 0, got := batch, block := full.block) && |full.block| == BlockLen(p)
  }

  lemma FirstIsFilled(p: Params, w: Window, batch: seq<Packet>, w': Window)
    requires Fills(p, w, batch) && w' == PlaceFirst(p, w, batch, |batch|)
    ensures IsFilled(p, w.slots[0], batch, w'.slots[0]) && w' == w.(slots := w.slots[0 := w'.slots[0]])
  {
    PlacedInFirst(p, w, w', batch, |batch|);
    assert batch[..|batch|] == batch && [] + batch == batch;
  }

  /** What such a batch does. */
  lemma FillsFirst(p: Params, w: Window, batch: seq<Packet>, w': Window) returns (full: Slot)
    requires Fills(p, w, batch) && w' == Turn(p, w, batch)
    ensures IsFilled(p, w.slots[0], batch, full) && w' == SendEarlierAt(p, Handed(p, w, full), 0)
  {
    var w1 := PlaceFirst(p, w, batch, |batch|);
    FirstIsFilled(p, w, batch, w1);
    full := w1.slots[0];
    OnlyFirstFull(p, w1, SLOTS);
    FirstLoop(p, w, w1, SendFull(p, w1, SLOTS));
    OnlyFirstEarlier(p, Handed(p, w, full), SLOTS);
  }

  lemma FirstLoop(p: Params, w: Window, w1: Window, r: Sweep)
    requires Shape(p, w) && Shape(p, w1) && w1 == w.(slots := w.slots[0 := w1.slots[0]]) && w1.slots[0].nToFull == 0
    requires r == SendFullAt(p, Sweep(w1, 0), 0)
    ensures MarkHalf(r) == Handed(p, w, w1.slots[0])
  {
    assert r.w.slots == Handed(p, w, w1.slots[0]).slots;
  }

  /** The window after the first loop has handed over slot 0. */
  function Handed(p: Params, w: Window, full: Slot): (w': Window)
    requires Shape(p, w) && |full.block| == BlockLen(p)
    ensures Shape(p, w')
  {
    Recycle(p, w.(slots := w.slots[0 := full], lastSent := full.packetNo), 0)
  }

  lemma OneBatch(p: Params, batches: seq<seq<Packet>>)
    requires ValidParams(p) && |batches| == 1
    ensures Run(p, batches) == Turn(p, Open(p), batches[0])
  {
    var init := batches[..0];
    assert |init| == 0;
  }

  /** The window at the start. */
  lemma OpenSingle(p: Params, w: Window)
    requires p == Single(p.start) && ValidParams(p) && w == Open(p)
    ensures PacketsPerBlock(p) == TIME_INT_PER_BUFFER && OthersNew(p, w)
    ensures w.handed == [] && w.noMissing == 0 && w.nextOrder == 7 && w.nextPkt == (p.start + 768) % PCKT_MODULUS
    ensures forall i :: 0 <= i < SLOTS ==> w.slots[i] == FreshSlot(p, p.start + i * TIME_INT_PER_BUFFER, i + 1)
  {
  }

  // One packet sent as often as a block has cells.

  ghost predicate Copies(batch: seq<Packet>, pk: Packet, n: nat) {
    |batch| == n && forall i :: 0 <= i < |batch| ==> batch[i] == pk
  }

  /** An accepted packet of the first block, in a run that does not wrap within the window. */
  ghost predicate OfFirstBlock(p: Params, pk: Packet) {
    && ValidParams(p) && p.start + SLOTS * TIME_INT_PER_BUFFER < PCKT_MODULUS
    && Accepts(p, pk) && PacketFilter(pk.pckt) == p.start
  }

  /** Its block is handed over as full and nothing is counted as missing, with all cells but one unwritten. */
  lemma CopiesFillABlock(p: Params, pk: Packet, batches: seq<seq<Packet>>)
    requires OfFirstBlock(p, pk) && |batches| == 1 && Copies(batches[0], pk, PacketsPerBlock(p))
    ensures var w := Run(p, batches);
            && |w.handed| == 1 && w.noMissing == 0 && Faithful(p, w.handed[0]) && w.handed[0].nToFull == 0
            && |Cells(p) - Written(p, w.handed[0].got)| == PacketsPerBlock(p) - 1
  {
    var w := Run(p, batches);
    BooksTheorem(p, batches);
    OneBatch(p, batches);
    CopiesHanded(p, Open(p), w, pk, batches[0]);
    OneCell(p, pk, w.handed[0].got);
  }

  lemma CopiesHanded(p: Params, w0: Window, w: Window, pk: Packet, batch: seq<Packet>)
    requires OfFirstBlock(p, pk) && Copies(batch, pk, PacketsPerBlock(p)) && w0 == Open(p) && w == Turn(p, w0, batch)
    ensures |w.handed| == 1 && w.noMissing == 0 && w.handed[0].nToFull == 0 && w.handed[0].got == batch && |batch| > 0
  {
    CopiesFill(p, w0, pk, batch);
    var full := FillsFirst(p, w0, batch, w);
    NotEarlier(p.start, w0.nextPkt);
  }

  lemma NotEarlier(mark: nat, packetNo: nat)
    requires mark <= packetNo < mark + 0x1000
    ensures !IsEarlier(packetNo, mark)
  {
  }

  lemma CopiesFill(p: Params, w0: Window, pk: Packet, batch: seq<Packet>)
    requires OfFirstBlock(p, pk) && Copies(batch, pk, PacketsPerBlock(p)) && w0 == Open(p)
    ensures Fills(p, w0, batch) && w0.nextPkt == p.start + SLOTS * TIME_INT_PER_BUFFER
    ensures w0.slots[0].packetNo == p.start && w0.handed == [] && w0.noMissing == 0
  {
    CellInBlock(p, 0, 0, 0);
    assert forall i :: 0 <= i < SLOTS ==> w0.slots[i] == FreshSlot(p, p.start + i * TIME_INT_PER_BUFFER, i + 1);
    assert ForFirst(p, w0, batch);
    forall i: nat | 1 <= i < SLOTS ensures !IsEarlier(w0.slots[i].packetNo, w0.slots[0].packetNo) {
      NotEarlier(p.start, w0.slots[i].packetNo);
    }
  }

  lemma OneCell(p: Params, pk: Packet, got: seq<Packet>)
    requires ValidParams(p) && Accepts(p, pk) && |got| > 0 && Copies(got, pk, |got|) && AllAccepted(p, got)
    ensures |Cells(p) - Written(p, got)| == PacketsPerBlock(p) - 1
  {
    var xs := CellsOf(p, got);
    var c := CellOf(p, pk);
    assert forall i :: 0 <= i < |xs| ==> xs[i] == c;
    assert xs[0] in ToSet(xs);
    assert Written(p, got) == {c};
    AllButOne(Cells(p), PacketsPerBlock(p), c);
  }

  lemma AllButOne(s: set<nat>, n: nat, c: nat)
    requires c < n && |s| == n && forall x: nat :: x in s <==> x < n
    ensures |s - {c}| == n - 1
  {
    assert c in s;
  }

  // A wrap of the packet number.

  const LAST_BUT_ONE: nat := PCKT_MODULUS - 2 * TIME_INT_PER_BUFFER

  function BlockPackets(packetNo: nat): seq<Packet>
    requires packetNo + TIME_INT_PER_BUFFER <= PCKT_MODULUS
  {
    seq<Packet>(TIME_INT_PER_BUFFER, r requires 0 <= r < TIME_INT_PER_BUFFER => PacketNo(packetNo + r))
  }

  /** The block before the last of the counter, then block 640 after the wrap. */
  function WrapBatches(): seq<seq<Packet>> {
    [BlockPackets(LAST_BUT_ONE), BlockPackets(640)]
  }

  lemma BlockIsForFirst(p: Params, w: Window, packetNo: nat)
    requires p == Single(p.start) && Shape(p, w) && w.slots[0].packetNo == packetNo
    requires packetNo % TIME_INT_PER_BUFFER == 0 && packetNo + TIME_INT_PER_BUFFER <= PCKT_MODULUS
    ensures ForFirst(p, w, BlockPackets(packetNo))
  {
    forall r | 0 <= r < TIME_INT_PER_BUFFER
      ensures Accepts(p, BlockPackets(packetNo)[r]) && PacketFilter(BlockPackets(packetNo)[r].pckt) == packetNo
    {
      SingleAccepts(p, packetNo + r);
      FilterPlusRest(packetNo + r, packetNo, r);
    }
  }

  /** After the first batch slot 0 waits for block 640, and the last block of the counter still waits in slot 1. */
  lemma FirstWrapBatch(p: Params, w: Window)
    requires p == Single(LAST_BUT_ONE) && ValidParams(p) && w == Turn(p, Open(p), BlockPackets(LAST_BUT_ONE))
    ensures Shape(p, w) && OthersNew(p, w)
    ensures w.slots[0] == FreshSlot(p, 640, 8) && w.nextPkt == 768 && w.nextOrder == 9
    ensures forall i :: 1 <= i < SLOTS ==> w.slots[i] == Open(p).slots[i]
    ensures |w.handed| == 2 && w.handed[0].order == 1 && w.handed[1].order == 7
  {
    var w0 := Open(p);
    OpenSingle(p, w0);
    var batch := BlockPackets(LAST_BUT_ONE);
    BlockIsForFirst(p, w0, LAST_BUT_ONE);
    var full := FillsFirst(p, w0, batch, w);
    var v := Handed(p, w0, full);
    assert v.slots[0] == FreshSlot(p, 512, 7) && v.nextPkt == 640 && v.lastSent == LAST_BUT_ONE;
    assert IsEarlier(512, LAST_BUT_ONE);
  }

  /**
   Past the wrap the oldest block is left behind: the second batch hands over block 8 although block 2, with the
   last packet numbers before the wrap, is the lowest of the window; it is older in the circular order than the
   last packet number sent, and the test does not see it.
   */
  lemma WrapIsMissed(p: Params, w1: Window, w2: Window)
    requires p == Single(LAST_BUT_ONE) && ValidParams(p)
    requires w1 == Run(p, WrapBatches()[..1]) && w2 == Run(p, WrapBatches())
    ensures && |w1.handed| == 2 && |w2.handed| == 3 && w2.handed[2].order == 8
            && w1.slots[1].order == w2.slots[1].order == 2
            && (forall i :: 0 <= i < SLOTS ==> w1.slots[i].order >= 2)
            && CircularlyEarlier(w2.slots[1].packetNo, w2.lastSent) && !IsEarlier(w2.slots[1].packetNo, w2.lastSent)
  {
    var batches := WrapBatches();
    OneBatch(p, batches[..1]);
    FirstWrapBatch(p, w1);
    SecondWrapBatch(p, w1, w2);
    CircularDistance(PCKT_MODULUS - TIME_INT_PER_BUFFER, 640);
  }

  lemma SecondWrapBatch(p: Params, w: Window, w': Window)
    requires p == Single(LAST_BUT_ONE) && ValidParams(p) && Shape(p, w) && OthersNew(p, w)
    requires w.slots[0] == FreshSlot(p, 640, 8) && w.nextPkt == 768 && w.nextOrder == 9
    requires forall i :: 1 <= i < SLOTS ==> w.slots[i].packetNo >= PCKT_MODULUS - TIME_INT_PER_BUFFER
    requires w' == Turn(p, w, BlockPackets(640))
    ensures w'.slots[1..] == w.slots[1..] && w'.lastSent == 640
    ensures |w'.handed| == |w.handed| + 1 && w'.handed[|w.handed|].order == 8
  {
    var batch := BlockPackets(640);
    BlockIsForFirst(p, w, 640);
    var full := FillsFirst(p, w, batch, w');
    assert !IsEarlier(768, 640);
  }
}
