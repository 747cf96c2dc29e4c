/**
 The worker's sliding window (full_custom/processing_thread.c:76-193), as functions on values.

 Six slots, each collecting one block of 128 packet times.  A batch of packets is placed into the
 slots; then every full slot is handed over and reused for the next block, then every slot older
 than the last one sent.  Each slot also remembers which packets went into it (`got`).
 */
module Window {
  import opened DataFormats
  import Pieces
  import Radix

  const SLOTS: nat := N_FILE_BUFFERS_AT_A_TIME

  /** antNumbers entry that no antenna has claimed: (uint32_t) -1. */
  const UNCLAIMED: int := 0xffff_ffff

  datatype Params = Params(nAnts: nat, nchans: nat, firstChan: nat, ants: seq<int>, start: nat)

  predicate ValidParams(p: Params) {
    && 1 <= p.nAnts <= MAX_NO_ANTS
    && 1 <= p.nchans <= MAX_CHANNEL_PACKETS
    && p.firstChan < 0x1_0000_0000
    && |p.ants| == MAX_NO_ANTS
    && p.start % TIME_INT_PER_BUFFER == 0 && p.start < PCKT_MODULUS
  }

  function PacketsPerBlock(p: Params): nat {
    p.nAnts * p.nchans * TIME_INT_PER_BUFFER
  }

  function BlockLen(p: Params): nat {
    PacketsPerBlock(p) * RX_DATA_LEN
  }

  datatype Slot = Slot(packetNo: nat, order: nat, nToFull: int, block: seq<byte>, got: seq<Packet>)

  /** `handed` lists the slots given to the writer, as they were, oldest call first. */
  datatype Window = Window(
    slots: seq<Slot>, nextOrder: nat, nextPkt: nat, lastSent: nat, noMissing: int, handed: seq<Slot>)

  // Which packets are accepted, and where they go.

  /** The index of `ant` among the first n entries, or -1. */
  function AntIndex(ants: seq<int>, ant: int, n: nat): (r: int)
    requires n <= |ants|
    ensures -1 <= r < n
    ensures r == -1 <==> ant !in ants[..n]
    ensures r >= 0 ==> ants[r] == ant && ant !in ants[..r]
  {
    if n == 0 then -1
    else
      var r := AntIndex(ants, ant, n - 1);
      assert ants[..n] == ants[..n - 1] + [ants[n - 1]];
      if r != -1 then r else if ants[n - 1] == ant then n - 1 else -1
  }

  function ToInt32(x: nat): int {
    var y := x % 0x1_0000_0000;
    if y < 0x8000_0000 then y else y - 0x1_0000_0000
  }

  /** The subtraction and division are unsigned 64-bit, and the quotient is stored in an int. */
  function ChanIndex(chan: nat, firstChan: nat): int {
    ToInt32((chan - firstChan) % 0x1_0000_0000_0000_0000 / CHANS_PER_PACKET)
  }

  /** Despite the wrap-around the result is the floor of the true quotient, so early channels come out negative. */
  lemma ChanIndexIsFloor(chan: nat, firstChan: nat)
    requires chan < 0x1000 && firstChan < 0x1_0000_0000
    ensures ChanIndex(chan, firstChan) == (chan - firstChan) / CHANS_PER_PACKET
    ensures ChanIndex(chan, firstChan) < 0 <==> chan < firstChan
  {
    if chan < firstChan {
      var d := firstChan - chan;
      assert (chan - firstChan) % 0x1_0000_0000_0000_0000 == 0x1_0000_0000_0000_0000 - d;
      var q := (0x1_0000_0000_0000_0000 - d) / 256;
      assert q == 0x100_0000_0000_0000 + (-d) / 256;
      assert q == 0xff_ffff * 0x1_0000_0000 + (0x1_0000_0000 + (-d) / 256);
    }
  }

  function AntOf(p: Params, pk: Packet): int
    requires ValidParams(p)
  {
    AntIndex(p.ants, pk.ant, p.nAnts)
  }

  function ChanOf(p: Params, pk: Packet): int {
    ChanIndex(pk.chan, p.firstChan)
  }

  predicate Accepts(p: Params, pk: Packet)
    requires ValidParams(p)
  {
    pk.volt && AntOf(p, pk) != -1 && AntOf(p, pk) < MAX_NO_ANTS && 0 <= ChanOf(p, pk) < p.nchans
  }

  /** What the recorder is to keep: voltage data of an antenna of the table, in the recorded channels. */
  predicate Wanted(p: Params, pk: Packet)
    requires ValidParams(p)
  {
    pk.volt && pk.ant in p.ants[..p.nAnts] && p.firstChan <= pk.chan < p.firstChan + CHANS_PER_PACKET * p.nchans
  }

  /** Channel groups of 256, counted from firstChan. */
  function Group(p: Params, pk: Packet): int {
    (pk.chan - p.firstChan) / CHANS_PER_PACKET
  }

  /** The worker's test accepts exactly those packets, and finds their antenna and channel group. */
  lemma AcceptsIff(p: Params, pk: Packet)
    requires ValidParams(p)
    ensures Accepts(p, pk) <==> Wanted(p, pk)
    ensures ChanOf(p, pk) == Group(p, pk)
    ensures Accepts(p, pk) ==> 0 <= AntOf(p, pk) < p.nAnts && p.ants[AntOf(p, pk)] == pk.ant
  {
    ChanIndexIsFloor(pk.chan, p.firstChan);
  }

  /** A cell holds the data of one packet; cells run over time, then antenna, then channel group. */
  function Cell(p: Params, rest: nat, ant: nat, chan: nat): nat {
    rest * p.nAnts * p.nchans + ant * p.nchans + chan
  }

  lemma CellInBlock(p: Params, rest: nat, ant: nat, chan: nat)
    requires rest < TIME_INT_PER_BUFFER && ant < p.nAnts && chan < p.nchans
    ensures Cell(p, rest, ant, chan) < PacketsPerBlock(p)
    ensures (Cell(p, rest, ant, chan) + 1) * RX_DATA_LEN <= BlockLen(p)
  {
    Radix.FlatBound(rest, TIME_INT_PER_BUFFER, ant, p.nAnts);
    Radix.FlatBound(rest * p.nAnts + ant, TIME_INT_PER_BUFFER * p.nAnts, chan, p.nchans);
    Radix.Distribute(rest * p.nAnts, ant, p.nchans);
    Radix.Regroup(TIME_INT_PER_BUFFER, p.nAnts, p.nchans);
  }

  function CellOf(p: Params, pk: Packet): (c: nat)
    requires ValidParams(p) && Accepts(p, pk)
    ensures c < PacketsPerBlock(p) && (c + 1) * RX_DATA_LEN <= BlockLen(p)
  {
    CellInBlock(p, PacketRest(pk.pckt), AntOf(p, pk), ChanOf(p, pk));
    Cell(p, PacketRest(pk.pckt), AntOf(p, pk), ChanOf(p, pk))
  }

  function Zeros(n: nat): (z: seq<byte>)
    ensures |z| == n
  {
    seq(n, _ => 0)
  }

  ghost predicate Shape(p: Params, w: Window) {
    && ValidParams(p)
    && |w.slots| == SLOTS
    && forall i :: 0 <= i < SLOTS ==> |w.slots[i].block| == BlockLen(p)
  }

  /** findStructIndex. */
  function FindSlot(slots: seq<Slot>, packetNo: nat): (r: int)
    ensures -1 <= r < |slots|
    ensures r == -1 <==> forall i :: 0 <= i < |slots| ==> slots[i].packetNo != packetNo
    ensures r >= 0 ==> slots[r].packetNo == packetNo
    ensures r >= 0 ==> forall i :: 0 <= i < r ==> slots[i].packetNo != packetNo
  {
    if slots == [] then -1
    else
      var r := FindSlot(slots[..|slots| - 1], packetNo);
      if r != -1 then r
      else if slots[|slots| - 1].packetNo == packetNo then |slots| - 1
      else -1
  }

  function Store(p: Params, s: Slot, pk: Packet): (s': Slot)
    requires ValidParams(p) && Accepts(p, pk) && |s.block| == BlockLen(p)
    ensures |s'.block| == BlockLen(p)
  {
    s.(block := Pieces.Overwrite(s.block, CellOf(p, pk) * RX_DATA_LEN, pk.payload),
       nToFull := s.nToFull - 1, got := s.got + [pk])
  }

  function Place(p: Params, w: Window, pk: Packet): (w': Window)
    requires Shape(p, w)
    ensures Shape(p, w')
  {
    if !Accepts(p, pk) then w
    else
      var k := FindSlot(w.slots, PacketFilter(pk.pckt));
      if k == -1 then w else w.(slots := w.slots[k := Store(p, w.slots[k], pk)])
  }

  /** The first n packets of the batch. */
  function PlaceFirst(p: Params, w: Window, batch: seq<Packet>, n: nat): (w': Window)
    requires Shape(p, w) && n <= |batch|
    ensures Shape(p, w')
  {
    if n == 0 then w else Place(p, PlaceFirst(p, w, batch, n - 1), batch[n - 1])
  }

  // Handing over.

  function FreshSlot(p: Params, packetNo: nat, order: nat): Slot {
    Slot(packetNo, order, PacketsPerBlock(p), Zeros(BlockLen(p)), [])
  }

  /** Hand over slot k and reuse it for the next block. */
  function Recycle(p: Params, w: Window, k: nat): (w': Window)
    requires Shape(p, w) && k < SLOTS
    ensures Shape(p, w')
  {
    w.(slots := w.slots[k := FreshSlot(p, w.nextPkt, w.nextOrder)],
       nextOrder := w.nextOrder + 1,
       nextPkt := (w.nextPkt + TIME_INT_PER_BUFFER) % PCKT_MODULUS,
       handed := w.handed + [w.slots[k]])
  }

  datatype Sweep = Sweep(w: Window, nStarted: nat)

  /** First loop, slot k: a full slot goes; a started one is counted. */
  function SendFullAt(p: Params, r: Sweep, k: nat): (r': Sweep)
    requires Shape(p, r.w) && k < SLOTS
    ensures Shape(p, r'.w)
  {
    var s := r.w.slots[k];
    if s.nToFull == 0 then Sweep(Recycle(p, r.w.(lastSent := s.packetNo), k), r.nStarted)
    else if s.nToFull < PacketsPerBlock(p) then Sweep(r.w, r.nStarted + 1)
    else r
  }

  /** First loop, slots 0..n-1. */
  function SendFull(p: Params, w: Window, n: nat): (r: Sweep)
    requires Shape(p, w) && n <= SLOTS
    ensures Shape(p, r.w)
  {
    if n == 0 then Sweep(w, 0) else SendFullAt(p, SendFull(p, w, n - 1), n - 1)
  }

  /** When most slots have been started the older half is given up. */
  function MarkHalf(r: Sweep): Window {
    if r.nStarted > SLOTS - 2
    then r.w.(lastSent := (r.w.nextPkt - TIME_INT_PER_BUFFER * SLOTS / 2) % PCKT_MODULUS)
    else r.w
  }

  /** The test for older data, with its branch for packet numbers that have wrapped. */
  predicate IsEarlier(packetNo: nat, lastSent: nat) {
    || (lastSent > SLOTS / 2 && packetNo < lastSent)
    || (lastSent <= SLOTS / 2 && packetNo > (PCKT_MODULUS - 1) / 2
        && packetNo < PCKT_MODULUS - 1 + lastSent - SLOTS / 2)
  }

  /** Second loop, slot k: an older slot goes, complete or not. */
  function SendEarlierAt(p: Params, v: Window, k: nat): (v': Window)
    requires Shape(p, v) && k < SLOTS
    ensures Shape(p, v') && v'.nextOrder >= v.nextOrder
  {
    if IsEarlier(v.slots[k].packetNo, v.lastSent)
    then Recycle(p, v.(noMissing := v.noMissing + v.slots[k].nToFull), k)
    else v
  }

  /** Second loop, slots 0..n-1. */
  function SendEarlier(p: Params, w: Window, n: nat): (w': Window)
    requires Shape(p, w) && n <= SLOTS
    ensures Shape(p, w')
  {
    if n == 0 then w else SendEarlierAt(p, SendEarlier(p, w, n - 1), n - 1)
  }

  /** One pass of the worker's main loop; a batch without a whole packet is skipped. */
  function Turn(p: Params, w: Window, batch: seq<Packet>): (w': Window)
    requires Shape(p, w)
    ensures Shape(p, w')
  {
    if batch == [] then w
    else SendEarlier(p, MarkHalf(SendFull(p, PlaceFirst(p, w, batch, |batch|), SLOTS)), SLOTS)
  }

  function Open(p: Params): (w: Window)
    requires ValidParams(p)
    ensures Shape(p, w)
  {
    Window(seq(SLOTS, i requires 0 <= i < SLOTS => FreshSlot(p, p.start + i * TIME_INT_PER_BUFFER, i + 1)),
           SLOTS + 1,
           (p.start + SLOTS * TIME_INT_PER_BUFFER) % PCKT_MODULUS,
           p.start, 0, [])
  }

  /** The window after the given batches. */
  function Run(p: Params, batches: seq<seq<Packet>>): (w: Window)
    requires ValidParams(p)
    ensures Shape(p, w)
  {
    if batches == [] then Open(p)
    else Turn(p, Run(p, batches[..|batches| - 1]), batches[|batches| - 1])
  }
}
