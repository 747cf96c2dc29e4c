/**
 From received packet to byte of the final file: the worker's run, the file pool and writer under any
 schedule, and the converter, composed.
 */
module EndToEnd {
  import opened DataFormats
  import opened Window
  import opened BlockContents
  import opened Recording
  import Arrivals
  import BufferPool
  import Converter
  import FilePipeline
  import OldestFirst
  import Overtaking
  import Pieces
  import PoolFifo
  import PoolProtocol
  import Progress
  import Radix
  import Reception
  import UdpBatch
  import Worker
  import Writer
  import WindowLedger

  type Block = Writer.Block

  /** The blocks the worker hands over, in the order of its calls. */
  function PlanOf(handed: seq<Slot>): (plan: seq<Block>)
    ensures |plan| == |handed|
    ensures forall k :: 0 <= k < |plan| ==> plan[k] == Writer.Block(handed[k].order, handed[k].block)
  {
    seq(|handed|, k requires 0 <= k < |handed| => Writer.Block(handed[k].order, handed[k].block))
  }

  /** fileBuffStruct as the worker leaves it after the first batch. */
  ghost function HeaderOf(p: Params): (h: Header)
    requires ValidParams(p) && Worker.AntsFit(p)
    ensures Fits(h) && |h.ants| == p.nAnts
  {
    Header(seq(p.nAnts, i requires 0 <= i < p.nAnts => p.ants[i]), p.nchans, p.firstChan, p.start)
  }

  /** The worker's hand-over sequence meets what the pipeline asks of it. */
  lemma PlanIsGood(p: Params, batches: seq<seq<Packet>>)
    requires ValidParams(p) && WindowLedger.NoWrap(p, Run(p, batches)) &&
             Run(p, batches).nextOrder <= BufferPool.INT_MAX
    ensures FilePipeline.PlanOk(PlanOf(Run(p, batches).handed))
    ensures Progress.FirstSoon(PlanOf(Run(p, batches).handed))
  {
    var w := Run(p, batches);
    OldestFirst.LedgerTheorem(p, batches);
    OldestFirst.FirstHandOver(p, batches);
    assert forall j :: 0 <= j < |w.handed| ==> WindowLedger.Listed(p, w, w.handed[j]);
  }

  /**
   A reachable state of the recorder with one file, the worker having processed the given batches (or more of them
   than have reached the pool).
   */
  ghost predicate Session(p: Params, batches: seq<seq<Packet>>, s: FilePipeline.Sys) {
    && ValidParams(p) && Worker.AntsFit(p)
    && WindowLedger.NoWrap(p, Run(p, batches)) && Run(p, batches).nextOrder <= BufferPool.INT_MAX
    && FilePipeline.Reachable(HeaderOf(p), PlanOf(Run(p, batches).handed), s)
    && |s.wr.files| == 1
  }

  /** The recorded file. */
  ghost function FileBytes(f: Writer.File): seq<byte> {
    HeaderBytes(f.header) + f.data
  }

  /** The byte at a position, or -1 past the end. */
  function At(s: seq<byte>, i: int): int {
    if 0 <= i < |s| then s[i] else -1
  }

  // The file's data are the blocks 1, 2, 3, ..., each of full length.

  ghost function BlocksOf(plan: seq<Block>, orders: seq<int>): (r: seq<seq<byte>>)
    requires forall i :: 0 <= i < |orders| ==> FilePipeline.Lookup(plan, orders[i]) >= 0
    ensures |r| == |orders|
    ensures forall i :: 0 <= i < |r| ==> r[i] == plan[FilePipeline.Lookup(plan, orders[i])].d
  {
    seq(|orders|, i requires 0 <= i < |orders| => plan[FilePipeline.Lookup(plan, orders[i])].d)
  }

  lemma {:induction false} JoinedIsJoin(plan: seq<Block>, orders: seq<int>)
    requires forall i :: 0 <= i < |orders| ==> FilePipeline.Lookup(plan, orders[i]) >= 0
    ensures FilePipeline.Joined(plan, orders) == Pieces.Join(BlocksOf(plan, orders))
  {
    if orders != [] {
      var n := |orders| - 1;
      JoinedIsJoin(plan, orders[..n]);
      assert BlocksOf(plan, orders)[..n] == BlocksOf(plan, orders[..n]);
    }
  }

  /** A file of the orders 1, 2, 3, ..., whose blocks all have the same length. */
  ghost predicate FromOne(plan: seq<Block>, f: Writer.File, len: nat) {
    && (forall i :: 0 <= i < |f.orders| ==> f.orders[i] == i + 1)
    && FilePipeline.FileIntact(plan, f)
    && (forall k :: 0 <= k < |plan| ==> |plan[k].d| == len)
  }

  lemma BlockAt(plan: seq<Block>, f: Writer.File, len: nat, m: nat, y: nat)
    requires FromOne(plan, f, len) && 1 <= m <= |f.orders| && y < len
    ensures FilePipeline.Lookup(plan, m) >= 0
    ensures At(f.data, (m - 1) * len + y) == plan[FilePipeline.Lookup(plan, m)].d[y]
  {
    assert f.orders[m - 1] == m;
    JoinedAt(plan, f.orders, len, m - 1, y);
  }

  lemma JoinedAt(plan: seq<Block>, orders: seq<int>, len: nat, t: nat, y: nat)
    requires forall i :: 0 <= i < |orders| ==> FilePipeline.Lookup(plan, orders[i]) >= 0
    requires forall k :: 0 <= k < |plan| ==> |plan[k].d| == len
    requires t < |orders| && y < len
    ensures At(FilePipeline.Joined(plan, orders), t * len + y) == plan[FilePipeline.Lookup(plan, orders[t])].d[y]
  {
    JoinedIsJoin(plan, orders);
    Pieces.JoinAt(BlocksOf(plan, orders), len, t, y);
  }

  lemma DataLen(plan: seq<Block>, f: Writer.File, len: nat)
    requires FromOne(plan, f, len)
    ensures |f.data| == |f.orders| * len
  {
    JoinedIsJoin(plan, f.orders);
    Pieces.JoinLen(BlocksOf(plan, f.orders), len);
  }

  /**
   A recording of the handed-over blocks: the header, the blocks in place, and each block what its packets make it.
   */
  ghost predicate Recorded(p: Params, handed: seq<Slot>, f: Writer.File) {
    && ValidParams(p) && Worker.AntsFit(p) && f.header == HeaderOf(p)
    && FilePipeline.PlanOk(PlanOf(handed)) && FromOne(PlanOf(handed), f, BlockLen(p))
    && forall k :: 0 <= k < |handed| ==>
         Faithful(p, handed[k]) && handed[k].packetNo == WindowLedger.PacketNoOf(p, handed[k].order)
  }

  lemma SessionRecords(p: Params, batches: seq<seq<Packet>>, s: FilePipeline.Sys)
    requires Session(p, batches, s)
    ensures Recorded(p, Run(p, batches).handed, s.wr.files[0])
  {
    var w := Run(p, batches);
    PlanIsGood(p, batches);
    BooksTheorem(p, batches);
    OldestFirst.LedgerTheorem(p, batches);
    assert forall k :: 0 <= k < |w.handed| ==> WindowLedger.Listed(p, w, w.handed[k]);
    FileRecords(p, w.handed, s);
  }

  lemma FileRecords(p: Params, handed: seq<Slot>, s: FilePipeline.Sys)
    requires ValidParams(p) && Worker.AntsFit(p) && FilePipeline.PlanOk(PlanOf(handed))
    requires FilePipeline.Reachable(HeaderOf(p), PlanOf(handed), s) && |s.wr.files| == 1
    requires forall k :: 0 <= k < |handed| ==> Faithful(p, handed[k])
    ensures s.wr.files[0].header == HeaderOf(p)
    ensures FromOne(PlanOf(handed), s.wr.files[0], BlockLen(p))
  {
    FilePipeline.Conservation(HeaderOf(p), PlanOf(handed), s);
    assert Writer.Consecutive(s.wr.files[0].orders);
  }

  // Positions: packet time t of the recording, antenna a, channel group g, sample i, byte n of the line.

  /** Offset in an antenna's output. */
  function OutOffset(nchans: nat, t: nat, i: nat, g: nat, n: nat): nat {
    (t * SAMPLES_PER_PACKET + i) * nchans * Converter.LINE + g * Converter.LINE + n
  }

  lemma OutOffsetIs(nch: nat, t: nat, i: nat, g: nat, n: nat)
    requires i < SAMPLES_PER_PACKET && g < nch && n < Converter.LINE
    ensures OutOffset(nch, t, i, g, n) == t * Converter.OutLen(nch) + Converter.OutIndex(nch, g, i, n)
  {
    Radix.Distribute(t * SAMPLES_PER_PACKET, i, nch);
    Radix.Regroup(t, SAMPLES_PER_PACKET, nch);
    Radix.Regroup(t, nch, RX_DATA_LEN);
  }

  /** The converter's input offset is the block's start plus the packet's cell plus the place in the packet. */
  lemma InOffsetIs(p: Params, m: nat, r: nat, a: nat, g: nat, i: nat, n: nat)
    requires 1 <= m
    ensures ((m - 1) * TIME_INT_PER_BUFFER + r) * Converter.InLen(p.nAnts, p.nchans)
            + Converter.InIndex(p.nchans, a, g, i, n)
            == (m - 1) * BlockLen(p) + (Cell(p, r, a, g) * RX_DATA_LEN + (i * Converter.LINE + n))
  {
    var u := p.nAnts * p.nchans;
    var d := m - 1;
    assert Converter.InLen(p.nAnts, p.nchans) == u * RX_DATA_LEN;
    assert BlockLen(p) == u * TIME_INT_PER_BUFFER * RX_DATA_LEN;
    Radix.Distribute(d * TIME_INT_PER_BUFFER, r, u * RX_DATA_LEN);
    Blocks(d, u);
    CellIs(p, r, a, g, u);
    Radix.Regroup(r, u, RX_DATA_LEN);
    Radix.Regroup(a, RX_DATA_LEN, p.nchans);
  }

  lemma Blocks(d: nat, u: nat)
    ensures d * TIME_INT_PER_BUFFER * (u * RX_DATA_LEN) == d * (u * TIME_INT_PER_BUFFER * RX_DATA_LEN)
  {
    Radix.Regroup(d, TIME_INT_PER_BUFFER, u * RX_DATA_LEN);
  }

  lemma CellIs(p: Params, r: nat, a: nat, g: nat, u: nat)
    requires u == p.nAnts * p.nchans
    ensures Cell(p, r, a, g) == r * u + a * p.nchans + g
  {
    Radix.Regroup(r, p.nAnts, p.nchans);
  }

  /** Each block is 128 chunks. */
  lemma ChunkCount(p: Params, data: seq<byte>, k: nat)
    requires ValidParams(p) && |data| == k * BlockLen(p)
    ensures Converter.InLen(p.nAnts, p.nchans) > 0
    ensures k * TIME_INT_PER_BUFFER * Converter.InLen(p.nAnts, p.nchans) == |data|
    ensures Converter.Chunks(data, p.nAnts, p.nchans) == k * TIME_INT_PER_BUFFER
  {
    Radix.FlatBound(0, p.nAnts, 0, p.nchans);
    var len := Converter.InLen(p.nAnts, p.nchans);
    Blocks(k, p.nAnts * p.nchans);
    Radix.FlatDivMod(k * TIME_INT_PER_BUFFER, 0, len);
  }

  /** What the converter writes for antenna a, in the 4-bit form. */
  ghost function Output(p: Params, data: seq<byte>, a: nat): seq<byte>
    requires ValidParams(p) && a < p.nAnts
  {
    Radix.FlatBound(0, p.nAnts, 0, p.nchans);
    Converter.AntStream(data, p.nAnts, p.nchans, a, Converter.Chunks(data, p.nAnts, p.nchans))
  }

  /** Byte b of cell c of block m of a recording. */
  ghost function DataByte(p: Params, data: seq<byte>, m: int, c: nat, b: nat): int {
    At(data, (m - 1) * BlockLen(p) + (c * RX_DATA_LEN + b))
  }

  /**
   Byte ((t*16+i)*nchans*512 + g*512 + n) of the output, t = (m-1)*128 + r, is byte i*512 + n of cell (r, a, g) of
   block m.
   */
  lemma Layout(p: Params, data: seq<byte>, k: nat, m: nat, r: nat, a: nat, g: nat, i: nat, n: nat)
    requires ValidParams(p) && |data| == k * BlockLen(p) && 1 <= m <= k
    requires r < TIME_INT_PER_BUFFER && a < p.nAnts && g < p.nchans && i < SAMPLES_PER_PACKET && n < Converter.LINE
    ensures At(Output(p, data, a), OutOffset(p.nchans, (m - 1) * TIME_INT_PER_BUFFER + r, i, g, n))
            == DataByte(p, data, m, Cell(p, r, a, g), i * Converter.LINE + n)
  {
    var nAnts, nch := p.nAnts, p.nchans;
    var t := (m - 1) * TIME_INT_PER_BUFFER + r;
    ChunkCount(p, data, k);
    OutOffsetIs(nch, t, i, g, n);
    Converter.OutBounds(nch, g, i, n);
    var x := Converter.OutIndex(nch, g, i, n);
    Converter.AntStreamAt(data, nAnts, nch, a, k * TIME_INT_PER_BUFFER, t, x);
    Converter.SourceAt(nAnts, nch, a, g, i, n, x);
    InOffsetIs(p, m, r, a, g, i, n);
  }

  // The theorem, first for one faithful block in a file, then for the recorder's runs.

  /** The data in a cell of a block: those of the last packet accepted for it, and zeros if there was none. */
  ghost function CellByte(p: Params, got: seq<Packet>, cell: nat, b: nat): byte
    requires ValidParams(p) && AllAccepted(p, got) && b < RX_DATA_LEN
  {
    var last := LastInto(p, got, cell);
    if last == -1 then 0 else got[last].payload[b]
  }

  /** The data have the block in place m. */
  ghost predicate Placed(data: seq<byte>, len: nat, m: int, block: seq<byte>) {
    && |block| == len
    && forall y :: 0 <= y < len ==> At(data, (m - 1) * len + y) == block[y]
  }

  /** The block is one of the k blocks of a recording, in the place of its order, and is what its packets make it. */
  ghost predicate InData(p: Params, data: seq<byte>, k: nat, slot: Slot) {
    && ValidParams(p) && |data| == k * BlockLen(p) && 1 <= slot.order <= k
    && slot.packetNo == WindowLedger.PacketNoOf(p, slot.order)
    && Faithful(p, slot) && Placed(data, BlockLen(p), slot.order, slot.block)
  }

  lemma SlotByte(p: Params, slot: Slot, c: nat, b: nat)
    requires ValidParams(p) && Faithful(p, slot) && c < PacketsPerBlock(p) && b < RX_DATA_LEN
    ensures c * RX_DATA_LEN + b < |slot.block|
    ensures slot.block[c * RX_DATA_LEN + b] == CellByte(p, slot.got, c, b)
  {
    ContentAt(p, slot.got, c, b);
  }

  lemma PlacedAt(data: seq<byte>, len: nat, m: int, block: seq<byte>, y: nat)
    requires Placed(data, len, m, block) && y < len
    ensures At(data, (m - 1) * len + y) == block[y]
  {
  }

  lemma BlockByte(p: Params, data: seq<byte>, k: nat, slot: Slot, c: nat, b: nat)
    requires InData(p, data, k, slot) && c < PacketsPerBlock(p) && b < RX_DATA_LEN
    ensures DataByte(p, data, slot.order, c, b) == CellByte(p, slot.got, c, b)
  {
    SlotByte(p, slot, c, b);
    PlacedAt(data, BlockLen(p), slot.order, slot.block, c * RX_DATA_LEN + b);
  }

  /**
   Every byte of the output, for each packet time r of a block, antenna a, channel group g, sample i and byte n of
   the line.
   */
  lemma EveryByte(p: Params, data: seq<byte>, k: nat, slot: Slot, r: nat, a: nat, g: nat, i: nat, n: nat)
    requires InData(p, data, k, slot)
    requires r < TIME_INT_PER_BUFFER && a < p.nAnts && g < p.nchans && i < SAMPLES_PER_PACKET && n < Converter.LINE
    ensures At(Output(p, data, a), OutOffset(p.nchans, (slot.order - 1) * TIME_INT_PER_BUFFER + r, i, g, n))
            == CellByte(p, slot.got, Cell(p, r, a, g), i * Converter.LINE + n)
  {
    CellInBlock(p, r, a, g);
    BlockByte(p, data, k, slot, Cell(p, r, a, g), i * Converter.LINE + n);
    Layout(p, data, k, slot.order, r, a, g, i, n);
  }

  /** Packet j of a block was not overwritten; with no duplicates that is every packet of the block. */
  ghost predicate Kept(p: Params, got: seq<Packet>, j: nat)
    requires ValidParams(p) && AllAccepted(p, got)
  {
    j < |got| && forall i :: j < i < |got| ==> CellOf(p, got[i]) != CellOf(p, got[j])
  }

  lemma KeptByte(p: Params, got: seq<Packet>, j: nat, b: nat)
    requires ValidParams(p) && AllAccepted(p, got) && Kept(p, got, j) && b < RX_DATA_LEN
    ensures CellByte(p, got, CellOf(p, got[j]), b) == got[j].payload[b]
  {
    assert LastInto(p, got, CellOf(p, got[j])) == j;
  }

  /** Sample i, channel c (counted from firstChan) and polarisation q of the packet time t after the start. */
  function FinalOffset(nchans: nat, t: int, i: nat, c: nat, q: nat): int {
    (t * SAMPLES_PER_PACKET + i) * nchans * 512 + 2 * c + q
  }

  lemma OffsetOf(nch: nat, t: nat, i: nat, c: nat, q: nat, g: nat, n: nat)
    requires g == c / CHANS_PER_PACKET && n == 2 * (c % CHANS_PER_PACKET) + q
    ensures OutOffset(nch, t, i, g, n) == FinalOffset(nch, t, i, c, q)
  {
    assert g * Converter.LINE + n == 2 * c + q;
  }

  /** The packet time of a packet follows from its block and its place in it. */
  lemma PacketTime(p: Params, slot: Slot, j: nat)
    requires ValidParams(p) && Faithful(p, slot) && j < |slot.got| &&
             slot.packetNo == WindowLedger.PacketNoOf(p, slot.order)
    ensures slot.got[j].pckt - p.start == (slot.order - 1) * TIME_INT_PER_BUFFER + PacketRest(slot.got[j].pckt)
  {
    assert PacketFilter(slot.got[j].pckt) == slot.packetNo;
  }

  /** An accepted packet of the block in place m. */
  lemma PacketByte(p: Params, data: seq<byte>, k: nat, slot: Slot, j: nat, i: nat, c: nat, q: nat)
    requires InData(p, data, k, slot) && Kept(p, slot.got, j)
    requires i < SAMPLES_PER_PACKET && q < POLS_PER_PACKET && ChanOf(p, slot.got[j]) == c / CHANS_PER_PACKET
    ensures At(Output(p, data, AntOf(p, slot.got[j])), FinalOffset(p.nchans, slot.got[j].pckt - p.start, i, c, q))
            == slot.got[j].payload[i * 512 + 2 * (c % CHANS_PER_PACKET) + q]
  {
    var pk: Packet := slot.got[j];
    var g, n := c / CHANS_PER_PACKET, 2 * (c % CHANS_PER_PACKET) + q;
    assert Accepts(p, pk);
    PacketTime(p, slot, j);
    OffsetOf(p.nchans, pk.pckt - p.start, i, c, q, g, n);
    KeptByte(p, slot.got, j, i * Converter.LINE + n);
    EveryByte(p, data, k, slot, PacketRest(pk.pckt), AntOf(p, pk), g, i, n);
  }

  /** A recorder session's file is accepted by the converter exactly when there are fewer than four antennas. */
  lemma FileConverts(p: Params, batches: seq<seq<Packet>>, s: FilePipeline.Sys)
    requires Session(p, batches, s)
    ensures HeaderOf(p).packetStart == p.start
    ensures p.nAnts < MAX_NO_ANTS <==> ReadHeader(FileBytes(s.wr.files[0])) == Opened(HeaderOf(p), s.wr.files[0].data)
  {
    SessionRecords(p, batches, s);
    RecordedConverts(p, Run(p, batches).handed, s.wr.files[0]);
  }

  /** Converting the file of a session of fewer than four antennas gives their outputs, under the run's own header. */
  lemma ConvertedSession(p: Params, batches: seq<seq<Packet>>, s: FilePipeline.Sys, r: Converter.Outcome)
    requires Session(p, batches, s) && p.nAnts < MAX_NO_ANTS
    requires Converter.IsConverted(FileBytes(s.wr.files[0]), r)
    ensures r.Converted? && r.header == Header(p.ants[..p.nAnts], p.nchans, p.firstChan, p.start)
    ensures |r.streams| == p.nAnts && forall a :: 0 <= a < p.nAnts ==> r.streams[a] == Output(p, s.wr.files[0].data, a)
  {
    FileConverts(p, batches, s);
    ConvertedFile(p, s.wr.files[0], r);
  }

  lemma ConvertedFile(p: Params, f: Writer.File, r: Converter.Outcome)
    requires ValidParams(p) && Worker.AntsFit(p) && Converter.IsConverted(FileBytes(f), r)
    requires ReadHeader(FileBytes(f)) == Opened(HeaderOf(p), f.data)
    ensures r.Converted? && r.header == Header(p.ants[..p.nAnts], p.nchans, p.firstChan, p.start)
    ensures |r.streams| == p.nAnts && forall a :: 0 <= a < p.nAnts ==> r.streams[a] == Output(p, f.data, a)
  {
    assert HeaderOf(p).ants == p.ants[..p.nAnts];
  }

  lemma RecordedConverts(p: Params, handed: seq<Slot>, f: Writer.File)
    requires Recorded(p, handed, f)
    ensures |f.data| == |f.orders| * BlockLen(p)
    ensures p.nAnts < MAX_NO_ANTS <==> ReadHeader(FileBytes(f)) == Opened(HeaderOf(p), f.data)
  {
    DataLen(PlanOf(handed), f, BlockLen(p));
    HeaderFileRoundTrip(HeaderOf(p), f.data);
  }

  /** A written block is in its place, whole. */
  lemma BlockPlaced(plan: seq<Block>, f: Writer.File, len: nat, k: nat)
    requires FilePipeline.PlanOk(plan) && FromOne(plan, f, len) && k < |plan| && 1 <= plan[k].order <= |f.orders|
    ensures Placed(f.data, len, plan[k].order, plan[k].d)
  {
    FilePipeline.LookupAt(plan, k);
    forall y | 0 <= y < len
      ensures At(f.data, (plan[k].order - 1) * len + y) == plan[k].d[y]
    {
      BlockAt(plan, f, len, plan[k].order, y);
    }
  }

  lemma RecordedBlock(p: Params, handed: seq<Slot>, f: Writer.File, slot: Slot)
    requires Recorded(p, handed, f) && slot in handed && 1 <= slot.order <= |f.orders|
    ensures InData(p, f.data, |f.orders|, slot)
  {
    var k :| 0 <= k < |handed| && handed[k] == slot;
    DataLen(PlanOf(handed), f, BlockLen(p));
    BlockPlaced(PlanOf(handed), f, BlockLen(p), k);
  }

  // From the received batches.

  /** The handed-over block of a written order: in its place in the file, with exactly the packets kept for it. */
  lemma WrittenSlot(p: Params, batches: seq<seq<Packet>>, s: FilePipeline.Sys, o: nat) returns (slot: Slot)
    requires Session(p, batches, s) && 1 <= o <= |s.wr.files[0].orders|
    ensures slot.order == o && InData(p, s.wr.files[0].data, |s.wr.files[0].orders|, slot)
    ensures slot.got == Reception.KeptFor(Reception.Entries(p, batches), o)
  {
    SessionRecords(p, batches, s);
    slot := HandedSlot(p, Run(p, batches).handed, s.wr.files[0], o);
    RecordedBlock(p, Run(p, batches).handed, s.wr.files[0], slot);
    Arrivals.BlockOfRun(p, batches, slot);
  }

  lemma HandedSlot(p: Params, handed: seq<Slot>, f: Writer.File, o: nat) returns (slot: Slot)
    requires Recorded(p, handed, f) && 1 <= o <= |f.orders|
    ensures slot in handed && slot.order == o && slot.packetNo == WindowLedger.PacketNoOf(p, o)
  {
    assert f.orders[o - 1] == o;
    slot := handed[FilePipeline.Lookup(PlanOf(handed), o)];
  }

  /** The ledger holds of the window at every batch of a run without wrap. */
  lemma LedgerAt(p: Params, batches: seq<seq<Packet>>, b: nat)
    requires ValidParams(p) && WindowLedger.NoWrap(p, Run(p, batches)) && b <= |batches|
    ensures WindowLedger.Ledger(p, Arrivals.WindowAt(p, batches, b))
  {
    Overtaking.OrdersOnlyGrow(p, batches, b);
    OldestFirst.LedgerTheorem(p, batches[..b]);
  }

  lemma ReceivedIff(p: Params, batches: seq<seq<Packet>>, b: nat, i: nat, o: nat)
    requires ValidParams(p) && WindowLedger.NoWrap(p, Run(p, batches)) && Arrivals.IsArrival(batches, b, i)
    ensures Arrivals.Received(p, batches, b, i, o) <==> Arrivals.ArrivedFor(p, batches, b, i, o)
  {
    LedgerAt(p, batches, b);
    Arrivals.FateIff(p, Arrivals.WindowAt(p, batches, b), batches[b][i], o);
  }

  /** No later packet of the run has the same antenna, channel group and packet number. */
  ghost predicate Unrepeated(p: Params, batches: seq<seq<Packet>>, b: nat, i: nat)
    requires ValidParams(p) && Arrivals.IsArrival(batches, b, i)
  {
    forall b': nat, i': nat :: Arrivals.IsArrival(batches, b', i') && Arrivals.Later(b, i, b', i') ==>
      !Arrivals.Twins(p, batches[b][i], batches[b'][i'])
  }

  lemma UnrepeatedIsKept(p: Params, batches: seq<seq<Packet>>, b: nat, i: nat, slot: Slot) returns (j: nat)
    requires ValidParams(p) && Arrivals.ArrivedFor(p, batches, b, i, slot.order) && Unrepeated(p, batches, b, i)
    requires Faithful(p, slot) && slot.got == Reception.KeptFor(Reception.Entries(p, batches), slot.order)
    ensures Kept(p, slot.got, j) && slot.got[j] == batches[b][i]
  {
    j := Arrivals.ArrivedIsGot(p, batches, b, i, slot.order);
    forall j': nat | j < j' < |slot.got| ensures CellOf(p, slot.got[j']) != CellOf(p, slot.got[j]) {
      var b', i' := Arrivals.GotFrom(p, batches, slot.order, j');
      Arrivals.LaterInBlock(p, batches, Reception.Entries(p, batches), slot.order, b, i, b', i');
      Arrivals.SameCellTwins(p, slot.got[j], slot.got[j']);
    }
  }

  lemma ReceivedSlot(p: Params, batches: seq<seq<Packet>>, s: FilePipeline.Sys, b: nat, i: nat, o: nat)
    returns (slot: Slot, j: nat)
    requires Session(p, batches, s) && 1 <= o <= |s.wr.files[0].orders|
    requires Arrivals.Received(p, batches, b, i, o) && Unrepeated(p, batches, b, i)
    ensures InData(p, s.wr.files[0].data, |s.wr.files[0].orders|, slot)
    ensures Kept(p, slot.got, j) && slot.got[j] == batches[b][i]
  {
    ReceivedIff(p, batches, b, i, o);
    slot := WrittenSlot(p, batches, s, o);
    j := UnrepeatedIsKept(p, batches, b, i, slot);
  }

  /** The same for a cell that got nothing. */
  lemma UnreceivedSlot(p: Params, batches: seq<seq<Packet>>, s: FilePipeline.Sys, o: nat, r: nat, a: nat, g: nat)
    returns (slot: Slot)
    requires Session(p, batches, s) && 1 <= o <= |s.wr.files[0].orders| && a < p.nAnts && g < p.nchans
    requires NoneReceived(p, batches, o, r, a, g)
    ensures slot.order == o && InData(p, s.wr.files[0].data, |s.wr.files[0].orders|, slot)
    ensures forall j :: 0 <= j < |slot.got| ==> CellOf(p, slot.got[j]) != Cell(p, r, a, g)
  {
    slot := WrittenSlot(p, batches, s, o);
    NoneReceivedNoneGot(p, batches, slot, r, a, g);
  }

  /**
   The byte of a packet's data for sample x, channel c and polarisation q is at its place in the antenna's output.
   */
  ghost predicate InFile(p: Params, data: seq<byte>, pk: Packet, x: nat, c: nat, q: nat)
    requires ValidParams(p) && Wanted(p, pk) && x < SAMPLES_PER_PACKET && q < POLS_PER_PACKET
  {
    At(Output(p, data, AntOf(p, pk)), FinalOffset(p.nchans, pk.pckt - p.start, x, c, q))
    == pk.payload[x * 512 + 2 * (c % CHANS_PER_PACKET) + q]
  }

  /**
   End to end.  Packet i of batch b, if it is accepted, its block is in the window when it arrives and is written,
   and no later packet repeats it, puts sample x, channel c (counted from firstChan) and polarisation q at offset
   ((packet number - packetStart)*16 + x)*nchans*512 + 2c + q of its antenna's 4-bit data.
   */
  lemma PacketToFile(p: Params, batches: seq<seq<Packet>>, s: FilePipeline.Sys, b: nat, i: nat, o: nat, x: nat,
                     c: nat, q: nat)
    requires Session(p, batches, s) && 1 <= o <= |s.wr.files[0].orders|
    requires Arrivals.Received(p, batches, b, i, o) && Unrepeated(p, batches, b, i)
    requires x < SAMPLES_PER_PACKET && q < POLS_PER_PACKET && Group(p, batches[b][i]) == c / CHANS_PER_PACKET
    ensures InFile(p, s.wr.files[0].data, batches[b][i], x, c, q)
  {
    AcceptsIff(p, batches[b][i]);
    var slot, j := ReceivedSlot(p, batches, s, b, i, o);
    PacketByte(p, s.wr.files[0].data, |s.wr.files[0].orders|, slot, j, x, c, q);
  }

  /** No packet of the run was received for packet time r of block o, antenna a and channel group g. */
  ghost predicate NoneReceived(p: Params, batches: seq<seq<Packet>>, o: nat, r: nat, a: nat, g: nat)
    requires ValidParams(p)
  {
    forall b: nat, i: nat :: Arrivals.Received(p, batches, b, i, o) ==>
      !(AntOf(p, batches[b][i]) == a && Group(p, batches[b][i]) == g
        && batches[b][i].pckt == WindowLedger.PacketNoOf(p, o) + r)
  }

  lemma NoneReceivedNoneGot(p: Params, batches: seq<seq<Packet>>, slot: Slot, r: nat, a: nat, g: nat)
    requires ValidParams(p) && WindowLedger.NoWrap(p, Run(p, batches)) &&
             NoneReceived(p, batches, slot.order, r, a, g)
    requires Faithful(p, slot) && slot.got == Reception.KeptFor(Reception.Entries(p, batches), slot.order)
    requires slot.packetNo == WindowLedger.PacketNoOf(p, slot.order) && a < p.nAnts && g < p.nchans
    ensures forall j :: 0 <= j < |slot.got| ==> CellOf(p, slot.got[j]) != Cell(p, r, a, g)
  {
    forall j: nat | j < |slot.got| ensures CellOf(p, slot.got[j]) != Cell(p, r, a, g) {
      var b, i := Arrivals.GotFrom(p, batches, slot.order, j);
      ReceivedIff(p, batches, b, i, slot.order);
      var pk: Packet := slot.got[j];
      assert Accepts(p, pk) && PacketFilter(pk.pckt) == slot.packetNo;
      AcceptsIff(p, pk);
      Arrivals.CellUnique(p, PacketRest(pk.pckt), AntOf(p, pk), ChanOf(p, pk), r, a, g);
    }
  }

  /** A cell of a written block for which no packet was received is zero in the final file. */
  lemma MissingIsZero(p: Params, batches: seq<seq<Packet>>, s: FilePipeline.Sys, o: nat, r: nat, a: nat, g: nat,
                      x: nat, n: nat)
    requires Session(p, batches, s) && 1 <= o <= |s.wr.files[0].orders|
    requires r < TIME_INT_PER_BUFFER && a < p.nAnts && g < p.nchans && x < SAMPLES_PER_PACKET && n < Converter.LINE
    requires NoneReceived(p, batches, o, r, a, g)
    ensures At(Output(p, s.wr.files[0].data, a),
               OutOffset(p.nchans, (o - 1) * TIME_INT_PER_BUFFER + r, x, g, n)) == 0
  {
    var slot := UnreceivedSlot(p, batches, s, o, r, a, g);
    EveryByte(p, s.wr.files[0].data, |s.wr.files[0].orders|, slot, r, a, g, x, n);
  }

  // From the senders' packets, through the network thread and its pool.

  /** The worker has processed what the pool delivered of the packets sent. */
  ghost predicate Processed(pkts: seq<Packet>, l: PoolFifo.Link<seq<byte>>, batches: seq<seq<Packet>>) {
    && UdpBatch.Posts(l.produced, UdpBatch.Datagrams(pkts), 1)
    && (exists s: PoolProtocol.State<seq<byte>>, es ::
          PoolProtocol.Start(s) && PoolFifo.LinkRun(PoolFifo.Link(s, [], []), es, l))
    && batches == UdpBatch.Parsed(l.delivered)
  }

  /** Packet i of batch b is number b * 160 + i of the senders. */
  ghost predicate InStep(pkts: seq<Packet>, batches: seq<seq<Packet>>) {
    && |batches| * UdpBatch.N_READS_DEFAULT <= |pkts|
    && forall b: nat :: b < |batches| ==> batches[b] == UdpBatch.BatchAt(pkts, b)
  }

  lemma ProcessedInStep(pkts: seq<Packet>, l: PoolFifo.Link<seq<byte>>, batches: seq<seq<Packet>>)
    requires Processed(pkts, l, batches)
    ensures InStep(pkts, batches)
  {
    var s: PoolProtocol.State<seq<byte>>, es :|
      PoolProtocol.Start(s) && PoolFifo.LinkRun(PoolFifo.Link(s, [], []), es, l);
    UdpBatch.StreamReachesWorker(s, es, l, pkts);
  }

  lemma ArrivalAt(pkts: seq<Packet>, batches: seq<seq<Packet>>, b: nat, i: nat)
    requires InStep(pkts, batches) && Arrivals.IsArrival(batches, b, i)
    ensures var g := b * UdpBatch.N_READS_DEFAULT + i;
            i < UdpBatch.N_READS_DEFAULT && g < |batches| * UdpBatch.N_READS_DEFAULT && batches[b][i] == pkts[g]
  {
    assert batches[b] == UdpBatch.BatchAt(pkts, b);
  }

  lemma PlaceOf(pkts: seq<Packet>, batches: seq<seq<Packet>>, g: nat) returns (b: nat, i: nat)
    requires InStep(pkts, batches) && g < |batches| * UdpBatch.N_READS_DEFAULT
    ensures Arrivals.IsArrival(batches, b, i) && batches[b][i] == pkts[g]
    ensures b == g / UdpBatch.N_READS_DEFAULT && g == b * UdpBatch.N_READS_DEFAULT + i
  {
    b, i := g / UdpBatch.N_READS_DEFAULT, g % UdpBatch.N_READS_DEFAULT;
    assert batches[b] == UdpBatch.BatchAt(pkts, b);
    ArrivalAt(pkts, batches, b, i);
  }

  /**
   Packet number g is accepted, for the block of order o, in the window when its batch arrives, and not repeated
   later.
   */
  ghost predicate SentFor(pkts: seq<Packet>, p: Params, batches: seq<seq<Packet>>, g: nat, o: nat) {
    && ValidParams(p) && g < |batches| * UdpBatch.N_READS_DEFAULT <= |pkts|
    && Wanted(p, pkts[g]) && PacketFilter(pkts[g].pckt) == WindowLedger.PacketNoOf(p, o)
    && WindowLedger.InSlots(Arrivals.WindowAt(p, batches, g / UdpBatch.N_READS_DEFAULT), o)
    && forall g': nat :: g < g' < |batches| * UdpBatch.N_READS_DEFAULT ==> !Arrivals.Twins(p, pkts[g], pkts[g'])
  }

  lemma SentIsReceived(pkts: seq<Packet>, l: PoolFifo.Link<seq<byte>>, p: Params, batches: seq<seq<Packet>>,
                       g: nat, o: nat)
    returns (b: nat, i: nat)
    requires Processed(pkts, l, batches) && SentFor(pkts, p, batches, g, o)
    ensures Arrivals.IsArrival(batches, b, i) && batches[b][i] == pkts[g]
    ensures Arrivals.Received(p, batches, b, i, o) && Unrepeated(p, batches, b, i)
  {
    ProcessedInStep(pkts, l, batches);
    b, i := PlaceOf(pkts, batches, g);
    SentUnrepeated(pkts, p, batches, g, b, i);
  }

  /**
   The whole recorder: packet number g of those sent, once the worker has processed its batch, if it is accepted,
   its block is in the window when its batch arrives and is written, and no packet processed later repeats it,
   is at its place in the final file.
   */
  lemma SentToFile(pkts: seq<Packet>, l: PoolFifo.Link<seq<byte>>, p: Params, batches: seq<seq<Packet>>,
                   s: FilePipeline.Sys, g: nat, o: nat, x: nat, c: nat, q: nat)
    requires Processed(pkts, l, batches) && SentFor(pkts, p, batches, g, o)
    requires Session(p, batches, s) && 1 <= o <= |s.wr.files[0].orders|
    requires x < SAMPLES_PER_PACKET && q < POLS_PER_PACKET && Group(p, pkts[g]) == c / CHANS_PER_PACKET
    ensures InFile(p, s.wr.files[0].data, pkts[g], x, c, q)
  {
    var b, i := SentIsReceived(pkts, l, p, batches, g, o);
    PacketToFile(p, batches, s, b, i, o, x, c, q);
  }

  lemma SentUnrepeated(pkts: seq<Packet>, p: Params, batches: seq<seq<Packet>>, g: nat, b: nat, i: nat)
    requires ValidParams(p) && InStep(pkts, batches)
    requires Arrivals.IsArrival(batches, b, i) && g == b * UdpBatch.N_READS_DEFAULT + i
    requires forall g': nat :: g < g' < |batches| * UdpBatch.N_READS_DEFAULT ==> !Arrivals.Twins(p, pkts[g], pkts[g'])
    ensures Unrepeated(p, batches, b, i)
  {
    ArrivalAt(pkts, batches, b, i);
    forall b': nat, i': nat | Arrivals.IsArrival(batches, b', i') && Arrivals.Later(b, i, b', i')
      ensures !Arrivals.Twins(p, batches[b][i], batches[b'][i'])
    {
      ArrivalAt(pkts, batches, b', i');
    }
  }
}
