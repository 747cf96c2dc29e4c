/**
 The strided copy with the program's own addresses (half_hashpipe/ata_volt_outer_thread.c:315-378,
 half_hashpipe/hpguppi_mkfeng.h:281-392): which cells a packet of an observation writes, and what all packets
 of a block make of it.
 */
module HeapBlocks {
  import opened BlockMatrix
  import opened BlockCopies
  import opened DataFormats
  import opened PacketCopy
  import Pieces
  import Radix
  import Sizing
  import WorkingBlocks

  datatype ObsInfo = ObsInfo(nants: nat, nstrm: nat, hntime: nat, hnchan: nat, hclocks: nat, schan: nat)

  datatype SpeadInfo = SpeadInfo(timestamp: nat, fengId: nat, fengChan: nat, heapOffset: nat)

  function Obsnchan(oi: ObsInfo): nat {
    oi.nants * oi.nstrm * oi.hnchan
  }

  /** The observation fits the block: nothing overflows, and at least one heap per channel has room. */
  ghost predicate ObsOk(blockSize: nat, oi: ObsInfo) {
    && oi.hclocks > 0
    && Sizing.NoOverflow(blockSize, Obsnchan(oi), oi.hntime)
    && 4 * Obsnchan(oi) * oi.hntime <= blockSize
  }

  /** pktidx_per_block: the columns of the block, one per packet index. */
  function Columns(blockSize: nat, oi: ObsInfo): (cols: nat)
    requires ObsOk(blockSize, oi)
    ensures Sizing.Unit(Obsnchan(oi), oi.hntime) != 0 && oi.hntime > 0
    ensures cols > 0 && cols == Sizing.PktidxPerBlock(blockSize, Obsnchan(oi), oi.hntime)
    ensures Sizing.Ntime(blockSize, Obsnchan(oi), oi.hntime) == oi.hntime * cols
    ensures Obsnchan(oi) * cols * (4 * oi.hntime)
            == Sizing.EffBlockSize(blockSize, Obsnchan(oi), oi.hntime) <= blockSize
  {
    Sizing.BlockSizing(blockSize, Obsnchan(oi), oi.hntime);
    Radix.AtLeastOne(blockSize, 4 * Obsnchan(oi) * oi.hntime);
    var cols := Sizing.PktidxPerBlock(blockSize, Obsnchan(oi), oi.hntime);
    Radix.Regroup(Obsnchan(oi), 4 * oi.hntime, cols);
    Radix.Regroup(Obsnchan(oi), 4, oi.hntime);
    Radix.Regroup(Obsnchan(oi), cols, 4 * oi.hntime);
    cols
  }

  /** The block column of a packet. */
  function SlotOf(blockSize: nat, oi: ObsInfo, fi: SpeadInfo): (slot: nat)
    requires ObsOk(blockSize, oi)
    ensures slot < Columns(blockSize, oi)
  {
    Radix.Rest(Radix.Div(fi.timestamp, oi.hclocks), Columns(blockSize, oi))
  }

  /** Channels of one antenna. */
  function Chans(oi: ObsInfo): nat {
    oi.nstrm * oi.hnchan
  }

  function PktIdx(oi: ObsInfo, fi: SpeadInfo): nat
    requires oi.hclocks > 0
  {
    Radix.Div(fi.timestamp, oi.hclocks)
  }

  /** The packet's first channel, counted from schan. */
  function FirstChan(oi: ObsInfo, fi: SpeadInfo): nat
    requires oi.hntime > 0 && oi.schan <= fi.fengChan
  {
    fi.fengChan - oi.schan + Radix.Div(fi.heapOffset, 4 * oi.hntime)
  }

  /** The packet index counts whole heaps of hclocks clock cycles. */
  lemma PktIdxIff(oi: ObsInfo, fi: SpeadInfo, n: nat)
    requires oi.hclocks > 0
    ensures PktIdx(oi, fi) == n <==> n * oi.hclocks <= fi.timestamp < n * oi.hclocks + oi.hclocks
  {
    var q := PktIdx(oi, fi);
    if n * oi.hclocks <= fi.timestamp < n * oi.hclocks + oi.hclocks {
      Radix.FlatUnique(n, fi.timestamp - n * oi.hclocks, q, fi.timestamp - q * oi.hclocks, oi.hclocks);
    }
  }

  /** A heap's bytes lie channel after channel, 4 * hntime each; the packet starts at the channel of its offset. */
  lemma FirstChanIff(oi: ObsInfo, fi: SpeadInfo, c: nat)
    requires oi.hntime > 0 && oi.schan <= fi.fengChan
    ensures FirstChan(oi, fi) == fi.fengChan - oi.schan + c
            <==> c * (4 * oi.hntime) <= fi.heapOffset < c * (4 * oi.hntime) + 4 * oi.hntime
  {
    var w := 4 * oi.hntime;
    var q := Radix.Div(fi.heapOffset, w);
    if c * w <= fi.heapOffset < c * w + w {
      Radix.FlatUnique(c, fi.heapOffset - c * w, q, fi.heapOffset - q * w, w);
    }
  }

  /** The packet belongs to the observation, and its nrows channels to one antenna. */
  ghost predicate InObs(oi: ObsInfo, fi: SpeadInfo, nrows: nat)
    requires oi.hntime > 0
  {
    && fi.fengId < oi.nants && oi.schan <= fi.fengChan
    && FirstChan(oi, fi) + nrows <= Chans(oi)
  }

  /** The first block row of a packet: that of its heap plus its place in the heap. */
  function RowOf(oi: ObsInfo, fi: SpeadInfo): nat
    requires oi.hntime > 0 && oi.schan <= fi.fengChan
  {
    Radix.NonNegative(fi.fengId, oi.nstrm, oi.hnchan);
    fi.fengId * oi.nstrm * oi.hnchan + (fi.fengChan - oi.schan) + Radix.Div(fi.heapOffset, 4 * oi.hntime)
  }

  lemma RowsFit(oi: ObsInfo, fi: SpeadInfo, nrows: nat)
    requires oi.hntime > 0 && InObs(oi, fi, nrows)
    ensures RowOf(oi, fi) + nrows <= Obsnchan(oi)
  {
    Radix.Mono(fi.fengId + 1, oi.nants, oi.nstrm * oi.hnchan);
    Radix.Distribute(fi.fengId, 1, oi.nstrm * oi.hnchan);
    Radix.Regroup(fi.fengId, oi.nstrm, oi.hnchan);
    Radix.Regroup(oi.nants, oi.nstrm, oi.hnchan);
  }

  /** copy_packet_data_to_databuf with its own address arithmetic: only cells of the effective block change. */
  method CopyPacketData(block: array<byte>, blockSize: nat, oi: ObsInfo, fi: SpeadInfo, payload: seq<byte>,
                        ghost nrows: nat)
    requires ObsOk(blockSize, oi) && blockSize <= block.Length
    requires |payload| == nrows * (4 * oi.hntime) && InObs(oi, fi, nrows)
    modifies block
    ensures Copied(old(block[..]), block[..], 4 * oi.hntime, Obsnchan(oi), Columns(blockSize, oi),
                   HeapPatch(payload, 4 * oi.hntime, RowOf(oi, fi), nrows, SlotOf(blockSize, oi, fi)))
  {
    ghost var cols := Columns(blockSize, oi);
    RowsFit(oi, fi, nrows);
    var istride := 4 * oi.hntime;
    var ostride := 4 * Sizing.Ntime(blockSize, Obsnchan(oi), oi.hntime);
    Radix.Regroup(4, oi.hntime, cols);
    CopyStrided(block, payload, istride, nrows, SlotOf(blockSize, oi, fi), RowOf(oi, fi), ostride, Obsnchan(oi),
      cols);
  }

  // Which cells a packet writes.

  datatype Heap = Heap(info: SpeadInfo, payload: seq<byte>)

  /** A packet of the observation with nrows row pieces. */
  ghost predicate HeapOk(oi: ObsInfo, h: Heap, nrows: nat) {
    oi.hntime > 0 && |h.payload| == nrows * (4 * oi.hntime) && InObs(oi, h.info, nrows)
  }

  /** What CopyPacketData writes for it. */
  ghost function PatchOf(blockSize: nat, oi: ObsInfo, h: Heap, nrows: nat): (p: Patch<Cell>)
    requires ObsOk(blockSize, oi) && HeapOk(oi, h, nrows)
    ensures Inside(p, Obsnchan(oi), Columns(blockSize, oi))
  {
    RowsFit(oi, h.info, nrows);
    HeapPatch(h.payload, 4 * oi.hntime, RowOf(oi, h.info), nrows, SlotOf(blockSize, oi, h.info))
  }

  /** Rows go by antenna, then by channel. */
  lemma RowIs(oi: ObsInfo, fi: SpeadInfo)
    requires oi.hntime > 0 && oi.schan <= fi.fengChan
    ensures RowOf(oi, fi) == fi.fengId * Chans(oi) + FirstChan(oi, fi)
  {
    Radix.Regroup(fi.fengId, oi.nstrm, oi.hnchan);
  }

  /** The packet's index is one of those of block n. */
  ghost predicate InBlock(blockSize: nat, oi: ObsInfo, fi: SpeadInfo, n: nat)
    requires ObsOk(blockSize, oi)
  {
    n * Columns(blockSize, oi) <= PktIdx(oi, fi) < n * Columns(blockSize, oi) + Columns(blockSize, oi)
  }

  /** The block a packet is copied for is the one it is counted in. */
  lemma SameBlock(blockSize: nat, oi: ObsInfo, fi: SpeadInfo, n: nat, c: WorkingBlocks.Config)
    requires ObsOk(blockSize, oi) && WorkingBlocks.ValidConfig(c) && c.pktidxPerBlock == Columns(blockSize, oi)
    ensures InBlock(blockSize, oi, fi, n) <==> WorkingBlocks.BlockOf(c, PktIdx(oi, fi)) == n
  {
    WorkingBlocks.BlockOfIff(c, PktIdx(oi, fi), n);
  }

  lemma SlotIs(blockSize: nat, oi: ObsInfo, fi: SpeadInfo, n: nat)
    requires ObsOk(blockSize, oi) && InBlock(blockSize, oi, fi, n)
    ensures SlotOf(blockSize, oi, fi) == PktIdx(oi, fi) - n * Columns(blockSize, oi)
  {
    Radix.FlatDivMod(n, PktIdx(oi, fi) - n * Columns(blockSize, oi), Columns(blockSize, oi));
  }

  /** Two runs of nrows channels in rows of `chans` meet exactly if they are in the same row and overlap there. */
  lemma RowsMeet(chans: nat, a: nat, c: nat, a': nat, c': nat, nrows: nat)
    requires nrows > 0 && c + nrows <= chans && c' + nrows <= chans
    ensures (a * chans + c < a' * chans + c' + nrows && a' * chans + c' < a * chans + c + nrows)
            <==> a == a' && c < c' + nrows && c' < c + nrows
  {
    if a < a' {
      Radix.Mono(a + 1, a', chans);
      Radix.Distribute(a, 1, chans);
    } else if a' < a {
      Radix.Mono(a' + 1, a, chans);
      Radix.Distribute(a', 1, chans);
    }
  }

  /**
   Packets of one block write a common cell exactly when they have the same packet index, the same antenna and a
   common channel.
   */
  lemma HeapsOverlapIff(blockSize: nat, oi: ObsInfo, n: nat, h: Heap, h': Heap, nrows: nat)
    requires ObsOk(blockSize, oi) && nrows > 0 && HeapOk(oi, h, nrows) && HeapOk(oi, h', nrows)
    requires InBlock(blockSize, oi, h.info, n) && InBlock(blockSize, oi, h'.info, n)
    ensures Overlap(PatchOf(blockSize, oi, h, nrows), PatchOf(blockSize, oi, h', nrows)) <==>
            && PktIdx(oi, h.info) == PktIdx(oi, h'.info) && h.info.fengId == h'.info.fengId
            && FirstChan(oi, h.info) < FirstChan(oi, h'.info) + nrows
            && FirstChan(oi, h'.info) < FirstChan(oi, h.info) + nrows
  {
    OverlapIff(PatchOf(blockSize, oi, h, nrows), PatchOf(blockSize, oi, h', nrows));
    SlotIs(blockSize, oi, h.info, n);
    SlotIs(blockSize, oi, h'.info, n);
    RowIs(oi, h.info);
    RowIs(oi, h'.info);
    RowsMeet(Chans(oi), h.info.fengId, FirstChan(oi, h.info), h'.info.fengId, FirstChan(oi, h'.info), nrows);
  }

  // All packets of a block.

  /** The time series of one block: for each antenna, for each channel, cols row pieces of w bytes. */
  ghost predicate SignalOk(sig: seq<seq<seq<byte>>>, nants: nat, chans: nat, len: nat) {
    && |sig| == nants && Pieces.Uniform(sig, chans)
    && forall a, c :: 0 <= a < |sig| && 0 <= c < |sig[a]| ==> |sig[a][c]| == len
  }

  /** The packet carries its channels' pieces of the signal at its packet index. */
  ghost predicate Carries(oi: ObsInfo, cols: nat, n: nat, sig: seq<seq<seq<byte>>>, h: Heap, nrows: nat)
    requires HeapOk(oi, h, nrows) && oi.hclocks > 0
    requires SignalOk(sig, oi.nants, Chans(oi), cols * (4 * oi.hntime))
    requires n * cols <= PktIdx(oi, h.info) < n * cols + cols
  {
    forall r :: 0 <= r < nrows ==>
      Cells(h.payload, 4 * oi.hntime, nrows)[r]
      == Cells(sig[h.info.fengId][FirstChan(oi, h.info) + r], 4 * oi.hntime, cols)[PktIdx(oi, h.info) - n * cols]
  }

  /** The packet with this antenna, first channel and packet index. */
  ghost predicate IsHeap(oi: ObsInfo, h: Heap, a: nat, c: nat, idx: nat)
    requires oi.hclocks > 0 && oi.hntime > 0
  {
    h.info.fengId == a && oi.schan <= h.info.fengChan && FirstChan(oi, h.info) == c && PktIdx(oi, h.info) == idx
  }

  /** Piece k of antenna a's channels for the t-th packet index of block n has been sent. */
  ghost predicate HasPiece(oi: ObsInfo, cols: nat, n: nat, hs: seq<Heap>, nrows: nat, a: nat, k: nat, t: nat)
    requires oi.hclocks > 0 && oi.hntime > 0
  {
    exists i :: 0 <= i < |hs| && IsHeap(oi, hs[i], a, k * nrows, n * cols + t)
  }

  /** Every antenna has sent every piece of its channels for every packet index of block n. */
  ghost predicate Complete(oi: ObsInfo, cols: nat, n: nat, hs: seq<Heap>, nrows: nat, pieces: nat)
    requires oi.hclocks > 0 && oi.hntime > 0
  {
    forall a: nat, k: nat, t: nat :: a < oi.nants && k < pieces && t < cols ==>
      HasPiece(oi, cols, n, hs, nrows, a, k, t)
  }

  ghost function PatchesOf(blockSize: nat, oi: ObsInfo, hs: seq<Heap>, nrows: nat): (ps: seq<Patch<Cell>>)
    requires ObsOk(blockSize, oi) && forall i :: 0 <= i < |hs| ==> HeapOk(oi, hs[i], nrows)
    ensures |ps| == |hs| && forall i :: 0 <= i < |ps| ==> ps[i] == PatchOf(blockSize, oi, hs[i], nrows)
  {
    seq(|hs|, i requires 0 <= i < |hs| => PatchOf(blockSize, oi, hs[i], nrows))
  }

  /** The packets of block n of an observation that carry the signal. */
  ghost predicate BlockHeaps(blockSize: nat, oi: ObsInfo, n: nat, sig: seq<seq<seq<byte>>>, hs: seq<Heap>, nrows: nat)
    requires ObsOk(blockSize, oi)
  {
    && SignalOk(sig, oi.nants, Chans(oi), Columns(blockSize, oi) * (4 * oi.hntime))
    && forall i :: 0 <= i < |hs| ==>
         && HeapOk(oi, hs[i], nrows) && InBlock(blockSize, oi, hs[i].info, n)
         && Carries(oi, Columns(blockSize, oi), n, sig, hs[i], nrows)
  }

  /** Antenna after antenna, the channels' series are the rows of the block. */
  lemma RowsOfSignal(sig: seq<seq<seq<byte>>>, nants: nat, chans: nat, len: nat)
    requires SignalOk(sig, nants, chans, len)
    ensures |Pieces.Join(sig)| == nants * chans && Pieces.Uniform(Pieces.Join(sig), len)
  {
    var series := Pieces.Join(sig);
    Pieces.JoinLen(sig, chans);
    forall i | 0 <= i < |series| ensures |series[i]| == len {
      Radix.RowBound(i, nants, chans);
      Radix.Split(i, chans);
      Pieces.JoinAt(sig, chans, i / chans, i % chans);
      assert |sig[i / chans][i % chans]| == len;
    }
  }

  lemma HeapIsPart(blockSize: nat, oi: ObsInfo, n: nat, sig: seq<seq<seq<byte>>>, h: Heap, nrows: nat, w: nat,
                   cols: nat)
    requires ObsOk(blockSize, oi) && cols == Columns(blockSize, oi) && w == 4 * oi.hntime
    requires SignalOk(sig, oi.nants, Chans(oi), cols * w) && HeapOk(oi, h, nrows)
    requires InBlock(blockSize, oi, h.info, n) && Carries(oi, cols, n, sig, h, nrows)
    requires |Pieces.Join(sig)| == Obsnchan(oi) && Pieces.Uniform(Pieces.Join(sig), cols * w)
    ensures HeapOf(PatchOf(blockSize, oi, h, nrows), Pieces.Join(sig), w, cols)
  {
    var p := PatchOf(blockSize, oi, h, nrows);
    SlotIs(blockSize, oi, h.info, n);
    RowIs(oi, h.info);
    forall r | 0 <= r < p.nrows ensures p.src[r] == Cells(Pieces.Join(sig)[p.row0 + r], w, cols)[p.col0] {
      Pieces.JoinAt(sig, Chans(oi), h.info.fengId, FirstChan(oi, h.info) + r);
    }
  }

  lemma RowCovered(blockSize: nat, oi: ObsInfo, n: nat, hs: seq<Heap>, nrows: nat, pieces: nat, row: nat, col: nat)
    requires ObsOk(blockSize, oi) && forall i :: 0 <= i < |hs| ==>
             HeapOk(oi, hs[i], nrows) && InBlock(blockSize, oi, hs[i].info, n)
    requires pieces * nrows == Chans(oi) && Complete(oi, Columns(blockSize, oi), n, hs, nrows, pieces)
    requires row < oi.nants * Chans(oi) && col < Columns(blockSize, oi)
    ensures Covered(PatchesOf(blockSize, oi, hs, nrows), row, col)
  {
    var cols, chans := Columns(blockSize, oi), Chans(oi);
    Radix.RowBound(row, oi.nants, chans);
    Radix.Split(row, chans);
    Radix.RowBound(row % chans, pieces, nrows);
    Radix.Split(row % chans, nrows);
    var a, k := row / chans, row % chans / nrows;
    assert HasPiece(oi, cols, n, hs, nrows, a, k, col);
    var i :| 0 <= i < |hs| && IsHeap(oi, hs[i], a, k * nrows, n * cols + col);
    SlotIs(blockSize, oi, hs[i].info, n);
    RowIs(oi, hs[i].info);
    assert Covers(PatchesOf(blockSize, oi, hs, nrows)[i], row, col);
  }

  /**
   All packets of a block, copied in whatever order and possibly repeated, leave in the effective block the time
   series of every channel of every antenna, one row after the other.
   */
  lemma AllHeapsMakeTheBlock(blockSize: nat, oi: ObsInfo, n: nat, sig: seq<seq<seq<byte>>>, hs: seq<Heap>,
                             nrows: nat, pieces: nat, bs: seq<seq<byte>>)
    requires ObsOk(blockSize, oi) && BlockHeaps(blockSize, oi, n, sig, hs, nrows)
    requires pieces * nrows == Chans(oi) && Complete(oi, Columns(blockSize, oi), n, hs, nrows, pieces)
    requires CopyRun(bs, 4 * oi.hntime, Obsnchan(oi), Columns(blockSize, oi), PatchesOf(blockSize, oi, hs, nrows))
    ensures var size := Sizing.EffBlockSize(blockSize, Obsnchan(oi), oi.hntime);
            0 <= size <= |bs[|hs|]| && bs[|hs|][..size] == Pieces.Join(Pieces.Join(sig))
  {
    var cols, w := Columns(blockSize, oi), 4 * oi.hntime;
    var series := Pieces.Join(sig);
    var ps := PatchesOf(blockSize, oi, hs, nrows);
    RowsOfSignal(sig, oi.nants, Chans(oi), cols * w);
    Radix.Regroup(oi.nants, oi.nstrm, oi.hnchan);
    forall i | 0 <= i < |ps| ensures HeapOf(ps[i], series, w, cols) {
      HeapIsPart(blockSize, oi, n, sig, hs[i], nrows, w, cols);
    }
    forall row: nat, col: nat | row < |series| && col < cols ensures Covered(ps, row, col) {
      RowCovered(blockSize, oi, n, hs, nrows, pieces, row, col);
    }
    StridedBlock(bs, series, w, Obsnchan(oi), cols, ps);
  }
}
