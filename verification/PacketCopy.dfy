/**
 Copying packets into a data block: the strided copy (half_hashpipe/ata_volt_outer_thread.c:315-378) and the
 transposing copy in both its loop orders (half_hashpipe/hpguppi_udp.c:244-309).  All offsets are multiples of
 the size w of a cell: one row piece of a heap in the strided copy, one 4-byte sample in the transposing copy.
 */
module PacketCopy {
  import opened BlockMatrix
  import opened DataFormats
  import Pieces
  import Radix

  type Cell = seq<byte>

  // Bytes as cells.

  /** The first n cells of w bytes. */
  ghost function Cells(s: seq<byte>, w: nat, n: nat): (r: seq<Cell>)
    requires n * w <= |s|
    ensures |r| == n
  {
    seq(n, i requires 0 <= i < n => Radix.Mono(i + 1, n, w); Pieces.Piece(s, w, i))
  }

  /** A copy of one cell to a cell's place changes that cell and nothing else. */
  lemma CellWritten(s: seq<byte>, w: nat, n: nat, i: nat, v: Cell)
    requires n * w <= |s| && i < n && |v| == w
    ensures 0 <= i * w && i * w + w <= n * w
    ensures Cells(Pieces.Overwrite(s, i * w, v), w, n) == Cells(s, w, n)[i := v]
    ensures Pieces.Overwrite(s, i * w, v)[n * w..] == s[n * w..]
  {
    Radix.Mono(i + 1, n, w);
    Radix.Distribute(i, 1, w);
    var s' := Pieces.Overwrite(s, i * w, v);
    forall k | 0 <= k < n ensures Cells(s', w, n)[k] == Cells(s, w, n)[i := v][k] {
      CellKept(s, w, n, i, v, k);
    }
  }

  lemma CellKept(s: seq<byte>, w: nat, n: nat, i: nat, v: Cell, k: nat)
    requires n * w <= |s| && i < n && |v| == w && k < n
    requires 0 <= i * w && i * w + w <= n * w
    ensures (k + 1) * w <= |s|
    ensures Pieces.Piece(Pieces.Overwrite(s, i * w, v), w, k) == if k == i then v else Pieces.Piece(s, w, k)
  {
    Radix.Mono(k + 1, n, w);
    Radix.Distribute(k, 1, w);
    if k < i {
      Radix.Mono(k + 1, i, w);
    } else if i < k {
      Radix.Mono(i + 1, k, w);
      Radix.Distribute(i, 1, w);
    }
  }

  lemma CellAt(s: seq<byte>, w: nat, n: nat, i: nat)
    requires n * w <= |s| && i < n
    ensures 0 <= i * w && i * w + w <= |s| && Cells(s, w, n)[i] == s[i * w..i * w + w]
  {
    Radix.Mono(i + 1, n, w);
    Radix.Distribute(i, 1, w);
  }

  /** memcpy and memcpy_nt. */
  method Memcpy(dst: array<byte>, off: nat, src: seq<byte>, soff: nat, len: nat)
    requires off + len <= dst.Length && soff + len <= |src|
    modifies dst
    ensures dst[..] == Pieces.Overwrite(old(dst[..]), off, src[soff..soff + len])
  {
    forall i | 0 <= i < len {
      dst[off + i] := src[soff + i];
    }
  }

  /** What a copying loop has done so far, and what it leaves alone. */
  ghost predicate Progress(before: seq<byte>, now: seq<byte>, w: nat, rows: nat, cols: nat, p: Patch<Cell>,
                           done: (int, int) -> bool) {
    && |now| == |before| && rows * cols * w <= |before| && Inside(p, rows, cols)
    && Patched(Cells(before, w, rows * cols), Cells(now, w, rows * cols), rows, cols, p, done)
    && now[rows * cols * w..] == before[rows * cols * w..]
  }

  /** One memcpy of the loop: cell (r, c) of the patch goes to its place. */
  lemma CopyStep(before: seq<byte>, now: seq<byte>, w: nat, rows: nat, cols: nat, p: Patch<Cell>,
                 done: (int, int) -> bool, done': (int, int) -> bool, r: nat, c: nat, off: nat, v: Cell)
    requires Progress(before, now, w, rows, cols, p, done)
    requires r < p.nrows && c < p.ncols && off == ((p.row0 + r) * cols + (p.col0 + c)) * w
    requires |v| == w && c * p.nrows + r < |p.src| && p.src[c * p.nrows + r] == v
    requires forall i, j :: 0 <= i < p.nrows && 0 <= j < p.ncols ==>
             (done'(i, j) <==> done(i, j) || (i == r && j == c))
    ensures off + w <= rows * cols * w
    ensures Progress(before, Pieces.Overwrite(now, off, v), w, rows, cols, p, done')
  {
    var n := rows * cols;
    PatchOne(Cells(before, w, n), Cells(now, w, n), rows, cols, p, done, done', r, c);
    CellWritten(now, w, n, (p.row0 + r) * cols + (p.col0 + c), v);
  }

  /** The block after the whole patch has been copied. */
  ghost predicate Copied(before: seq<byte>, now: seq<byte>, w: nat, rows: nat, cols: nat, p: Patch<Cell>) {
    && |now| == |before| && rows * cols * w <= |before| && Inside(p, rows, cols)
    && Cells(now, w, rows * cols) == Apply(Cells(before, w, rows * cols), rows, cols, p)
    && now[rows * cols * w..] == before[rows * cols * w..]
  }

  lemma Finished(before: seq<byte>, now: seq<byte>, w: nat, rows: nat, cols: nat, p: Patch<Cell>, done: (int,
    int) -> bool)
    requires Progress(before, now, w, rows, cols, p, done)
    requires forall i, j :: 0 <= i < p.nrows && 0 <= j < p.ncols ==> done(i, j)
    ensures Copied(before, now, w, rows, cols, p)
  {
    AllPatched(Cells(before, w, rows * cols), Cells(now, w, rows * cols), rows, cols, p, done);
  }

  lemma NotStarted(before: seq<byte>, w: nat, rows: nat, cols: nat, p: Patch<Cell>, done: (int, int) -> bool)
    requires rows * cols * w <= |before| && Inside(p, rows, cols)
    requires forall i, j :: 0 <= i < p.nrows && 0 <= j < p.ncols ==> !done(i, j)
    ensures Progress(before, before, w, rows, cols, p, done)
  {
    PatchNone(Cells(before, w, rows * cols), rows, cols, p, done);
  }

  lemma Regarded(before: seq<byte>, now: seq<byte>, w: nat, rows: nat, cols: nat, p: Patch<Cell>,
                 done: (int, int) -> bool, done': (int, int) -> bool)
    requires Progress(before, now, w, rows, cols, p, done)
    requires forall i, j :: 0 <= i < p.nrows && 0 <= j < p.ncols ==> (done'(i, j) <==> done(i, j))
    ensures Progress(before, now, w, rows, cols, p, done')
  {
    PatchedSame(Cells(before, w, rows * cols), Cells(now, w, rows * cols), rows, cols, p, done, done');
  }

  // The strided copy.

  /** A packet's heap piece: `nrows` row pieces of istride bytes, in column `slot`, from row `row0` down. */
  ghost function HeapPatch(payload: seq<byte>, istride: nat, row0: nat, nrows: nat, slot: nat): (p: Patch<Cell>)
    requires nrows * istride <= |payload|
    ensures PatchOk(p)
  {
    Patch(row0, nrows, slot, 1, Cells(payload, istride, nrows))
  }

  function FirstRows(n: nat): (int, int) -> bool {
    (i, j) => i < n
  }

  /** copy_packet_data_to_databuf: the payload is a whole number of row pieces, and a block row holds cols of them. */
  method CopyStrided(block: array<byte>, payload: seq<byte>, istride: nat, ghost nrows: nat, slot: nat, row0: nat,
                     ostride: nat, ghost rows: nat, ghost cols: nat)
    requires istride > 0 && ostride == cols * istride && |payload| == nrows * istride
    requires rows * cols * istride <= block.Length && slot < cols && row0 + nrows <= rows
    modifies block
    ensures Copied(old(block[..]), block[..], istride, rows, cols, HeapPatch(payload, istride, row0, nrows, slot))
  {
    ghost var p := HeapPatch(payload, istride, row0, nrows, slot);
    ghost var before := block[..];
    var dst := slot * istride + row0 * ostride;
    var src := 0;
    var bytesToCopy := |payload|;
    ghost var r := 0;
    NotStarted(before, istride, rows, cols, p, FirstRows(0));
    while bytesToCopy > 0
      invariant 0 <= r <= nrows && bytesToCopy == (nrows - r) * istride
      invariant src == r * istride && dst == slot * istride + (row0 + r) * ostride
      invariant Progress(before, block[..], istride, rows, cols, p, FirstRows(r))
      decreases nrows - r
    {
      StridedStep(istride, nrows, r, row0, slot, cols, bytesToCopy);
      CellAt(payload, istride, nrows, r);
      CopyStep(before, block[..], istride, rows, cols, p, FirstRows(r), FirstRows(r + 1), r, 0, dst,
        payload[src..src + istride]);
      OffsetInside(block.Length, rows * cols * istride, dst, istride);
      Memcpy(block, dst, payload, src, istride);
      src := src + istride;
      dst := dst + ostride;
      bytesToCopy := bytesToCopy - istride;
      r := r + 1;
    }
    Radix.NoRest(nrows - r, istride);
    Finished(before, block[..], istride, rows, cols, p, FirstRows(nrows));
  }

  lemma OffsetInside(len: nat, area: nat, off: nat, w: nat)
    requires area <= len && off + w <= area
    ensures off + w <= len
  {
  }

  lemma StridedStep(istride: nat, nrows: nat, r: nat, row0: nat, slot: nat, cols: nat, left: int)
    requires r <= nrows && left == (nrows - r) * istride && left > 0
    ensures r < nrows
    ensures (nrows - (r + 1)) * istride == left - istride
    ensures (r + 1) * istride == r * istride + istride
    ensures (row0 + r + 1) * (cols * istride) == (row0 + r) * (cols * istride) + cols * istride
    ensures slot * istride + (row0 + r) * (cols * istride) == ((row0 + r) * cols + slot) * istride
  {
    Radix.Distribute(nrows - r, 1, istride);
    Radix.Distribute(r, 1, istride);
    Radix.Distribute(row0 + r, 1, cols * istride);
    Radix.Distribute((row0 + r) * cols, slot, istride);
    Radix.Regroup(row0 + r, cols, istride);
  }

  // The transposing copy.

  const SAMPLE: nat := 4

  /** Packet k of a block: spp samples of nchan channels each, for columns k*spp and on, in all rows. */
  ghost function BandPatch(packet: seq<byte>, nchan: nat, spp: nat, k: nat): (p: Patch<Cell>)
    requires spp * nchan * SAMPLE <= |packet|
    ensures PatchOk(p)
  {
    ColumnsPatch(packet, nchan, spp, k * spp)
  }

  function ChanMajor(chan: nat, samp: nat): (int, int) -> bool {
    (i, j) => i < chan || (i == chan && j < samp)
  }

  function SampMajor(samp: nat, chan: nat): (int, int) -> bool {
    (i, j) => j < samp || (j == samp && i < chan)
  }

  /** samp_per_packet: as many whole samples of all channels as the packet's data hold. */
  function SampPerPacket(len: nat, nchan: nat): (spp: nat)
    requires nchan > 0
    ensures spp * nchan * SAMPLE <= len < (spp + 1) * nchan * SAMPLE
  {
    var cells := Radix.Div(len, SAMPLE);
    var spp := Radix.Div(cells, nchan);
    Radix.Distribute(spp, 1, nchan);
    spp
  }

  lemma SampPerPacketIs(len: nat, nchan: nat, spp: nat)
    requires nchan > 0
    ensures spp == SampPerPacket(len, nchan) <==> spp * nchan * SAMPLE <= len < (spp + 1) * nchan * SAMPLE
  {
    var s := SampPerPacket(len, nchan);
    if spp < s {
      Radix.Mono(spp + 1, s, nchan);
    } else if s < spp {
      Radix.Mono(s + 1, spp, nchan);
    }
  }

  /** The packet's band lies in the block, and the buffer holds the block. */
  ghost predicate Room(len: nat, nchan: nat, spp: nat, k: nat, ppb: nat) {
    k < ppb && nchan * (ppb * spp) * SAMPLE <= len
  }

  lemma BandInside(packet: seq<byte>, nchan: nat, spp: nat, k: nat, ppb: nat)
    requires spp * nchan * SAMPLE <= |packet| && k < ppb
    ensures Inside(BandPatch(packet, nchan, spp, k), nchan, ppb * spp)
  {
    Radix.Mono(k + 1, ppb, spp);
    Radix.Distribute(k, 1, spp);
  }

  /** A packet's samples for columns col0 and on. */
  ghost function ColumnsPatch(packet: seq<byte>, nchan: nat, spp: nat, col0: nat): (p: Patch<Cell>)
    requires spp * nchan * SAMPLE <= |packet|
    ensures PatchOk(p)
  {
    Patch(0, nchan, col0, spp, Cells(packet, SAMPLE, spp * nchan))
  }

  lemma PointersOf(nchan: nat, spp: nat, col0: nat, cols: nat, chan: nat, samp: nat)
    requires samp < spp && chan < nchan
    ensures 0 <= samp * nchan + chan < spp * nchan
    ensures (chan * cols + (col0 + samp)) * SAMPLE == SAMPLE * col0 + chan * (SAMPLE * cols) + samp * SAMPLE
    ensures (samp * nchan + chan) * SAMPLE == chan * SAMPLE + samp * (nchan * SAMPLE)
  {
    Radix.FlatBound(samp, spp, chan, nchan);
    Radix.Regroup(chan, SAMPLE, cols);
    Radix.Regroup(samp, nchan, SAMPLE);
  }

  /** One memcpy of either loop: sample samp of channel chan. */
  lemma TransposeStep(before: seq<byte>, now: seq<byte>, nchan: nat, spp: nat, col0: nat, cols: nat,
                      packet: seq<byte>,
                      done: (int, int) -> bool, done': (int, int) -> bool, chan: nat, samp: nat, optr: nat, iptr: nat)
    requires spp * nchan * SAMPLE <= |packet| && samp < spp && chan < nchan
    requires Progress(before, now, SAMPLE, nchan, cols, ColumnsPatch(packet, nchan, spp, col0), done)
    requires optr == SAMPLE * col0 + chan * (SAMPLE * cols) + samp * SAMPLE
    requires iptr == chan * SAMPLE + samp * (nchan * SAMPLE)
    requires forall i, j :: 0 <= i < nchan && 0 <= j < spp ==>
             (done'(i, j) <==> done(i, j) || (i == chan && j == samp))
    ensures optr + SAMPLE <= |now| && iptr + SAMPLE <= |packet|
    ensures Progress(before, Pieces.Overwrite(now, optr, packet[iptr..iptr + SAMPLE]), SAMPLE, nchan, cols,
                     ColumnsPatch(packet, nchan, spp, col0), done')
  {
    PointersOf(nchan, spp, col0, cols, chan, samp);
    CellAt(packet, SAMPLE, spp * nchan, samp * nchan + chan);
    CopyStep(before, now, SAMPLE, nchan, cols, ColumnsPatch(packet, nchan, spp, col0), done, done',
             chan, samp, optr, packet[iptr..iptr + SAMPLE]);
  }

  /** The loops of the cache-friendly order: for each channel all samples. */
  method ScatterByChannel(databuf: array<byte>, nchan: nat, cols: nat, col0: nat, spp: nat, packet: seq<byte>)
    requires spp * nchan * SAMPLE <= |packet| && nchan * cols * SAMPLE <= databuf.Length && col0 + spp <= cols
    modifies databuf
    ensures Copied(old(databuf[..]), databuf[..], SAMPLE, nchan, cols, ColumnsPatch(packet, nchan, spp, col0))
  {
    ghost var p := ColumnsPatch(packet, nchan, spp, col0);
    ghost var before := databuf[..];
    var optr := SAMPLE * col0;
    NotStarted(before, SAMPLE, nchan, cols, p, ChanMajor(0, 0));
    for chan := 0 to nchan
      invariant optr == SAMPLE * col0 + chan * (SAMPLE * cols)
      invariant Progress(before, databuf[..], SAMPLE, nchan, cols, p, ChanMajor(chan, 0))
    {
      var iptr := chan * SAMPLE;
      for samp := 0 to spp
        invariant optr == SAMPLE * col0 + chan * (SAMPLE * cols) + samp * SAMPLE
        invariant iptr == chan * SAMPLE + samp * (nchan * SAMPLE)
        invariant Progress(before, databuf[..], SAMPLE, nchan, cols, p, ChanMajor(chan, samp))
      {
        TransposeStep(before, databuf[..], nchan, spp, col0, cols, packet, ChanMajor(chan, samp), ChanMajor(chan,
          samp + 1),
                      chan, samp, optr, iptr);
        Radix.Distribute(samp, 1, nchan * SAMPLE);
        Memcpy(databuf, optr, packet, iptr, SAMPLE);
        optr := optr + SAMPLE;
        iptr := iptr + nchan * SAMPLE;
      }
      Radix.Distribute(chan, 1, SAMPLE * cols);
      Regarded(before, databuf[..], SAMPLE, nchan, cols, p, ChanMajor(chan, spp), ChanMajor(chan + 1, 0));
      optr := optr + SAMPLE * (cols - spp);
    }
    Finished(before, databuf[..], SAMPLE, nchan, cols, p, ChanMajor(nchan, 0));
  }

  /** The loops of the earlier order: for each sample all channels. */
  method ScatterBySample(databuf: array<byte>, nchan: nat, cols: nat, col0: nat, spp: nat, packet: seq<byte>)
    requires spp * nchan * SAMPLE <= |packet| && nchan * cols * SAMPLE <= databuf.Length && col0 + spp <= cols
    modifies databuf
    ensures Copied(old(databuf[..]), databuf[..], SAMPLE, nchan, cols, ColumnsPatch(packet, nchan, spp, col0))
  {
    ghost var p := ColumnsPatch(packet, nchan, spp, col0);
    ghost var before := databuf[..];
    var iptr := 0;
    NotStarted(before, SAMPLE, nchan, cols, p, SampMajor(0, 0));
    for samp := 0 to spp
      invariant iptr == samp * (nchan * SAMPLE)
      invariant Progress(before, databuf[..], SAMPLE, nchan, cols, p, SampMajor(samp, 0))
    {
      var optr := SAMPLE * (col0 + samp);
      for chan := 0 to nchan
        invariant optr == SAMPLE * col0 + chan * (SAMPLE * cols) + samp * SAMPLE
        invariant iptr == chan * SAMPLE + samp * (nchan * SAMPLE)
        invariant Progress(before, databuf[..], SAMPLE, nchan, cols, p, SampMajor(samp, chan))
      {
        TransposeStep(before, databuf[..], nchan, spp, col0, cols, packet, SampMajor(samp, chan), SampMajor(samp,
          chan + 1),
                      chan, samp, optr, iptr);
        Radix.Distribute(chan, 1, SAMPLE * cols);
        Memcpy(databuf, optr, packet, iptr, SAMPLE);
        iptr := iptr + SAMPLE;
        optr := optr + SAMPLE * cols;
      }
      Radix.Distribute(samp, 1, nchan * SAMPLE);
      Regarded(before, databuf[..], SAMPLE, nchan, cols, p, SampMajor(samp, nchan), SampMajor(samp + 1, 0));
    }
    Finished(before, databuf[..], SAMPLE, nchan, cols, p, SampMajor(spp, 0));
  }

  /** hpguppi_udp_packet_data_copy_transpose_from_payload as compiled. */
  method TransposeByChannel(databuf: array<byte>, nchan: nat, k: nat, ppb: nat, packet: seq<byte>)
    requires nchan > 0 && Room(databuf.Length, nchan, SampPerPacket(|packet|, nchan), k, ppb)
    modifies databuf
    ensures var spp := SampPerPacket(|packet|, nchan);
            Copied(old(databuf[..]), databuf[..], SAMPLE, nchan, ppb * spp, BandPatch(packet, nchan, spp, k))
  {
    var spp := SampPerPacket(|packet|, nchan);
    BandInside(packet, nchan, spp, k, ppb);
    ScatterByChannel(databuf, nchan, ppb * spp, k * spp, spp, packet);
  }

  /** The version that is compiled out: it writes the same bytes. */
  method TransposeBySample(databuf: array<byte>, nchan: nat, k: nat, ppb: nat, packet: seq<byte>)
    requires nchan > 0 && Room(databuf.Length, nchan, SampPerPacket(|packet|, nchan), k, ppb)
    modifies databuf
    ensures var spp := SampPerPacket(|packet|, nchan);
            Copied(old(databuf[..]), databuf[..], SAMPLE, nchan, ppb * spp, BandPatch(packet, nchan, spp, k))
  {
    var spp := SampPerPacket(|packet|, nchan);
    BandInside(packet, nchan, spp, k, ppb);
    ScatterBySample(databuf, nchan, ppb * spp, k * spp, spp, packet);
  }
}
