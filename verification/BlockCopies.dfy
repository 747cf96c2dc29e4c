/**
 Whole blocks: what stands in a block once all its packets have been copied into it, in whatever order they came.
 */
module BlockCopies {
  import opened BlockMatrix
  import opened DataFormats
  import opened PacketCopy
  import Pieces
  import Radix

  // Copies one after the other.

  /** The block's successive contents, each the one before with one more packet copied. */
  ghost predicate CopyRun(bs: seq<seq<byte>>, w: nat, rows: nat, cols: nat, ps: seq<Patch<Cell>>) {
    && |bs| == |ps| + 1
    && rows * cols * w <= |bs[0]|
    && forall i :: 0 <= i < |ps| ==> Copied(bs[i], bs[i + 1], w, rows, cols, ps[i])
  }

  lemma {:induction false} CopyRunIs(bs: seq<seq<byte>>, w: nat, rows: nat, cols: nat, ps: seq<Patch<Cell>>)
    requires CopyRun(bs, w, rows, cols, ps)
    ensures AllInside(ps, rows, cols)
    ensures |bs[|ps|]| == |bs[0]|
    ensures Cells(bs[|ps|], w, rows * cols) == ApplyAll(Cells(bs[0], w, rows * cols), rows, cols, ps)
    ensures bs[|ps|][rows * cols * w..] == bs[0][rows * cols * w..]
  {
    if ps != [] {
      var n := |ps| - 1;
      var init := ps[..n];
      var bs' := bs[..|ps|];
      forall i | 0 <= i < n ensures Copied(bs'[i], bs'[i + 1], w, rows, cols, init[i]) {
        assert init[i] == ps[i] && bs'[i] == bs[i] && bs'[i + 1] == bs[i + 1];
      }
      CopyRunIs(bs', w, rows, cols, init);
      assert Copied(bs[n], bs[n + 1], w, rows, cols, ps[n]);
    }
  }

  /** Copying packets that do not overlap in another order, or some of them again, ends in the same block. */
  lemma OrderDoesNotMatter(bs: seq<seq<byte>>, cs: seq<seq<byte>>, w: nat, rows: nat, cols: nat,
                           ps: seq<Patch<Cell>>, qs: seq<Patch<Cell>>)
    requires CopyRun(bs, w, rows, cols, ps) && CopyRun(cs, w, rows, cols, qs) && bs[0] == cs[0]
    requires Disjoint(ps) && forall p :: p in ps <==> p in qs
    ensures bs[|ps|] == cs[|qs|]
  {
    CopyRunIs(bs, w, rows, cols, ps);
    CopyRunIs(cs, w, rows, cols, qs);
    AnyOrder(Cells(bs[0], w, rows * cols), rows, cols, ps, qs);
    SameBytes(bs[|ps|], cs[|qs|], w, rows * cols);
  }

  /** Equal cells and an equal rest make equal bytes. */
  lemma SameBytes(a: seq<byte>, b: seq<byte>, w: nat, n: nat)
    requires |a| == |b| && n * w <= |a| && Cells(a, w, n) == Cells(b, w, n) && a[n * w..] == b[n * w..]
    ensures a == b
  {
    forall i | 0 <= i < |a| ensures a[i] == b[i] {
      if i < n * w {
        Radix.RowBound(i, n, w);
        Radix.Split(i, w);
        CellAt(a, w, n, i / w);
        CellAt(b, w, n, i / w);
        assert a[i] == Cells(a, w, n)[i / w][i % w];
      } else {
        assert a[i] == a[n * w..][i - n * w];
      }
    }
  }

  /** The contract of a copy leaves no choice: both loop orders of the transposing copy write the same bytes. */
  lemma CopiesAgree(before: seq<byte>, a: seq<byte>, b: seq<byte>, w: nat, rows: nat, cols: nat, p: Patch<Cell>)
    requires Copied(before, a, w, rows, cols, p) && Copied(before, b, w, rows, cols, p)
    ensures a == b
  {
    SameBytes(a, b, w, rows * cols);
  }

  /** Every patch carries part of the matrix m. */
  ghost predicate PartsOf<T>(m: seq<T>, rows: nat, cols: nat, ps: seq<Patch<T>>)
    requires IsMatrix(m, rows, cols) && AllInside(ps, rows, cols)
  {
    forall i, row: nat, col: nat :: 0 <= i < |ps| && Covers(ps[i], row, col) ==>
      Value(ps[i], row, col) == At(m, rows, cols, row, col)
  }

  /** Parts of a matrix that cover it, copied in any order and any number of times, make it up. */
  lemma PartsMakeWhole<T>(d: seq<T>, m: seq<T>, rows: nat, cols: nat, ps: seq<Patch<T>>)
    requires IsMatrix(d, rows, cols) && IsMatrix(m, rows, cols) && AllInside(ps, rows, cols) &&
             PartsOf(m, rows, cols, ps)
    requires forall row: nat, col: nat :: row < rows && col < cols ==> Covered(ps, row, col)
    ensures ApplyAll(d, rows, cols, ps) == m
  {
    forall row: nat, col: nat | row < rows && col < cols
      ensures At(ApplyAll(d, rows, cols, ps), rows, cols, row, col) == At(m, rows, cols, row, col)
    {
      ApplyAllAt(d, rows, cols, ps, row, col, At(m, rows, cols, row, col));
    }
    SameCells(m, ApplyAll(d, rows, cols, ps), rows, cols);
  }

  // The strided copy.

  /** The packet's data are pieces of the channels' time series. */
  ghost predicate HeapOf(p: Patch<Cell>, series: seq<seq<byte>>, w: nat, cols: nat)
    requires Pieces.Uniform(series, cols * w)
  {
    && Inside(p, |series|, cols) && p.ncols == 1
    && forall r :: 0 <= r < p.nrows ==> p.src[r] == Cells(series[p.row0 + r], w, cols)[p.col0]
  }

  /** Cell j of piece k. */
  lemma PieceCell(x: seq<byte>, w: nat, n: nat, total: nat, k: nat, j: nat)
    requires |x| == total * (n * w) && k < total && j < n
    ensures (k + 1) * (n * w) <= |x| && 0 <= k * n + j < total * n && total * n * w <= |x|
    ensures Cells(Pieces.Piece(x, n * w, k), w, n)[j] == Cells(x, w, total * n)[k * n + j]
  {
    Radix.Mono(k + 1, total, n * w);
    Radix.FlatBound(k, total, j, n);
    Radix.Regroup(total, n, w);
    Radix.Regroup(k, n, w);
    Radix.Distribute(k * n, j, w);
    CellAt(Pieces.Piece(x, n * w, k), w, n, j);
    CellAt(x, w, total * n, k * n + j);
    PieceSlice(x, n * w, k, j * w, j * w + w);
  }

  lemma PieceSlice(x: seq<byte>, len: nat, k: nat, a: nat, b: nat)
    requires (k + 1) * len <= |x| && a <= b <= len
    ensures 0 <= k * len && k * len + b <= |x|
    ensures Pieces.Piece(x, len, k)[a..b] == x[k * len + a..k * len + b]
  {
    Pieces.PieceIs(x, len, k);
    Pieces.SliceSlice(x, k * len, len, a, b);
  }

  /** Row after row, the channels' series make a matrix. */
  lemma SeriesAt(series: seq<seq<byte>>, w: nat, cols: nat, row: nat, col: nat)
    requires Pieces.Uniform(series, cols * w) && row < |series| && col < cols
    ensures |Pieces.Join(series)| == |series| * (cols * w) == |series| * cols * w
    ensures At(Cells(Pieces.Join(series), w, |series| * cols), |series|, cols, row, col)
            == Cells(series[row], w, cols)[col]
  {
    var x := Pieces.Join(series);
    Pieces.JoinLen(series, cols * w);
    Radix.Regroup(|series|, cols, w);
    PieceCell(x, w, cols, |series|, row, col);
    JoinPiece(series, cols * w, row);
  }

  lemma JoinPiece(series: seq<seq<byte>>, len: nat, row: nat)
    requires Pieces.Uniform(series, len) && row < |series|
    ensures (row + 1) * len <= |Pieces.Join(series)|
    ensures Pieces.Piece(Pieces.Join(series), len, row) == series[row]
  {
    Pieces.JoinLen(series, len);
    Radix.Mono(row + 1, |series|, len);
    forall y | 0 <= y < len ensures Pieces.Piece(Pieces.Join(series), len, row)[y] == series[row][y] {
      Pieces.JoinAt(series, len, row, y);
      Pieces.PieceAt(Pieces.Join(series), len, row, y);
    }
  }

  lemma SeriesParts(series: seq<seq<byte>>, w: nat, cols: nat, ps: seq<Patch<Cell>>)
    requires Pieces.Uniform(series, cols * w) && AllInside(ps, |series|, cols)
    requires |Pieces.Join(series)| == |series| * cols * w
    requires forall i :: 0 <= i < |ps| ==> HeapOf(ps[i], series, w, cols)
    ensures PartsOf(Cells(Pieces.Join(series), w, |series| * cols), |series|, cols, ps)
  {
    var m := Cells(Pieces.Join(series), w, |series| * cols);
    forall i, row: nat, col: nat | 0 <= i < |ps| && Covers(ps[i], row, col)
      ensures Value(ps[i], row, col) == At(m, |series|, cols, row, col)
    {
      SeriesPart(series, w, cols, ps[i], m, row, col);
    }
  }

  lemma SeriesPart(series: seq<seq<byte>>, w: nat, cols: nat, p: Patch<Cell>, m: seq<Cell>, row: nat, col: nat)
    requires Pieces.Uniform(series, cols * w) && HeapOf(p, series, w, cols) && Covers(p, row, col)
    requires |series| * cols * w <= |Pieces.Join(series)| && m == Cells(Pieces.Join(series), w, |series| * cols)
    ensures Value(p, row, col) == At(m, |series|, cols, row, col)
  {
    HeapValue(p, series, w, cols, row, col);
    SeriesAt(series, w, cols, row, col);
  }

  lemma HeapValue(p: Patch<Cell>, series: seq<seq<byte>>, w: nat, cols: nat, row: nat, col: nat)
    requires Pieces.Uniform(series, cols * w) && HeapOf(p, series, w, cols) && Covers(p, row, col)
    ensures Value(p, row, col) == Cells(series[row], w, cols)[col]
  {
    assert col - p.col0 == 0;
    assert (col - p.col0) * p.nrows == 0;
    assert Value(p, row, col) == p.src[row - p.row0];
  }

  lemma StridedCells(bs: seq<seq<byte>>, series: seq<seq<byte>>, w: nat, rows: nat, cols: nat, ps: seq<Patch<Cell>>)
    requires rows == |series| && Pieces.Uniform(series, cols * w) && CopyRun(bs, w, rows, cols, ps)
    requires |Pieces.Join(series)| == rows * cols * w
    requires forall i :: 0 <= i < |ps| ==> HeapOf(ps[i], series, w, cols)
    requires forall row: nat, col: nat :: row < rows && col < cols ==> Covered(ps, row, col)
    ensures rows * cols * w <= |bs[|ps|]|
    ensures Cells(bs[|ps|], w, rows * cols) == Cells(Pieces.Join(series), w, rows * cols)
  {
    CopyRunIs(bs, w, rows, cols, ps);
    SeriesParts(series, w, cols, ps);
    PartsMakeWhole(Cells(bs[0], w, rows * cols), Cells(Pieces.Join(series), w, rows * cols), rows, cols, ps);
  }

  /** All packets of a block, copied in any order, leave the channels' time series one after the other. */
  lemma StridedBlock(bs: seq<seq<byte>>, series: seq<seq<byte>>, w: nat, rows: nat, cols: nat, ps: seq<Patch<Cell>>)
    requires rows == |series| && Pieces.Uniform(series, cols * w) && CopyRun(bs, w, rows, cols, ps)
    requires forall i :: 0 <= i < |ps| ==> HeapOf(ps[i], series, w, cols)
    requires forall row: nat, col: nat :: row < rows && col < cols ==> Covered(ps, row, col)
    ensures rows * cols * w <= |bs[|ps|]|
    ensures bs[|ps|][..rows * cols * w] == Pieces.Join(series)
  {
    Pieces.JoinLen(series, cols * w);
    Radix.Regroup(rows, cols, w);
    StridedCells(bs, series, w, rows, cols, ps);
    PrefixIs(bs[|ps|], Pieces.Join(series), w, rows * cols);
  }

  lemma PrefixIs(s: seq<byte>, x: seq<byte>, w: nat, n: nat)
    requires |x| == n * w <= |s| && Cells(s, w, n) == Cells(x, w, n)
    ensures s[..n * w] == x
  {
    CellsOfPrefix(s, w, n);
    SameBytes(s[..n * w], x, w, n);
  }

  lemma CellsOfPrefix(s: seq<byte>, w: nat, n: nat)
    requires n * w <= |s|
    ensures Cells(s[..n * w], w, n) == Cells(s, w, n)
  {
    forall i | 0 <= i < n ensures Cells(s[..n * w], w, n)[i] == Cells(s, w, n)[i] {
      Radix.Mono(i + 1, n, w);
      PieceSlice(s, w, i, 0, w);
      PieceSlice(s[..n * w], w, i, 0, w);
    }
  }

  // The transposing copy.

  /** Packet k of a stream of ppb packets of spp samples of nchan channels. */
  ghost function StreamPatch(x: seq<byte>, nchan: nat, spp: nat, ppb: nat, k: nat): (p: Patch<Cell>)
    requires |x| == ppb * (spp * nchan * SAMPLE) && k < ppb
    ensures Inside(p, nchan, ppb * spp)
  {
    Radix.Mono(k + 1, ppb, spp * nchan * SAMPLE);
    var packet := Pieces.Piece(x, spp * nchan * SAMPLE, k);
    BandInside(packet, nchan, spp, k, ppb);
    BandPatch(packet, nchan, spp, k)
  }

  ghost function StreamPatches(x: seq<byte>, nchan: nat, spp: nat, ppb: nat, order: seq<nat>): (ps: seq<Patch<Cell>>)
    requires |x| == ppb * (spp * nchan * SAMPLE) && forall i :: 0 <= i < |order| ==> order[i] < ppb
    ensures |ps| == |order| && AllInside(ps, nchan, ppb * spp)
    ensures forall i :: 0 <= i < |ps| ==> ps[i] == StreamPatch(x, nchan, spp, ppb, order[i])
  {
    seq(|order|, i requires 0 <= i < |order| => StreamPatch(x, nchan, spp, ppb, order[i]))
  }

  /** The samples of x, taken as rows of nchan, in transposed order. */
  ghost function TransposedCells(x: seq<byte>, nchan: nat, n: nat): (r: seq<Cell>)
    requires n * nchan * SAMPLE <= |x|
    ensures IsMatrix(r, nchan, n)
  {
    seq(nchan * n, i requires 0 <= i < nchan * n =>
      Radix.RowBound(i, nchan, n);
      Radix.Split(i, n);
      Radix.FlatBound(i % n, n, i / n, nchan);
      Cells(x, SAMPLE, n * nchan)[i % n * nchan + i / n])
  }

  /** Entry (channel, time) of the transpose is entry (time, channel) of the stream. */
  lemma TransposedAt(x: seq<byte>, nchan: nat, n: nat, c: nat, t: nat)
    requires n * nchan * SAMPLE <= |x| && c < nchan && t < n
    ensures 0 <= t * nchan + c < n * nchan
    ensures At(TransposedCells(x, nchan, n), nchan, n, c, t) == Cells(x, SAMPLE, n * nchan)[t * nchan + c]
  {
    Radix.FlatBound(c, nchan, t, n);
    Radix.FlatDivMod(c, t, n);
    Radix.FlatBound(t, n, c, nchan);
  }

  lemma StreamLen(nchan: nat, spp: nat, ppb: nat)
    ensures ppb * (spp * nchan * SAMPLE) == ppb * spp * nchan * SAMPLE == ppb * (spp * nchan) * SAMPLE
    ensures ppb * (spp * nchan) == ppb * spp * nchan
  {
    Radix.Regroup(ppb, spp * nchan, SAMPLE);
    Radix.Regroup(ppb, spp, nchan);
  }

  lemma StreamValue(x: seq<byte>, nchan: nat, spp: nat, ppb: nat, k: nat, c: nat, t: nat)
    requires |x| == ppb * (spp * nchan * SAMPLE) && k < ppb
    requires Covers(StreamPatch(x, nchan, spp, ppb, k), c, t)
    ensures ppb * spp * nchan * SAMPLE <= |x| && t < ppb * spp
    ensures Value(StreamPatch(x, nchan, spp, ppb, k), c, t)
            == At(TransposedCells(x, nchan, ppb * spp), nchan, ppb * spp, c, t)
  {
    StreamLen(nchan, spp, ppb);
    var s := t - k * spp;
    Radix.FlatBound(s, spp, c, nchan);
    PieceCell(x, SAMPLE, spp * nchan, ppb, k, s * nchan + c);
    TransposedAt(x, nchan, ppb * spp, c, t);
    Radix.Regroup(k, spp, nchan);
    Radix.Distribute(k * spp, s, nchan);
  }

  lemma StreamCovered(x: seq<byte>, nchan: nat, spp: nat, ppb: nat, order: seq<nat>, c: nat, t: nat)
    requires |x| == ppb * (spp * nchan * SAMPLE) && forall i :: 0 <= i < |order| ==> order[i] < ppb
    requires (forall k: nat :: k < ppb ==> k in order) && c < nchan && t < ppb * spp
    ensures Covered(StreamPatches(x, nchan, spp, ppb, order), c, t)
  {
    Radix.RowBound(t, ppb, spp);
    Radix.Split(t, spp);
    var k := t / spp;
    assert k in order;
    var i :| 0 <= i < |order| && order[i] == k;
    assert Covers(StreamPatches(x, nchan, spp, ppb, order)[i], c, t);
  }

  /** The whole samples of the packets, end to end. */
  ghost function SampleStream(packets: seq<seq<byte>>, nchan: nat, spp: nat): (x: seq<byte>)
    requires forall k :: 0 <= k < |packets| ==> spp * nchan * SAMPLE <= |packets[k]|
  {
    Pieces.Join(seq(|packets|, k requires 0 <= k < |packets| => packets[k][..spp * nchan * SAMPLE]))
  }

  /** A packet's band is cut from the stream, whatever bytes follow its whole samples. */
  lemma BandOfStream(packets: seq<seq<byte>>, nchan: nat, spp: nat, k: nat)
    requires forall k :: 0 <= k < |packets| ==> spp * nchan * SAMPLE <= |packets[k]|
    requires k < |packets|
    ensures |SampleStream(packets, nchan, spp)| == |packets| * (spp * nchan * SAMPLE)
    ensures BandPatch(packets[k], nchan, spp, k)
            == StreamPatch(SampleStream(packets, nchan, spp), nchan, spp, |packets|, k)
  {
    var len := spp * nchan * SAMPLE;
    var cut := seq(|packets|, k requires 0 <= k < |packets| => packets[k][..len]);
    Pieces.JoinLen(cut, len);
    JoinPiece(cut, len, k);
    CellsOfPrefix(packets[k], SAMPLE, spp * nchan);
  }

  /** What the copying routine writes for the packets in the given order. */
  ghost function BandPatches(packets: seq<seq<byte>>, nchan: nat, spp: nat, order: seq<nat>): (ps: seq<Patch<Cell>>)
    requires forall k :: 0 <= k < |packets| ==> spp * nchan * SAMPLE <= |packets[k]|
    requires forall i :: 0 <= i < |order| ==> order[i] < |packets|
    ensures |ps| == |order|
    ensures forall i :: 0 <= i < |ps| ==> ps[i] == BandPatch(packets[order[i]], nchan, spp, order[i])
  {
    seq(|order|, i requires 0 <= i < |order| => BandPatch(packets[order[i]], nchan, spp, order[i]))
  }

  /**
   All packets of a block, of any length, copied in any order with the routine's own number of samples per
   packet, leave the transpose of the concatenated sample stream.
   */
  lemma TransposedBlock(bs: seq<seq<byte>>, packets: seq<seq<byte>>, len: nat, nchan: nat, order: seq<nat>)
    requires nchan > 0 && Pieces.Uniform(packets, len)
    requires forall i :: 0 <= i < |order| ==> order[i] < |packets|
    requires forall k: nat :: k < |packets| ==> k in order
    requires var spp := SampPerPacket(len, nchan);
             CopyRun(bs, SAMPLE, nchan, |packets| * spp, BandPatches(packets, nchan, spp, order))
    ensures var spp := SampPerPacket(len, nchan);
            var x := SampleStream(packets, nchan, spp);
            && |packets| * spp * nchan * SAMPLE <= |x| && nchan * (|packets| * spp) * SAMPLE <= |bs[|order|]|
            && Cells(bs[|order|], SAMPLE, nchan * (|packets| * spp)) == TransposedCells(x, nchan, |packets| * spp)
  {
    var spp := SampPerPacket(len, nchan);
    var x := SampleStream(packets, nchan, spp);
    StreamSize(packets, nchan, spp);
    forall i | 0 <= i < |order|
      ensures BandPatches(packets, nchan, spp, order)[i] == StreamPatches(x, nchan, spp, |packets|, order)[i]
    {
      BandOfStream(packets, nchan, spp, order[i]);
    }
    assert BandPatches(packets, nchan, spp, order) == StreamPatches(x, nchan, spp, |packets|, order);
    StreamTransposed(bs, x, nchan, spp, |packets|, order);
  }

  lemma StreamSize(packets: seq<seq<byte>>, nchan: nat, spp: nat)
    requires forall k :: 0 <= k < |packets| ==> spp * nchan * SAMPLE <= |packets[k]|
    ensures |SampleStream(packets, nchan, spp)| == |packets| * (spp * nchan * SAMPLE)
  {
    var len := spp * nchan * SAMPLE;
    Pieces.JoinLen(seq(|packets|, k requires 0 <= k < |packets| => packets[k][..len]), len);
  }

  lemma StreamTransposed(bs: seq<seq<byte>>, x: seq<byte>, nchan: nat, spp: nat, ppb: nat, order: seq<nat>)
    requires |x| == ppb * (spp * nchan * SAMPLE) && forall i :: 0 <= i < |order| ==> order[i] < ppb
    requires forall k: nat :: k < ppb ==> k in order
    requires CopyRun(bs, SAMPLE, nchan, ppb * spp, StreamPatches(x, nchan, spp, ppb, order))
    ensures ppb * spp * nchan * SAMPLE <= |x| && nchan * (ppb * spp) * SAMPLE <= |bs[|order|]|
    ensures Cells(bs[|order|], SAMPLE, nchan * (ppb * spp)) == TransposedCells(x, nchan, ppb * spp)
  {
    StreamLen(nchan, spp, ppb);
    var n := ppb * spp;
    var ps := StreamPatches(x, nchan, spp, ppb, order);
    var m := TransposedCells(x, nchan, n);
    CopyRunIs(bs, SAMPLE, nchan, n, ps);
    forall i, row: nat, col: nat | 0 <= i < |ps| && Covers(ps[i], row, col)
      ensures Value(ps[i], row, col) == At(m, nchan, n, row, col)
    {
      StreamValue(x, nchan, spp, ppb, order[i], row, col);
    }
    forall row: nat, col: nat | row < nchan && col < n ensures Covered(ps, row, col) {
      StreamCovered(x, nchan, spp, ppb, order, row, col);
    }
    PartsMakeWhole(Cells(bs[0], SAMPLE, nchan * n), m, nchan, n, ps);
  }
}
