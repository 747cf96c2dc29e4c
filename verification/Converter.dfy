/**
 The converter (full_custom/converter.c): each 16-sample chunk of a recording is re-ordered from
 antenna / channel group / sample to one stream per antenna in sample / channel order.
 */
module Converter {
  import opened DataFormats
  import opened Recording
  import Radix
  import Pieces

  /** Bytes of one sample of one channel group: both polarisations of 256 channels. */
  const LINE: nat := POLS_PER_PACKET * CHANS_PER_PACKET

  function InLen(nAnts: nat, nch: nat): nat { nAnts * nch * RX_DATA_LEN }

  function OutLen(nch: nat): nat { nch * RX_DATA_LEN }

  function InIndex(nch: nat, a: nat, l: nat, m: nat, n: nat): nat {
    a * (RX_DATA_LEN * nch) + l * RX_DATA_LEN + m * LINE + n
  }

  function OutIndex(nch: nat, l: nat, m: nat, n: nat): nat {
    l * LINE + m * nch * LINE + n
  }

  lemma InBounds(nAnts: nat, nch: nat, a: nat, l: nat, m: nat, n: nat)
    requires a < nAnts && l < nch && m < SAMPLES_PER_PACKET && n < LINE
    ensures InIndex(nch, a, l, m, n) < InLen(nAnts, nch)
    ensures InIndex(nch, a, l, m, n) == (a * nch + l) * RX_DATA_LEN + (m * LINE + n)
    ensures InIndex(nch, a, l, m, 0) + LINE <= InLen(nAnts, nch)
  {
    Radix.FlatBound(a, nAnts, l, nch);
    Radix.Regroup(a, RX_DATA_LEN, nch);
    Radix.Regroup(a, nch, RX_DATA_LEN);
    Radix.Mono(a * nch + l + 1, nAnts * nch, RX_DATA_LEN);
  }

  lemma OutBounds(nch: nat, l: nat, m: nat, n: nat)
    requires l < nch && m < SAMPLES_PER_PACKET && n < LINE
    ensures OutIndex(nch, l, m, n) < OutLen(nch)
    ensures OutIndex(nch, l, m, n) == (m * nch + l) * LINE + n
    ensures OutIndex(nch, l, m, 0) + LINE <= OutLen(nch)
  {
    Radix.FlatBound(m, SAMPLES_PER_PACKET, l, nch);
    Radix.Mono(m * nch + l + 1, SAMPLES_PER_PACKET * nch, LINE);
  }

  /** Where an output byte of antenna a comes from. */
  function Source(nAnts: nat, nch: nat, a: nat, x: nat): (i: nat)
    requires a < nAnts && x < OutLen(nch)
    ensures i < InLen(nAnts, nch)
  {
    Radix.RowBound(x / LINE, SAMPLES_PER_PACKET, nch);
    InBounds(nAnts, nch, a, x / LINE % nch, x / LINE / nch, x % LINE);
    InIndex(nch, a, x / LINE % nch, x / LINE / nch, x % LINE)
  }

  /** Where an input byte goes: antenna and offset. */
  function Target(nAnts: nat, nch: nat, i: nat): (t: (nat, nat))
    requires i < InLen(nAnts, nch)
    ensures t.0 < nAnts && t.1 < OutLen(nch)
  {
    var packet := i / RX_DATA_LEN;
    var n := i % LINE;
    var m := i / LINE % SAMPLES_PER_PACKET;
    Radix.RowBound(packet, nAnts, nch);
    OutBounds(nch, packet % nch, m, n);
    (packet / nch, OutIndex(nch, packet % nch, m, n))
  }

  /** The two are inverse: conversion is a permutation that covers every output byte once. */
  lemma ConvertIsPermutation(nAnts: nat, nch: nat)
    ensures forall i: nat :: i < InLen(nAnts, nch) ==>
              var t := Target(nAnts, nch, i); Source(nAnts, nch, t.0, t.1) == i
    ensures forall a: nat, x: nat :: a < nAnts && x < OutLen(nch) ==>
              Target(nAnts, nch, Source(nAnts, nch, a, x)) == (a, x)
  {
    forall i: nat | i < InLen(nAnts, nch)
      ensures var t := Target(nAnts, nch, i); Source(nAnts, nch, t.0, t.1) == i
    {
      SourceOfTarget(nAnts, nch, i);
    }
    forall a: nat, x: nat | a < nAnts && x < OutLen(nch)
      ensures Target(nAnts, nch, Source(nAnts, nch, a, x)) == (a, x)
    {
      TargetOfSource(nAnts, nch, a, x);
    }
  }

  lemma LineSplit(x: nat, line: nat, n: nat)
    requires n < LINE && x == line * LINE + n
    ensures x / LINE == line && x % LINE == n
  {
  }

  lemma PacketSplit(i: nat, packet: nat, m: nat, n: nat)
    requires m < SAMPLES_PER_PACKET && n < LINE && i == packet * RX_DATA_LEN + (m * LINE + n)
    ensures i / RX_DATA_LEN == packet && i / LINE % SAMPLES_PER_PACKET == m && i % LINE == n
  {
    LineSplit(i, packet * SAMPLES_PER_PACKET + m, n);
  }

  lemma PacketJoin(i: nat)
    ensures i == i / RX_DATA_LEN * RX_DATA_LEN + (i / LINE % SAMPLES_PER_PACKET * LINE + i % LINE)
  {
    var line := i / LINE;
    assert i == line * LINE + i % LINE;
    assert line == line / SAMPLES_PER_PACKET * SAMPLES_PER_PACKET + line % SAMPLES_PER_PACKET;
    assert i / RX_DATA_LEN == line / SAMPLES_PER_PACKET;
  }

  lemma SourceOfTarget(nAnts: nat, nch: nat, i: nat)
    requires i < InLen(nAnts, nch)
    ensures var t := Target(nAnts, nch, i); Source(nAnts, nch, t.0, t.1) == i
  {
    var packet := i / RX_DATA_LEN;
    var n := i % LINE;
    var m := i / LINE % SAMPLES_PER_PACKET;
    Radix.RowBound(packet, nAnts, nch);
    var a, l := packet / nch, packet % nch;
    Radix.Split(packet, nch);
    OutBounds(nch, l, m, n);
    var x := OutIndex(nch, l, m, n);
    SourceAt(nAnts, nch, a, l, m, n, x);
    InBounds(nAnts, nch, a, l, m, n);
    PacketJoin(i);
  }

  lemma SourceAt(nAnts: nat, nch: nat, a: nat, l: nat, m: nat, n: nat, x: nat)
    requires a < nAnts && l < nch && m < SAMPLES_PER_PACKET && n < LINE && x == (m * nch + l) * LINE + n
    requires x < OutLen(nch)
    ensures Source(nAnts, nch, a, x) == InIndex(nch, a, l, m, n)
  {
    LineSplit(x, m * nch + l, n);
    Radix.FlatDivMod(m, l, nch);
  }

  lemma TargetAt(nAnts: nat, nch: nat, a: nat, l: nat, m: nat, n: nat, i: nat)
    requires a < nAnts && l < nch && m < SAMPLES_PER_PACKET && n < LINE &&
             i == (a * nch + l) * RX_DATA_LEN + (m * LINE + n)
    requires i < InLen(nAnts, nch)
    ensures Target(nAnts, nch, i) == (a, OutIndex(nch, l, m, n))
  {
    PacketSplit(i, a * nch + l, m, n);
    Radix.FlatDivMod(a, l, nch);
  }

  lemma TargetOfSource(nAnts: nat, nch: nat, a: nat, x: nat)
    requires a < nAnts && x < OutLen(nch)
    ensures Target(nAnts, nch, Source(nAnts, nch, a, x)) == (a, x)
  {
    Radix.RowBound(x / LINE, SAMPLES_PER_PACKET, nch);
    var l, m, n := x / LINE % nch, x / LINE / nch, x % LINE;
    Radix.Split(x / LINE, nch);
    InBounds(nAnts, nch, a, l, m, n);
    TargetAt(nAnts, nch, a, l, m, n, InIndex(nch, a, l, m, n));
    OutBounds(nch, l, m, n);
    LineJoin(x);
  }

  lemma LineJoin(x: nat)
    ensures x == x / LINE * LINE + x % LINE
  {
  }

  /** The 4-bit output of antenna a for one chunk. */
  function ConvertAnt(data: seq<byte>, nAnts: nat, nch: nat, a: nat): (r: seq<byte>)
    requires |data| == InLen(nAnts, nch) && a < nAnts
    ensures |r| == OutLen(nch)
  {
    seq(OutLen(nch), x requires 0 <= x < OutLen(nch) => data[Source(nAnts, nch, a, x)])
  }

  // The loops.

  method CopyLine(src: array<byte>, from: nat, dst: array<byte>, to: nat)
    requires src != dst && from + LINE <= src.Length && to + LINE <= dst.Length
    modifies dst
    ensures forall x :: 0 <= x < dst.Length ==>
              dst[x] == if to <= x < to + LINE then src[from + x - to] else old(dst[x])
  {
    var n := 0;
    while n < LINE
      invariant 0 <= n <= LINE
      invariant forall x :: 0 <= x < dst.Length ==>
                  dst[x] == if to <= x < to + n then src[from + x - to] else old(dst[x])
    {
      dst[to + n] := src[from + n];
      n := n + 1;
    }
  }

  /** Lines finished when the loops stand at channel group l, sample m. */
  ghost predicate LineDone(j: nat, nch: nat, l: nat, m: nat)
    requires nch > 0
  {
    j % nch < l || (j % nch == l && j / nch < m)
  }

  lemma NextLine(j: nat, nch: nat, l: nat, m: nat)
    requires l < nch
    ensures LineDone(j, nch, l, m + 1) <==> LineDone(j, nch, l, m) || j == m * nch + l
  {
    Radix.Split(j, nch);
    Radix.FlatDivMod(m, l, nch);
  }

  method ConvertOne(datain: array<byte>, out: array<byte>, nAnts: nat, nch: nat, a: nat)
    requires datain != out && datain.Length == InLen(nAnts, nch) && out.Length == OutLen(nch) && a < nAnts && nch > 0
    modifies out
    ensures out[..] == ConvertAnt(datain[..], nAnts, nch, a)
  {
    ghost var goal := ConvertAnt(datain[..], nAnts, nch, a);
    var l := 0;
    while l < nch
      invariant 0 <= l <= nch
      invariant forall x: nat :: x < out.Length && LineDone(x / LINE, nch, l, 0) ==> out[x] == goal[x]
    {
      var m := 0;
      while m < SAMPLES_PER_PACKET
        invariant 0 <= m <= SAMPLES_PER_PACKET
        invariant forall x: nat :: x < out.Length && LineDone(x / LINE, nch, l, m) ==> out[x] == goal[x]
      {
        InBounds(nAnts, nch, a, l, m, 0);
        OutBounds(nch, l, m, 0);
        ghost var was := out[..];
        CopyLine(datain, a * (RX_DATA_LEN * nch) + l * RX_DATA_LEN + m * LINE, out, l * LINE + m * nch * LINE);
        forall x: nat | x < out.Length && LineDone(x / LINE, nch, l, m + 1) ensures out[x] == goal[x] {
          NextLine(x / LINE, nch, l, m);
          LineBytes(nAnts, nch, a, l, m, x);
        }
        m := m + 1;
      }
      forall x: nat | x < out.Length && LineDone(x / LINE, nch, l + 1, 0) ensures out[x] == goal[x] {
        LastLine(x, nch, l);
      }
      l := l + 1;
    }
    forall x: nat | x < out.Length ensures out[x] == goal[x] {
      Radix.Split(x / LINE, nch);
    }
  }

  lemma LastLine(x: nat, nch: nat, l: nat)
    requires nch > 0 && x < OutLen(nch) && LineDone(x / LINE, nch, l + 1, 0)
    ensures LineDone(x / LINE, nch, l, SAMPLES_PER_PACKET)
  {
    Radix.RowBound(x / LINE, SAMPLES_PER_PACKET, nch);
  }

  /**
   A byte is inside the line just copied exactly when its line number is the current one, and then it has the right
   source.
   */
  lemma LineBytes(nAnts: nat, nch: nat, a: nat, l: nat, m: nat, x: nat)
    requires a < nAnts && l < nch && m < SAMPLES_PER_PACKET && x < OutLen(nch)
    ensures var to := OutIndex(nch, l, m, 0);
            && (to <= x < to + LINE <==> x / LINE == m * nch + l)
            && (to <= x < to + LINE ==> InIndex(nch, a, l, m, 0) + x - to == Source(nAnts, nch, a, x))
  {
    OutBounds(nch, l, m, 0);
    Radix.FlatDivMod(m, l, nch);
  }

  method Convert(datain: array<byte>, dataout: seq<array<byte>>, nAnts: nat, nch: nat)
    requires |dataout| == nAnts && nch > 0 && datain.Length == InLen(nAnts, nch)
    requires forall k :: 0 <= k < nAnts ==> dataout[k].Length == OutLen(nch) && dataout[k] != datain
    requires forall j, k :: 0 <= j < k < nAnts ==> dataout[j] != dataout[k]
    modifies dataout
    ensures forall k :: 0 <= k < nAnts ==> dataout[k][..] == ConvertAnt(datain[..], nAnts, nch, k)
  {
    var k := 0;
    while k < nAnts
      invariant 0 <= k <= nAnts
      invariant forall j :: 0 <= j < k ==> dataout[j][..] == ConvertAnt(datain[..], nAnts, nch, j)
    {
      ConvertOne(datain, dataout[k], nAnts, nch, k);
      k := k + 1;
    }
  }

  // The 8-bit form.

  /** The value of a byte, or of a nibble, read as two's complement. */
  function AsInt8(v: byte): int { if v < 128 then v else v - 256 }
  function AsInt4(k: int): int { if k < 8 then k else k - 16 }

  /** Bit 3 is copied into the high nibble. */
  function SignExtend(v: byte): byte { if v / 8 % 2 == 1 then v % 16 + 0xf0 else v }

  /** currsample >> 4 on a signed char, then sign extension. */
  function RealPart(v: byte): byte { SignExtend(AsInt8(v) / 16 % 256) }

  /** currsample & 0x0f, then sign extension. */
  function ImagPart(v: byte): byte { SignExtend(v % 16) }

  function Rebuild(re: byte, im: byte): byte { re % 16 * 16 + im % 16 }

  /** The two parts are the signed high and low nibble, and the byte can be rebuilt from them. */
  lemma NibblesRoundTrip(v: byte)
    ensures AsInt8(RealPart(v)) == AsInt4(v / 16)
    ensures AsInt8(ImagPart(v)) == AsInt4(v % 16)
    ensures Rebuild(RealPart(v), ImagPart(v)) == v
  {
    if v < 128 {
      assert AsInt8(v) / 16 == v / 16;
    } else {
      assert AsInt8(v) / 16 == v / 16 - 16;
      assert AsInt8(v) / 16 % 256 == v / 16 + 240;
    }
  }

  type Part = byte -> byte

  /** Each byte replaced by two, given how to split it. */
  function Widen(re: Part, im: Part, r: seq<byte>): (w: seq<byte>)
    ensures |w| == 2 * |r|
  {
    seq(2 * |r|, y requires 0 <= y < 2 * |r| => if y % 2 == 0 then re(r[y / 2]) else im(r[y / 2]))
  }

  function Narrow(w: seq<byte>): (r: seq<byte>)
    ensures |r| == |w| / 2
  {
    seq(|w| / 2, x requires 0 <= x < |w| / 2 => Rebuild(w[2 * x], w[2 * x + 1]))
  }

  lemma WidenAt(re: Part, im: Part, r: seq<byte>, x: nat)
    requires x < |r|
    ensures Widen(re, im, r)[2 * x] == re(r[x]) && Widen(re, im, r)[2 * x + 1] == im(r[x])
  {
    assert (2 * x + 1) / 2 == x;
  }

  /** The 4-bit data can be recovered from the 8-bit data. */
  lemma WidenRoundTrip(r: seq<byte>)
    ensures Narrow(Widen(RealPart, ImagPart, r)) == r
  {
    var w := Widen(RealPart, ImagPart, r);
    forall x: nat | x < |r| ensures Narrow(w)[x] == r[x] {
      WidenAt(RealPart, ImagPart, r, x);
      NibblesRoundTrip(r[x]);
    }
  }

  function PairAt(d: seq<byte>, x: nat): (byte, byte)
    requires 2 * x + 1 < |d|
  {
    (d[2 * x], d[2 * x + 1])
  }

  method WidenLine(re: Part, im: Part, src: array<byte>, from: nat, dst: array<byte>, to: nat)
    requires src != dst && from + LINE <= src.Length && 2 * (to + LINE) <= dst.Length
    modifies dst
    ensures forall x: nat :: 2 * x + 1 < dst.Length ==>
              PairAt(dst[..], x) == if to <= x < to + LINE then (re(src[from + x - to]), im(src[from + x - to]))
                                    else PairAt(old(dst[..]), x)
  {
    var n := 0;
    while n < LINE
      invariant 0 <= n <= LINE
      invariant forall x: nat :: 2 * x + 1 < dst.Length ==>
                  PairAt(dst[..], x) == if to <= x < to + n then (re(src[from + x - to]), im(src[from + x - to]))
                                        else PairAt(old(dst[..]), x)
    {
      var currsample := src[from + n];
      ghost var was := dst[..];
      dst[2 * (to + n)] := re(currsample);
      dst[2 * (to + n) + 1] := im(currsample);
      assert forall x: nat :: 2 * x + 1 < dst.Length && x != to + n ==> PairAt(dst[..], x) == PairAt(was, x);
      n := n + 1;
    }
  }

  /** The 8-bit loops compute the widened 4-bit output; the program splits with RealPart and ImagPart. */
  method ConvertOne8(re: Part, im: Part, datain: array<byte>, out: array<byte>, nAnts: nat, nch: nat, a: nat)
    requires datain != out && datain.Length == InLen(nAnts, nch) && out.Length == 2 * OutLen(nch) && a < nAnts &&
             nch > 0
    modifies out
    ensures out[..] == Widen(re, im, ConvertAnt(datain[..], nAnts, nch, a))
  {
    ghost var goal := ConvertAnt(datain[..], nAnts, nch, a);
    var l := 0;
    while l < nch
      invariant 0 <= l <= nch
      invariant forall x: nat :: x < OutLen(nch) && LineDone(x / LINE, nch, l, 0) ==>
                  PairAt(out[..], x) == (re(goal[x]), im(goal[x]))
    {
      var m := 0;
      while m < SAMPLES_PER_PACKET
        invariant 0 <= m <= SAMPLES_PER_PACKET
        invariant forall x: nat :: x < OutLen(nch) && LineDone(x / LINE, nch, l, m) ==>
                    PairAt(out[..], x) == (re(goal[x]), im(goal[x]))
      {
        InBounds(nAnts, nch, a, l, m, 0);
        OutBounds(nch, l, m, 0);
        WidenLine(re, im, datain, a * (RX_DATA_LEN * nch) + l * RX_DATA_LEN + m * LINE, out,
          l * LINE + m * nch * LINE);
        forall x: nat | x < OutLen(nch) && LineDone(x / LINE, nch, l, m + 1)
          ensures PairAt(out[..], x) == (re(goal[x]), im(goal[x]))
        {
          NextLine(x / LINE, nch, l, m);
          LineBytes(nAnts, nch, a, l, m, x);
        }
        m := m + 1;
      }
      forall x: nat | x < OutLen(nch) && LineDone(x / LINE, nch, l + 1, 0)
        ensures PairAt(out[..], x) == (re(goal[x]), im(goal[x]))
      {
        LastLine(x, nch, l);
      }
      l := l + 1;
    }
    forall x: nat | x < OutLen(nch) ensures PairAt(out[..], x) == (re(goal[x]), im(goal[x])) {
      Radix.RowBound(x / LINE, SAMPLES_PER_PACKET, nch);
    }
    PairsAreWiden(re, im, goal, out[..]);
  }

  /** The 8-bit form with the program's own two nibbles; the 4-bit output can be read back from it. */
  method ConvertEight(datain: array<byte>, out: array<byte>, nAnts: nat, nch: nat, a: nat)
    requires datain != out && datain.Length == InLen(nAnts, nch) && out.Length == 2 * OutLen(nch) && a < nAnts &&
             nch > 0
    modifies out
    ensures out[..] == Widen(RealPart, ImagPart, ConvertAnt(datain[..], nAnts, nch, a))
    ensures Narrow(out[..]) == ConvertAnt(datain[..], nAnts, nch, a)
  {
    ConvertOne8(RealPart, ImagPart, datain, out, nAnts, nch, a);
    WidenRoundTrip(ConvertAnt(datain[..], nAnts, nch, a));
  }

  lemma PairsAreWiden(re: Part, im: Part, r: seq<byte>, w: seq<byte>)
    requires |w| == 2 * |r|
    requires forall x: nat :: x < |r| ==> PairAt(w, x) == (re(r[x]), im(r[x]))
    ensures w == Widen(re, im, r)
  {
    forall y | 0 <= y < |w| ensures w[y] == Widen(re, im, r)[y] {
      assert PairAt(w, y / 2) == (re(r[y / 2]), im(r[y / 2]));
    }
  }

  // The file loop.

  /** What is written to antenna a's file for chunk t. */
  function ChunkOut(data: seq<byte>, nAnts: nat, nch: nat, a: nat, t: nat): (r: seq<byte>)
    requires a < nAnts && (t + 1) * InLen(nAnts, nch) <= |data|
    ensures |r| == OutLen(nch)
  {
    ConvertAnt(Pieces.Piece(data, InLen(nAnts, nch), t), nAnts, nch, a)
  }

  function ChunkOuts(data: seq<byte>, nAnts: nat, nch: nat, a: nat, q: nat): (r: seq<seq<byte>>)
    requires a < nAnts && q * InLen(nAnts, nch) <= |data|
    ensures |r| == q && Pieces.Uniform(r, OutLen(nch))
  {
    if q == 0 then []
    else
      Radix.Mono(q - 1, q, InLen(nAnts, nch));
      ChunkOuts(data, nAnts, nch, a, q - 1) + [ChunkOut(data, nAnts, nch, a, q - 1)]
  }

  /** The output of antenna a for the first q chunks. */
  function AntStream(data: seq<byte>, nAnts: nat, nch: nat, a: nat, q: nat): (r: seq<byte>)
    requires a < nAnts && q * InLen(nAnts, nch) <= |data|
  {
    Pieces.Join(ChunkOuts(data, nAnts, nch, a, q))
  }

  lemma {:induction false} ChunkOutsAt(data: seq<byte>, nAnts: nat, nch: nat, a: nat, q: nat, t: nat)
    requires a < nAnts && q * InLen(nAnts, nch) <= |data| && t < q
    ensures (t + 1) * InLen(nAnts, nch) <= |data|
    ensures ChunkOuts(data, nAnts, nch, a, q)[t] == ChunkOut(data, nAnts, nch, a, t)
  {
    Radix.Mono(t + 1, q, InLen(nAnts, nch));
    Radix.Mono(q - 1, q, InLen(nAnts, nch));
    if t < q - 1 {
      ChunkOutsAt(data, nAnts, nch, a, q - 1, t);
    }
  }

  /** Byte x of chunk t. */
  lemma AntStreamAt(data: seq<byte>, nAnts: nat, nch: nat, a: nat, q: nat, t: nat, x: nat)
    requires a < nAnts && q * InLen(nAnts, nch) <= |data| && t < q && x < OutLen(nch)
    ensures 0 <= t * OutLen(nch) + x < |AntStream(data, nAnts, nch, a, q)|
    ensures 0 <= t * InLen(nAnts, nch) + Source(nAnts, nch, a, x) < |data|
    ensures AntStream(data, nAnts, nch, a, q)[t * OutLen(nch) + x]
            == data[t * InLen(nAnts, nch) + Source(nAnts, nch, a, x)]
  {
    Pieces.JoinAt(ChunkOuts(data, nAnts, nch, a, q), OutLen(nch), t, x);
    ChunkOutsAt(data, nAnts, nch, a, q, t);
    Pieces.PieceAt(data, InLen(nAnts, nch), t, Source(nAnts, nch, a, x));
  }

  datatype Outcome =
    | Refused(reason: ReadResult)
    | Endless  // the loop never ends: its chunk is empty, so every read of it succeeds
    | Converted(header: Header, streams: seq<seq<byte>>)

  /** Number of whole chunks. */
  function Chunks(data: seq<byte>, nAnts: nat, nch: nat): nat
    requires InLen(nAnts, nch) > 0
  {
    Radix.Div(|data|, InLen(nAnts, nch))
  }

  /** What main makes of a file. */
  ghost predicate IsConverted(file: seq<byte>, r: Outcome) {
    match ReadHeader(file)
    case Opened(h, data) =>
      if |h.ants| == 0 || h.nchans == 0 then r == Endless else
      && r.Converted? && r.header == h && InLen(|h.ants|, h.nchans) > 0
      && StreamsAt(data, |h.ants|, h.nchans, Chunks(data, |h.ants|, h.nchans), r.streams)
    case other => r == Refused(other)
  }

  /** main, 4-bit form.  A header with no antennas or no channels makes the chunk empty and the loop endless. */
  method ConvertFile(file: seq<byte>) returns (r: Outcome)
    ensures IsConverted(file, r)
  {
    var read := ReadHeader(file);
    if !read.Opened? {
      return Refused(read);
    }
    var h, data := read.header, read.rest;
    var nAnts, nch := |h.ants|, h.nchans;
    if nAnts == 0 || nch == 0 {
      return Endless;
    }
    Radix.FlatBound(0, nAnts, 0, nch);
    var streams := ConvertData(data, nAnts, nch);
    r := Converted(h, streams);
  }

  /** The streams of all antennas after q chunks. */
  ghost predicate StreamsAt(data: seq<byte>, nAnts: nat, nch: nat, q: nat, streams: seq<seq<byte>>) {
    && q * InLen(nAnts, nch) <= |data| && |streams| == nAnts
    && forall a :: 0 <= a < nAnts ==> streams[a] == AntStream(data, nAnts, nch, a, q)
  }

  lemma StreamsNext(data: seq<byte>, nAnts: nat, nch: nat, q: nat, streams: seq<seq<byte>>, chunk: seq<byte>,
                    streams': seq<seq<byte>>)
    requires StreamsAt(data, nAnts, nch, q, streams) && (q + 1) * InLen(nAnts, nch) <= |data|
    requires chunk == Pieces.Piece(data, InLen(nAnts, nch), q) && |streams'| == nAnts
    requires forall a :: 0 <= a < nAnts ==> streams'[a] == streams[a] + ConvertAnt(chunk, nAnts, nch, a)
    ensures StreamsAt(data, nAnts, nch, q + 1, streams')
  {
    forall a | 0 <= a < nAnts ensures streams'[a] == AntStream(data, nAnts, nch, a, q + 1) {
      StreamSnoc(data, nAnts, nch, a, q);
    }
  }

  /** The read, convert and write loop: it stops when less than a chunk is left. */
  method ConvertData(data: seq<byte>, nAnts: nat, nch: nat) returns (streams: seq<seq<byte>>)
    requires nAnts > 0 && nch > 0 && InLen(nAnts, nch) > 0
    ensures StreamsAt(data, nAnts, nch, Chunks(data, nAnts, nch), streams)
  {
    var inLen := InLen(nAnts, nch);
    streams := seq(nAnts, _ => []);
    var q, done := 0, 0;
    while |data| - done >= inLen
      invariant done == q * inLen <= |data|
      invariant StreamsAt(data, nAnts, nch, q, streams)
      decreases |data| - done
    {
      Radix.Distribute(q, 1, inLen);
      var chunk := data[done..done + inLen];
      var next := AppendChunk(streams, chunk, nAnts, nch);
      Pieces.PieceIs(data, inLen, q);
      StreamsNext(data, nAnts, nch, q, streams, chunk, next);
      streams := next;
      done := done + inLen;
      q := q + 1;
    }
    ChunksAre(data, nAnts, nch, q);
  }

  lemma ChunksAre(data: seq<byte>, nAnts: nat, nch: nat, q: nat)
    requires InLen(nAnts, nch) > 0 && q * InLen(nAnts, nch) <= |data| < q * InLen(nAnts, nch) + InLen(nAnts, nch)
    ensures q == Chunks(data, nAnts, nch)
  {
    Radix.FlatDivMod(q, |data| - q * InLen(nAnts, nch), InLen(nAnts, nch));
  }

  lemma StreamSnoc(data: seq<byte>, nAnts: nat, nch: nat, a: nat, q: nat)
    requires a < nAnts && (q + 1) * InLen(nAnts, nch) <= |data| && q * InLen(nAnts, nch) <= |data|
    ensures AntStream(data, nAnts, nch, a, q + 1)
            == AntStream(data, nAnts, nch, a, q) + ChunkOut(data, nAnts, nch, a, q)
  {
    assert ChunkOuts(data, nAnts, nch, a, q + 1)[..q] == ChunkOuts(data, nAnts, nch, a, q);
  }

  /** Convert one buffer and write each antenna's part. */
  method AppendChunk(streams: seq<seq<byte>>, chunk: seq<byte>, nAnts: nat, nch: nat) returns (r: seq<seq<byte>>)
    requires |streams| == nAnts && nch > 0 && |chunk| == InLen(nAnts, nch)
    ensures |r| == nAnts
    ensures forall a :: 0 <= a < nAnts ==> r[a] == streams[a] + ConvertAnt(chunk, nAnts, nch, a)
  {
    var datain := new byte[|chunk|](i requires 0 <= i < |chunk| => chunk[i]);
    assert datain[..] == chunk;
    r := [];
    var k := 0;
    while k < nAnts
      invariant 0 <= k <= nAnts && |r| == k && datain[..] == chunk
      invariant forall a :: 0 <= a < k ==> r[a] == streams[a] + ConvertAnt(chunk, nAnts, nch, a)
    {
      var out := new byte[OutLen(nch)];
      ConvertOne(datain, out, nAnts, nch, k);
      r := r + [streams[k] + out[..]];
      k := k + 1;
    }
  }
}
