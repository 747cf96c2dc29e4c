/** The recording's file header (full_custom/file_thread.c:97-105, full_custom/converter.c:138-149). */
module Recording {
  import opened DataFormats

  /** fileBuffStruct without its pool; nAnts is the number of antenna ids. */
  datatype Header = Header(ants: seq<nat>, nchans: nat, firstChan: nat, packetStart: nat)

  /** The fields fit the widths they are stored in. */
  ghost predicate Fits(h: Header) {
    && |h.ants| <= MAX_NO_ANTS
    && (forall i :: 0 <= i < |h.ants| ==> h.ants[i] < 0x1_0000_0000)
    && h.nchans < 0x1_0000_0000 && h.firstChan < 0x1_0000_0000
    && h.packetStart < 0x1_0000_0000_0000_0000
  }

  function AntBytes(ants: seq<nat>): (bs: seq<byte>)
    ensures |bs| == 4 * |ants|
  {
    if ants == [] then [] else ToLe(ants[0], 4) + AntBytes(ants[1..])
  }

  /** writeHeader: five writes, little-endian. */
  function HeaderBytes(h: Header): seq<byte> {
    ToLe(|h.ants|, 4) + AntBytes(h.ants) + ToLe(h.nchans, 4) + ToLe(h.firstChan, 4) + ToLe(h.packetStart, 8)
  }

  lemma {:induction false} AntAt(ants: seq<nat>, i: nat)
    requires i < |ants|
    ensures AntBytes(ants)[4 * i..4 * i + 4] == ToLe(ants[i], 4)
  {
    if i > 0 {
      AntAt(ants[1..], i - 1);
      assert AntBytes(ants)[4..] == AntBytes(ants[1..]);
      assert AntBytes(ants)[4 * i..4 * i + 4] == AntBytes(ants)[4..][4 * (i - 1)..4 * (i - 1) + 4];
    }
  }

  /** Where each field of the file's header lies. */
  lemma HeaderLayout(h: Header)
    ensures var n, b := |h.ants|, HeaderBytes(h);
            && |b| == 4 * n + 20
            && b[..4] == ToLe(n, 4) && (forall i :: 0 <= i < n ==> b[4 + 4 * i..8 + 4 * i] == ToLe(h.ants[i], 4))
            && b[4 * n + 4..4 * n + 8] == ToLe(h.nchans, 4) && b[4 * n + 8..4 * n + 12] == ToLe(h.firstChan, 4)
            && b[4 * n + 12..] == ToLe(h.packetStart, 8)
  {
    var n, b := |h.ants|, HeaderBytes(h);
    assert b[4..4 * n + 4] == AntBytes(h.ants);
    forall i | 0 <= i < n ensures b[4 + 4 * i..8 + 4 * i] == ToLe(h.ants[i], 4) {
      AntAt(h.ants, i);
      assert b[4 + 4 * i..8 + 4 * i] == b[4..4 * n + 4][4 * i..4 * i + 4];
    }
  }

  datatype ReadResult =
    | ShortRead
    | TooManyAntennas(n: nat)
    | Opened(header: Header, rest: seq<byte>)

  function ReadAnts(bs: seq<byte>, n: nat): (ants: seq<nat>)
    requires |bs| == 4 * n
    ensures |ants| == n
  {
    if n == 0 then [] else [FromLe(bs[..4])] + ReadAnts(bs[4..], n - 1)
  }

  /** The converter's reads, each of which must deliver all its bytes, then the check on the antenna count. */
  function ReadHeader(f: seq<byte>): ReadResult {
    if |f| < 4 then ShortRead
    else
      var n := FromLe(f[..4]);
      var f1 := f[4..];
      if |f1| < 4 * n then ShortRead
      else
        var ants := ReadAnts(f1[..4 * n], n);
        var f2 := f1[4 * n..];
        if |f2| < 16 then ShortRead
        else if n >= MAX_NO_ANTS then TooManyAntennas(n)
        else Opened(Header(ants, FromLe(f2[..4]), FromLe(f2[4..8]), FromLe(f2[8..16])), f2[16..])
  }

  lemma {:induction false} AntsRoundTrip(ants: seq<nat>)
    requires forall i :: 0 <= i < |ants| ==> ants[i] < 0x1_0000_0000
    ensures ReadAnts(AntBytes(ants), |ants|) == ants
  {
    if ants != [] {
      Pow256Values();
      LeRoundTrip(ants[0], 4);
      AntsRoundTrip(ants[1..]);
      assert AntBytes(ants)[..4] == ToLe(ants[0], 4);
      assert AntBytes(ants)[4..] == AntBytes(ants[1..]);
    }
  }

  /**
   The converter reads back every header the recorder writes and leaves the data untouched, exactly when there are
   fewer than four antennas.
   */
  lemma HeaderFileRoundTrip(h: Header, data: seq<byte>)
    requires Fits(h)
    ensures ReadHeader(HeaderBytes(h) + data) == Opened(h, data) <==> |h.ants| < MAX_NO_ANTS
    ensures |h.ants| == MAX_NO_ANTS ==> ReadHeader(HeaderBytes(h) + data) == TooManyAntennas(MAX_NO_ANTS)
  {
    var f := HeaderBytes(h) + data;
    var n := |h.ants|;
    Pow256Values();
    LeRoundTrip(n, 4);
    assert f[..4] == ToLe(n, 4);
    var f1 := f[4..];
    var tail := ToLe(h.nchans, 4) + ToLe(h.firstChan, 4) + ToLe(h.packetStart, 8) + data;
    assert f1 == AntBytes(h.ants) + tail;
    assert f1[..4 * n] == AntBytes(h.ants);
    AntsRoundTrip(h.ants);
    var f2 := f1[4 * n..];
    assert f2 == tail;
    LeRoundTrip(h.nchans, 4);
    LeRoundTrip(h.firstChan, 4);
    LeRoundTrip(h.packetStart, 8);
    assert f2[..4] == ToLe(h.nchans, 4);
    assert f2[4..8] == ToLe(h.firstChan, 4);
    assert f2[8..16] == ToLe(h.packetStart, 8);
    assert f2[16..] == data;
  }
}
