/**
 Packet and file formats (full_custom/data_formats.h, README.md).

 A mask of k low ones is written as a remainder by 2^k and a right shift by k as a division by 2^k.
 */
module DataFormats {
  import Radix

  const N_FILE_BUFFERS: nat := 20
  const N_FILE_BUFFERS_AT_A_TIME: nat := 6
  const MAX_ORDER_MISSES: nat := 200
  const TIME_INT_PER_BUFFER: nat := 128
  const RX_DATA_LEN: nat := 8192
  const RX_BUFF_LEN: nat := 8
  const RX_MSG_LEN: nat := RX_DATA_LEN + RX_BUFF_LEN
  const MAX_NO_ANTS: nat := 4
  const MAX_CHANNEL_PACKETS: nat := 32
  const SAMPLES_PER_PACKET: nat := 16
  const POLS_PER_PACKET: nat := 2
  const CHANS_PER_PACKET: nat := 256

  /** One more than PCKT_NO_MASK. */
  const PCKT_MODULUS: nat := 0x40_0000_0000

  type byte = x: int | 0 <= x < 256

  // Byte order.

  function Pow256(n: nat): (r: nat)
    ensures r > 0
  {
    if n == 0 then 1 else 256 * Pow256(n - 1)
  }

  function ToBe(x: nat, n: nat): (bs: seq<byte>)
    ensures |bs| == n
  {
    if n == 0 then [] else ToBe(x / 256, n - 1) + [x % 256]
  }

  function FromBe(bs: seq<byte>): nat {
    if bs == [] then 0 else 256 * FromBe(bs[..|bs| - 1]) + bs[|bs| - 1]
  }

  function ToLe(x: nat, n: nat): (bs: seq<byte>)
    ensures |bs| == n
  {
    if n == 0 then [] else [x % 256] + ToLe(x / 256, n - 1)
  }

  function FromLe(bs: seq<byte>): nat {
    if bs == [] then 0 else bs[0] + 256 * FromLe(bs[1..])
  }

  lemma {:induction false} BeRoundTrip(x: nat, n: nat)
    requires x < Pow256(n)
    ensures FromBe(ToBe(x, n)) == x
  {
    if n > 0 {
      BeRoundTrip(x / 256, n - 1);
      assert ToBe(x, n)[..n - 1] == ToBe(x / 256, n - 1);
    }
  }

  lemma {:induction false} LeRoundTrip(x: nat, n: nat)
    requires x < Pow256(n)
    ensures FromLe(ToLe(x, n)) == x
  {
    if n > 0 {
      LeRoundTrip(x / 256, n - 1);
      assert ToLe(x, n)[1..] == ToLe(x / 256, n - 1);
    }
  }

  /** Little-endian: byte i is the i-th digit in base 256. */
  lemma {:induction false} LeDigit(x: nat, n: nat, i: nat)
    requires i < n
    ensures ToLe(x, n)[i] == x / Pow256(i) % 256
  {
    if i > 0 {
      LeDigit(x / 256, n - 1, i - 1);
      Radix.DivTwice(x, 256, Pow256(i - 1));
    }
  }

  /** Big-endian: the same digits, the last byte first. */
  lemma {:induction false} BeDigit(x: nat, n: nat, i: nat)
    requires i < n
    ensures ToBe(x, n)[n - 1 - i] == x / Pow256(i) % 256
  {
    if i > 0 {
      BeDigit(x / 256, n - 1, i - 1);
      Radix.DivTwice(x, 256, Pow256(i - 1));
    }
  }

  lemma Pow256Values()
    ensures Pow256(4) == 0x1_0000_0000
    ensures Pow256(8) == 0x1_0000_0000_0000_0000
  {
    assert Pow256(1) == 256;
    assert Pow256(2) == 0x1_0000;
    assert Pow256(3) == 0x100_0000;
    assert Pow256(5) == 0x100_0000_0000;
    assert Pow256(6) == 0x1_0000_0000_0000;
    assert Pow256(7) == 0x100_0000_0000_0000;
  }

  // The packet header.

  function GetAntNo(h: nat): nat { h % 0x40 }
  function GetChanNo(h: nat): nat { h / 0x40 % 0x1000 }
  function GetPcktNo(h: nat): nat { h / 0x4_0000 % PCKT_MODULUS }
  function GetVersionNo(h: nat): nat { h / 0x100_0000_0000_0000 % 0x100 }
  predicate IsVersionVolt(h: nat) { h / 0x100_0000_0000_0000 / 0x80 % 2 == 1 }

  function PackHeader(ant: nat, chan: nat, pckt: nat, version: nat): nat {
    ant + chan * 0x40 + pckt * 0x4_0000 + version * 0x100_0000_0000_0000
  }

  /** The macros read back what was packed, and packing what they read gives the header again. */
  lemma HeaderRoundTrip(ant: nat, chan: nat, pckt: nat, version: nat)
    requires ant < 0x40 && chan < 0x1000 && pckt < PCKT_MODULUS && version < 0x100
    ensures var h := PackHeader(ant, chan, pckt, version);
            && h < 0x1_0000_0000_0000_0000
            && GetAntNo(h) == ant && GetChanNo(h) == chan && GetPcktNo(h) == pckt && GetVersionNo(h) == version
            && (IsVersionVolt(h) <==> version >= 0x80)
  {
    var h := PackHeader(ant, chan, pckt, version);
    var a := chan + 0x1000 * (pckt + PCKT_MODULUS * version);
    assert h == ant + 0x40 * a;
    assert h / 0x40 == a;
    var b := pckt + PCKT_MODULUS * version;
    assert h / 0x4_0000 == b by { assert a / 0x1000 == b; }
    assert h / 0x100_0000_0000_0000 == version by { assert b / PCKT_MODULUS == version; }
  }

  /** A number put together again from its digits in a mixed radix. */
  lemma Join3(h: nat, m: nat, a: nat, n: nat, b: nat, k: nat, c: nat)
    requires m > 0 && n > 0 && k > 0 && a == h / m && b == a / n && c == b / k
    ensures h == h % m + (a % n) * m + (b % k) * (m * n) + c * (m * n * k)
  {
    Radix.Split(h, m);
    Radix.Split(a, n);
    Radix.Split(b, k);
    Radix.Distribute(b * n, a % n, m);
    Radix.Regroup(b, n, m);
    Radix.Distribute(c * k, b % k, m * n);
    Radix.Regroup(c, k, m * n);
  }

  lemma HeaderUnpacked(h: nat)
    requires h < 0x1_0000_0000_0000_0000
    ensures PackHeader(GetAntNo(h), GetChanNo(h), GetPcktNo(h), GetVersionNo(h)) == h
  {
    Radix.DivTwice(h, 0x40, 0x1000);
    Radix.DivTwice(h, 0x4_0000, PCKT_MODULUS);
    Join3(h, 0x40, h / 0x40, 0x1000, h / 0x4_0000, PCKT_MODULUS, h / 0x100_0000_0000_0000);
  }

  // Block number and place within a block.

  function PacketFilter(p: nat): nat { p - p % TIME_INT_PER_BUFFER }
  function PacketRest(p: nat): nat { p % TIME_INT_PER_BUFFER }

  lemma FilterPlusRest(p: nat, q: nat, r: nat)
    requires q % TIME_INT_PER_BUFFER == 0 && r < TIME_INT_PER_BUFFER
    ensures p == q + r <==> q == PacketFilter(p) && r == PacketRest(p)
  {
  }

  // Datagrams.

  datatype RawPacket = RawPacket(ant: nat, chan: nat, pckt: nat, volt: bool, payload: seq<byte>)

  ghost predicate IsPacket(p: RawPacket) {
    && p.ant < 0x40 && p.chan < 0x1000 && p.pckt < PCKT_MODULUS
    && |p.payload| == RX_DATA_LEN
  }

  type Packet = p: RawPacket | IsPacket(p)
    witness RawPacket(0, 0, 0, false, seq(RX_DATA_LEN, _ => 0))

  /** What the worker reads from one 8200-byte message: a big-endian header and its data. */
  function Decode(msg: seq<byte>): Packet
    requires |msg| == RX_MSG_LEN
  {
    var h := FromBe(msg[..RX_BUFF_LEN]);
    RawPacket(GetAntNo(h), GetChanNo(h), GetPcktNo(h), IsVersionVolt(h), msg[RX_BUFF_LEN..])
  }

  function Encode(p: Packet, version: nat): (msg: seq<byte>)
    ensures |msg| == RX_MSG_LEN
  {
    ToBe(PackHeader(p.ant, p.chan, p.pckt, version), RX_BUFF_LEN) + p.payload
  }

  /** The bytes sent by an antenna board decode to what was packed. */
  lemma DatagramRoundTrip(p: Packet, version: nat)
    requires version < 0x100 && (p.volt <==> version >= 0x80)
    ensures Decode(Encode(p, version)) == p
  {
    HeaderRoundTrip(p.ant, p.chan, p.pckt, version);
    Pow256Values();
    BeRoundTrip(PackHeader(p.ant, p.chan, p.pckt, version), RX_BUFF_LEN);
    assert Encode(p, version)[..RX_BUFF_LEN] == ToBe(PackHeader(p.ant, p.chan, p.pckt, version), RX_BUFF_LEN);
  }
}
