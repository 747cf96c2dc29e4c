/**
 The worker thread as it is written (full_custom/processing_thread.c): loops over an array of slot
 structures updated in place.  Each loop is proved to compute the corresponding function of `Window`.
 A buffer's contents are a value held by its slot: the pool protocol gives a thread sole ownership of them.
 */
module Worker {
  import opened DataFormats
  import opened Window
  import Pieces

  /** work_local_struct, with the buffer it points to in place of the pointer. */
  datatype LocalSlot = LocalSlot(packetNo: nat, order: nat, nToFull: int, data: seq<byte>)

  ghost function WithLog(s: LocalSlot, got: seq<Packet>): Slot {
    Slot(s.packetNo, s.order, s.nToFull, s.data, got)
  }

  ghost function WithLogs(ss: seq<LocalSlot>, gots: seq<seq<Packet>>): seq<Slot>
    requires |ss| == |gots|
  {
    seq(|ss|, i requires 0 <= i < |ss| => WithLog(ss[i], gots[i]))
  }

  // First batch: antenna table and start number.

  /** updateAntenna's effect on the table. */
  function Claim(ants: seq<int>, ant: int, n: nat): (r: seq<int>)
    requires n <= |ants|
    ensures |r| == |ants|
  {
    var k := ClaimIndex(ants, ant, n);
    if k < n then ants[k := ant] else ants
  }

  /** The first entry that is the antenna's or free; n when there is none. */
  function ClaimIndex(ants: seq<int>, ant: int, n: nat): (k: nat)
    requires n <= |ants|
    ensures k <= n
    ensures k < n ==> ants[k] == ant || ants[k] == UNCLAIMED
    ensures forall i :: 0 <= i < k ==> ants[i] != ant && ants[i] != UNCLAIMED
  {
    if n == 0 then 0
    else
      var k := ClaimIndex(ants, ant, n - 1);
      if k < n - 1 || ants[n - 1] == ant || ants[n - 1] == UNCLAIMED then k else n
  }

  function NoAntennas(): (ants: seq<int>)
    ensures |ants| == MAX_NO_ANTS && forall i :: 0 <= i < |ants| ==> ants[i] == UNCLAIMED
  {
    seq(MAX_NO_ANTS, _ => UNCLAIMED)
  }

  /** The table after the first m packets. */
  function Table(batch: seq<Packet>, n: nat, m: nat): (ants: seq<int>)
    requires m <= |batch| && n <= MAX_NO_ANTS
    ensures |ants| == MAX_NO_ANTS
  {
    if m == 0 then NoAntennas() else Claim(Table(batch, n, m - 1), batch[m - 1].ant, n)
  }

  /** Claimed entries come first, are antenna ids seen in the batch, and are all different. */
  ghost predicate TableOk(ants: seq<int>, batch: seq<Packet>, m: nat) {
    && m <= |batch|
    && (forall i, j :: 0 <= i < j < |ants| && ants[j] != UNCLAIMED ==> ants[i] != UNCLAIMED && ants[i] != ants[j])
    && (forall i :: 0 <= i < |ants| && ants[i] != UNCLAIMED ==> exists k :: 0 <= k < m && batch[k].ant == ants[i])
  }

  lemma {:induction false} TableTheorem(batch: seq<Packet>, n: nat, m: nat)
    requires m <= |batch| && n <= MAX_NO_ANTS
    ensures TableOk(Table(batch, n, m), batch, m)
    ensures forall k :: 0 <= k < m ==>
              AntIndex(Table(batch, n, m), batch[k].ant, n) != -1 || UNCLAIMED !in Table(batch, n, m)[..n]
  {
    if m > 0 {
      TableTheorem(batch, n, m - 1);
      var was, now := Table(batch, n, m - 1), Table(batch, n, m);
      var ant := batch[m - 1].ant;
      var c := ClaimIndex(was, ant, n);
      assert forall i :: 0 <= i < |was| && i != c ==> now[i] == was[i];
      assert c < n ==> now[c] == ant;
      forall i | 0 <= i < |now| && now[i] != UNCLAIMED ensures exists k :: 0 <= k < m && batch[k].ant == now[i] {
        if now[i] == ant {
          assert batch[m - 1].ant == now[i];
        } else {
          var k :| 0 <= k < m - 1 && batch[k].ant == was[i];
          assert batch[k].ant == now[i];
        }
      }
      forall k | 0 <= k < m ensures AntIndex(now, batch[k].ant, n) != -1 || UNCLAIMED !in now[..n] {
        ClaimKeeps(was, ant, n, batch[k].ant, k == m - 1);
      }
    }
  }

  /** An antenna in the table stays there; one that found no entry met a full table. */
  lemma ClaimKeeps(was: seq<int>, ant: nat, n: nat, other: nat, same: bool)
    requires n <= |was| && ant < 0x40 && other < 0x40 && (same ==> other == ant)
    requires !same ==> AntIndex(was, other, n) != -1 || UNCLAIMED !in was[..n]
    ensures AntIndex(Claim(was, ant, n), other, n) != -1 || UNCLAIMED !in Claim(was, ant, n)[..n]
  {
    var now := Claim(was, ant, n);
    var c := ClaimIndex(was, ant, n);
    if same {
      if c < n {
        assert now[..n][c] == other;
      } else {
        assert forall i :: 0 <= i < n ==> now[..n][i] != UNCLAIMED;
      }
    } else if AntIndex(was, other, n) != -1 {
      var k := AntIndex(was, other, n);
      assert now[..n][k] == other;
    } else {
      assert forall i :: 0 <= i < n ==> was[..n][i] != UNCLAIMED;
      assert forall i :: 0 <= i < n ==> now[..n][i] != UNCLAIMED;
    }
  }

  /** updateAntenna: 0 known, 1 added, -1 no room. */
  method UpdateAntenna(ants: array<int>, ant: int, n: nat) returns (r: int)
    requires n <= ants.Length && ant != UNCLAIMED
    modifies ants
    ensures ants[..] == Claim(old(ants[..]), ant, n)
    ensures r == 0 <==> AntIndex(old(ants[..]), ant, n) == ClaimIndex(old(ants[..]), ant, n)
    ensures r == -1 <==> ClaimIndex(old(ants[..]), ant, n) == n
    ensures -1 <= r <= 1
  {
    var k := 0;
    ghost var was := ants[..];
    while k < n
      invariant 0 <= k <= n
      invariant ants[..] == was
      invariant forall i :: 0 <= i < k ==> was[i] != ant && was[i] != UNCLAIMED
    {
      if ants[k] == ant {
        assert ClaimIndex(was, ant, n) == k by { ClaimAt(was, ant, n, k); }
        assert was[..n][k] == ant;
        return 0;
      } else if ants[k] == UNCLAIMED {
        assert ClaimIndex(was, ant, n) == k by { ClaimAt(was, ant, n, k); }
        ants[k] := ant;
        return 1;
      }
      k := k + 1;
    }
    r := -1;
    assert forall i :: 0 <= i < n ==> was[..n][i] != ant;
    assert ClaimIndex(was, ant, n) == n;
  }

  lemma ClaimAt(ants: seq<int>, ant: int, n: nat, k: nat)
    requires k < n <= |ants| && (ants[k] == ant || ants[k] == UNCLAIMED)
    requires forall i :: 0 <= i < k ==> ants[i] != ant && ants[i] != UNCLAIMED
    ensures ClaimIndex(ants, ant, n) == k
  {
  }

  /** getAntIndex. */
  method GetAntIndex(ants: seq<int>, ant: int, n: nat) returns (r: int)
    requires n <= |ants|
    ensures r == AntIndex(ants, ant, n)
  {
    var k := 0;
    while k < n
      invariant 0 <= k <= n
      invariant forall i :: 0 <= i < k ==> ants[..n][i] != ant
    {
      if ants[k] == ant {
        assert ants[..n][k] == ant;
        return k;
      }
      k := k + 1;
    }
    return -1;
  }

  function LowestPckt(batch: seq<Packet>, m: nat): (low: nat)
    requires 0 < m <= |batch|
    ensures forall k :: 0 <= k < m ==> low <= batch[k].pckt
    ensures exists k :: 0 <= k < m && low == batch[k].pckt
  {
    if m == 1 then batch[0].pckt
    else
      var low := LowestPckt(batch, m - 1);
      if batch[m - 1].pckt < low then batch[m - 1].pckt else low
  }

  /** updateAntenna as the scan calls it: too many antennas are only reported. */
  method ClaimAntenna(ants: array<int>, ant: int, n: nat)
    requires n <= ants.Length && ant != UNCLAIMED
    modifies ants
    ensures ants[..] == Claim(old(ants[..]), ant, n)
  {
    var r := UpdateAntenna(ants, ant, n);
  }

  lemma ScanNext(batch: seq<Packet>, n: nat, k: nat, start: nat)
    requires k < |batch| && n <= MAX_NO_ANTS
    requires start == if k == 0 then 0x7fff_ffff_ffff_ffff else LowestPckt(batch, k)
    ensures LowestPckt(batch, k + 1) == if start < batch[k].pckt then start else batch[k].pckt
    ensures Table(batch, n, k + 1) == Claim(Table(batch, n, k), batch[k].ant, n)
    ensures batch[k].ant < UNCLAIMED
  {
    var pk: Packet := batch[k];
    assert pk.pckt < PCKT_MODULUS;
  }

  /** The scan of the first batch. */
  method ScanFirst(batch: seq<Packet>, nAnts: nat, ants: array<int>) returns (start: nat)
    requires batch != [] && nAnts <= MAX_NO_ANTS == ants.Length && ants[..] == NoAntennas()
    modifies ants
    ensures ants[..] == Table(batch, nAnts, |batch|)
    ensures start == PacketFilter(LowestPckt(batch, |batch|))
  {
    start := 0x7fff_ffff_ffff_ffff;
    var k := 0;
    while k < |batch|
      invariant 0 <= k <= |batch|
      invariant ants[..] == Table(batch, nAnts, k)
      invariant start == if k == 0 then 0x7fff_ffff_ffff_ffff else LowestPckt(batch, k)
    {
      var pk: Packet := batch[k];
      ScanNext(batch, nAnts, k, start);
      start := if start < pk.pckt then start else pk.pckt;
      ClaimAntenna(ants, pk.ant, nAnts);
      k := k + 1;
    }
    start := PacketFilter(start);
  }

  /** Table entries are 32-bit numbers. */
  ghost predicate AntsFit(p: Params) {
    forall i :: 0 <= i < |p.ants| ==> 0 <= p.ants[i] <= UNCLAIMED
  }

  /** The run's parameters after the first batch. */
  function ParamsOf(batch: seq<Packet>, nAnts: nat, nchans: nat, firstChan: nat): Params
    requires batch != [] && nAnts <= MAX_NO_ANTS
  {
    Params(nAnts, nchans, firstChan, Table(batch, nAnts, |batch|), PacketFilter(LowestPckt(batch, |batch|)))
  }

  /** What the worker learns from its first batch, with the recorder's own limits, is a good start. */
  lemma FirstBatchIsGood(batch: seq<Packet>, nAnts: nat, nchans: nat, firstChan: nat)
    requires batch != [] && 1 <= nAnts <= MAX_NO_ANTS && 1 <= nchans <= MAX_CHANNEL_PACKETS &&
             firstChan < 0x1_0000_0000
    ensures var p := ParamsOf(batch, nAnts, nchans, firstChan);
            && ValidParams(p) && AntsFit(p)
            && (forall k :: 0 <= k < |batch| ==> p.start <= PacketFilter(batch[k].pckt))
            && (exists k :: 0 <= k < |batch| && p.start == PacketFilter(batch[k].pckt))
  {
    TableFits(batch, nAnts);
    var low := LowestPckt(batch, |batch|);
    var k :| 0 <= k < |batch| && low == batch[k].pckt;
    var pk: Packet := batch[k];
    forall j | 0 <= j < |batch| ensures PacketFilter(low) <= PacketFilter(batch[j].pckt) {
      FilterMono(low, batch[j].pckt);
    }
  }

  lemma TableFits(batch: seq<Packet>, nAnts: nat)
    requires nAnts <= MAX_NO_ANTS
    ensures forall i :: 0 <= i < MAX_NO_ANTS ==> 0 <= Table(batch, nAnts, |batch|)[i] <= UNCLAIMED
  {
    var ants := Table(batch, nAnts, |batch|);
    TableTheorem(batch, nAnts, |batch|);
    forall i | 0 <= i < |ants| ensures 0 <= ants[i] <= UNCLAIMED {
      if ants[i] != UNCLAIMED {
        var k :| 0 <= k < |batch| && batch[k].ant == ants[i];
        var pk: Packet := batch[k];
      }
    }
  }

  lemma FilterMono(a: nat, b: nat)
    requires a <= b
    ensures PacketFilter(a) <= PacketFilter(b)
  {
  }

  // The main loop.

  class Worker {
    const p: Params
    const slots: array<LocalSlot>
    var nextOrder: nat
    var nextPkt: nat
    var lastSent: nat
    var noMissing: int
    var sent: seq<LocalSlot>          // arguments of returnBuffer so far
    ghost var got: seq<seq<Packet>>
    ghost var sentGot: seq<seq<Packet>>

    ghost predicate Valid()
      reads this, slots
    {
      && slots.Length == SLOTS == |got| && |sent| == |sentGot|
      && Shape(p, View())
    }

    ghost function View(): Window
      requires slots.Length == |got| && |sent| == |sentGot|
      reads this, slots
    {
      Window(WithLogs(slots[..], got), nextOrder, nextPkt, lastSent, noMissing, WithLogs(sent, sentGot))
    }

    constructor (p: Params)
      requires ValidParams(p)
      ensures Valid() && fresh(slots) && this.p == p && View() == Open(p)
    {
      this.p := p;
      slots := new LocalSlot[SLOTS]((i: nat) =>
        LocalSlot(p.start + i * TIME_INT_PER_BUFFER, i + 1, PacketsPerBlock(p), Zeros(BlockLen(p))));
      nextOrder := SLOTS + 1;
      nextPkt := (p.start + SLOTS * TIME_INT_PER_BUFFER) % PCKT_MODULUS;
      lastSent := p.start;
      noMissing := 0;
      sent, sentGot := [], [];
      got := seq(SLOTS, _ => []);
      new;
      assert View().slots == Open(p).slots;
    }

    /** findStructIndex. */
    method FindStructIndex(packetNo: nat) returns (r: int)
      requires Valid()
      ensures r == FindSlot(View().slots, packetNo)
    {
      var k := 0;
      while k < slots.Length
        invariant 0 <= k <= slots.Length
        invariant forall i :: 0 <= i < k ==> slots[i].packetNo != packetNo
      {
        if slots[k].packetNo == packetNo {
          assert View().slots[k].packetNo == packetNo;
          return k;
        }
        k := k + 1;
      }
      return -1;
    }

    method PlacePackets(batch: seq<Packet>)
      requires Valid()
      modifies this`got, slots
      ensures Valid() && View() == PlaceFirst(p, old(View()), batch, |batch|)
    {
      var k := 0;
      while k < |batch|
        invariant 0 <= k <= |batch|
        invariant Valid() && View() == PlaceFirst(p, old(View()), batch, k)
      {
        PlacePacket(batch[k]);
        k := k + 1;
      }
    }

    method PlacePacket(pk: Packet)
      requires Valid()
      modifies this`got, slots
      ensures Valid() && View() == Place(p, old(View()), pk)
    {
      var ant := GetAntIndex(p.ants, pk.ant, p.nAnts);
      var chan := ChanIndex(pk.chan, p.firstChan);
      if pk.volt && ant != -1 && ant < MAX_NO_ANTS && chan >= 0 && chan < p.nchans {
        var k := FindStructIndex(PacketFilter(pk.pckt));
        if k == -1 {
          return;
        }
        CopyIntoSlot(k, pk, ant, chan);
      }
    }

    method CopyIntoSlot(k: nat, pk: Packet, ant: nat, chan: nat)
      requires Valid() && k < SLOTS && Accepts(p, pk) && ant == AntOf(p, pk) && chan == ChanOf(p, pk)
      modifies this`got, slots
      ensures Valid()
      ensures var w := old(View()); View() == w.(slots := w.slots[k := Store(p, w.slots[k], pk)])
    {
      CellInBlock(p, PacketRest(pk.pckt), ant, chan);
      var s := slots[k];
      assert View().slots[k] == WithLog(s, got[k]);
      var offset := (PacketRest(pk.pckt) * p.nAnts * p.nchans + ant * p.nchans + chan) * RX_DATA_LEN;
      slots[k] := s.(data := Pieces.Overwrite(s.data, offset, pk.payload), nToFull := s.nToFull - 1);
      got := got[k := got[k] + [pk]];
      ghost var w := old(View());
      assert View().slots == w.slots[k := Store(p, w.slots[k], pk)];
    }

    /** Give slot k to the writer and reuse it for the next block. */
    method HandOver(k: nat)
      requires Valid() && k < SLOTS
      modifies this`nextOrder, this`nextPkt, this`sent, this`sentGot, this`got, slots
      ensures Valid() && View() == Recycle(p, old(View()), k)
    {
      sent, sentGot := sent + [slots[k]], sentGot + [got[k]];
      slots[k] := LocalSlot(nextPkt, nextOrder, PacketsPerBlock(p), Zeros(BlockLen(p)));
      got := got[k := []];
      nextOrder := nextOrder + 1;
      nextPkt := (nextPkt + TIME_INT_PER_BUFFER) % PCKT_MODULUS;
      assert View().slots == Recycle(p, old(View()), k).slots;
      assert View().handed == Recycle(p, old(View()), k).handed;
    }

    method SendIfFull(k: nat, started: nat) returns (nStarted: nat)
      requires Valid() && k < SLOTS
      modifies this, slots
      ensures Valid() && Sweep(View(), nStarted) == SendFullAt(p, Sweep(old(View()), started), k)
    {
      nStarted := started;
      assert View().slots[k] == WithLog(slots[k], got[k]);
      if slots[k].nToFull == 0 {
        lastSent := slots[k].packetNo;
        HandOver(k);
      } else if slots[k].nToFull < PacketsPerBlock(p) {
        nStarted := nStarted + 1;
      }
    }

    method SendIfEarlier(k: nat)
      requires Valid() && k < SLOTS
      modifies this, slots
      ensures Valid() && View() == SendEarlierAt(p, old(View()), k)
    {
      assert View().slots[k] == WithLog(slots[k], got[k]);
      if IsEarlier(slots[k].packetNo, lastSent) {
        noMissing := noMissing + slots[k].nToFull;
        HandOver(k);
      }
    }

    method SendFullBlocks() returns (nStarted: nat)
      requires Valid()
      modifies this, slots
      ensures Valid() && Sweep(View(), nStarted) == SendFull(p, old(View()), SLOTS)
    {
      nStarted := 0;
      var k := 0;
      while k < SLOTS
        invariant 0 <= k <= SLOTS
        invariant Valid() && Sweep(View(), nStarted) == SendFull(p, old(View()), k)
      {
        nStarted := SendIfFull(k, nStarted);
        k := k + 1;
      }
    }

    method SendEarlierBlocks()
      requires Valid()
      modifies this, slots
      ensures Valid() && View() == SendEarlier(p, old(View()), SLOTS)
    {
      var k := 0;
      while k < SLOTS
        invariant 0 <= k <= SLOTS
        invariant Valid() && View() == SendEarlier(p, old(View()), k)
      {
        SendIfEarlier(k);
        k := k + 1;
      }
    }

    /** One pass of the main loop. */
    method ProcessBatch(batch: seq<Packet>)
      requires Valid()
      modifies this, slots
      ensures Valid() && View() == Turn(p, old(View()), batch)
    {
      if |batch| == 0 {
        return;
      }
      PlacePackets(batch);
      var nStarted := SendFullBlocks();
      if nStarted > SLOTS - 2 {
        lastSent := (nextPkt - TIME_INT_PER_BUFFER * SLOTS / 2) % PCKT_MODULUS;
      }
      SendEarlierBlocks();
    }
  }

  /** The first pass of the main loop: the scan, the window set up from it, and then the pass itself. */
  method FirstPass(batch: seq<Packet>, nAnts: nat, nchans: nat, firstChan: nat) returns (w: Worker)
    requires batch != [] && 1 <= nAnts <= MAX_NO_ANTS && 1 <= nchans <= MAX_CHANNEL_PACKETS &&
             firstChan < 0x1_0000_0000
    ensures w.Valid() && fresh(w) && fresh(w.slots) && w.p == ParamsOf(batch, nAnts, nchans, firstChan)
    ensures w.View() == Run(w.p, [batch])
  {
    var ants := new int[MAX_NO_ANTS](_ => UNCLAIMED);
    assert ants[..] == NoAntennas();
    var start := ScanFirst(batch, nAnts, ants);
    FirstBatchIsGood(batch, nAnts, nchans, firstChan);
    w := new Worker(Params(nAnts, nchans, firstChan, ants[..], start));
    w.ProcessBatch(batch);
    RunOne(w.p, batch);
  }

  lemma RunOne(p: Params, batch: seq<Packet>)
    requires ValidParams(p)
    ensures Run(p, [batch]) == Turn(p, Open(p), batch)
  {
    var init := [batch][..0];
    assert |init| == 0;
  }
}
