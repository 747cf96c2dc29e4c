/**
 The two working blocks of the block assembler (half_hashpipe/ata_volt_outer_thread.c:95-181, 1056-1060,
 1434-1503, 1512-1634): which block a packet is counted in, when blocks are finalized, and the account of
 dropped and late packets.  pkts_per_block is the same for all blocks of a run.
 */
module WorkingBlocks {
  import Radix

  /** Ring size, packets expected per block, and packet indices per block. */
  datatype Config = Config(nBlock: nat, perBlock: nat, pktidxPerBlock: nat)

  predicate ValidConfig(c: Config) {
    c.nBlock >= 2 && c.pktidxPerBlock >= 1
  }

  /** block_info. */
  datatype Info = Info(idx: nat, num: int, npacket: nat, ndrop: nat)

  /** A block that has left the window, with the number of reinits before it. */
  datatype Past = Past(epoch: nat, info: Info)

  /** sentDrop and sentLate are what has been moved to the status buffer. */
  datatype State = State(
    w0: Info, w1: Info, ndropTotal: nat, nlate: nat, statusSeq: nat, sentDrop: nat, sentLate: nat,
    epoch: nat, finals: seq<Past>, abandoned: seq<Past>)

  /** The next ring index; (i + 1) % n for an index of the ring. */
  function RingNext(i: nat, n: nat): nat {
    if i + 1 == n then 0 else i + 1
  }

  lemma RingNextIs(i: nat, n: nat)
    requires i < n
    ensures RingNext(i, n) == (i + 1) % n
  {
    if i + 1 == n {
      Radix.FlatDivMod(1, 0, n);
    } else {
      Radix.FlatDivMod(0, i + 1, n);
    }
  }

  function Reset(b: Info): Info {
    b.(npacket := 0, ndrop := 0)
  }

  /** init_block_info with no new ring index. */
  function Renumber(b: Info, num: int): Info {
    Reset(b.(num := num))
  }

  /** increment_block. */
  function Increment(c: Config, b: Info, num: int): Info
    requires ValidConfig(c)
  {
    Reset(b.(idx := RingNext(b.idx, c.nBlock), num := num))
  }

  /** finalize_block. */
  function Finalize(c: Config, b: Info): Info {
    if c.perBlock > b.npacket then b.(ndrop := c.perBlock - b.npacket) else b
  }

  function Open(statusSeq: nat): State {
    State(Info(0, 0, 0, 0), Info(1, 1, 0, 0), 0, 0, statusSeq, 0, 0, 0, [], [])
  }

  function BlockOf(c: Config, pktSeq: nat): nat
    requires ValidConfig(c)
  {
    Radix.Div(pktSeq, c.pktidxPerBlock)
  }

  /** Block n has the packet indices from n * pktidxPerBlock on, pktidxPerBlock of them. */
  predicate InRange(c: Config, n: int, pktSeq: nat) {
    n * c.pktidxPerBlock <= pktSeq < n * c.pktidxPerBlock + c.pktidxPerBlock
  }

  lemma BlockOfIff(c: Config, pktSeq: nat, n: int)
    requires ValidConfig(c)
    ensures BlockOf(c, pktSeq) == n <==> InRange(c, n, pktSeq)
  {
    var per, b := c.pktidxPerBlock, BlockOf(c, pktSeq);
    if InRange(c, n, pktSeq) {
      if n < 0 {
        Radix.Distribute(n, 1, per);
        Radix.Negative(n + 1, per);
        assert false;
      }
      Radix.FlatUnique(n, pktSeq - n * per, b, pktSeq - b * per, per);
    }
  }

  predicate IsFirst(c: Config, pktSeq: nat)
    requires ValidConfig(c)
  {
    pktSeq % c.pktidxPerBlock == 0
  }

  /** At the first packet index of a block the counters move to the status buffer. */
  function Flush(s: State, pktSeq: nat, first: bool): State {
    if first && pktSeq != s.statusSeq then
      s.(statusSeq := pktSeq, sentDrop := s.sentDrop + s.ndropTotal, ndropTotal := 0,
         sentLate := s.sentLate + s.nlate, nlate := 0)
    else s
  }

  function Advance(c: Config, s: State, blk: int): State
    requires ValidConfig(c)
  {
    var f := Finalize(c, s.w0);
    s.(finals := s.finals + [Past(s.epoch, f)], ndropTotal := s.ndropTotal + f.ndrop,
       w0 := s.w1, w1 := Increment(c, s.w1, blk))
  }

  /** The new window starts after the packet's own block; ring indices stay. */
  function Reinit(s: State, blk: int): State {
    s.(epoch := s.epoch + 1, abandoned := s.abandoned + [Past(s.epoch, s.w0), Past(s.epoch, s.w1)],
       w0 := Renumber(s.w0, blk + 1), w1 := Renumber(s.w1, blk + 2))
  }

  function Manage(c: Config, s: State, blk: int): State
    requires ValidConfig(c)
  {
    if blk == s.w1.num + 1 then Advance(c, s, blk)
    else if blk < s.w0.num - 1 || blk > s.w1.num + 1 then Reinit(s, blk)
    else if blk == s.w0.num - 1 then s.(nlate := s.nlate + 1)
    else s
  }

  function CountPacket(s: State, blk: int): State {
    if blk - s.w0.num == 0 then s.(w0 := s.w0.(npacket := s.w0.npacket + 1))
    else if blk - s.w0.num == 1 then s.(w1 := s.w1.(npacket := s.w1.npacket + 1))
    else s
  }

  /** One counted packet of block blk; `first` says that its index is the first of the block. */
  function StepAt(c: Config, s: State, pktSeq: nat, blk: int, first: bool): State
    requires ValidConfig(c)
  {
    CountPacket(Manage(c, Flush(s, pktSeq, first), blk), blk)
  }

  function Step(c: Config, s: State, pktSeq: nat): State
    requires ValidConfig(c)
  {
    StepAt(c, s, pktSeq, BlockOf(c, pktSeq), IsFirst(c, pktSeq))
  }

  function Steps(c: Config, s: State, pkts: seq<nat>): State
    requires ValidConfig(c)
  {
    if pkts == [] then s else Step(c, Steps(c, s, pkts[..|pkts| - 1]), pkts[|pkts| - 1])
  }

  function Run(c: Config, statusSeq: nat, pkts: seq<nat>): State
    requires ValidConfig(c)
  {
    Steps(c, Open(statusSeq), pkts)
  }

  // What becomes of a packet, told from the window alone.

  datatype Fate = Late | Trigger | Counted(epoch: nat, num: int)

  /**
   Late: one block behind the window.  Counted: in the window or one ahead of it.  Anything else restarts the
   window.
   */
  function FateOf(s: State, blk: int): Fate {
    var d := blk - s.w0.num;
    if d == -1 then Late else if 0 <= d <= 2 then Counted(s.epoch, blk) else Trigger
  }

  function Fates(c: Config, statusSeq: nat, pkts: seq<nat>): (r: seq<Fate>)
    requires ValidConfig(c)
    ensures |r| == |pkts|
  {
    if pkts == [] then []
    else
      var init := pkts[..|pkts| - 1];
      Fates(c, statusSeq, init) + [FateOf(Run(c, statusSeq, init), BlockOf(c, pkts[|pkts| - 1]))]
  }

  function Tally(fates: seq<Fate>, f: Fate): nat {
    if fates == [] then 0 else Tally(fates[..|fates| - 1], f) + if fates[|fates| - 1] == f then 1 else 0
  }

  lemma TallyNext(fates: seq<Fate>, x: Fate)
    ensures forall f :: Tally(fates + [x], f) == Tally(fates, f) + if f == x then 1 else 0
  {
    assert (fates + [x])[..|fates|] == fates;
  }

  // Ring indices and block numbers.

  /** The ring index reached after k increments from 0. */
  function RingAt(k: nat, n: nat): nat {
    if k == 0 then 0 else RingNext(RingAt(k - 1, n), n)
  }

  lemma {:induction false} RingAtIs(k: nat, n: nat)
    requires n > 0
    ensures RingAt(k, n) == k % n
  {
    if k == 0 {
      Radix.FlatDivMod(0, 0, n);
    } else {
      RingAtIs(k - 1, n);
      Radix.Split(k - 1, n);
      var q, r := (k - 1) / n, (k - 1) % n;
      if r + 1 < n {
        Radix.FlatDivMod(q, r + 1, n);
      } else {
        Radix.Distribute(q, 1, n);
        Radix.FlatDivMod(q + 1, 0, n);
      }
    }
  }

  /** Working blocks are neighbours, and follow the finalized blocks round the ring and in number. */
  ghost predicate Cyclic(c: Config, s: State) {
    && ValidConfig(c)
    && s.w1.num == s.w0.num + 1
    && s.w0.idx == RingAt(|s.finals|, c.nBlock) && s.w1.idx == RingAt(|s.finals| + 1, c.nBlock)
    && (forall k: nat :: k < |s.finals| ==> s.finals[k].info.idx == RingAt(k, c.nBlock))
  }

  /** Within an epoch finalized numbers go up by one, and the window comes next. */
  ghost predicate Ordered(s: State) {
    && (forall k :: 0 < k < |s.finals| ==> Follows(s.finals[k - 1], s.finals[k]))
    && (s.finals != [] ==> Follows(s.finals[|s.finals| - 1], Past(s.epoch, s.w0)))
  }

  ghost predicate Follows(a: Past, b: Past) {
    a.epoch <= b.epoch && (a.epoch == b.epoch ==> b.info.num == a.info.num + 1)
  }

  lemma AdvanceCyclic(c: Config, s: State)
    requires Cyclic(c, s) && Ordered(s)
    ensures Cyclic(c, Advance(c, s, s.w1.num + 1)) && Ordered(Advance(c, s, s.w1.num + 1))
  {
    var n := |s.finals|;
    assert RingAt(n + 2, c.nBlock) == RingNext(RingAt(n + 1, c.nBlock), c.nBlock);
    var s' := Advance(c, s, s.w1.num + 1);
    forall k | 0 < k < |s'.finals| ensures Follows(s'.finals[k - 1], s'.finals[k]) {
      if k < n { assert Follows(s.finals[k - 1], s.finals[k]); }
    }
  }

  lemma StepCyclic(c: Config, s: State, pktSeq: nat, blk: int, first: bool)
    requires Cyclic(c, s) && Ordered(s)
    ensures Cyclic(c, StepAt(c, s, pktSeq, blk, first)) && Ordered(StepAt(c, s, pktSeq, blk, first))
  {
    var s1 := Flush(s, pktSeq, first);
    assert Cyclic(c, s1) && Ordered(s1);
    if blk == s1.w1.num + 1 {
      AdvanceCyclic(c, s1);
    }
    CountCyclic(c, Manage(c, s1, blk), blk);
  }

  lemma CountCyclic(c: Config, s: State, blk: int)
    requires Cyclic(c, s) && Ordered(s)
    ensures Cyclic(c, CountPacket(s, blk)) && Ordered(CountPacket(s, blk))
  {
  }

  // Counting.

  function SumPackets(h: seq<Past>): nat {
    if h == [] then 0 else SumPackets(h[..|h| - 1]) + h[|h| - 1].info.npacket
  }

  function SumDrops(h: seq<Past>): nat {
    if h == [] then 0 else SumDrops(h[..|h| - 1]) + h[|h| - 1].info.ndrop
  }

  lemma SumsNext(h: seq<Past>, x: Past)
    ensures SumPackets(h + [x]) == SumPackets(h) + x.info.npacket
    ensures SumDrops(h + [x]) == SumDrops(h) + x.info.ndrop
  {
    assert (h + [x])[..|h|] == h;
  }

  /** A block's count is the number of packets with that fate. */
  ghost predicate Exact(fates: seq<Fate>, b: Past) {
    b.info.npacket == Tally(fates, Counted(b.epoch, b.info.num))
  }

  /** A finalized block's drop count makes up the difference, unless it has too many packets. */
  ghost predicate DropOk(c: Config, b: Info) {
    && (b.npacket + b.ndrop == c.perBlock <==> b.npacket <= c.perBlock)
    && (b.npacket > c.perBlock ==> b.ndrop == 0)
  }

  /** A past block is behind the window: of an earlier epoch, or of this one with a lower number. */
  ghost predicate Behind(s: State, b: Past) {
    b.epoch < s.epoch || (b.epoch == s.epoch && b.info.num < s.w0.num)
  }

  ghost predicate AllExact(s: State, fates: seq<Fate>, h: seq<Past>) {
    forall k :: 0 <= k < |h| ==> Behind(s, h[k]) && Exact(fates, h[k])
  }

  ghost predicate Accounted(c: Config, s: State, fates: seq<Fate>) {
    && s.w0.ndrop == 0 && s.w1.ndrop == 0
    && Exact(fates, Past(s.epoch, s.w0)) && Exact(fates, Past(s.epoch, s.w1))
    && AllExact(s, fates, s.finals) && AllExact(s, fates, s.abandoned)
    && (forall k :: 0 <= k < |s.finals| ==> DropOk(c, s.finals[k].info))
    && NoneAhead(fates, s.epoch, s.w1.num)
  }

  /** No packet has been counted in a block after the window. */
  ghost predicate NoneAhead(fates: seq<Fate>, epoch: nat, num: int) {
    forall e: nat, b :: e > epoch || (e == epoch && b > num) ==> Tally(fates, Counted(e, b)) == 0
  }

  ghost predicate Totals(s: State, fates: seq<Fate>) {
    && s.nlate + s.sentLate == Tally(fates, Late)
    && s.epoch == Tally(fates, Trigger)
    && s.ndropTotal + s.sentDrop == SumDrops(s.finals)
    && |fates| == Tally(fates, Late) + Tally(fates, Trigger)
                  + SumPackets(s.finals) + SumPackets(s.abandoned) + s.w0.npacket + s.w1.npacket
  }

  /** A block leaves finalized as f, and the packet is the first of the new block. */
  lemma AdvanceTotals(s: State, s': State, fates: seq<Fate>, x: Fate, f: Info)
    requires Totals(s, fates) && x.Counted? && f.npacket == s.w0.npacket
    requires s' == s.(finals := s.finals + [Past(s.epoch, f)], ndropTotal := s.ndropTotal + f.ndrop, w0 := s.w1,
             w1 := s'.w1)
    requires s'.w1.npacket == 1
    ensures Totals(s', fates + [x])
  {
    TallyNext(fates, x);
    SumsNext(s.finals, Past(s.epoch, f));
  }

  lemma ReinitTotals(s: State, fates: seq<Fate>, blk: int)
    requires Totals(s, fates) && FateOf(s, blk).Trigger?
    ensures Totals(Reinit(s, blk), fates + [Trigger])
  {
    TallyNext(fates, Trigger);
    var a, b := Past(s.epoch, s.w0), Past(s.epoch, s.w1);
    SumsNext(s.abandoned, a);
    SumsNext(s.abandoned + [a], b);
    assert s.abandoned + [a, b] == s.abandoned + [a] + [b];
  }

  lemma StayTotals(s: State, s': State, fates: seq<Fate>, x: Fate)
    requires Totals(s, fates) && !x.Trigger?
    requires s' == s.(nlate := s'.nlate, w0 := s'.w0, w1 := s'.w1)
    requires s'.nlate == s.nlate + (if x.Late? then 1 else 0)
    requires s'.w0.npacket + s'.w1.npacket == s.w0.npacket + s.w1.npacket + (if x.Late? then 0 else 1)
    ensures Totals(s', fates + [x])
  {
    TallyNext(fates, x);
  }

  lemma StepTotals(c: Config, s: State, fates: seq<Fate>, pktSeq: nat, blk: int, first: bool)
    requires ValidConfig(c) && s.w1.num == s.w0.num + 1 && Totals(s, fates)
    ensures Totals(StepAt(c, s, pktSeq, blk, first), fates + [FateOf(s, blk)])
  {
    var s1 := Flush(s, pktSeq, first);
    assert Totals(s1, fates) && FateOf(s1, blk) == FateOf(s, blk);
    if blk == s1.w1.num + 1 {
      AdvanceTotals(s1, StepAt(c, s, pktSeq, blk, first), fates, FateOf(s, blk), Finalize(c, s.w0));
    } else if FateOf(s, blk).Trigger? {
      ReinitTotals(s1, fates, blk);
    } else {
      StayTotals(s1, StepAt(c, s, pktSeq, blk, first), fates, FateOf(s, blk));
    }
  }

  /** Blocks behind the window keep their counts: no later packet has their fate. */
  lemma StaysExact(s: State, s': State, fates: seq<Fate>, x: Fate, h: seq<Past>)
    requires AllExact(s, fates, h)
    requires x.Counted? ==> x.epoch == s.epoch && x.num >= s.w0.num
    requires s'.epoch > s.epoch || (s'.epoch == s.epoch && s'.w0.num >= s.w0.num)
    ensures AllExact(s', fates + [x], h)
  {
    TallyNext(fates, x);
    forall k | 0 <= k < |h| ensures Behind(s', h[k]) && Exact(fates + [x], h[k]) {
      assert Behind(s, h[k]) && Exact(fates, h[k]);
    }
  }

  lemma AdvanceAccounted(c: Config, s: State, s': State, fates: seq<Fate>, x: Fate)
    requires s.w1.num == s.w0.num + 1 && Accounted(c, s, fates) && x == Counted(s.epoch, s.w1.num + 1)
    requires s'.finals == s.finals + [Past(s.epoch, Finalize(c, s.w0))] && s'.abandoned == s.abandoned &&
             s'.epoch == s.epoch
    requires s'.w0 == s.w1 && s'.w1 == Info(s'.w1.idx, x.num, 1, 0)
    ensures Accounted(c, s', fates + [x])
  {
    TallyNext(fates, x);
    StaysExact(s, s', fates, x, s.finals);
    StaysExact(s, s', fates, x, s.abandoned);
  }

  lemma ReinitAccounted(c: Config, s: State, fates: seq<Fate>, blk: int)
    requires s.w1.num == s.w0.num + 1 && Accounted(c, s, fates)
    ensures Accounted(c, Reinit(s, blk), fates + [Trigger])
  {
    var s' := Reinit(s, blk);
    TallyNext(fates, Trigger);
    StaysExact(s, s', fates, Trigger, s.finals);
    StaysExact(s, s', fates, Trigger, s.abandoned);
    var n := |s.abandoned|;
    forall k | 0 <= k < n + 2 ensures Behind(s', s'.abandoned[k]) && Exact(fates + [Trigger], s'.abandoned[k]) {
      if k < n { assert s'.abandoned[k] == s.abandoned[k]; }
    }
  }

  /** The window stays; the packet is late or counted in one of its blocks. */
  lemma StayAccounted(c: Config, s: State, s': State, fates: seq<Fate>, x: Fate)
    requires s.w1.num == s.w0.num + 1 && Accounted(c, s, fates)
    requires s'.finals == s.finals && s'.abandoned == s.abandoned && s'.epoch == s.epoch
    requires x.Late? || x == Counted(s.epoch, s.w0.num) || x == Counted(s.epoch, s.w1.num)
    requires s'.w0 == (if x == Counted(s.epoch, s.w0.num) then s.w0.(npacket := s.w0.npacket + 1) else s.w0)
    requires s'.w1 == (if x == Counted(s.epoch, s.w1.num) then s.w1.(npacket := s.w1.npacket + 1) else s.w1)
    ensures Accounted(c, s', fates + [x])
  {
    TallyNext(fates, x);
    StaysExact(s, s', fates, x, s.finals);
    StaysExact(s, s', fates, x, s.abandoned);
  }

  lemma StepAccounted(c: Config, s: State, fates: seq<Fate>, pktSeq: nat, blk: int, first: bool)
    requires ValidConfig(c) && s.w1.num == s.w0.num + 1 && Accounted(c, s, fates)
    ensures Accounted(c, StepAt(c, s, pktSeq, blk, first), fates + [FateOf(s, blk)])
  {
    var x := FateOf(s, blk);
    var s1 := Flush(s, pktSeq, first);
    assert Accounted(c, s1, fates);
    if blk == s.w1.num + 1 {
      AdvanceAccounted(c, s1, StepAt(c, s, pktSeq, blk, first), fates, x);
    } else if x.Trigger? {
      ReinitAccounted(c, s1, fates, blk);
    } else {
      StayAccounted(c, s1, StepAt(c, s, pktSeq, blk, first), fates, x);
    }
  }

  /** In every state of every run. */
  lemma {:induction false} AssemblerTheorem(c: Config, statusSeq: nat, pkts: seq<nat>)
    requires ValidConfig(c)
    ensures var s := Run(c, statusSeq, pkts);
            var fates := Fates(c, statusSeq, pkts);
            Cyclic(c, s) && Ordered(s) && Accounted(c, s, fates) && Totals(s, fates)
  {
    if pkts != [] {
      var init, pktSeq := pkts[..|pkts| - 1], pkts[|pkts| - 1];
      var s, fates := Run(c, statusSeq, init), Fates(c, statusSeq, init);
      var blk, first := BlockOf(c, pktSeq), IsFirst(c, pktSeq);
      AssemblerTheorem(c, statusSeq, init);
      StepCyclic(c, s, pktSeq, blk, first);
      StepTotals(c, s, fates, pktSeq, blk, first);
      StepAccounted(c, s, fates, pktSeq, blk, first);
    }
  }

  /** The k-th finalized block lies in ring slot k mod n_block, across reinits. */
  lemma RingSlots(c: Config, statusSeq: nat, pkts: seq<nat>)
    requires ValidConfig(c)
    ensures var s := Run(c, statusSeq, pkts);
            && (forall k: nat :: k < |s.finals| ==> s.finals[k].info.idx == k % c.nBlock)
            && s.w0.idx == |s.finals| % c.nBlock && s.w1.idx == (s.w0.idx + 1) % c.nBlock
  {
    var s := Run(c, statusSeq, pkts);
    AssemblerTheorem(c, statusSeq, pkts);
    forall k: nat | k < |s.finals| ensures s.finals[k].info.idx == k % c.nBlock {
      RingAtIs(k, c.nBlock);
    }
    RingAtIs(|s.finals|, c.nBlock);
    RingNextIs(s.w0.idx, c.nBlock);
  }

  // The same count over packet indices.

  /** Packets with an index of block n that came in the given epoch while n was in the window or one ahead of it. */
  ghost function CountInRange(c: Config, statusSeq: nat, pkts: seq<nat>, epoch: nat, n: int): nat
    requires ValidConfig(c)
  {
    if pkts == [] then 0
    else
      var init := pkts[..|pkts| - 1];
      var s := Run(c, statusSeq, init);
      CountInRange(c, statusSeq, init, epoch, n)
      + if s.epoch == epoch && s.w0.num <= n <= s.w0.num + 2 && InRange(c, n, pkts[|pkts| - 1]) then 1 else 0
  }

  lemma {:induction false} CountIsTally(c: Config, statusSeq: nat, pkts: seq<nat>, epoch: nat, n: int)
    requires ValidConfig(c)
    ensures CountInRange(c, statusSeq, pkts, epoch, n) == Tally(Fates(c, statusSeq, pkts), Counted(epoch, n))
  {
    if pkts != [] {
      var init, last := pkts[..|pkts| - 1], pkts[|pkts| - 1];
      CountIsTally(c, statusSeq, init, epoch, n);
      BlockOfIff(c, last, n);
      TallyNext(Fates(c, statusSeq, init), FateOf(Run(c, statusSeq, init), BlockOf(c, last)));
    }
  }

  /** A finalized block counted exactly the packets of its index range that came in its epoch, while open or next. */
  lemma FinalCounts(c: Config, statusSeq: nat, pkts: seq<nat>, k: nat)
    requires ValidConfig(c) && k < |Run(c, statusSeq, pkts).finals|
    ensures var f := Run(c, statusSeq, pkts).finals[k];
            f.info.npacket == CountInRange(c, statusSeq, pkts, f.epoch, f.info.num)
  {
    AssemblerTheorem(c, statusSeq, pkts);
    var f := Run(c, statusSeq, pkts).finals[k];
    CountIsTally(c, statusSeq, pkts, f.epoch, f.info.num);
  }

  // When the counters move.

  /** Packets of the block that the step finalized, if any, that never came. */
  function NewDrops(s: State, s': State): nat {
    if |s'.finals| > |s.finals| then s'.finals[|s.finals|].info.ndrop else 0
  }

  /** The counters after a packet of block n: moved, and then counting what the packet itself brought, or going on. */
  ghost predicate CountersAfter(s: State, s': State, pktSeq: nat, n: int, move: bool) {
    var late := if FateOf(s, n) == Late then 1 else 0;
    if move then
      && s'.statusSeq == pktSeq && s'.sentDrop == s.sentDrop + s.ndropTotal && s'.sentLate == s.sentLate + s.nlate
      && s'.ndropTotal == NewDrops(s, s') && s'.nlate == late
    else
      && s'.statusSeq == s.statusSeq && s'.sentDrop == s.sentDrop && s'.sentLate == s.sentLate
      && s'.ndropTotal == s.ndropTotal + NewDrops(s, s') && s'.nlate == s.nlate + late
  }

  /** The first packet index of a block, when it has not just been reported, moves both counters; nothing else does. */
  lemma FlushIff(c: Config, s: State, pktSeq: nat, n: nat)
    requires ValidConfig(c) && s.w1.num == s.w0.num + 1 && InRange(c, n, pktSeq)
    ensures CountersAfter(s, Step(c, s, pktSeq), pktSeq, n, pktSeq == n * c.pktidxPerBlock && pktSeq != s.statusSeq)
  {
    BlockOfIff(c, pktSeq, n);
    Radix.FlatDivMod(n, pktSeq - n * c.pktidxPerBlock, c.pktidxPerBlock);
    FlushCases(c, s, Step(c, s, pktSeq), pktSeq, n, pktSeq == n * c.pktidxPerBlock);
  }

  lemma FlushCases(c: Config, s: State, s': State, pktSeq: nat, blk: int, first: bool)
    requires ValidConfig(c) && s.w1.num == s.w0.num + 1 && s' == StepAt(c, s, pktSeq, blk, first)
    ensures CountersAfter(s, s', pktSeq, blk, first && pktSeq != s.statusSeq)
  {
  }

  /** No (epoch, block number) is used by two finalized blocks. */
  lemma FinalsDistinct(c: Config, statusSeq: nat, pkts: seq<nat>, i: nat, j: nat)
    requires ValidConfig(c) && i < j < |Run(c, statusSeq, pkts).finals|
    ensures var f := Run(c, statusSeq, pkts).finals;
            f[i].epoch < f[j].epoch || (f[i].epoch == f[j].epoch && f[j].info.num - f[i].info.num == j - i)
  {
    AssemblerTheorem(c, statusSeq, pkts);
    FollowsFar(Run(c, statusSeq, pkts).finals, i, j);
  }

  lemma {:induction false} FollowsFar(h: seq<Past>, i: nat, j: nat)
    requires i < j < |h| && forall k :: 0 < k < |h| ==> Follows(h[k - 1], h[k])
    ensures h[i].epoch < h[j].epoch || (h[i].epoch == h[j].epoch && h[j].info.num - h[i].info.num == j - i)
    decreases j
  {
    assert Follows(h[j - 1], h[j]);
    if i < j - 1 {
      FollowsFar(h, i, j - 1);
    }
  }

  /** After management the packet's place is one before the window, in its first block or in its second. */
  lemma IndexInRange(c: Config, s: State, blk: int)
    requires ValidConfig(c) && s.w1.num == s.w0.num + 1
    ensures var d := blk - Manage(c, s, blk).w0.num;
            -1 <= d <= 1 && (d == -1 <==> !FateOf(s, blk).Counted?)
  {
  }

  // The assembler in memory.

  class Assembler {
    const c: Config
    const wblk: array<Info>
    var ndropTotal: nat
    var nlate: nat
    var statusSeq: nat
    var sentDrop: nat
    var sentLate: nat
    ghost var epoch: nat
    ghost var finals: seq<Past>
    ghost var abandoned: seq<Past>

    ghost predicate Valid()
      reads this, wblk
    {
      ValidConfig(c) && wblk.Length == 2 && wblk[0].idx < c.nBlock && wblk[1].idx < c.nBlock
    }

    ghost function View(): State
      reads this, wblk
      requires wblk.Length == 2
    {
      State(wblk[0], wblk[1], ndropTotal, nlate, statusSeq, sentDrop, sentLate, epoch, finals, abandoned)
    }

    constructor (c: Config, statusSeq: nat)
      requires ValidConfig(c)
      ensures Valid() && this.c == c && View() == Open(statusSeq) && fresh(wblk)
    {
      this.c := c;
      wblk := new Info[2](i requires 0 <= i < 2 => Info(i, i, 0, 0));
      ndropTotal, nlate, sentDrop, sentLate := 0, 0, 0, 0;
      this.statusSeq := statusSeq;
      epoch, finals, abandoned := 0, [], [];
    }

    method FlushCounters(pktSeq: nat, first: bool)
      requires Valid()
      modifies this
      ensures Valid() && View() == Flush(old(View()), pktSeq, first)
    {
      if first && pktSeq != statusSeq {
        statusSeq := pktSeq;
        sentDrop, ndropTotal := sentDrop + ndropTotal, 0;
        sentLate, nlate := sentLate + nlate, 0;
      }
    }

    /** Finalize, shift, increment. */
    method AdvanceBlocks(blk: int)
      requires Valid()
      modifies this, wblk
      ensures Valid() && View() == Advance(c, old(View()), blk)
    {
      if c.perBlock > wblk[0].npacket {
        wblk[0] := wblk[0].(ndrop := c.perBlock - wblk[0].npacket);
      }
      finals := finals + [Past(epoch, wblk[0])];
      ndropTotal := ndropTotal + wblk[0].ndrop;
      wblk[0] := wblk[1];
      RingNextIs(wblk[1].idx, c.nBlock);
      wblk[1] := wblk[1].(idx := (wblk[1].idx + 1) % c.nBlock, num := blk, npacket := 0, ndrop := 0);
    }

    method ReinitBlocks(blk: int)
      requires Valid()
      modifies this, wblk
      ensures Valid() && View() == Reinit(old(View()), blk)
    {
      abandoned := abandoned + [Past(epoch, wblk[0]), Past(epoch, wblk[1])];
      epoch := epoch + 1;
      for i := 0 to 2
        modifies wblk
        invariant wblk[0] == if i > 0 then Renumber(old(wblk[0]), blk + 1) else old(wblk[0])
        invariant wblk[1] == if i > 1 then Renumber(old(wblk[1]), blk + 2) else old(wblk[1])
      {
        wblk[i] := wblk[i].(num := blk + i + 1, npacket := 0, ndrop := 0);
      }
    }

    method HandlePacket(pktSeq: nat)
      requires Valid()
      modifies this, wblk
      ensures Valid() && View() == Step(c, old(View()), pktSeq)
    {
      var blk := BlockOf(c, pktSeq);
      FlushCounters(pktSeq, pktSeq % c.pktidxPerBlock == 0);
      if blk == wblk[1].num + 1 {
        AdvanceBlocks(blk);
      } else if blk < wblk[0].num - 1 || blk > wblk[1].num + 1 {
        ReinitBlocks(blk);
      } else if blk == wblk[0].num - 1 {
        nlate := nlate + 1;
      }
      var k := blk - wblk[0].num;
      if 0 <= k < 2 {
        wblk[k] := wblk[k].(npacket := wblk[k].npacket + 1);
      }
    }

    /** All packets of an input block, in order. */
    method HandlePackets(pkts: seq<nat>)
      requires Valid()
      modifies this, wblk
      ensures Valid() && View() == Steps(c, old(View()), pkts)
    {
      for i := 0 to |pkts|
        invariant Valid() && View() == Steps(c, old(View()), pkts[..i])
      {
        assert pkts[..i + 1][..i] == pkts[..i];
        HandlePacket(pkts[i]);
      }
      assert pkts[..|pkts|] == pkts;
    }
  }
}
