/**
 The window keeps room for new blocks: when most slots have been started the older half is given up
 (full_custom/processing_thread.c:166-175), so between batches at least two slots have got no packet yet.
 */
module StartedSlots {
  import opened DataFormats
  import opened Window
  import opened WindowLedger
  import opened OldestFirst
  import Pieces

  predicate IsStarted(p: Params, s: Slot) {
    s.nToFull < PacketsPerBlock(p)
  }

  /** The started ones among the first n slots. */
  ghost function Started(p: Params, w: Window, n: nat): set<nat>
    requires n <= |w.slots|
  {
    set i: nat | i < n && IsStarted(p, w.slots[i])
  }

  lemma StartedNext(p: Params, w: Window, n: nat)
    requires n < |w.slots|
    ensures |Started(p, w, n + 1)| == |Started(p, w, n)| + if IsStarted(p, w.slots[n]) then 1 else 0
  {
    assert Started(p, w, n + 1) == Started(p, w, n) + if IsStarted(p, w.slots[n]) then {n} else {};
  }

  lemma StartedSame(p: Params, w: Window, w': Window, n: nat)
    requires n <= |w.slots| && n <= |w'.slots| && forall i :: 0 <= i < n ==> w'.slots[i] == w.slots[i]
    ensures Started(p, w', n) == Started(p, w, n)
  {
  }

  /** The first loop's count is the number of started slots it leaves. */
  lemma {:induction false} CountsStarted(p: Params, w: Window, n: nat, r: Sweep)
    requires Shape(p, w) && PacketsPerBlock(p) > 0 && n <= SLOTS && r == SendFull(p, w, n)
    ensures r.nStarted == |Started(p, r.w, n)|
  {
    if n > 0 {
      var before := SendFull(p, w, n - 1);
      CountsStarted(p, w, n - 1, before);
      CountsOne(p, before, r, n - 1);
    }
  }

  lemma CountsOne(p: Params, r: Sweep, r': Sweep, k: nat)
    requires Shape(p, r.w) && PacketsPerBlock(p) > 0 && k < SLOTS && r' == SendFullAt(p, r, k)
    requires r.nStarted == |Started(p, r.w, k)|
    ensures r'.nStarted == |Started(p, r'.w, k + 1)|
  {
    StartedSame(p, r.w, r'.w, k);
    StartedNext(p, r'.w, k);
  }

  /** The second loop makes the older slots new and leaves the others as they are. */
  ghost predicate OlderRenewed(p: Params, v: Window, w: Window, n: nat) {
    && |w.slots| == |v.slots| && w.lastSent == v.lastSent
    && forall i :: 0 <= i < |v.slots| ==>
         if i < n && IsEarlier(v.slots[i].packetNo, v.lastSent) then w.slots[i].nToFull == PacketsPerBlock(p)
         else w.slots[i] == v.slots[i]
  }

  lemma {:induction false} Renews(p: Params, v: Window, n: nat, w: Window)
    requires Shape(p, v) && n <= SLOTS && w == SendEarlier(p, v, n)
    ensures OlderRenewed(p, v, w, n)
  {
    if n > 0 {
      var before := SendEarlier(p, v, n - 1);
      Renews(p, v, n - 1, before);
      RenewsOne(p, v, before, w, n - 1);
    }
  }

  lemma RenewsOne(p: Params, v: Window, w: Window, w': Window, k: nat)
    requires Shape(p, v) && Shape(p, w) && k < SLOTS && OlderRenewed(p, v, w, k) && w' == SendEarlierAt(p, w, k)
    ensures OlderRenewed(p, v, w', k + 1)
  {
  }

  /** At most three slots are not older than the half mark. */
  lemma FewAreNewer(p: Params, v: Window)
    requires Ledger(p, v) && v.lastSent == PacketNoOf(p, v.nextOrder - SLOTS / 2)
    ensures |set i: nat | i < SLOTS && v.slots[i].packetNo >= v.lastSent| <= SLOTS / 2
  {
    var newer := set i: nat | i < SLOTS && v.slots[i].packetNo >= v.lastSent;
    forall i | i in newer ensures v.nextOrder - SLOTS / 2 <= v.slots[i].order < v.nextOrder {
      assert Listed(p, v, v.slots[i]);
    }
    OrdersOf(v.slots, newer);
    RangeSize(set i | i in newer :: v.slots[i].order, v.nextOrder - SLOTS / 2, v.nextOrder);
  }

  lemma {:induction false} OrdersOf(ss: seq<Slot>, ids: set<nat>)
    requires DistinctOrders(ss) && forall i :: i in ids ==> i < |ss|
    ensures |set i | i in ids :: ss[i].order| == |ids|
    decreases |ids|
  {
    if ids != {} {
      var k :| k in ids;
      var rest := ids - {k};
      OrdersOf(ss, rest);
      assert (set i | i in ids :: ss[i].order) == (set i | i in rest :: ss[i].order) + {ss[k].order};
    }
  }

  /** The mark, when it is set because most slots have been started. */
  lemma HalfMarkIs(p: Params, v: Window, r: Sweep)
    requires Ledger(p, r.w) && NoWrap(p, r.w) && r.nStarted > SLOTS - 2 && v == MarkHalf(r)
    ensures v.lastSent == PacketNoOf(p, v.nextOrder - SLOTS / 2)
  {
    HalfBack(PacketNoOf(p, r.w.nextOrder));
  }

  /** After the first loop and the mark. */
  lemma AfterFirstLoop(p: Params, w: Window, r: Sweep, v: Window)
    requires Ledger(p, w) && Aged(p, w) && PacketsPerBlock(p) > 0
    requires r == SendFull(p, w, SLOTS) && v == MarkHalf(r) && NoWrap(p, r.w)
    ensures Ledger(p, v) && Marked(p, w, v) && r.nStarted == |Started(p, v, SLOTS)|
    ensures r.nStarted > SLOTS - 2 ==> v.lastSent == PacketNoOf(p, v.nextOrder - SLOTS / 2)
  {
    HalfMark(p, w);
    SendFullEffect(p, w, SLOTS);
    CountsStarted(p, w, SLOTS, r);
    StartedSame(p, r.w, v, SLOTS);
    if r.nStarted > SLOTS - 2 {
      HalfMarkIs(p, v, r);
    }
  }

  lemma SendLeavesFour(p: Params, w: Window, w': Window)
    requires Ledger(p, w) && Aged(p, w) && PacketsPerBlock(p) > 0
    requires w' == SendEarlier(p, MarkHalf(SendFull(p, w, SLOTS)), SLOTS) && NoWrap(p, w')
    ensures |Started(p, w', SLOTS)| <= SLOTS - 2
  {
    var r := SendFull(p, w, SLOTS);
    var v := MarkHalf(r);
    SendEarlierGrows(p, v, SLOTS);
    AfterFirstLoop(p, w, r, v);
    Renews(p, v, SLOTS, w');
    if r.nStarted <= SLOTS - 2 {
      FewerStarted(p, v, w');
    } else {
      OlderHalfGone(p, w, v, w');
    }
  }

  lemma FewerStarted(p: Params, v: Window, w': Window)
    requires |v.slots| == |w'.slots| == SLOTS && OlderRenewed(p, v, w', SLOTS)
    ensures |Started(p, w', SLOTS)| <= |Started(p, v, SLOTS)|
  {
    Pieces.SubsetSize(Started(p, w', SLOTS), Started(p, v, SLOTS));
  }

  lemma OlderHalfGone(p: Params, w: Window, v: Window, w': Window)
    requires Ledger(p, v) && Marked(p, w, v) && v.lastSent == PacketNoOf(p, v.nextOrder - SLOTS / 2)
    requires |w'.slots| == SLOTS && OlderRenewed(p, v, w', SLOTS)
    ensures |Started(p, w', SLOTS)| <= SLOTS / 2
  {
    FewAreNewer(p, v);
    forall i | i in Started(p, w', SLOTS) ensures v.slots[i].packetNo >= v.lastSent {
      EarlierIsLess(p, w, v, i);
    }
    Pieces.SubsetSize(Started(p, w', SLOTS), set i: nat | i < SLOTS && v.slots[i].packetNo >= v.lastSent);
  }

  /** After every run at most four slots of the window have got a packet. */
  lemma {:induction false} AtMostFourStarted(p: Params, batches: seq<seq<Packet>>)
    requires ValidParams(p) && NoWrap(p, Run(p, batches))
    ensures |Started(p, Run(p, batches), SLOTS)| <= SLOTS - 2
  {
    CellInBlock(p, 0, 0, 0);
    if batches == [] {
      assert Started(p, Open(p), SLOTS) == {};
    } else {
      var init, batch := batches[..|batches| - 1], batches[|batches| - 1];
      var w := Run(p, init);
      RunGrows(p, w, batch);
      AtMostFourStarted(p, init);
      if batch != [] {
        LedgerTheorem(p, init);
        var w1 := PlaceFirst(p, w, batch, |batch|);
        PlaceKeepsOrders(p, w, batch, |batch|);
        SameOrdersLedger(p, w, w1);
        SendLeavesFour(p, w1, Run(p, batches));
      }
    }
  }
}
