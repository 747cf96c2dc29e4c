/**
 One whole pass of the worker, and all runs: the ledger and the age of the window are kept, and
 whenever a pass hands over anything it hands over the oldest block of the window.
 */
module OldestFirst {
  import opened DataFormats
  import opened Window
  import opened WindowLedger
  import Pieces

  ghost predicate IsLowest(w: Window, i: int) {
    0 <= i < |w.slots| && forall j :: 0 <= j < |w.slots| ==> w.slots[i].order <= w.slots[j].order
  }

  lemma {:induction false} SendEarlierGrows(p: Params, w: Window, n: nat)
    requires Shape(p, w) && n <= SLOTS
    ensures SendEarlier(p, w, n).nextOrder >= w.nextOrder
    ensures SendEarlier(p, w, n).lastSent == w.lastSent
  {
    if n > 0 {
      SendEarlierGrows(p, w, n - 1);
    }
  }

  /** Six distinct orders below nextOrder: the lowest is at most nextOrder - 6. */
  lemma LowestIsLow(p: Params, w: Window, i: int)
    requires Ledger(p, w) && IsLowest(w, i)
    ensures w.slots[i].order <= w.nextOrder - SLOTS
  {
    var orders := set k | 0 <= k < |w.slots| :: w.slots[k].order;
    ImageSize(w.slots, |w.slots|);
    assert orders == set k | 0 <= k < |w.slots| :: w.slots[k].order;
    forall o | o in orders ensures w.slots[i].order <= o < w.nextOrder {
      var k :| 0 <= k < |w.slots| && o == w.slots[k].order;
      assert Listed(p, w, w.slots[k]);
    }
    RangeSize(orders, w.slots[i].order, w.nextOrder);
  }

  lemma {:induction false} ImageSize(ss: seq<Slot>, n: nat)
    requires DistinctOrders(ss) && n <= |ss|
    ensures |set k | 0 <= k < n :: ss[k].order| == n
  {
    if n > 0 {
      ImageSize(ss, n - 1);
      assert (set k | 0 <= k < n :: ss[k].order) == (set k | 0 <= k < n - 1 :: ss[k].order) + {ss[n - 1].order};
    }
  }

  lemma {:induction false} RangeSize(s: set<int>, lo: int, hi: int)
    requires forall x :: x in s ==> lo <= x < hi
    ensures |s| <= if hi >= lo then hi - lo else 0
    decreases hi - lo
  {
    if hi > lo {
      RangeSize(s - {hi - 1}, lo, hi - 1);
    } else {
      assert s == {};
    }
  }

  /** The mark left by the first loop: where "earlier" begins. */
  ghost predicate Marked(p: Params, w: Window, v: Window) {
    && p.start <= v.lastSent < PCKT_MODULUS && (v.lastSent - p.start) % TIME_INT_PER_BUFFER == 0
    && w.lastSent <= v.lastSent <= PacketNoOf(p, v.nextOrder)
    && (v.lastSent == p.start ==> |v.handed| <= 1)
    && (forall i :: 0 <= i < |v.slots| && v.slots[i].order >= w.nextOrder ==> v.slots[i].packetNo >= v.lastSent)
    && (|v.handed| > |w.handed| || v.lastSent != w.lastSent ==>
          forall i :: IsLowest(w, i) ==> w.slots[i].nToFull == 0 || w.slots[i].packetNo < v.lastSent)
  }

  /** The mark set by the last full slot in array order. */
  lemma FullMark(p: Params, w: Window)
    requires Ledger(p, w) && Aged(p, w) && NoWrap(p, SendFull(p, w, SLOTS).w)
    ensures Marked(p, w, SendFull(p, w, SLOTS).w)
  {
    var r := SendFull(p, w, SLOTS);
    SendFullEffect(p, w, SLOTS);
    if |r.w.handed| > |w.handed| {
      var k :| LastFull(w, SLOTS, k) && r.w.lastSent == w.slots[k].packetNo;
      if r.w.lastSent == p.start {
        FirstIsOnly(p, w, r.w, k);
      }
      FullMarkAt(p, w, r.w, k);
    } else {
      NoFullMark(p, w, r.w);
    }
  }

  lemma NoFullMark(p: Params, w: Window, v: Window)
    requires Ledger(p, w) && Aged(p, w) && Ledger(p, v) && Swept(w, v, Full(w, SLOTS))
    requires |v.handed| == |w.handed| && v.lastSent == w.lastSent
    ensures Marked(p, w, v)
  {
    forall i | 0 <= i < SLOTS ensures v.slots[i].order < w.nextOrder {
      assert !Full(w, SLOTS)(i);
      assert Listed(p, w, w.slots[i]);
    }
    assert Listed(p, w, w.slots[0]);
  }

  lemma FullMarkAt(p: Params, w: Window, v: Window, k: nat)
    requires Ledger(p, w) && Aged(p, w) && Ledger(p, v) && NoWrap(p, v) && v.nextOrder >= w.nextOrder
    requires k < SLOTS && w.slots[k].nToFull == 0 && v.lastSent == w.slots[k].packetNo
    requires v.lastSent == p.start ==> |v.handed| <= 1
    ensures Marked(p, w, v)
  {
    assert Listed(p, w, w.slots[k]);
    var d := w.slots[k].order - 1;
    assert v.lastSent - p.start == d * TIME_INT_PER_BUFFER;
    forall i | 0 <= i < |v.slots| && v.slots[i].order >= w.nextOrder ensures v.slots[i].packetNo >= v.lastSent {
      assert Listed(p, v, v.slots[i]);
    }
    forall i | IsLowest(w, i) ensures w.slots[i].nToFull == 0 || w.slots[i].packetNo < v.lastSent {
      LowestOrSame(p, w, i, k);
    }
  }

  lemma LowestOrSame(p: Params, w: Window, i: int, k: int)
    requires Ledger(p, w) && IsLowest(w, i) && 0 <= k < |w.slots|
    ensures i == k || w.slots[i].packetNo < w.slots[k].packetNo
  {
    assert Listed(p, w, w.slots[i]) && Listed(p, w, w.slots[k]);
  }

  /** If the last full slot holds block 1 then it is slot 0 and it is the only block handed over so far. */
  lemma FirstIsOnly(p: Params, w: Window, v: Window, k: nat)
    requires Ledger(p, w) && Aged(p, w) && Ledger(p, v) && Swept(w, v, Full(w, SLOTS))
    requires LastFull(w, SLOTS, k) && w.slots[k].packetNo == p.start
    ensures |v.handed| <= 1
  {
    assert Listed(p, w, w.slots[k]);
    assert w.slots[k].order == 1;
    assert w.handed == [];
    assert k == 0;
    forall j | 0 <= j < |v.handed| ensures v.handed[j] == w.slots[0] {
      var i :| 0 <= i < |w.slots| && Full(w, SLOTS)(i) && v.handed[j] == w.slots[i];
    }
    ImageSize(v.handed, |v.handed|);
    Pieces.SubsetSize(set k | 0 <= k < |v.handed| :: v.handed[k].order, {w.slots[0].order});
  }

  /** The mark set because most slots have been started. */
  lemma HalfMark(p: Params, w: Window)
    requires Ledger(p, w) && Aged(p, w) && NoWrap(p, SendFull(p, w, SLOTS).w)
    ensures var v := MarkHalf(SendFull(p, w, SLOTS));
            Ledger(p, v) && Swept(w, v, Full(w, SLOTS)) && Marked(p, w, v)
  {
    var r := SendFull(p, w, SLOTS);
    SendFullEffect(p, w, SLOTS);
    FullMark(p, w);
    if r.nStarted > SLOTS - 2 {
      SameOrdersNoAge(p, r.w, MarkHalf(r));
      HalfMarkAt(p, w, r);
    }
  }

  lemma HalfMarkAt(p: Params, w: Window, r: Sweep)
    requires Ledger(p, w) && Aged(p, w) && NoWrap(p, r.w) && Ledger(p, r.w) && r.nStarted > SLOTS - 2
    requires w.nextOrder <= r.w.nextOrder <= w.nextOrder + 1
    ensures Marked(p, w, MarkHalf(r))
  {
    var v := MarkHalf(r);
    HalfBack(PacketNoOf(p, r.w.nextOrder));
    assert v.lastSent == PacketNoOf(p, v.nextOrder - SLOTS / 2);
    forall i | IsLowest(w, i) ensures w.slots[i].packetNo < v.lastSent {
      LowestIsLow(p, w, i);
      assert Listed(p, w, w.slots[i]);
    }
    forall i | 0 <= i < |v.slots| && v.slots[i].order >= w.nextOrder ensures v.slots[i].packetNo >= v.lastSent {
      assert Listed(p, r.w, r.w.slots[i]);
    }
    MarkGrows(p, w, v);
  }

  lemma HalfBack(x: nat)
    requires TIME_INT_PER_BUFFER * SLOTS / 2 <= x < PCKT_MODULUS + TIME_INT_PER_BUFFER
    ensures (x % PCKT_MODULUS - TIME_INT_PER_BUFFER * SLOTS / 2) % PCKT_MODULUS == x - TIME_INT_PER_BUFFER * SLOTS / 2
  {
    if x >= PCKT_MODULUS {
      assert x % PCKT_MODULUS == x - PCKT_MODULUS;
    }
  }

  lemma MarkGrows(p: Params, w: Window, v: Window)
    requires Ledger(p, w) && Aged(p, w)
    requires v.nextOrder >= w.nextOrder && v.lastSent == PacketNoOf(p, v.nextOrder - SLOTS / 2)
    ensures w.lastSent < v.lastSent
  {
    var i := MinIndex(w.slots);
    assert IsLowest(w, i);
    LowestIsLow(p, w, i);
    assert Listed(p, w, w.slots[i]);
    assert w.slots[i].packetNo >= w.lastSent;
  }

  function MinIndex(ss: seq<Slot>): (i: nat)
    requires ss != []
    ensures i < |ss| && forall j :: 0 <= j < |ss| ==> ss[i].order <= ss[j].order
  {
    if |ss| == 1 then 0
    else
      var i := MinIndex(ss[..|ss| - 1]);
      if ss[|ss| - 1].order < ss[i].order then |ss| - 1 else i
  }

  /** Without wrap-around the two-branch test is the plain comparison. */
  lemma EarlierIsLess(p: Params, w: Window, v: Window, i: int)
    requires Ledger(p, v) && Marked(p, w, v) && 0 <= i < SLOTS
    ensures IsEarlier(v.slots[i].packetNo, v.lastSent) <==> v.slots[i].packetNo < v.lastSent
  {
    assert Listed(p, v, v.slots[i]);
    if v.lastSent <= SLOTS / 2 {
      assert v.lastSent == p.start == 0;
      assert |v.handed| <= 1;
    }
  }

  /** Everything one pass guarantees. */
  ghost predicate TurnFacts(p: Params, w: Window, w': Window) {
    && Ledger(p, w') && Aged(p, w')
    && w.handed <= w'.handed
    && (forall j :: |w.handed| <= j < |w'.handed| ==> w'.handed[j].order < w.nextOrder)
    && (|w'.handed| > |w.handed| ==> forall i :: IsLowest(w, i) ==> InHanded(w', w.slots[i].order))
    && (|w'.handed| == |w.handed| ==> forall i :: 0 <= i < |w'.slots| && i < |w.slots| ==>
       w'.slots[i].order == w.slots[i].order)
  }

  lemma TurnStep(p: Params, w: Window, batch: seq<Packet>)
    requires Ledger(p, w) && Aged(p, w) && NoWrap(p, Turn(p, w, batch))
    ensures TurnFacts(p, w, Turn(p, w, batch))
  {
    if batch != [] {
      var w1 := PlaceFirst(p, w, batch, |batch|);
      assert SameOrders(w, w1) by { PlaceKeepsOrders(p, w, batch, |batch|); }
      assert Ledger(p, w1) && Aged(p, w1) by { SameOrdersLedger(p, w, w1); }
      SendStep(p, w1);
      SameOrdersFacts(p, w, w1, Turn(p, w, batch));
    }
  }

  /** The two loops, after the packets have been placed. */
  lemma SendStep(p: Params, w: Window)
    requires Ledger(p, w) && Aged(p, w)
    requires NoWrap(p, SendEarlier(p, MarkHalf(SendFull(p, w, SLOTS)), SLOTS))
    ensures TurnFacts(p, w, SendEarlier(p, MarkHalf(SendFull(p, w, SLOTS)), SLOTS))
  {
    var v := MarkHalf(SendFull(p, w, SLOTS));
    SendEarlierGrows(p, v, SLOTS);
    HalfMark(p, w);
    SendEarlierEffect(p, v, SLOTS);
    SweepsFacts(p, w, v, SendEarlier(p, v, SLOTS));
  }

  lemma SameOrdersFacts(p: Params, w: Window, w1: Window, w': Window)
    requires SameOrders(w, w1) && TurnFacts(p, w1, w')
    ensures TurnFacts(p, w, w')
  {
    assert forall i :: IsLowest(w, i) ==> IsLowest(w1, i);
    assert forall i :: 0 <= i < |w.slots| ==> w1.slots[i].order == w.slots[i].order;
  }

  lemma SweepsFacts(p: Params, w: Window, v: Window, w': Window)
    requires Ledger(p, w) && Aged(p, w) && Ledger(p, v) && Ledger(p, w')
    requires Swept(w, v, Full(w, SLOTS)) && Marked(p, w, v)
    requires Swept(v, w', Earlier(v, SLOTS)) && w'.lastSent == v.lastSent
    ensures TurnFacts(p, w, w')
  {
    assert v.nextOrder >= w.nextOrder && w'.nextOrder >= v.nextOrder;
    SweepsHanded(p, w, v, w');
    SweepsLowest(p, w, v, w');
    SweepsAged(p, w, v, w');
    if |w'.handed| == |w.handed| {
      forall i | 0 <= i < SLOTS ensures w'.slots[i].order == w.slots[i].order {
        assert !Full(w, SLOTS)(i) && !Earlier(v, SLOTS)(i);
      }
    }
  }

  /** No slot leaves twice in one pass. */
  lemma SweepsHanded(p: Params, w: Window, v: Window, w': Window)
    requires Ledger(p, w) && Ledger(p, v)
    requires Swept(w, v, Full(w, SLOTS)) && Marked(p, w, v) && Swept(v, w', Earlier(v, SLOTS))
    ensures forall j :: |w.handed| <= j < |w'.handed| ==> w'.handed[j].order < w.nextOrder
  {
    forall j | |w.handed| <= j < |w'.handed| ensures w'.handed[j].order < w.nextOrder {
      if j < |v.handed| {
        var i :| 0 <= i < |w.slots| && Full(w, SLOTS)(i) && v.handed[j] == w.slots[i];
        assert Listed(p, w, w.slots[i]);
      } else {
        var i :| 0 <= i < |v.slots| && Earlier(v, SLOTS)(i) && w'.handed[j] == v.slots[i];
        EarlierIsLess(p, w, v, i);
      }
    }
  }

  /** The second loop sends only after the mark has moved or the first loop has sent. */
  lemma SentForCause(p: Params, w: Window, v: Window, w': Window)
    requires Ledger(p, w) && Aged(p, w) && Ledger(p, v)
    requires Swept(w, v, Full(w, SLOTS)) && Marked(p, w, v) && Swept(v, w', Earlier(v, SLOTS))
    ensures |v.handed| == |w.handed| && v.lastSent == w.lastSent ==> |w'.handed| == |w.handed|
  {
    forall i | 0 <= i < SLOTS && |v.handed| == |w.handed| && v.lastSent == w.lastSent
      ensures !Earlier(v, SLOTS)(i)
    {
      EarlierIsLess(p, w, v, i);
      assert !Full(w, SLOTS)(i);
    }
  }

  lemma SweepsLowest(p: Params, w: Window, v: Window, w': Window)
    requires Ledger(p, w) && Aged(p, w) && Ledger(p, v) && Ledger(p, w')
    requires Swept(w, v, Full(w, SLOTS)) && Marked(p, w, v) && Swept(v, w', Earlier(v, SLOTS))
    ensures |w'.handed| > |w.handed| ==> forall i :: IsLowest(w, i) ==> InHanded(w', w.slots[i].order)
  {
    if |w'.handed| > |w.handed| {
      SentForCause(p, w, v, w');
      forall i | IsLowest(w, i) ensures InHanded(w', w.slots[i].order) {
        LowestLeaves(p, w, v, w', i);
      }
    }
  }

  lemma LowestLeaves(p: Params, w: Window, v: Window, w': Window, i: int)
    requires Ledger(p, w) && Ledger(p, v) && Ledger(p, w') && IsLowest(w, i)
    requires Swept(w, v, Full(w, SLOTS)) && Marked(p, w, v) && Swept(v, w', Earlier(v, SLOTS))
    requires |v.handed| > |w.handed| || v.lastSent != w.lastSent
    ensures InHanded(w', w.slots[i].order)
  {
    var o := w.slots[i].order;
    assert Listed(p, w, w.slots[i]);
    if InSlots(w', o) {
      var k :| 0 <= k < |w'.slots| && w'.slots[k].order == o;
      assert !Earlier(v, SLOTS)(k) && v.slots[k].order == o;
      assert !Full(w, SLOTS)(k) && w.slots[k].order == o && k == i;
      EarlierIsLess(p, w, v, k);
      assert false;
    }
  }

  lemma SweepsAged(p: Params, w: Window, v: Window, w': Window)
    requires Ledger(p, w) && Aged(p, w) && Ledger(p, v) && Ledger(p, w')
    requires Swept(w, v, Full(w, SLOTS)) && Marked(p, w, v)
    requires Swept(v, w', Earlier(v, SLOTS)) && w'.lastSent == v.lastSent
    requires |w'.handed| > |w.handed| ==> forall i :: IsLowest(w, i) ==> InHanded(w', w.slots[i].order)
    ensures Aged(p, w')
  {
    forall i | 0 <= i < |w'.slots| ensures w'.slots[i].packetNo >= w'.lastSent {
      NoneOlder(p, w, v, w', i);
    }
    SweepsFirst(p, w, v, w');
    if w'.lastSent == p.start {
      NothingEarlier(p, w, v, w');
    }
  }

  /** A slot kept by the second loop is not older than the last sent, and a reused one is newer than any that was. */
  lemma NoneOlder(p: Params, w: Window, v: Window, w': Window, i: nat)
    requires Ledger(p, w) && Aged(p, w) && Ledger(p, v) && Ledger(p, w') && i < |w'.slots|
    requires Swept(w, v, Full(w, SLOTS)) && Marked(p, w, v)
    requires Swept(v, w', Earlier(v, SLOTS)) && w'.lastSent == v.lastSent
    ensures w'.slots[i].packetNo >= w'.lastSent
  {
    EarlierIsLess(p, w, v, i);
    assert Listed(p, w', w'.slots[i]);
    if Earlier(v, SLOTS)(i) {
      assert Listed(p, v, v.slots[i]);
      assert v.slots[i].order < v.nextOrder <= w'.slots[i].order;
    }
  }

  /** Until something is handed over the slots are as at the start; then block 1 has been handed over. */
  lemma SweepsFirst(p: Params, w: Window, v: Window, w': Window)
    requires Ledger(p, w) && Aged(p, w) && Swept(w, v, Full(w, SLOTS)) && Swept(v, w', Earlier(v, SLOTS))
    requires |w'.handed| > |w.handed| ==> forall i :: IsLowest(w, i) ==> InHanded(w', w.slots[i].order)
    ensures w'.handed == [] ==> forall i :: 0 <= i < |w'.slots| ==> w'.slots[i].order == i + 1
    ensures w'.handed != [] ==> InHanded(w', 1)
  {
    if w'.handed == [] {
      forall i | 0 <= i < |w'.slots| ensures w'.slots[i].order == i + 1 {
        assert !Full(w, SLOTS)(i) && !Earlier(v, SLOTS)(i);
      }
    } else if w.handed == [] {
      assert IsLowest(w, 0) && w.slots[0].order == 1;
    } else {
      var j :| 0 <= j < |w.handed| && w.handed[j].order == 1;
      assert w'.handed[j].order == 1;
    }
  }

  lemma NothingEarlier(p: Params, w: Window, v: Window, w': Window)
    requires Ledger(p, v) && Marked(p, w, v) && Swept(v, w', Earlier(v, SLOTS)) && v.lastSent == p.start
    ensures |w'.handed| <= 1
  {
    forall i | 0 <= i < |v.slots| ensures !Earlier(v, SLOTS)(i) {
      EarlierIsLess(p, w, v, i);
      assert Listed(p, v, v.slots[i]);
    }
  }

  // Whole runs.

  lemma RunGrows(p: Params, w: Window, batch: seq<Packet>)
    requires Shape(p, w)
    ensures Turn(p, w, batch).nextOrder >= w.nextOrder
  {
    var w1 := PlaceFirst(p, w, batch, |batch|);
    PlaceKeepsOrders(p, w, batch, |batch|);
    SendFullGrows(p, w1, SLOTS);
    SendEarlierGrows(p, MarkHalf(SendFull(p, w1, SLOTS)), SLOTS);
  }

  lemma {:induction false} SendFullGrows(p: Params, w: Window, n: nat)
    requires Shape(p, w) && n <= SLOTS
    ensures SendFull(p, w, n).w.nextOrder >= w.nextOrder
  {
    if n > 0 {
      SendFullGrows(p, w, n - 1);
    }
  }

  /** The window after all but the last batch. */
  function Before(p: Params, batches: seq<seq<Packet>>): Window
    requires ValidParams(p) && batches != []
  {
    Run(p, batches[..|batches| - 1])
  }

  /**
   The ledger theorem.  After any batches whose blocks stay within the packet counter: orders
   1..nextOrder-1 split exactly into handed over once and held in one slot, packet numbers follow
   orders, and no slot is older than the last block sent.
   */
  lemma {:induction false} LedgerTheorem(p: Params, batches: seq<seq<Packet>>)
    requires ValidParams(p) && NoWrap(p, Run(p, batches))
    ensures Ledger(p, Run(p, batches)) && Aged(p, Run(p, batches))
  {
    if batches == [] {
      OpenLedger(p);
    } else {
      RunGrows(p, Before(p, batches), batches[|batches| - 1]);
      LedgerTheorem(p, batches[..|batches| - 1]);
      TurnStep(p, Before(p, batches), batches[|batches| - 1]);
    }
  }

  /** Every batch that hands over any block also hands over the lowest-order block of the window. */
  lemma OldestFirstTheorem(p: Params, batches: seq<seq<Packet>>)
    requires ValidParams(p) && batches != [] && NoWrap(p, Run(p, batches))
    ensures TurnFacts(p, Before(p, batches), Run(p, batches))
  {
    RunGrows(p, Before(p, batches), batches[|batches| - 1]);
    LedgerTheorem(p, batches[..|batches| - 1]);
    TurnStep(p, Before(p, batches), batches[|batches| - 1]);
  }

  /** In the first batch that hands over anything, at most six blocks go and block 1 is one of them. */
  lemma {:induction false} FirstHandOver(p: Params, batches: seq<seq<Packet>>)
    requires ValidParams(p) && NoWrap(p, Run(p, batches))
    ensures var h := Run(p, batches).handed;
            h != [] ==> exists j :: 0 <= j < |h| && j < SLOTS && h[j].order == 1
  {
    if batches != [] {
      var w, w' := Before(p, batches), Run(p, batches);
      RunGrows(p, w, batches[|batches| - 1]);
      OldestFirstTheorem(p, batches);
      if w.handed == [] {
        LedgerTheorem(p, batches[..|batches| - 1]);
        if w'.handed != [] {
          AtMostSix(p, w, w');
        }
      } else {
        FirstHandOver(p, batches[..|batches| - 1]);
        var j :| 0 <= j < |w.handed| && j < SLOTS && w.handed[j].order == 1;
        assert w'.handed[j].order == 1;
      }
    }
  }

  /** One pass hands over at most one block per slot. */
  lemma AtMostSix(p: Params, w: Window, w': Window)
    requires Ledger(p, w) && TurnFacts(p, w, w')
    ensures |w'.handed| - |w.handed| <= SLOTS
  {
    var sent := w'.handed[|w.handed|..];
    assert DistinctOrders(sent) by {
      forall i, j | 0 <= i < |sent| && 0 <= j < |sent| && sent[i].order == sent[j].order ensures i == j {
        assert w'.handed[|w.handed| + i] == sent[i] && w'.handed[|w.handed| + j] == sent[j];
      }
    }
    ImageSize(sent, |sent|);
    ImageSize(w.slots, |w.slots|);
    var gone := set k | 0 <= k < |sent| :: sent[k].order;
    var were := set k | 0 <= k < |w.slots| :: w.slots[k].order;
    forall o | o in gone ensures o in were {
      var k :| 0 <= k < |sent| && o == sent[k].order;
      FreshWasHeld(p, w, w', |w.handed| + k);
    }
    Pieces.SubsetSize(gone, were);
  }

  lemma FreshWasHeld(p: Params, w: Window, w': Window, j: nat)
    requires Ledger(p, w) && TurnFacts(p, w, w') && |w.handed| <= j < |w'.handed|
    ensures InSlots(w, w'.handed[j].order)
  {
    var o := w'.handed[j].order;
    assert Listed(p, w', w'.handed[j]);
    assert InSlots(w, o) || InHanded(w, o);
    forall i | 0 <= i < |w.handed| ensures w.handed[i].order != o {
      assert w'.handed[i] == w.handed[i];
    }
  }
}
