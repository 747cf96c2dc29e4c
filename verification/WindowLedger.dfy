/**
 What every pass of the worker keeps: the ledger of block orders, and the age of the window.
 */
module WindowLedger {
  import opened DataFormats
  import opened Window

  /** No block so far has a packet number beyond the 38-bit counter. */
  ghost predicate NoWrap(p: Params, w: Window) {
    p.start + (w.nextOrder - 2) * TIME_INT_PER_BUFFER < PCKT_MODULUS
  }

  ghost predicate InSlots(w: Window, order: int) {
    exists i :: 0 <= i < |w.slots| && w.slots[i].order == order
  }

  ghost predicate InHanded(w: Window, order: int) {
    exists j :: 0 <= j < |w.handed| && w.handed[j].order == order
  }

  function PacketNoOf(p: Params, order: int): int {
    p.start + (order - 1) * TIME_INT_PER_BUFFER
  }

  ghost predicate Listed(p: Params, w: Window, s: Slot) {
    1 <= s.order < w.nextOrder && s.packetNo == PacketNoOf(p, s.order)
  }

  ghost predicate DistinctOrders(ss: seq<Slot>) {
    forall i, j :: 0 <= i < |ss| && 0 <= j < |ss| && ss[i].order == ss[j].order ==> i == j
  }

  /** Orders 1..nextOrder-1 are each in one slot or handed over once, and follow packet numbers one to one. */
  ghost predicate Ledger(p: Params, w: Window) {
    && Shape(p, w)
    && w.nextOrder == SLOTS + 1 + |w.handed|
    && w.nextPkt == PacketNoOf(p, w.nextOrder) % PCKT_MODULUS
    && (forall i :: 0 <= i < |w.slots| ==> Listed(p, w, w.slots[i]))
    && (forall j :: 0 <= j < |w.handed| ==> Listed(p, w, w.handed[j]))
    && DistinctOrders(w.slots) && DistinctOrders(w.handed)
    && (forall i, j :: 0 <= i < |w.slots| && 0 <= j < |w.handed| ==> w.slots[i].order != w.handed[j].order)
    && (forall o :: 1 <= o < w.nextOrder ==> InSlots(w, o) || InHanded(w, o))
  }

  /** The part about orders alone, which needs no bound on packet numbers. */
  ghost predicate Split(w: Window) {
    && |w.slots| == SLOTS && w.nextOrder == SLOTS + 1 + |w.handed|
    && (forall i :: 0 <= i < |w.slots| ==> 1 <= w.slots[i].order < w.nextOrder)
    && (forall j :: 0 <= j < |w.handed| ==> 1 <= w.handed[j].order < w.nextOrder)
    && DistinctOrders(w.slots) && DistinctOrders(w.handed)
    && (forall i, j :: 0 <= i < |w.slots| && 0 <= j < |w.handed| ==> w.slots[i].order != w.handed[j].order)
    && (forall o :: 1 <= o < w.nextOrder ==> InSlots(w, o) || InHanded(w, o))
  }

  lemma LedgerSplits(p: Params, w: Window)
    requires Ledger(p, w)
    ensures Split(w)
  {
    assert forall i :: 0 <= i < |w.slots| ==> Listed(p, w, w.slots[i]);
    assert forall j :: 0 <= j < |w.handed| ==> Listed(p, w, w.handed[j]);
  }

  /** After a pass no slot is older than the last block sent. */
  ghost predicate Aged(p: Params, w: Window) {
    && p.start <= w.lastSent < PCKT_MODULUS && (w.lastSent - p.start) % TIME_INT_PER_BUFFER == 0
    && (forall i :: 0 <= i < |w.slots| ==> w.slots[i].packetNo >= w.lastSent)
    && (w.handed == [] ==> forall i :: 0 <= i < |w.slots| ==> w.slots[i].order == i + 1)
    && (w.handed != [] ==> InHanded(w, 1))
    && (w.lastSent == p.start ==> |w.handed| <= 1)
  }

  lemma OpenSlots(p: Params, w: Window)
    requires ValidParams(p) && w == Open(p)
    ensures |w.slots| == SLOTS && w.handed == [] && w.nextOrder == SLOTS + 1 && w.lastSent == p.start
    ensures w.nextPkt == PacketNoOf(p, w.nextOrder) % PCKT_MODULUS
    ensures forall i :: 0 <= i < SLOTS ==> w.slots[i].order == i + 1 && w.slots[i].packetNo == PacketNoOf(p, i + 1)
  {
  }

  lemma OpenLedger(p: Params)
    requires ValidParams(p)
    ensures Ledger(p, Open(p)) && Aged(p, Open(p))
  {
    OpenSlots(p, Open(p));
    OpensLedger(p, Open(p));
  }

  lemma OpensLedger(p: Params, w: Window)
    requires Shape(p, w) && w.handed == [] && w.nextOrder == SLOTS + 1 && w.lastSent == p.start
    requires w.nextPkt == PacketNoOf(p, w.nextOrder) % PCKT_MODULUS
    requires forall i :: 0 <= i < SLOTS ==> w.slots[i].order == i + 1 && w.slots[i].packetNo == PacketNoOf(p, i + 1)
    ensures Ledger(p, w) && Aged(p, w)
  {
    forall o | 1 <= o < w.nextOrder ensures InSlots(w, o) {
      assert w.slots[o - 1].order == o;
    }
  }

  // Placing packets touches neither orders nor packet numbers.

  ghost predicate SameOrders(w: Window, w': Window) {
    && |w'.slots| == |w.slots|
    && (forall i :: 0 <= i < |w.slots| ==>
          w'.slots[i].order == w.slots[i].order && w'.slots[i].packetNo == w.slots[i].packetNo)
    && w' == w.(slots := w'.slots)
  }

  lemma {:induction false} PlaceKeepsOrders(p: Params, w: Window, batch: seq<Packet>, n: nat)
    requires Shape(p, w) && n <= |batch|
    ensures SameOrders(w, PlaceFirst(p, w, batch, n))
  {
    if n > 0 {
      PlaceKeepsOrders(p, w, batch, n - 1);
    }
  }

  lemma SameOrdersLedger(p: Params, w: Window, w': Window)
    requires Ledger(p, w) && Shape(p, w') && SameOrders(w, w')
    ensures Ledger(p, w')
    ensures Aged(p, w) ==> Aged(p, w')
  {
    forall o | 1 <= o < w'.nextOrder ensures InSlots(w', o) || InHanded(w', o) {
      if InSlots(w, o) {
        var i :| 0 <= i < |w.slots| && w.slots[i].order == o;
        assert w'.slots[i].order == o;
      }
    }
  }

  // Handing over.

  lemma RecycleLedger(p: Params, w: Window, k: nat)
    requires Ledger(p, w) && k < SLOTS && NoWrap(p, Recycle(p, w, k))
    ensures Ledger(p, Recycle(p, w, k))
  {
    var w' := Recycle(p, w, k);
    assert PacketNoOf(p, w.nextOrder) < PCKT_MODULUS;
    assert w.nextPkt == PacketNoOf(p, w.nextOrder);
    assert w'.nextPkt == PacketNoOf(p, w'.nextOrder) % PCKT_MODULUS;
    forall i | 0 <= i < |w'.slots| ensures Listed(p, w', w'.slots[i]) {
      if i != k { assert Listed(p, w, w.slots[i]); }
    }
    forall j | 0 <= j < |w'.handed| ensures Listed(p, w', w'.handed[j]) {
      if j < |w.handed| { assert Listed(p, w, w.handed[j]); } else { assert Listed(p, w, w.slots[k]); }
    }
    LedgerSplits(p, w);
    RecycleDistinct(p, w, k);
    RecycleKnown(p, w, k);
  }

  lemma RecycleDistinct(p: Params, w: Window, k: nat)
    requires Shape(p, w) && Split(w) && k < SLOTS
    ensures var w' := Recycle(p, w, k);
            && DistinctOrders(w'.slots) && DistinctOrders(w'.handed)
            && (forall i, j :: 0 <= i < |w'.slots| && 0 <= j < |w'.handed| ==>
                  w'.slots[i].order != w'.handed[j].order)
  {
    var w' := Recycle(p, w, k);
    assert forall j :: 0 <= j < |w'.handed| ==>
      w'.handed[j] == if j < |w.handed| then w.handed[j] else w.slots[k];
  }

  lemma RecycleKnown(p: Params, w: Window, k: nat)
    requires Shape(p, w) && Split(w) && k < SLOTS
    ensures var w' := Recycle(p, w, k);
            forall o :: 1 <= o < w'.nextOrder ==> InSlots(w', o) || InHanded(w', o)
  {
    var w' := Recycle(p, w, k);
    forall o | 1 <= o < w'.nextOrder ensures InSlots(w', o) || InHanded(w', o) {
      if o == w.nextOrder {
        assert w'.slots[k].order == o;
      } else if InSlots(w, o) {
        var i :| 0 <= i < |w.slots| && w.slots[i].order == o;
        if i == k {
          assert w'.handed[|w.handed|].order == o;
        } else {
          assert w'.slots[i].order == o;
        }
      } else {
        assert InHanded(w, o);
        var j :| 0 <= j < |w.handed| && w.handed[j].order == o;
        assert w'.handed[j].order == o;
      }
    }
  }

  /** Slots for which `go` holds have been handed over and reused; the rest are as they were. */
  ghost predicate Swept(w: Window, w': Window, go: int -> bool) {
    && |w'.slots| == |w.slots|
    && w.handed <= w'.handed
    && (forall i :: 0 <= i < |w.slots| ==>
          if go(i) then w'.slots[i].order >= w.nextOrder else w'.slots[i] == w.slots[i])
    && (forall j :: |w.handed| <= j < |w'.handed| ==>
          exists i :: 0 <= i < |w.slots| && go(i) && w'.handed[j] == w.slots[i])
    && ((exists i :: 0 <= i < |w.slots| && go(i)) <==> |w'.handed| > |w.handed|)
  }

  function Full(w: Window, n: nat): int -> bool {
    i => 0 <= i < n && i < |w.slots| && w.slots[i].nToFull == 0
  }

  function Earlier(w: Window, n: nat): int -> bool {
    i => 0 <= i < n && i < |w.slots| && IsEarlier(w.slots[i].packetNo, w.lastSent)
  }

  lemma SweptMore(p: Params, w: Window, v: Window, k: nat, go: int -> bool, go': int -> bool)
    requires |w.slots| == SLOTS && Shape(p, v) && v.nextOrder >= w.nextOrder && Swept(w, v, go) && k < SLOTS && !go(k)
    requires forall i :: go'(i) <==> go(i) || i == k
    ensures Swept(w, Recycle(p, v, k), go')
  {
    var v' := Recycle(p, v, k);
    forall j | |w.handed| <= j < |v'.handed|
      ensures exists i :: 0 <= i < |w.slots| && go'(i) && v'.handed[j] == w.slots[i]
    {
      if j < |v.handed| {
        var i :| 0 <= i < |w.slots| && go(i) && v.handed[j] == w.slots[i];
        assert go'(i);
      } else {
        assert go'(k) && v'.handed[j] == w.slots[k];
      }
    }
    assert go'(k);
  }

  lemma SendOneFull(p: Params, w: Window, v: Window, k: nat)
    requires Ledger(p, v) && |w.slots| == SLOTS && k < SLOTS && v.nextOrder >= w.nextOrder
    requires Swept(w, v, Full(w, k)) && w.slots[k].nToFull == 0
    requires NoWrap(p, Recycle(p, v, k))
    ensures var w' := Recycle(p, v.(lastSent := v.slots[k].packetNo), k);
            Ledger(p, w') && Swept(w, w', Full(w, k + 1))
  {
    var v1 := v.(lastSent := v.slots[k].packetNo);
    SameOrdersNoAge(p, v, v1);
    RecycleLedger(p, v1, k);
    SweptMore(p, w, v1, k, Full(w, k), Full(w, k + 1));
  }

  /** The last full slot among the first n. */
  ghost predicate LastFull(w: Window, n: nat, k: int) {
    0 <= k < n && Full(w, n)(k) && forall i :: k < i < n ==> !Full(w, n)(i)
  }

  /** First loop. */
  lemma {:induction false} SendFullEffect(p: Params, w: Window, n: nat)
    requires Ledger(p, w) && n <= SLOTS && NoWrap(p, SendFull(p, w, n).w)
    ensures var r := SendFull(p, w, n);
            && Ledger(p, r.w) && Swept(w, r.w, Full(w, n)) && r.w.nextOrder >= w.nextOrder
            && |r.w.handed| - |w.handed| + r.nStarted <= n
            && (|r.w.handed| == |w.handed| ==> r.w.lastSent == w.lastSent)
            && (|r.w.handed| > |w.handed| ==>
                  exists k :: LastFull(w, n, k) && r.w.lastSent == w.slots[k].packetNo)
  {
    if n == 0 {
      NothingSwept(w, Full(w, 0));
    } else {
      var Sweep(v, c) := SendFull(p, w, n - 1);
      var k := n - 1;
      SendFullEffect(p, w, k);
      assert !Full(w, k)(k);
      assert v.slots[k] == w.slots[k];
      if v.slots[k].nToFull == 0 {
        SendOneFull(p, w, v, k);
        assert LastFull(w, n, k);
      } else {
        assert forall i :: Full(w, n)(i) <==> Full(w, k)(i);
        SweptSame(w, v, Full(w, k), Full(w, n));
        assert forall j :: LastFull(w, k, j) ==> LastFull(w, n, j);
      }
    }
  }

  lemma SweptSame(w: Window, v: Window, go: int -> bool, go': int -> bool)
    requires Swept(w, v, go) && forall i :: go'(i) <==> go(i)
    ensures Swept(w, v, go')
  {
    forall j | |w.handed| <= j < |v.handed|
      ensures exists i :: 0 <= i < |w.slots| && go'(i) && v.handed[j] == w.slots[i]
    {
      var i :| 0 <= i < |w.slots| && go(i) && v.handed[j] == w.slots[i];
      assert go'(i);
    }
  }

  lemma SameOrdersNoAge(p: Params, w: Window, w': Window)
    requires Ledger(p, w) && w' == w.(lastSent := w'.lastSent, noMissing := w'.noMissing)
    ensures Ledger(p, w')
  {
    forall o | 1 <= o < w'.nextOrder ensures InSlots(w', o) || InHanded(w', o) {
      assert InSlots(w, o) == InSlots(w', o) && InHanded(w, o) == InHanded(w', o);
    }
  }

  lemma NothingSwept(w: Window, go: int -> bool)
    requires forall i :: !go(i)
    ensures Swept(w, w, go)
  {
  }

  lemma SendEarlierNext(p: Params, w: Window, v: Window, k: nat)
    requires Ledger(p, v) && |w.slots| == SLOTS && k < SLOTS && v.lastSent == w.lastSent && v.nextOrder >= w.nextOrder
    requires Swept(w, v, Earlier(w, k)) && NoWrap(p, SendEarlierAt(p, v, k))
    ensures var w' := SendEarlierAt(p, v, k);
            Ledger(p, w') && Swept(w, w', Earlier(w, k + 1)) && w'.lastSent == w.lastSent &&
              w'.nextOrder >= w.nextOrder
  {
    assert !Earlier(w, k)(k);
    if IsEarlier(v.slots[k].packetNo, v.lastSent) {
      var v1 := v.(noMissing := v.noMissing + v.slots[k].nToFull);
      SameOrdersNoAge(p, v, v1);
      RecycleLedger(p, v1, k);
      SweptMore(p, w, v1, k, Earlier(w, k), Earlier(w, k + 1));
    } else {
      SweptSame(w, v, Earlier(w, k), Earlier(w, k + 1));
    }
  }

  /** Second loop. */
  lemma {:induction false} SendEarlierEffect(p: Params, w: Window, n: nat)
    requires Ledger(p, w) && n <= SLOTS && NoWrap(p, SendEarlier(p, w, n))
    ensures var w' := SendEarlier(p, w, n);
            Ledger(p, w') && Swept(w, w', Earlier(w, n)) && w'.lastSent == w.lastSent && w'.nextOrder >= w.nextOrder
  {
    if n == 0 {
      NothingSwept(w, Earlier(w, 0));
    } else {
      var v := SendEarlier(p, w, n - 1);
      assert SendEarlier(p, w, n) == SendEarlierAt(p, v, n - 1);
      SendEarlierEffect(p, w, n - 1);
      SendEarlierNext(p, w, v, n - 1);
    }
  }

  // The test for older data, past the wrap of the 38-bit counter.

  /** Older in the circular order of packet numbers: at most half the range behind. */
  predicate CircularlyEarlier(a: nat, b: nat) {
    0 < (b - a) % PCKT_MODULUS <= PCKT_MODULUS / 2
  }

  /**
   Between block numbers the test agrees with the circular order exactly when the last block sent is number 0 or
   the two lie within half the range without a wrap between them.
   */
  lemma EarlierTestIff(a: nat, b: nat)
    requires a < PCKT_MODULUS && b < PCKT_MODULUS && a % TIME_INT_PER_BUFFER == 0 && b % TIME_INT_PER_BUFFER == 0
    ensures (IsEarlier(a, b) <==> CircularlyEarlier(a, b)) <==>
            b == 0 || -(PCKT_MODULUS / 2) < b - a <= PCKT_MODULUS / 2
  {
    CircularDistance(a, b);
    assert b == 0 || b >= TIME_INT_PER_BUFFER;
    assert a <= PCKT_MODULUS - TIME_INT_PER_BUFFER;
  }

  lemma CircularDistance(a: nat, b: nat)
    requires a < PCKT_MODULUS && b < PCKT_MODULUS
    ensures (b - a) % PCKT_MODULUS == if b >= a then b - a else b - a + PCKT_MODULUS
  {
  }
}
