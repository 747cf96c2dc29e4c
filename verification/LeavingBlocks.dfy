/**
 Which blocks leave the window with a batch (full_custom/processing_thread.c:149-193), told from the window as
 the batch's packets have left it: the full ones, and incomplete ones older than one threshold.
 */
module LeavingBlocks {
  import opened DataFormats
  import opened Window
  import opened WindowLedger
  import opened OldestFirst
  import StartedSlots

  predicate IsFull(s: Slot) {
    s.nToFull == 0
  }

  /** It has got packets, and is not full. */
  predicate IsPart(p: Params, s: Slot) {
    s.nToFull != 0 && s.nToFull < PacketsPerBlock(p)
  }

  ghost function FullOnes(w: Window, n: nat): set<nat>
    requires n <= |w.slots|
  {
    set i: nat | i < n && IsFull(w.slots[i])
  }

  ghost function PartOnes(p: Params, w: Window, n: nat): set<nat>
    requires n <= |w.slots|
  {
    set i: nat | i < n && IsPart(p, w.slots[i])
  }

  /** The last full slot in array order. */
  ghost predicate IsLastFull(w: Window, k: nat) {
    k < |w.slots| && IsFull(w.slots[k]) && forall i :: k < i < |w.slots| ==> !IsFull(w.slots[i])
  }

  /**
   An incomplete block is given up: when more than four are started, if it is not among the three newest of the
   window that replacing the full ones makes; otherwise, if it is older than the last full one in array order.
   */
  ghost predicate GivenUp(p: Params, w: Window, i: nat)
    requires |w.slots| == SLOTS && i < SLOTS
  {
    if |PartOnes(p, w, SLOTS)| > SLOTS - 2 then w.slots[i].order < w.nextOrder + |FullOnes(w, SLOTS)| - SLOTS / 2
    else exists k: nat :: IsLastFull(w, k) && w.slots[i].packetNo < w.slots[k].packetNo
  }

  // The first loop's counts.

  lemma FullNext(w: Window, n: nat)
    requires n < |w.slots|
    ensures |FullOnes(w, n + 1)| == |FullOnes(w, n)| + if IsFull(w.slots[n]) then 1 else 0
  {
    assert FullOnes(w, n + 1) == FullOnes(w, n) + if IsFull(w.slots[n]) then {n} else {};
  }

  lemma PartNext(p: Params, w: Window, n: nat)
    requires n < |w.slots|
    ensures |PartOnes(p, w, n + 1)| == |PartOnes(p, w, n)| + if IsPart(p, w.slots[n]) then 1 else 0
  {
    assert PartOnes(p, w, n + 1) == PartOnes(p, w, n) + if IsPart(p, w.slots[n]) then {n} else {};
  }

  /** After n rounds of the first loop on w. */
  ghost predicate Counted(p: Params, w: Window, n: nat, r: Sweep)
    requires |w.slots| == SLOTS && n <= SLOTS
  {
    && |r.w.slots| == SLOTS && (forall i :: n <= i < SLOTS ==> r.w.slots[i] == w.slots[i])
    && r.nStarted == |PartOnes(p, w, n)|
    && r.w.nextOrder == w.nextOrder + |FullOnes(w, n)|
  }

  lemma {:induction false} Counts(p: Params, w: Window, n: nat, r: Sweep)
    requires Shape(p, w) && n <= SLOTS && r == SendFull(p, w, n)
    ensures Counted(p, w, n, r)
  {
    if n > 0 {
      var before := SendFull(p, w, n - 1);
      Counts(p, w, n - 1, before);
      CountsOne(p, w, before, r, n - 1);
    } else {
      assert FullOnes(w, 0) == {} && PartOnes(p, w, 0) == {};
    }
  }

  lemma CountsOne(p: Params, w: Window, r: Sweep, r': Sweep, k: nat)
    requires Shape(p, w) && Shape(p, r.w) && k < SLOTS && Counted(p, w, k, r) && r' == SendFullAt(p, r, k)
    ensures Counted(p, w, k + 1, r')
  {
    FullNext(w, k);
    PartNext(p, w, k);
  }

  // Where the mark is.

  /** The threshold for incomplete blocks that the first loop and the half rule leave. */
  ghost predicate Threshold(p: Params, w: Window, v: Window) {
    && |w.slots| == SLOTS
    && if |PartOnes(p, w, SLOTS)| > SLOTS - 2 then
         v.lastSent == PacketNoOf(p, w.nextOrder + |FullOnes(w, SLOTS)| - SLOTS / 2)
       else if FullOnes(w, SLOTS) == {} then v.lastSent == w.lastSent
       else exists k: nat :: IsLastFull(w, k) && v.lastSent == w.slots[k].packetNo
  }

  lemma MarkIs(p: Params, w: Window, r: Sweep, v: Window)
    requires Ledger(p, w) && Aged(p, w) && r == SendFull(p, w, SLOTS) && v == MarkHalf(r) && NoWrap(p, r.w)
    ensures Threshold(p, w, v)
  {
    Counts(p, w, SLOTS, r);
    SendFullEffect(p, w, SLOTS);
    if r.nStarted > SLOTS - 2 {
      StartedSlots.HalfMarkIs(p, v, r);
    } else if FullOnes(w, SLOTS) == {} {
      NoneFull(w, r);
    } else {
      SomeFull(w, r);
    }
  }

  lemma NoneFull(w: Window, r: Sweep)
    requires |w.slots| == SLOTS && FullOnes(w, SLOTS) == {} && Swept(w, r.w, Full(w, SLOTS))
    ensures |r.w.handed| == |w.handed|
  {
    forall i | 0 <= i < |w.slots| ensures !Full(w, SLOTS)(i) {
      assert i !in FullOnes(w, SLOTS);
    }
  }

  lemma SomeFull(w: Window, r: Sweep)
    requires |w.slots| == SLOTS && FullOnes(w, SLOTS) != {} && Swept(w, r.w, Full(w, SLOTS))
    requires |r.w.handed| > |w.handed| ==> exists k :: LastFull(w, SLOTS, k) && r.w.lastSent == w.slots[k].packetNo
    ensures exists k: nat :: IsLastFull(w, k) && r.w.lastSent == w.slots[k].packetNo
  {
    var i :| i in FullOnes(w, SLOTS);
    assert Full(w, SLOTS)(i);
    var k :| LastFull(w, SLOTS, k) && r.w.lastSent == w.slots[k].packetNo;
    forall j | k < j < |w.slots| ensures !IsFull(w.slots[j]) {
      assert !Full(w, SLOTS)(j);
    }
    assert IsLastFull(w, k);
  }

  /** The threshold in terms of the slot itself. */
  lemma BelowThreshold(p: Params, w: Window, v: Window, i: nat)
    requires Ledger(p, w) && Aged(p, w) && Threshold(p, w, v) && i < SLOTS
    ensures w.slots[i].packetNo < v.lastSent <==> GivenUp(p, w, i)
  {
    assert Listed(p, w, w.slots[i]);
    if |PartOnes(p, w, SLOTS)| <= SLOTS - 2 {
      if FullOnes(w, SLOTS) == {} {
        forall k: nat ensures !IsLastFull(w, k) {
          assert k !in FullOnes(w, SLOTS);
        }
      } else {
        var k: nat :| IsLastFull(w, k) && v.lastSent == w.slots[k].packetNo;
        LastFullUnique(w, k);
      }
    }
  }

  lemma LastFullUnique(w: Window, k: nat)
    requires IsLastFull(w, k)
    ensures forall j: nat :: IsLastFull(w, j) ==> j == k
  {
  }

  // Who is gone after both loops.

  /** A slot that was not touched has not been handed over; one that was reused has. */
  lemma GoneIff(p: Params, w: Window, w': Window, i: nat, gone: bool)
    requires Ledger(p, w) && Ledger(p, w') && i < SLOTS
    requires forall j :: 0 <= j < SLOTS ==> w'.slots[j].order >= w.nextOrder || w'.slots[j] == w.slots[j]
    requires if gone then w'.slots[i].order >= w.nextOrder else w'.slots[i] == w.slots[i]
    requires w'.nextOrder >= w.nextOrder
    ensures InHanded(w', w.slots[i].order) <==> gone
  {
    var o := w.slots[i].order;
    assert Listed(p, w, w.slots[i]);
    if gone {
      forall j | 0 <= j < SLOTS ensures w'.slots[j].order != o {
        assert w.slots[j].order == o ==> j == i;
      }
      assert InSlots(w', o) || InHanded(w', o);
    }
  }

  /** Both loops: which slots are reused. */
  ghost predicate Reused(p: Params, w: Window, v: Window, w': Window, i: nat)
    requires |w.slots| == |v.slots| == |w'.slots| == SLOTS && i < SLOTS
  {
    if IsFull(w.slots[i]) || IsEarlier(w.slots[i].packetNo, v.lastSent) then w'.slots[i].order >= w.nextOrder
    else w'.slots[i] == w.slots[i]
  }

  lemma ReusedBy(p: Params, w: Window, v: Window, w': Window, i: nat)
    requires Ledger(p, w) && Ledger(p, v) && Ledger(p, w') && i < SLOTS && v.nextOrder >= w.nextOrder
    requires Swept(w, v, Full(w, SLOTS)) && Swept(v, w', Earlier(v, SLOTS))
    ensures Reused(p, w, v, w', i)
  {
    assert Full(w, SLOTS)(i) <==> IsFull(w.slots[i]);
    assert Earlier(v, SLOTS)(i) <==> IsEarlier(v.slots[i].packetNo, v.lastSent);
  }

  lemma BothLoops(p: Params, w: Window, v: Window, w': Window)
    requires Ledger(p, w) && Aged(p, w) && v == MarkHalf(SendFull(p, w, SLOTS))
    requires w' == SendEarlier(p, v, SLOTS) && NoWrap(p, w')
    ensures Ledger(p, v) && Marked(p, w, v) && Threshold(p, w, v) && Ledger(p, w') && w'.nextOrder >= w.nextOrder
    ensures forall j :: 0 <= j < SLOTS ==> Reused(p, w, v, w', j)
    ensures Swept(w, v, Full(w, SLOTS))
  {
    var r := SendFull(p, w, SLOTS);
    SendEarlierGrows(p, v, SLOTS);
    HalfMark(p, w);
    SendFullEffect(p, w, SLOTS);
    SendEarlierEffect(p, v, SLOTS);
    MarkIs(p, w, r, v);
    forall j | 0 <= j < SLOTS ensures Reused(p, w, v, w', j) {
      ReusedBy(p, w, v, w', j);
    }
  }

  /** For the window after placing. */
  lemma SendLeavesIff(p: Params, w: Window, v: Window, w': Window, i: nat)
    requires Ledger(p, w) && Aged(p, w) && i < SLOTS && v == MarkHalf(SendFull(p, w, SLOTS))
    requires w' == SendEarlier(p, v, SLOTS) && NoWrap(p, w')
    ensures InHanded(w', w.slots[i].order) <==> IsFull(w.slots[i]) || GivenUp(p, w, i)
  {
    BothLoops(p, w, v, w');
    OneLeavesIff(p, w, v, w', i);
  }

  lemma OneLeavesIff(p: Params, w: Window, v: Window, w': Window, i: nat)
    requires Ledger(p, w) && Aged(p, w) && Ledger(p, v) && Marked(p, w, v) && Threshold(p, w, v)
    requires Swept(w, v, Full(w, SLOTS)) && Ledger(p, w') && w'.nextOrder >= w.nextOrder && i < SLOTS
    requires forall j :: 0 <= j < SLOTS ==> Reused(p, w, v, w', j)
    ensures InHanded(w', w.slots[i].order) <==> IsFull(w.slots[i]) || GivenUp(p, w, i)
  {
    if !IsFull(w.slots[i]) {
      assert v.slots[i] == w.slots[i] by { assert !Full(w, SLOTS)(i); }
      EarlierIsLess(p, w, v, i);
      BelowThreshold(p, w, v, i);
    }
    forall j | 0 <= j < SLOTS ensures w'.slots[j].order >= w.nextOrder || w'.slots[j] == w.slots[j] {
      assert Reused(p, w, v, w', j);
    }
    assert Reused(p, w, v, w', i);
    GoneIff(p, w, w', i, IsFull(w.slots[i]) || IsEarlier(w.slots[i].packetNo, v.lastSent));
  }

  /** The window after the packets of the run's last batch have been placed. */
  function AfterPlacing(p: Params, batches: seq<seq<Packet>>): Window
    requires ValidParams(p) && batches != []
  {
    var batch := batches[|batches| - 1];
    PlaceFirst(p, Before(p, batches), batch, |batch|)
  }

  /**
   With every batch that has packets, of the blocks then in the window exactly the full ones and those given up
   are handed over.
   */
  lemma LeavesIff(p: Params, batches: seq<seq<Packet>>, i: nat)
    requires ValidParams(p) && batches != [] && batches[|batches| - 1] != [] && NoWrap(p, Run(p, batches)) && i < SLOTS
    ensures var w := AfterPlacing(p, batches);
            |w.slots| == SLOTS &&
            (InHanded(Run(p, batches), w.slots[i].order) <==> IsFull(w.slots[i]) || GivenUp(p, w, i))
  {
    var init, batch := batches[..|batches| - 1], batches[|batches| - 1];
    var w0 := Before(p, batches);
    var w := AfterPlacing(p, batches);
    RunGrows(p, w0, batch);
    LedgerTheorem(p, init);
    PlaceKeepsOrders(p, w0, batch, |batch|);
    SameOrdersLedger(p, w0, w);
    SendLeavesIff(p, w, MarkHalf(SendFull(p, w, SLOTS)), Run(p, batches), i);
  }

  /** And nothing but blocks of that window is handed over with the batch. */
  lemma OnlyHeldLeave(p: Params, batches: seq<seq<Packet>>, j: nat)
    requires ValidParams(p) && batches != [] && NoWrap(p, Run(p, batches))
    requires |Before(p, batches).handed| <= j < |Run(p, batches).handed|
    ensures InSlots(AfterPlacing(p, batches), Run(p, batches).handed[j].order)
  {
    var init, batch := batches[..|batches| - 1], batches[|batches| - 1];
    var w0 := Before(p, batches);
    RunGrows(p, w0, batch);
    LedgerTheorem(p, init);
    OldestFirstTheorem(p, batches);
    FreshWasHeld(p, w0, Run(p, batches), j);
    PlaceKeepsOrders(p, w0, batch, |batch|);
    var i :| 0 <= i < |w0.slots| && w0.slots[i].order == Run(p, batches).handed[j].order;
    assert AfterPlacing(p, batches).slots[i].order == w0.slots[i].order;
  }

  /** A batch without packets leaves the window alone. */
  lemma EmptyBatch(p: Params, batches: seq<seq<Packet>>)
    requires ValidParams(p) && batches != [] && batches[|batches| - 1] == []
    ensures Run(p, batches) == Before(p, batches)
  {
  }
}
