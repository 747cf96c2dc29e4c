/**
 How far blocks can leave out of order.  Because every handing-over pass takes the oldest block,
 a block waits through at most five such passes before the one that takes it, and at
 most fifteen later blocks ever leave before it.
 */
module Overtaking {
  import opened DataFormats
  import opened Window
  import opened WindowLedger
  import opened OldestFirst
  import Pieces

  ghost function Held(w: Window): set<nat> {
    set i | 0 <= i < |w.slots| :: w.slots[i].order
  }

  ghost function Lower(w: Window, m: int): set<nat> {
    set o | o in Held(w) && o < m
  }

  ghost function Higher(w: Window, m: int): set<nat> {
    set o | o in Held(w) && o > m
  }

  /** The later blocks among those handed over. */
  ghost function Overtakers(h: seq<Slot>, m: int): set<nat> {
    set j | 0 <= j < |h| && h[j].order > m :: h[j].order
  }

  /** What a block with r older ones in the window can have suffered so far: 0 + 1 + ... + (4 - r). */
  function Bound(r: int): int {
    if r <= 0 then 10 else if r == 1 then 6 else if r == 2 then 3 else if r == 3 then 1 else 0
  }

  lemma WindowSize(p: Params, w: Window, m: nat)
    requires Ledger(p, w) && InSlots(w, m)
    ensures |Lower(w, m)| + |Higher(w, m)| == SLOTS - 1
  {
    ImageSize(w.slots, |w.slots|);
    assert |Held(w)| == SLOTS;
    assert m in Held(w);
    assert Held(w) == Lower(w, m) + {m} + Higher(w, m);
  }

  ghost predicate Bounded(w: Window) {
    && (forall m :: m in Held(w) ==> |Overtakers(w.handed, m)| <= Bound(|Lower(w, m)|))
    && (forall k :: 0 <= k < |w.handed| ==> |Overtakers(w.handed[..k], w.handed[k].order)| <= 15)
  }

  /** A block held before and after a pass. */
  lemma StillHeld(p: Params, w: Window, w': Window, m: nat)
    requires Ledger(p, w) && TurnFacts(p, w, w') && m in Held(w') && m < w.nextOrder
    ensures m in Held(w)
    ensures |w'.handed| > |w.handed| ==> |Lower(w', m)| < |Lower(w, m)|
    ensures |w'.handed| == |w.handed| ==> Lower(w', m) == Lower(w, m)
  {
    OldStays(p, w, w', m);
    if |w'.handed| == |w.handed| {
      assert Held(w') == Held(w);
    } else {
      LowestBelow(p, w, w', m);
    }
  }

  lemma LowestBelow(p: Params, w: Window, w': Window, m: nat)
    requires Ledger(p, w) && TurnFacts(p, w, w') && m in Held(w') && m in Held(w) && m < w.nextOrder
    requires |w'.handed| > |w.handed|
    ensures |Lower(w', m)| < |Lower(w, m)|
  {
    var i := MinIndex(w.slots);
    var low := w.slots[i].order;
    assert IsLowest(w, i);
    LowestGone(p, w, w', i);
    assert low <= m;
    assert low in Lower(w, m);
    forall o | o in Lower(w', m) ensures o in Lower(w, m) - {low} {
      OldStays(p, w, w', o);
    }
    Pieces.SubsetSize(Lower(w', m), Lower(w, m) - {low});
  }

  lemma OldStays(p: Params, w: Window, w': Window, o: nat)
    requires Ledger(p, w) && TurnFacts(p, w, w') && o in Held(w') && o < w.nextOrder
    ensures o in Held(w)
  {
    var i :| 0 <= i < |w'.slots| && w'.slots[i].order == o;
    assert Listed(p, w', w'.slots[i]);
    assert InSlots(w, o) || InHanded(w, o);
    forall j | 0 <= j < |w.handed| ensures w.handed[j].order != o {
      assert w'.handed[j] == w.handed[j];
    }
  }

  lemma LowestGone(p: Params, w: Window, w': Window, i: int)
    requires TurnFacts(p, w, w') && IsLowest(w, i) && |w'.handed| > |w.handed|
    ensures w.slots[i].order !in Held(w')
  {
    var j :| 0 <= j < |w'.handed| && w'.handed[j].order == w.slots[i].order;
  }

  /** What overtakes a block in one pass comes from the later part of the window. */
  lemma NewOvertakers(p: Params, w: Window, w': Window, m: nat, n: nat)
    requires Ledger(p, w) && TurnFacts(p, w, w') && |w.handed| <= n <= |w'.handed|
    ensures Overtakers(w'.handed[..n], m) <= Overtakers(w.handed, m) + Higher(w, m)
    ensures |Overtakers(w'.handed[..n], m)| <= |Overtakers(w.handed, m)| + |Higher(w, m)|
  {
    forall o | o in Overtakers(w'.handed[..n], m) ensures o in Overtakers(w.handed, m) + Higher(w, m) {
      var j :| 0 <= j < n && w'.handed[j].order == o && o > m;
      if j < |w.handed| {
        assert w.handed[j] == w'.handed[j];
      } else {
        FreshWasHeld(p, w, w', j);
      }
    }
    Pieces.SubsetSize(Overtakers(w'.handed[..n], m), Overtakers(w.handed, m) + Higher(w, m));
  }

  lemma BoundStep(r: int)
    requires 0 <= r <= 5
    ensures r >= 1 ==> Bound(r) + (5 - r) == Bound(r - 1)
    ensures Bound(r) + (5 - r) <= 15 && 0 <= Bound(r)
    ensures forall q :: q <= r ==> Bound(r) <= Bound(q)
  {
  }

  lemma HeldBound(p: Params, w: Window, w': Window, m: nat)
    requires Ledger(p, w) && Bounded(w) && TurnFacts(p, w, w') && m in Held(w')
    ensures |Overtakers(w'.handed, m)| <= Bound(|Lower(w', m)|)
  {
    assert InSlots(w', m);
    WindowSize(p, w', m);
    if m >= w.nextOrder {
      NoneNewer(p, w, w', m);
      BoundStep(|Lower(w', m)|);
    } else {
      StillHeld(p, w, w', m);
      assert InSlots(w, m);
      WindowSize(p, w, m);
      BoundStep(|Lower(w, m)|);
      if |w'.handed| == |w.handed| {
        assert w'.handed == w.handed;
      } else {
        assert w'.handed[..|w'.handed|] == w'.handed;
        NewOvertakers(p, w, w', m, |w'.handed|);
        BoundStep(|Lower(w, m)| - 1);
      }
    }
  }

  lemma NoneNewer(p: Params, w: Window, w': Window, m: nat)
    requires Ledger(p, w) && TurnFacts(p, w, w') && m >= w.nextOrder
    ensures Overtakers(w'.handed, m) == {}
  {
    forall j | 0 <= j < |w'.handed| ensures w'.handed[j].order <= m {
      if j < |w.handed| {
        assert w'.handed[j] == w.handed[j];
        assert Listed(p, w, w.handed[j]);
      }
    }
  }

  lemma HandedBound(p: Params, w: Window, w': Window, k: nat)
    requires Ledger(p, w) && Bounded(w) && TurnFacts(p, w, w') && k < |w'.handed|
    ensures |Overtakers(w'.handed[..k], w'.handed[k].order)| <= 15
  {
    if k < |w.handed| {
      assert w'.handed[..k] == w.handed[..k] && w'.handed[k] == w.handed[k];
    } else {
      var m := w'.handed[k].order;
      FreshWasHeld(p, w, w', k);
      WindowSize(p, w, m);
      NewOvertakers(p, w, w', m, k);
      BoundStep(|Lower(w, m)|);
      assert m in Held(w);
    }
  }

  /** At most fifteen later blocks are ever handed over before a given one. */
  lemma {:induction false} OvertakingBound(p: Params, batches: seq<seq<Packet>>)
    requires ValidParams(p) && NoWrap(p, Run(p, batches))
    ensures Bounded(Run(p, batches))
  {
    if batches == [] {
      var w := Open(p);
      OpenLedger(p);
      forall m | m in Held(w) ensures |Overtakers(w.handed, m)| <= Bound(|Lower(w, m)|) {
        assert InSlots(w, m);
        WindowSize(p, w, m);
        BoundStep(|Lower(w, m)|);
        assert Overtakers(w.handed, m) == {};
      }
    } else {
      var w, w' := Before(p, batches), Run(p, batches);
      RunGrows(p, w, batches[|batches| - 1]);
      OvertakingBound(p, batches[..|batches| - 1]);
      LedgerTheorem(p, batches[..|batches| - 1]);
      OldestFirstTheorem(p, batches);
      forall m | m in Held(w') ensures |Overtakers(w'.handed, m)| <= Bound(|Lower(w', m)|) {
        HeldBound(p, w, w', m);
      }
      forall k | 0 <= k < |w'.handed| ensures |Overtakers(w'.handed[..k], w'.handed[k].order)| <= 15 {
        HandedBound(p, w, w', k);
      }
    }
  }

  /** How many of the batches from number n on handed something over. */
  function HandingTurns(p: Params, batches: seq<seq<Packet>>, n: nat): nat
    requires ValidParams(p) && n <= |batches|
    decreases |batches|
  {
    if |batches| == n then 0
    else HandingTurns(p, batches[..|batches| - 1], n)
         + if |Run(p, batches).handed| > |Before(p, batches).handed| then 1 else 0
  }

  lemma {:induction false} RankFalls(p: Params, batches: seq<seq<Packet>>, n: nat, m: nat)
    requires ValidParams(p) && NoWrap(p, Run(p, batches)) && n <= |batches|
    requires m in Held(Run(p, batches)) && m < Run(p, batches[..n]).nextOrder
    ensures m in Held(Run(p, batches[..n]))
    ensures HandingTurns(p, batches, n) + |Lower(Run(p, batches), m)| <= |Lower(Run(p, batches[..n]), m)|
    decreases |batches|
  {
    if |batches| == n {
      assert batches[..n] == batches;
    } else {
      var w, w' := Before(p, batches), Run(p, batches);
      var init := batches[..|batches| - 1];
      assert init[..n] == batches[..n];
      RunGrows(p, w, batches[|batches| - 1]);
      LedgerTheorem(p, init);
      OldestFirstTheorem(p, batches);
      OrdersOnlyGrow(p, init, n);
      StillHeld(p, w, w', m);
      RankFalls(p, init, n, m);
    }
  }

  lemma {:induction false} OrdersOnlyGrow(p: Params, batches: seq<seq<Packet>>, n: nat)
    requires ValidParams(p) && n <= |batches|
    ensures Run(p, batches[..n]).nextOrder <= Run(p, batches).nextOrder
    decreases |batches|
  {
    if |batches| == n {
      assert batches[..n] == batches;
    } else {
      RunGrows(p, Before(p, batches), batches[|batches| - 1]);
      assert batches[..|batches| - 1][..n] == batches[..n];
      OrdersOnlyGrow(p, batches[..|batches| - 1], n);
    }
  }

  /**
   A block that entered the window by batch n and is still there has seen at most five handing-over batches: the
   sixth takes it.
   */
  lemma LeavesWithinSix(p: Params, batches: seq<seq<Packet>>, n: nat, m: nat)
    requires ValidParams(p) && NoWrap(p, Run(p, batches)) && n <= |batches|
    requires m in Held(Run(p, batches)) && m < Run(p, batches[..n]).nextOrder
    ensures HandingTurns(p, batches, n) <= SLOTS - 1
  {
    RankFalls(p, batches, n, m);
    OrdersOnlyGrow(p, batches, n);
    LedgerTheorem(p, batches[..n]);
    assert InSlots(Run(p, batches[..n]), m);
    WindowSize(p, Run(p, batches[..n]), m);
  }
}
