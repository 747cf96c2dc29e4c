/**
 From a packet's place in the received batches to its place in a block, and back.
 */
module Arrivals {
  import opened DataFormats
  import opened Window
  import opened WindowLedger
  import opened BlockContents
  import opened Reception
  import Radix

  ghost predicate IsArrival(batches: seq<seq<Packet>>, b: int, i: int) {
    0 <= b < |batches| && 0 <= i < |batches[b]|
  }

  /** The window when batch b arrives. */
  ghost function WindowAt(p: Params, batches: seq<seq<Packet>>, b: nat): Window
    requires ValidParams(p) && b <= |batches|
  {
    Run(p, batches[..b])
  }

  /** The number of packets before batch b. */
  function Offset(batches: seq<seq<Packet>>, b: nat): nat
    requires b <= |batches|
  {
    if b == 0 then 0 else Offset(batches, b - 1) + |batches[b - 1]|
  }

  lemma {:induction false} OffsetMono(batches: seq<seq<Packet>>, b: nat, c: nat)
    requires b <= c <= |batches|
    ensures Offset(batches, b) <= Offset(batches, c)
  {
    if b < c {
      OffsetMono(batches, b, c - 1);
    }
  }

  lemma {:induction false} OffsetPrefix(batches: seq<seq<Packet>>, c: nat, b: nat)
    requires b <= c <= |batches|
    ensures Offset(batches[..c], b) == Offset(batches, b)
  {
    if b > 0 {
      OffsetPrefix(batches, c, b - 1);
    }
  }

  ghost predicate Later(b: int, i: int, b': int, i': int) {
    b < b' || (b == b' && i < i')
  }

  /** Packet i of batch b is entry Offset(b) + i. */
  lemma {:induction false} EntryAt(p: Params, batches: seq<seq<Packet>>, b: nat, i: nat)
    requires ValidParams(p) && IsArrival(batches, b, i)
    ensures |Entries(p, batches)| == Offset(batches, |batches|) && Offset(batches, b) + i < |Entries(p, batches)|
    ensures Entries(p, batches)[Offset(batches, b) + i]
            == Entry(batches[b][i], FateOf(p, WindowAt(p, batches, b), batches[b][i]))
    decreases |batches|
  {
    EntriesLen(p, batches);
    var n := |batches| - 1;
    var init := batches[..n];
    EntriesLen(p, init);
    OffsetPrefix(batches, n, n);
    if b < n {
      EntryAt(p, init, b, i);
      OffsetPrefix(batches, n, b);
      assert init[..b] == batches[..b];
    }
  }

  lemma {:induction false} EntriesLen(p: Params, batches: seq<seq<Packet>>)
    requires ValidParams(p)
    ensures |Entries(p, batches)| == Offset(batches, |batches|)
    decreases |batches|
  {
    if batches != [] {
      var n := |batches| - 1;
      EntriesLen(p, batches[..n]);
      OffsetPrefix(batches, n, n);
    }
  }

  /** Every entry is some packet's. */
  lemma {:induction false} EntryFrom(p: Params, batches: seq<seq<Packet>>, n: nat, x: nat) returns (b: nat, i: nat)
    requires ValidParams(p) && n <= |batches| && x < Offset(batches, n)
    ensures IsArrival(batches, b, i) && x == Offset(batches, b) + i
    decreases n
  {
    if x >= Offset(batches, n - 1) {
      b, i := n - 1, x - Offset(batches, n - 1);
    } else {
      b, i := EntryFrom(p, batches, n - 1, x);
    }
  }

  lemma LaterIff(batches: seq<seq<Packet>>, b: nat, i: nat, b': nat, i': nat)
    requires IsArrival(batches, b, i) && IsArrival(batches, b', i')
    ensures Later(b, i, b', i') <==> Offset(batches, b) + i < Offset(batches, b') + i'
  {
    if b < b' {
      OffsetMono(batches, b + 1, b');
    } else if b' < b {
      OffsetMono(batches, b' + 1, b);
    }
  }

  // Entries and the packets kept for a block.

  lemma {:induction false} KeptMono(es: seq<Entry>, o: nat, x: nat, y: nat)
    requires x <= y <= |es|
    ensures KeptFor(es[..x], o) <= KeptFor(es[..y], o)
    decreases y
  {
    if x < y {
      KeptMono(es, o, x, y - 1);
      assert es[..y][..y - 1] == es[..y - 1];
    }
  }

  lemma KeptLess(es: seq<Entry>, o: nat, x: nat, y: nat)
    requires x < y <= |es| && es[x].fate == Kept(o)
    ensures |KeptFor(es[..x], o)| < |KeptFor(es[..y], o)|
  {
    assert es[..x + 1][..x] == es[..x];
    KeptMono(es, o, x + 1, y);
  }

  /** The place of a kept packet in its block is the number kept before it. */
  lemma KeptAt(es: seq<Entry>, o: nat, x: nat)
    requires x < |es| && es[x].fate == Kept(o)
    ensures |KeptFor(es[..x], o)| < |KeptFor(es, o)|
    ensures KeptFor(es, o)[|KeptFor(es[..x], o)|] == es[x].pk
  {
    assert es[..x + 1][..x] == es[..x];
    assert es[..|es|] == es;
    KeptMono(es, o, x + 1, |es|);
  }

  lemma {:induction false} KeptFrom(es: seq<Entry>, o: nat, j: nat) returns (x: nat)
    requires j < |KeptFor(es, o)|
    ensures x < |es| && es[x] == Entry(KeptFor(es, o)[j], Kept(o)) && |KeptFor(es[..x], o)| == j
    decreases |es|
  {
    var n := |es| - 1;
    if j < |KeptFor(es[..n], o)| {
      x := KeptFrom(es[..n], o, j);
      assert es[..n][..x] == es[..x];
    } else {
      x := n;
    }
  }

  // A packet that arrived, and what it left in its block.

  ghost predicate ArrivedFor(p: Params, batches: seq<seq<Packet>>, b: nat, i: nat, o: nat)
    requires ValidParams(p)
  {
    IsArrival(batches, b, i) && FateOf(p, WindowAt(p, batches, b), batches[b][i]) == Kept(o)
  }

  /**
   Packet j of the block of order o arrived, and is packet (b, i); whatever is after it in the block arrived later.
   */
  lemma GotFrom(p: Params, batches: seq<seq<Packet>>, o: nat, j: nat) returns (b: nat, i: nat)
    requires ValidParams(p) && j < |KeptFor(Entries(p, batches), o)|
    ensures ArrivedFor(p, batches, b, i, o) && batches[b][i] == KeptFor(Entries(p, batches), o)[j]
    ensures Offset(batches, b) + i <= |Entries(p, batches)|
    ensures |KeptFor(Entries(p, batches)[..Offset(batches, b) + i], o)| == j
  {
    var es := Entries(p, batches);
    var x := KeptFrom(es, o, j);
    EntriesLen(p, batches);
    b, i := EntryFrom(p, batches, |batches|, x);
    EntryAt(p, batches, b, i);
  }

  /** A packet kept for order o is in the block, at place j, and what follows it there arrived later. */
  lemma ArrivedIsGot(p: Params, batches: seq<seq<Packet>>, b: nat, i: nat, o: nat) returns (j: nat)
    requires ValidParams(p) && ArrivedFor(p, batches, b, i, o)
    ensures var got := KeptFor(Entries(p, batches), o);
            j < |got| && got[j] == batches[b][i]
    ensures Offset(batches, b) + i <= |Entries(p, batches)|
    ensures j == |KeptFor(Entries(p, batches)[..Offset(batches, b) + i], o)|
  {
    var es := Entries(p, batches);
    EntryAt(p, batches, b, i);
    KeptAt(es, o, Offset(batches, b) + i);
    j := |KeptFor(es[..Offset(batches, b) + i], o)|;
  }

  lemma LaterInBlock(p: Params, batches: seq<seq<Packet>>, es: seq<Entry>, o: nat, b: nat, i: nat, b': nat, i': nat)
    requires ValidParams(p) && IsArrival(batches, b, i) && IsArrival(batches, b', i')
    requires Offset(batches, b) + i <= |es| && Offset(batches, b') + i' <= |es|
    requires |KeptFor(es[..Offset(batches, b) + i], o)| < |KeptFor(es[..Offset(batches, b') + i'], o)|
    ensures Later(b, i, b', i')
  {
    KeptMore(es, o, Offset(batches, b) + i, Offset(batches, b') + i');
    LaterIff(batches, b, i, b', i');
  }

  lemma KeptMore(es: seq<Entry>, o: nat, x: nat, y: nat)
    requires x <= |es| && y <= |es| && |KeptFor(es[..x], o)| < |KeptFor(es[..y], o)|
    ensures x < y
  {
    if y <= x {
      KeptMono(es, o, y, x);
      assert false;
    }
  }

  // In a run without wrap, the packets of a block are told from their numbers.

  /** An accepted packet of the block with order o, which is in the window when the packet arrives. */
  ghost predicate Received(p: Params, batches: seq<seq<Packet>>, b: nat, i: nat, o: nat)
    requires ValidParams(p)
  {
    && IsArrival(batches, b, i) && Wanted(p, batches[b][i])
    && PacketFilter(batches[b][i].pckt) == PacketNoOf(p, o) && InSlots(WindowAt(p, batches, b), o)
  }

  lemma FateIff(p: Params, w: Window, pk: Packet, o: nat)
    requires Ledger(p, w)
    ensures FateOf(p, w, pk) == Kept(o)
            <==> Wanted(p, pk) && PacketFilter(pk.pckt) == PacketNoOf(p, o) && InSlots(w, o)
  {
    AcceptsIff(p, pk);
    var k := FindSlot(w.slots, PacketFilter(pk.pckt));
    assert forall i :: 0 <= i < |w.slots| ==> Listed(p, w, w.slots[i]);
    if InSlots(w, o) && PacketFilter(pk.pckt) == PacketNoOf(p, o) {
      var i :| 0 <= i < |w.slots| && w.slots[i].order == o;
      assert w.slots[i].packetNo == PacketFilter(pk.pckt);
    }
  }

  /** Same antenna, channel group and packet number: the same cell of the same block. */
  predicate Twins(p: Params, a: Packet, b: Packet)
    requires ValidParams(p)
  {
    && Wanted(p, a) && Wanted(p, b)
    && a.ant == b.ant && Group(p, a) == Group(p, b) && a.pckt == b.pckt
  }

  /** Two packets of one block that share a cell are twins. */
  lemma SameCellTwins(p: Params, a: Packet, b: Packet)
    requires ValidParams(p) && Accepts(p, a) && Accepts(p, b)
    requires PacketFilter(a.pckt) == PacketFilter(b.pckt)
    ensures CellOf(p, a) == CellOf(p, b) <==> Twins(p, a, b)
  {
    AcceptsIff(p, a);
    AcceptsIff(p, b);
    CellUnique(p, PacketRest(a.pckt), AntOf(p, a), ChanOf(p, a), PacketRest(b.pckt), AntOf(p, b), ChanOf(p, b));
  }

  lemma CellUnique(p: Params, r: nat, a: nat, g: nat, r': nat, a': nat, g': nat)
    requires a < p.nAnts && g < p.nchans && a' < p.nAnts && g' < p.nchans
    ensures Cell(p, r, a, g) == Cell(p, r', a', g') <==> r == r' && a == a' && g == g'
  {
    CellAsRows(p, r, a, g);
    CellAsRows(p, r', a', g');
    if Cell(p, r, a, g) == Cell(p, r', a', g') {
      Radix.FlatUnique(r * p.nAnts + a, g, r' * p.nAnts + a', g', p.nchans);
      Radix.FlatUnique(r, a, r', a', p.nAnts);
    }
  }

  lemma CellAsRows(p: Params, r: nat, a: nat, g: nat)
    ensures r * p.nAnts + a >= 0
    ensures Cell(p, r, a, g) == (r * p.nAnts + a) * p.nchans + g
  {
    Radix.Distribute(r * p.nAnts, a, p.nchans);
    Radix.NonNegative(r, p.nAnts, 1);
  }

  /** No two packets kept for the block of order o are twins. */
  ghost predicate NoTwinsFor(p: Params, batches: seq<seq<Packet>>, o: nat)
    requires ValidParams(p)
  {
    forall b: nat, i: nat, b': nat, i': nat ::
      ArrivedFor(p, batches, b, i, o) && ArrivedFor(p, batches, b', i', o) && Later(b, i, b', i')
      ==> !Twins(p, batches[b][i], batches[b'][i'])
  }

  /** No packet of the run is sent twice. */
  ghost predicate NoTwins(p: Params, batches: seq<seq<Packet>>)
    requires ValidParams(p)
  {
    forall b: nat, i: nat, b': nat, i': nat ::
      IsArrival(batches, b, i) && IsArrival(batches, b', i') && Later(b, i, b', i')
      ==> !Twins(p, batches[b][i], batches[b'][i'])
  }

  /** Packets j < j' of a block arrived one after the other. */
  lemma GotInOrder(p: Params, batches: seq<seq<Packet>>, o: nat, j: nat, j': nat)
    returns (b: nat, i: nat, b': nat, i': nat)
    requires ValidParams(p) && j < j' < |KeptFor(Entries(p, batches), o)|
    ensures ArrivedFor(p, batches, b, i, o) && ArrivedFor(p, batches, b', i', o) && Later(b, i, b', i')
    ensures batches[b][i] == KeptFor(Entries(p, batches), o)[j] &&
            batches[b'][i'] == KeptFor(Entries(p, batches), o)[j']
  {
    b, i := GotFrom(p, batches, o, j);
    b', i' := GotFrom(p, batches, o, j');
    EntryAt(p, batches, b, i);
    EntryAt(p, batches, b', i');
    LaterInBlock(p, batches, Entries(p, batches), o, b, i, b', i');
  }

  lemma EntriesInOrder(p: Params, batches: seq<seq<Packet>>, es: seq<Entry>, o: nat, b: nat, i: nat, b': nat, i': nat)
    requires ValidParams(p) && es == Entries(p, batches) && Later(b, i, b', i')
    requires ArrivedFor(p, batches, b, i, o) && ArrivedFor(p, batches, b', i', o)
    ensures var x, y := Offset(batches, b) + i, Offset(batches, b') + i';
            x < y < |es| && es[x] == Entry(batches[b][i], Kept(o)) && es[y] == Entry(batches[b'][i'], Kept(o))
  {
    EntryIn(p, batches, es, b, i);
    EntryIn(p, batches, es, b', i');
    LaterIff(batches, b, i, b', i');
  }

  /** Packets of a block that arrived one after the other are in it in that order. */
  lemma ArrivedInOrder(p: Params, batches: seq<seq<Packet>>, es: seq<Entry>, o: nat, b: nat, i: nat, b': nat, i': nat)
    returns (j: nat, j': nat)
    requires ValidParams(p) && es == Entries(p, batches) && Later(b, i, b', i')
    requires ArrivedFor(p, batches, b, i, o) && ArrivedFor(p, batches, b', i', o)
    ensures j < j' < |KeptFor(es, o)| && KeptFor(es, o)[j] == batches[b][i] && KeptFor(es, o)[j'] == batches[b'][i']
  {
    EntriesInOrder(p, batches, es, o, b, i, b', i');
    j, j' := KeptInOrder(es, o, Offset(batches, b) + i, Offset(batches, b') + i');
  }

  lemma EntryIn(p: Params, batches: seq<seq<Packet>>, es: seq<Entry>, b: nat, i: nat)
    requires ValidParams(p) && IsArrival(batches, b, i) && es == Entries(p, batches)
    ensures Offset(batches, b) + i < |es|
    ensures es[Offset(batches, b) + i] == Entry(batches[b][i], FateOf(p, WindowAt(p, batches, b), batches[b][i]))
  {
    EntryAt(p, batches, b, i);
  }

  lemma KeptInOrder(es: seq<Entry>, o: nat, x: nat, y: nat) returns (j: nat, j': nat)
    requires x < y < |es| && es[x].fate == es[y].fate == Kept(o)
    ensures j < j' < |KeptFor(es, o)| && KeptFor(es, o)[j] == es[x].pk && KeptFor(es, o)[j'] == es[y].pk
  {
    KeptAt(es, o, x);
    KeptAt(es, o, y);
    KeptLess(es, o, x, y);
    j, j' := |KeptFor(es[..x], o)|, |KeptFor(es[..y], o)|;
  }

  lemma BlockOfRun(p: Params, batches: seq<seq<Packet>>, s: Slot)
    requires ValidParams(p) && (s in Run(p, batches).slots || s in Run(p, batches).handed)
    ensures Faithful(p, s) && s.got == KeptFor(Entries(p, batches), s.order)
  {
    BooksTheorem(p, batches);
    ReceptionTheorem(p, batches);
  }

  lemma DistinctIff(p: Params, batches: seq<seq<Packet>>, s: Slot)
    requires ValidParams(p) && Faithful(p, s) && s.got == KeptFor(Entries(p, batches), s.order)
    ensures CellsDistinct(p, s.got) <==> NoTwinsFor(p, batches, s.order)
  {
    if NoTwinsFor(p, batches, s.order) {
      forall j: nat, j': nat | j < j' < |s.got| ensures CellsOf(p, s.got)[j] != CellsOf(p, s.got)[j'] {
        var b, i, b', i' := GotInOrder(p, batches, s.order, j, j');
        SameCellTwins(p, s.got[j], s.got[j']);
      }
    }
    if CellsDistinct(p, s.got) {
      forall b: nat, i: nat, b': nat, i': nat
        | ArrivedFor(p, batches, b, i, s.order) && ArrivedFor(p, batches, b', i', s.order) && Later(b, i, b', i')
        ensures !Twins(p, batches[b][i], batches[b'][i'])
      {
        var j, j' := ArrivedInOrder(p, batches, Entries(p, batches), s.order, b, i, b', i');
        assert CellsOf(p, s.got)[j] != CellsOf(p, s.got)[j'];
        SameCellTwins(p, s.got[j], s.got[j']);
      }
    }
  }

  /** A block's missing count is the number of its unwritten cells exactly when no packet was kept for it twice. */
  lemma MissingCountIff(p: Params, batches: seq<seq<Packet>>, s: Slot)
    requires ValidParams(p) && (s in Run(p, batches).slots || s in Run(p, batches).handed)
    ensures Faithful(p, s)
    ensures s.nToFull == |Cells(p) - Written(p, s.got)| <==> NoTwinsFor(p, batches, s.order)
    ensures NoTwins(p, batches) ==> NoTwinsFor(p, batches, s.order)
  {
    BlockOfRun(p, batches, s);
    DistinctIff(p, batches, s);
    MissingIsUnwritten(p, s);
  }
}
