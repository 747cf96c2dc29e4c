/**
 What is in a block, and the account of lost packets (full_custom/processing_thread.c:124-192).
 None of this depends on packet numbers not wrapping.
 */
module BlockContents {
  import opened DataFormats
  import opened Window
  import Pieces
  import Radix

  ghost predicate AllAccepted(p: Params, got: seq<Packet>)
    requires ValidParams(p)
  {
    forall i :: 0 <= i < |got| ==> Accepts(p, got[i])
  }

  /** A zeroed block into which the given packets have been copied, in order. */
  ghost function Content(p: Params, got: seq<Packet>): (r: seq<byte>)
    requires ValidParams(p) && AllAccepted(p, got)
    ensures |r| == BlockLen(p)
  {
    if got == [] then Zeros(BlockLen(p))
    else
      var last := got[|got| - 1];
      Pieces.Overwrite(Content(p, got[..|got| - 1]), CellOf(p, last) * RX_DATA_LEN, last.payload)
  }

  /** A slot holds exactly the packets it has got, all belonging to its block, and counts those still missing. */
  ghost predicate Faithful(p: Params, s: Slot)
    requires ValidParams(p)
  {
    && AllAccepted(p, s.got)
    && (forall i :: 0 <= i < |s.got| ==> PacketFilter(s.got[i].pckt) == s.packetNo)
    && s.block == Content(p, s.got)
    && s.nToFull == PacketsPerBlock(p) - |s.got|
  }

  function GotIn(h: seq<Slot>): nat {
    if h == [] then 0 else GotIn(h[..|h| - 1]) + |h[|h| - 1].got|
  }

  /** Packets received in handed-over blocks plus packets missed make up the blocks handed over. */
  ghost predicate Books(p: Params, w: Window) {
    && Shape(p, w)
    && (forall i :: 0 <= i < |w.slots| ==> Faithful(p, w.slots[i]))
    && (forall j :: 0 <= j < |w.handed| ==> Faithful(p, w.handed[j]))
    && Balanced(w.handed, w.noMissing, PacketsPerBlock(p))
  }

  ghost predicate Balanced(h: seq<Slot>, missing: int, per: nat) {
    GotIn(h) + missing == |h| * per
  }

  lemma BalancedNext(h: seq<Slot>, missing: int, per: nat, s: Slot)
    requires Balanced(h, missing, per) && |s.got| + s.nToFull == per
    ensures Balanced(h + [s], missing + s.nToFull, per)
  {
    assert (h + [s])[..|h|] == h;
    Radix.Distribute(|h|, 1, per);
  }

  lemma StoreFaithful(p: Params, s: Slot, pk: Packet)
    requires ValidParams(p) && Faithful(p, s) && Accepts(p, pk) && PacketFilter(pk.pckt) == s.packetNo
    requires |s.block| == BlockLen(p)
    ensures Faithful(p, Store(p, s, pk))
  {
    var s' := Store(p, s, pk);
    assert s'.got[..|s.got|] == s.got;
  }

  lemma PlaceOneBooks(p: Params, w: Window, w': Window, pk: Packet)
    requires Books(p, w) && w' == Place(p, w, pk)
    ensures Books(p, w')
  {
    if Accepts(p, pk) {
      var k := FindSlot(w.slots, PacketFilter(pk.pckt));
      if k != -1 {
        assert Faithful(p, w.slots[k]);
        StoreFaithful(p, w.slots[k], pk);
      }
    }
  }

  lemma {:induction false} PlaceBooks(p: Params, w: Window, batch: seq<Packet>, n: nat)
    requires Books(p, w) && n <= |batch|
    ensures Books(p, PlaceFirst(p, w, batch, n))
  {
    if n > 0 {
      PlaceBooks(p, w, batch, n - 1);
      PlaceOneBooks(p, PlaceFirst(p, w, batch, n - 1), PlaceFirst(p, w, batch, n), batch[n - 1]);
    }
  }

  lemma RecycleBooks(p: Params, w: Window, k: nat, mark: nat)
    requires Books(p, w) && k < SLOTS
    ensures Books(p, Recycle(p, w.(noMissing := w.noMissing + w.slots[k].nToFull, lastSent := mark), k))
  {
    var w' := Recycle(p, w.(noMissing := w.noMissing + w.slots[k].nToFull, lastSent := mark), k);
    assert Faithful(p, w.slots[k]);
    BalancedNext(w.handed, w.noMissing, PacketsPerBlock(p), w.slots[k]);
    forall i | 0 <= i < |w'.slots| ensures Faithful(p, w'.slots[i]) {
      if i != k { assert Faithful(p, w.slots[i]); }
    }
    forall j | 0 <= j < |w'.handed| ensures Faithful(p, w'.handed[j]) {
      if j < |w.handed| { assert Faithful(p, w.handed[j]); }
    }
  }

  lemma {:induction false} SendFullBooks(p: Params, w: Window, n: nat, r: Sweep)
    requires Books(p, w) && n <= SLOTS && r == SendFull(p, w, n)
    ensures Books(p, r.w)
  {
    if n > 0 {
      var before := SendFull(p, w, n - 1);
      SendFullBooks(p, w, n - 1, before);
      SendFullAtBooks(p, before, r, n - 1);
    }
  }

  lemma SendFullAtBooks(p: Params, r: Sweep, r': Sweep, k: nat)
    requires Books(p, r.w) && k < SLOTS && r' == SendFullAt(p, r, k)
    ensures Books(p, r'.w)
  {
    var v := r.w;
    if v.slots[k].nToFull == 0 {
      RecycleBooks(p, v, k, v.slots[k].packetNo);
    }
  }

  lemma SendEarlierAtBooks(p: Params, v: Window, v': Window, k: nat)
    requires Books(p, v) && k < SLOTS && v' == SendEarlierAt(p, v, k)
    ensures Books(p, v')
  {
    if IsEarlier(v.slots[k].packetNo, v.lastSent) {
      RecycleBooks(p, v, k, v.lastSent);
    }
  }

  lemma {:induction false} SendEarlierBooks(p: Params, w: Window, n: nat, v: Window)
    requires Books(p, w) && n <= SLOTS && v == SendEarlier(p, w, n)
    ensures Books(p, v)
  {
    if n > 0 {
      var before := SendEarlier(p, w, n - 1);
      SendEarlierBooks(p, w, n - 1, before);
      SendEarlierAtBooks(p, before, v, n - 1);
    }
  }

  /** The books balance after every run. */
  lemma {:induction false} BooksTheorem(p: Params, batches: seq<seq<Packet>>)
    requires ValidParams(p)
    ensures Books(p, Run(p, batches))
  {
    if batches == [] {
      var w := Open(p);
      forall i | 0 <= i < |w.slots| ensures Faithful(p, w.slots[i]) {
        assert w.slots[i].got == [];
      }
    } else {
      var w := Run(p, batches[..|batches| - 1]);
      BooksTheorem(p, batches[..|batches| - 1]);
      TurnBooks(p, w, Run(p, batches), batches[|batches| - 1]);
    }
  }

  lemma TurnBooks(p: Params, w: Window, w': Window, batch: seq<Packet>)
    requires Books(p, w) && w' == Turn(p, w, batch)
    ensures Books(p, w')
  {
    if batch != [] {
      PlaceBooks(p, w, batch, |batch|);
      var w1 := PlaceFirst(p, w, batch, |batch|);
      var r := SendFull(p, w1, SLOTS);
      SendFullBooks(p, w1, SLOTS, r);
      SendEarlierBooks(p, MarkHalf(r), SLOTS, w');
    }
  }

  // Missing packets as unwritten cells.

  ghost function CellsOf(p: Params, got: seq<Packet>): (xs: seq<nat>)
    requires ValidParams(p) && AllAccepted(p, got)
    ensures |xs| == |got| && forall i :: 0 <= i < |xs| ==> xs[i] == CellOf(p, got[i])
  {
    seq(|got|, i requires 0 <= i < |got| => CellOf(p, got[i]))
  }

  ghost predicate Distinct(xs: seq<nat>) {
    forall i, j :: 0 <= i < j < |xs| ==> xs[i] != xs[j]
  }

  ghost function ToSet(xs: seq<nat>): set<nat> {
    set x | x in xs
  }

  /** No two accepted packets fell on the same cell. */
  ghost predicate CellsDistinct(p: Params, got: seq<Packet>)
    requires ValidParams(p) && AllAccepted(p, got)
  {
    Distinct(CellsOf(p, got))
  }

  ghost function Written(p: Params, got: seq<Packet>): set<nat>
    requires ValidParams(p) && AllAccepted(p, got)
  {
    ToSet(CellsOf(p, got))
  }

  ghost function Below(n: nat): (s: set<nat>)
    ensures |s| == n && forall c: nat :: c in s <==> c < n
  {
    if n == 0 then {} else Below(n - 1) + {n - 1}
  }

  ghost function Cells(p: Params): set<nat> {
    Below(PacketsPerBlock(p))
  }

  lemma {:induction false} SetSize(xs: seq<nat>)
    ensures |ToSet(xs)| <= |xs|
    ensures |ToSet(xs)| == |xs| <==> Distinct(xs)
  {
    if xs != [] {
      var n := |xs| - 1;
      var init := xs[..n];
      SetSize(init);
      assert xs == init + [xs[n]];
      assert ToSet(xs) == ToSet(init) + {xs[n]};
      assert Distinct(xs) <==> Distinct(init) && xs[n] !in init;
    }
  }

  /**
   nToFull is the number of unwritten cells exactly when no two accepted packets fell on one cell;
   then it is never negative, and it is zero exactly when every cell has been written.
   */
  lemma MissingIsUnwritten(p: Params, s: Slot)
    requires ValidParams(p) && Faithful(p, s)
    ensures s.nToFull == |Cells(p) - Written(p, s.got)| <==> CellsDistinct(p, s.got)
    ensures CellsDistinct(p, s.got) ==> 0 <= s.nToFull && (s.nToFull == 0 <==> Written(p, s.got) == Cells(p))
  {
    SetSize(CellsOf(p, s.got));
    var un := Cells(p) - Written(p, s.got);
    assert Written(p, s.got) <= Cells(p);
    assert Cells(p) == Written(p, s.got) + un;
    assert |Cells(p)| == |Written(p, s.got)| + |un|;
    if Written(p, s.got) == Cells(p) {
      assert un == {};
    }
  }

  // What each byte of a block is.

  /** The last place of c in xs, or -1. */
  ghost function LastPlace(xs: seq<nat>, c: nat): (k: int)
    ensures -1 <= k < |xs|
    ensures k >= 0 ==> xs[k] == c && forall i :: k < i < |xs| ==> xs[i] != c
    ensures k == -1 <==> c !in xs
  {
    if xs == [] then -1
    else if xs[|xs| - 1] == c then |xs| - 1
    else LastPlace(xs[..|xs| - 1], c)
  }

  /** The last packet copied into cell c, or -1. */
  ghost function LastInto(p: Params, got: seq<Packet>, c: nat): (k: int)
    requires ValidParams(p) && AllAccepted(p, got)
    ensures -1 <= k < |got|
    ensures k >= 0 ==> CellOf(p, got[k]) == c && forall i :: k < i < |got| ==> CellOf(p, got[i]) != c
    ensures k == -1 <==> forall i :: 0 <= i < |got| ==> CellOf(p, got[i]) != c
  {
    LastPlace(CellsOf(p, got), c)
  }

  lemma OverwriteAt(dst: seq<byte>, c: nat, src: seq<byte>, c': nat, b: nat)
    requires |src| == RX_DATA_LEN && (c + 1) * RX_DATA_LEN <= |dst| && (c' + 1) * RX_DATA_LEN <= |dst| &&
             b < RX_DATA_LEN
    ensures Pieces.Overwrite(dst, c * RX_DATA_LEN, src)[c' * RX_DATA_LEN + b] ==
            if c' == c then src[b] else dst[c' * RX_DATA_LEN + b]
  {
  }

  lemma LastIntoNext(p: Params, got: seq<Packet>, c: nat)
    requires ValidParams(p) && AllAccepted(p, got) && got != []
    ensures var n := |got| - 1;
            LastInto(p, got, c) == if CellOf(p, got[n]) == c then n else LastInto(p, got[..n], c)
  {
    var n := |got| - 1;
    CellsInit(p, got, CellsOf(p, got), CellsOf(p, got[..n]));
    LastPlaceNext(CellsOf(p, got), CellsOf(p, got[..n]), c);
  }

  lemma CellsInit(p: Params, got: seq<Packet>, xs: seq<nat>, ys: seq<nat>)
    requires ValidParams(p) && AllAccepted(p, got) && got != []
    requires xs == CellsOf(p, got) && ys == CellsOf(p, got[..|got| - 1])
    ensures xs[..|got| - 1] == ys
  {
    forall i | 0 <= i < |ys| ensures xs[i] == ys[i] {
      assert got[..|got| - 1][i] == got[i];
    }
  }

  lemma LastPlaceNext(xs: seq<nat>, ys: seq<nat>, c: nat)
    requires xs != [] && ys == xs[..|xs| - 1]
    ensures LastPlace(xs, c) == if xs[|xs| - 1] == c then |xs| - 1 else LastPlace(ys, c)
  {
  }

  lemma ContentNext(p: Params, got: seq<Packet>, c: nat, b: nat)
    requires ValidParams(p) && AllAccepted(p, got) && got != [] && c < PacketsPerBlock(p) && b < RX_DATA_LEN
    ensures c * RX_DATA_LEN + b < BlockLen(p)
    ensures var n := |got| - 1;
            Content(p, got)[c * RX_DATA_LEN + b]
            == if CellOf(p, got[n]) == c then got[n].payload[b] else Content(p, got[..n])[c * RX_DATA_LEN + b]
  {
    var n := |got| - 1;
    var last: Packet := got[n];
    OverwriteAt(Content(p, got[..n]), CellOf(p, last), last.payload, c, b);
  }

  /** Each cell carries the data of the last packet sent to it, and zeros if there was none. */
  lemma {:induction false} ContentAt(p: Params, got: seq<Packet>, c: nat, b: nat)
    requires ValidParams(p) && AllAccepted(p, got) && c < PacketsPerBlock(p) && b < RX_DATA_LEN
    ensures c * RX_DATA_LEN + b < BlockLen(p)
    ensures var k := LastInto(p, got, c);
            Content(p, got)[c * RX_DATA_LEN + b] == if k == -1 then 0 else got[k].payload[b]
  {
    if got != [] {
      ContentAt(p, got[..|got| - 1], c, b);
      ContentNext(p, got, c, b);
      LastIntoNext(p, got, c);
    }
  }
}
