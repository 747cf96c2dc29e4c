/**
 The assembler and the thread downstream of it share a ring of output blocks, each marked filled or free
 (half_hashpipe/ata_volt_outer_thread.c:154-181, 191-247, 1513-1535).  The downstream thread takes filled
 blocks in ring order and frees them; the assembler waits until the block it moves to is free.
 */
module OutputRing {
  import opened WorkingBlocks

  /** waiting: in wait_for_block_free for the new second working block. */
  datatype Sys = Sys(a: State, filled: seq<bool>, consumed: nat, waiting: bool)

  datatype Move = Packet(pktSeq: nat) | Resume | Consume

  ghost predicate Fits(c: Config, s: Sys) {
    ValidConfig(c) && |s.filled| == c.nBlock && s.a.w0.idx < c.nBlock && s.a.w1.idx < c.nBlock
  }

  /** The downstream thread goes round the ring by its own count. */
  ghost function ReadAt(c: Config, s: Sys): (i: nat)
    requires ValidConfig(c)
    ensures i < c.nBlock
  {
    RingBound(s.consumed, c.nBlock);
    RingAt(s.consumed, c.nBlock)
  }

  ghost predicate Possible(c: Config, s: Sys, mv: Move)
    requires Fits(c, s)
  {
    match mv
    case Packet(_) => !s.waiting
    case Resume => s.waiting && !s.filled[s.a.w1.idx]
    case Consume => s.filled[ReadAt(c, s)]
  }

  ghost function Next(c: Config, s: Sys, mv: Move): Sys
    requires Fits(c, s)
  {
    match mv
    case Packet(pktSeq) =>
      var a := Step(c, s.a, pktSeq);
      if |a.finals| > |s.a.finals| then s.(a := a, filled := s.filled[s.a.w0.idx := true], waiting := true)
      else s.(a := a)
    case Resume => s.(waiting := false)
    case Consume => s.(filled := s.filled[ReadAt(c, s) := false], consumed := s.consumed + 1)
  }

  lemma {:induction false} RingBound(k: nat, n: nat)
    requires n > 0
    ensures RingAt(k, n) < n
  {
    if k > 0 {
      RingBound(k - 1, n);
    }
  }

  /** Fewer than n steps on, the ring index is another one. */
  lemma {:induction false} RingAhead(k: nat, d: nat, n: nat)
    requires 0 < n && d < n
    ensures RingAt(k, n) < n
    ensures RingAt(k + d, n) == if RingAt(k, n) + d < n then RingAt(k, n) + d else RingAt(k, n) + d - n
  {
    RingBound(k, n);
    if d > 0 {
      RingAhead(k, d - 1, n);
      assert RingAt(k + d, n) == RingNext(RingAt(k + d - 1, n), n);
    }
  }

  lemma RingDistinct(n: nat, j: nat, k: nat)
    requires 0 < n && j < k < j + n
    ensures RingAt(j, n) != RingAt(k, n)
  {
    RingAhead(j, k - j, n);
  }

  /** Some finalized and not yet consumed block lies in slot i. */
  ghost predicate Outstanding(n: nat, lo: nat, hi: nat, i: nat) {
    exists k: nat :: lo <= k < hi && RingAt(k, n) == i
  }

  /**
   The filled slots are those of the blocks finalized and not yet consumed, at most n - 2 of them, or n - 1 while
   waiting.
   */
  ghost predicate Inv(c: Config, s: Sys) {
    && Fits(c, s) && Cyclic(c, s.a) && Ordered(s.a)
    && s.consumed <= |s.a.finals| <= s.consumed + c.nBlock - 2 + (if s.waiting then 1 else 0)
    && (forall i: nat :: i < c.nBlock ==> (s.filled[i] <==> Outstanding(c.nBlock, s.consumed, |s.a.finals|, i)))
  }

  /** The window's slot d places on is free as long as fewer than n - d blocks are outstanding. */
  lemma SlotFree(n: nat, lo: nat, hi: nat, d: nat)
    requires 0 < n && lo <= hi && hi + d < lo + n
    ensures !Outstanding(n, lo, hi, RingAt(hi + d, n))
  {
    forall k: nat | lo <= k < hi ensures RingAt(k, n) != RingAt(hi + d, n) {
      RingDistinct(n, k, hi + d);
    }
  }

  lemma FillOutstanding(n: nat, lo: nat, hi: nat, i: nat)
    requires lo <= hi
    ensures Outstanding(n, lo, hi + 1, i) <==> Outstanding(n, lo, hi, i) || i == RingAt(hi, n)
  {
    if i == RingAt(hi, n) {
      assert lo <= hi < hi + 1;
    }
    if Outstanding(n, lo, hi, i) {
      var k: nat :| lo <= k < hi && RingAt(k, n) == i;
      assert lo <= k < hi + 1;
    }
  }

  lemma ConsumeOutstanding(n: nat, lo: nat, hi: nat, i: nat)
    requires 0 < n && lo < hi < lo + n
    ensures Outstanding(n, lo + 1, hi, i) <==> Outstanding(n, lo, hi, i) && i != RingAt(lo, n)
  {
    if Outstanding(n, lo, hi, i) && i != RingAt(lo, n) {
      var k: nat :| lo <= k < hi && RingAt(k, n) == i;
      assert lo + 1 <= k < hi;
    }
    if Outstanding(n, lo + 1, hi, i) {
      var k: nat :| lo + 1 <= k < hi && RingAt(k, n) == i;
      RingDistinct(n, lo, k);
    }
  }

  /** The window is free to write, and the next outstanding block is where the downstream thread looks. */
  lemma WindowFree(c: Config, s: Sys)
    requires Inv(c, s)
    ensures !s.filled[s.a.w0.idx]
    ensures !s.waiting ==> !s.filled[s.a.w1.idx]
    ensures s.filled[ReadAt(c, s)] <==> s.consumed < |s.a.finals|
    ensures s.filled[s.a.w1.idx] ==> s.consumed < |s.a.finals|
  {
    var lo, hi := s.consumed, |s.a.finals|;
    SlotFree(c.nBlock, lo, hi, 0);
    if !s.waiting {
      SlotFree(c.nBlock, lo, hi, 1);
    }
    if lo < hi {
      assert Outstanding(c.nBlock, lo, hi, RingAt(lo, c.nBlock));
    }
  }

  lemma PacketInv(c: Config, s: Sys, pktSeq: nat)
    requires Inv(c, s) && !s.waiting
    ensures Inv(c, Next(c, s, Packet(pktSeq)))
  {
    var s' := Next(c, s, Packet(pktSeq));
    StepCyclic(c, s.a, pktSeq, BlockOf(c, pktSeq), IsFirst(c, pktSeq));
    RingBound(|s'.a.finals|, c.nBlock);
    RingBound(|s'.a.finals| + 1, c.nBlock);
    if |s'.a.finals| > |s.a.finals| {
      forall i: nat | i < c.nBlock
        ensures s'.filled[i] <==> Outstanding(c.nBlock, s'.consumed, |s'.a.finals|, i)
      {
        FillOutstanding(c.nBlock, s.consumed, |s.a.finals|, i);
      }
    }
  }

  /** With n - 1 blocks outstanding the next slot but one is still filled. */
  lemma AllTaken(lo: nat, n: nat)
    requires n >= 2
    ensures Outstanding(n, lo, lo + n - 1, RingAt(lo + n, n))
  {
    RingAhead(lo, n - 1, n);
    assert RingAt(lo + n, n) == RingNext(RingAt(lo + n - 1, n), n) == RingAt(lo, n);
  }

  lemma ResumeInv(c: Config, s: Sys)
    requires Inv(c, s) && Possible(c, s, Resume)
    ensures Inv(c, Next(c, s, Resume))
  {
    AllTaken(s.consumed, c.nBlock);
  }

  lemma ConsumeInv(c: Config, s: Sys)
    requires Inv(c, s) && Possible(c, s, Consume)
    ensures Inv(c, Next(c, s, Consume))
  {
    WindowFree(c, s);
    var s' := Next(c, s, Consume);
    forall i: nat | i < c.nBlock
      ensures s'.filled[i] <==> Outstanding(c.nBlock, s'.consumed, |s'.a.finals|, i)
    {
      ConsumeOutstanding(c.nBlock, s.consumed, |s.a.finals|, i);
    }
  }

  ghost predicate Start(c: Config, s: Sys) {
    && ValidConfig(c) && s.a == Open(s.a.statusSeq) && s.consumed == 0 && !s.waiting
    && |s.filled| == c.nBlock && forall i :: 0 <= i < |s.filled| ==> !s.filled[i]
  }

  ghost predicate Runs(c: Config, s: Sys, moves: seq<Move>, s': Sys)
    decreases |moves|
  {
    if moves == [] then s == s'
    else Fits(c, s) && Possible(c, s, moves[0]) && Runs(c, Next(c, s, moves[0]), moves[1..], s')
  }

  lemma {:induction false} RunsInv(c: Config, s: Sys, moves: seq<Move>, s': Sys)
    requires Inv(c, s) && Runs(c, s, moves, s')
    ensures Inv(c, s')
    decreases |moves|
  {
    if moves != [] {
      match moves[0] {
        case Packet(pktSeq) => PacketInv(c, s, pktSeq);
        case Resume => ResumeInv(c, s);
        case Consume => ConsumeInv(c, s);
      }
      RunsInv(c, Next(c, s, moves[0]), moves[1..], s');
    }
  }

  /**
   Under any interleaving no filled block is ever written or finalized again, blocks are taken downstream in the
   order they were finalized, and the wait is never a deadlock.
   */
  lemma NoOverrun(c: Config, s0: Sys, moves: seq<Move>, s: Sys)
    requires Start(c, s0) && Runs(c, s0, moves, s)
    ensures Fits(c, s)
    ensures !s.filled[s.a.w0.idx] && (!s.waiting ==> !s.filled[s.a.w1.idx])
    ensures Possible(c, s, Consume) <==> s.consumed < |s.a.finals|
    ensures Possible(c, s, Consume) ==> s.a.finals[s.consumed].info.idx == ReadAt(c, s)
    ensures s.waiting ==> Possible(c, s, Resume) || Possible(c, s, Consume)
  {
    assert RingAt(1, c.nBlock) == 1;
    RunsInv(c, s0, moves, s);
    WindowFree(c, s);
  }
}
