/**
 The worker's wait for an empty file buffer ends (full_custom/processing_thread.c:159, 186).

 While no buffer is empty only the writer can change anything; it can always move, and each of its moves
 lowers a rank until one empties a buffer.  So the wait ends within a fixed number of writer moves,
 however the scheduler interleaves them with the worker's polling.
 */
module Progress {
  import opened DataFormats
  import opened BufferPool
  import opened PoolProtocol
  import opened FilePipeline
  import Pieces
  import Recording
  import Writer

  /** Block 1 is among the first six handed over: the worker's oldest-first rule. */
  ghost predicate FirstSoon(plan: seq<Block>) {
    |plan| >= N_FILE_BUFFERS_AT_A_TIME ==>
      exists k :: 0 <= k < N_FILE_BUFFERS_AT_A_TIME && plan[k].order == 1
  }

  /** The worker polls for an empty buffer and there is none. */
  ghost predicate Blocked(s: Sys) {
    && |s.pool.threads| == 2
    && s.pool.threads[WORKER].pc == Idle
    && |s.pool.threads[WORKER].held| < N_FILE_BUFFERS_AT_A_TIME
    && EMPTY !in s.pool.sh.orderNo
  }

  // Counting buffers.

  ghost function InUse(no: seq<int>): set<nat> {
    set i: nat | i < |no| && no[i] == IN_USE
  }

  lemma {:induction false} AllSlots(no: seq<int>)
    requires forall i :: 0 <= i < |no| ==> no[i] > 0 || no[i] == IN_USE
    ensures |Ready(no)| + |InUse(no)| == |no|
  {
    if no != [] {
      var n := |no| - 1;
      var init := no[..n];
      AllSlots(init);
      if no[n] > 0 {
        assert Ready(no) == Ready(init) + {n};
        assert InUse(no) == InUse(init);
      } else {
        assert InUse(no) == InUse(init) + {n};
        assert Ready(no) == Ready(init);
      }
    }
  }

  /** With no empty buffer, at least fourteen are ready. */
  lemma ManyReady(s: Sys)
    requires Threads(s) && Blocked(s)
    ensures |Ready(s.pool.sh.orderNo)| >= N_FILE_BUFFERS - N_FILE_BUFFERS_AT_A_TIME
  {
    var no := s.pool.sh.orderNo;
    var a, b := s.pool.threads[WORKER].held, s.pool.threads[WRITER].held;
    forall i | 0 <= i < |no| ensures no[i] > 0 || no[i] == IN_USE {
      assert no[i] in no;
    }
    AllSlots(no);
    forall i: nat | i in InUse(no) ensures i in a + b {
      var t: nat :| Holds(s.pool.threads, t, i);
    }
    assert InUse(no) <= a + b;
    Pieces.SubsetSize(InUse(no), a + b);
    assert |a + b| <= |a| + |b|;
  }

  /** The places in the plan of the orders in the given slots. */
  ghost function PlanIndices(plan: seq<Block>, no: seq<int>, slots: set<nat>): set<int>
    requires forall i :: i in slots ==> i < |no|
  {
    set i | i in slots :: Lookup(plan, no[i])
  }

  lemma {:induction false} PlanIndicesSize(plan: seq<Block>, no: seq<int>, slots: set<nat>)
    requires DistinctReady(no)
    requires forall i :: i in slots ==> i < |no| && no[i] > 0 && Lookup(plan, no[i]) >= 0
    ensures |PlanIndices(plan, no, slots)| == |slots|
    decreases slots
  {
    if slots != {} {
      var i :| i in slots;
      var rest := slots - {i};
      PlanIndicesSize(plan, no, rest);
      var k := Lookup(plan, no[i]);
      assert PlanIndices(plan, no, slots) == PlanIndices(plan, no, rest) + {k};
      assert k !in PlanIndices(plan, no, rest);
    }
  }

  lemma {:induction false} BelowSize(s: set<int>, n: nat)
    requires forall x :: x in s ==> 0 <= x < n
    ensures |s| <= n
  {
    if n == 0 {
      assert forall x :: x !in s;
    } else {
      BelowSize(s - {n - 1}, n - 1);
    }
  }

  /** Each ready buffer carries a different block of the plan, already posted. */
  lemma ReadyWerePosted(plan: seq<Block>, s: Sys)
    requires Threads(s) && Conserved(plan, s)
    ensures |Ready(s.pool.sh.orderNo)| <= s.posted
  {
    var no := s.pool.sh.orderNo;
    forall i | 0 <= i < |no| && no[i] > 0 ensures 0 <= Lookup(plan, no[i]) < s.posted {
      assert IsReady(s, no[i]);
      assert Places(s, no[i]) == Bit(Posted(plan, s, no[i]));
    }
    PlanIndicesSize(plan, no, Ready(no));
    BelowSize(PlanIndices(plan, no, Ready(no)), s.posted);
  }

  /** If nothing has been written while the worker waits, block 1 is in the pool or in the writer's hands. */
  lemma FirstIsThere(plan: seq<Block>, s: Sys)
    requires PlanOk(plan) && FirstSoon(plan) && s.posted <= |plan|
    requires Threads(s) && Conserved(plan, s) && Writer.FilesOk(s.wr) && Blocked(s) && s.wr.lastOrd == 0
    ensures IsReady(s, 1) || InHand(s, 1)
  {
    ManyReady(s);
    ReadyWerePosted(plan, s);
    var k :| 0 <= k < N_FILE_BUFFERS_AT_A_TIME && plan[k].order == 1;
    LookupAt(plan, k);
    assert Places(s, 1) == 1;
    assert s.wr.files == [];
  }

  // The writer's moves.

  ghost function WriterNext(s: Sys): Move
    requires |s.pool.threads| == 2
  {
    match s.hand
    case Nothing =>
      (match s.pool.threads[WRITER].pc
       case Idle => WriterToken
       case HasToken => WriterTake
       case Posting => WriterPutToken)
    case Fetched(_, _) => WriterDecide
    case Keep(_) => WriterRelease
    case Back(_, _) => WriterPutBack
  }

  ghost predicate IsWriterMove(mv: Move) {
    !mv.WorkerFetch? && !mv.WorkerPost? && !mv.WorkerToken?
  }

  /** The writer is never stuck while the worker waits. */
  lemma WriterCanMove(plan: seq<Block>, s: Sys)
    requires Threads(s) && Writer.FilesOk(s.wr) && Intact(plan, s) && Blocked(s)
    ensures Possible(plan, s, WriterNext(s))
  {
    if s.hand.Nothing? && s.pool.threads[WRITER].pc == Idle {
      ManyReady(s);
      assert At(s.pool.threads, HasToken) == {};
      assert At(s.pool.threads, Posting) == {};
    }
    if s.hand.Keep? || s.hand.Back? {
      assert Holds(s.pool.threads, WRITER, s.hand.i);
    }
  }

  /** How far the writer is from emptying a buffer. */
  ghost function Rank(s: Sys): nat
    requires |s.pool.threads| == 2
  {
    var phase := match s.hand
                 case Keep(_) => 0
                 case Fetched(_, b) => if s.wr.lastOrd == 0 && b.order != 1 then 6 else 1
                 case Back(_, _) => 5
                 case Nothing => (match s.pool.threads[WRITER].pc
                                  case HasToken => 2
                                  case Idle => 3
                                  case Posting => 4);
    if s.hand.Keep? || s.wr.lastOrd == 0 || s.wr.nMisses > MAX_ORDER_MISSES then phase
    else 6 * (MAX_ORDER_MISSES + 1 - s.wr.nMisses) + phase
  }

  /** A slot changes from one non-empty state to another. */
  lemma StillNoneEmpty(no: seq<int>, i: nat, v: int)
    requires EMPTY !in no && i < |no| && v != EMPTY
    ensures EMPTY !in no[i := v]
  {
    var no' := no[i := v];
    forall j | 0 <= j < |no'| ensures no'[j] != EMPTY {
      assert no[j] in no;
    }
  }

  /** The writer's next block is block 1 if it has written none yet. */
  lemma FirstIsTaken(plan: seq<Block>, s: Sys)
    requires PlanOk(plan) && FirstSoon(plan) && s.posted <= |plan|
    requires Threads(s) && Conserved(plan, s) && Writer.FilesOk(s.wr) && Blocked(s) && Possible(plan, s, WriterTake)
    ensures var no := s.pool.sh.orderNo;
            FindLowest(no) >= 0 && (s.wr.lastOrd == 0 ==> no[FindLowest(no)] == 1)
  {
    var no := s.pool.sh.orderNo;
    LowestExists(s.pool, WRITER);
    if s.wr.lastOrd == 0 {
      FirstIsThere(plan, s);
      var j :| 0 <= j < |no| && no[j] == 1;
      assert no[FindLowest(no)] <= no[j];
    }
  }

  lemma TakeLowers(plan: seq<Block>, s: Sys)
    requires PlanOk(plan) && FirstSoon(plan) && s.posted <= |plan|
    requires Threads(s) && Conserved(plan, s) && Writer.FilesOk(s.wr) && Blocked(s) && Possible(plan, s, WriterTake)
    ensures var s' := Step(plan, s, WriterTake); Blocked(s') && Rank(s') < Rank(s)
  {
    var no := s.pool.sh.orderNo;
    FirstIsTaken(plan, s);
    StillNoneEmpty(no, FindLowest(no), IN_USE);
  }

  lemma DecideLowers(plan: seq<Block>, s: Sys)
    requires Writer.FilesOk(s.wr) && Blocked(s) && Possible(plan, s, WriterDecide)
    ensures var s' := Step(plan, s, WriterDecide); Blocked(s') && Rank(s') < Rank(s)
  {
  }

  lemma PutBackLowers(plan: seq<Block>, s: Sys)
    requires Writer.FilesOk(s.wr) && Blocked(s) && Possible(plan, s, WriterPutBack)
    ensures var s' := Step(plan, s, WriterPutBack); Blocked(s') && Rank(s') < Rank(s)
  {
    StillNoneEmpty(s.pool.sh.orderNo, s.hand.i, s.hand.b.order);
  }

  lemma TokenLowers(plan: seq<Block>, s: Sys, mv: Move)
    requires Writer.FilesOk(s.wr) && Blocked(s) && Possible(plan, s, mv) && (mv.WriterToken? || mv.WriterPutToken?)
    ensures var s' := Step(plan, s, mv); Blocked(s') && Rank(s') < Rank(s)
  {
  }

  lemma ReleaseEmpties(plan: seq<Block>, s: Sys)
    requires Possible(plan, s, WriterRelease)
    ensures EMPTY in Step(plan, s, WriterRelease).pool.sh.orderNo
  {
    assert Step(plan, s, WriterRelease).pool.sh.orderNo[s.hand.i] == EMPTY;
  }

  lemma PollChangesNothing(plan: seq<Block>, s: Sys)
    requires Blocked(s) && Possible(plan, s, WorkerFetch)
    ensures Step(plan, s, WorkerFetch) == s
  {
    assert FindEmpty(s.pool.sh.orderNo) == -1;
  }

  /** A poll by the worker changes nothing; a move of the writer empties a buffer or lowers the rank. */
  lemma BlockedMove(h: Recording.Header, plan: seq<Block>, s: Sys, mv: Move)
    requires PlanOk(plan) && FirstSoon(plan) && SysInv(h, plan, s) && Blocked(s) && Possible(plan, s, mv)
    ensures mv == WorkerFetch ==> Step(plan, s, mv) == s
    ensures mv != WorkerFetch ==>
              var s' := Step(plan, s, mv);
              EMPTY in s'.pool.sh.orderNo || (Blocked(s') && Rank(s') < Rank(s))
  {
    match mv {
      case WorkerFetch => PollChangesNothing(plan, s);
      case WriterTake => TakeLowers(plan, s);
      case WriterDecide => DecideLowers(plan, s);
      case WriterRelease => ReleaseEmpties(plan, s);
      case WriterPutBack => PutBackLowers(plan, s);
      case WriterToken => TokenLowers(plan, s, mv);
      case WriterPutToken => TokenLowers(plan, s, mv);
      case _ =>
    }
  }

  ghost function WriterMoves(mvs: seq<Move>): nat {
    if mvs == [] then 0 else (if IsWriterMove(mvs[0]) then 1 else 0) + WriterMoves(mvs[1..])
  }

  /** Every state on the way is blocked. */
  ghost predicate StaysBlocked(plan: seq<Block>, s: Sys, mvs: seq<Move>)
    decreases |mvs|
  {
    && Blocked(s)
    && (mvs == [] || (Possible(plan, s, mvs[0]) && StaysBlocked(plan, Step(plan, s, mvs[0]), mvs[1..])))
  }

  lemma {:induction false} WaitIsBounded(h: Recording.Header, plan: seq<Block>, s: Sys, mvs: seq<Move>)
    requires PlanOk(plan) && FirstSoon(plan) && SysInv(h, plan, s) && StaysBlocked(plan, s, mvs)
    ensures WriterMoves(mvs) <= Rank(s)
    decreases |mvs|
  {
    if mvs != [] {
      var s' := Step(plan, s, mvs[0]);
      BlockedMove(h, plan, s, mvs[0]);
      StepKeeps(h, plan, s, mvs[0]);
      WaitIsBounded(h, plan, s', mvs[1..]);
    }
  }

  /**
   Progress.  From any reachable state in which the worker waits: the writer can move, and any
   continuation in which no buffer becomes empty contains at most 6 * 202 writer moves.
   */
  lemma WaitEnds(h: Recording.Header, plan: seq<Block>, s: Sys, mvs: seq<Move>)
    requires PlanOk(plan) && FirstSoon(plan) && Reachable(h, plan, s) && StaysBlocked(plan, s, mvs)
    ensures Possible(plan, s, WriterNext(s)) && IsWriterMove(WriterNext(s))
    ensures WriterMoves(mvs) <= 6 * (MAX_ORDER_MISSES + 2)
  {
    Conservation(h, plan, s);
    WriterCanMove(plan, s);
    WaitIsBounded(h, plan, s, mvs);
  }
}
