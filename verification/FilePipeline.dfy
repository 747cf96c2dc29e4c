/**
 Worker, file pool and writer together, under every interleaving of their critical sections.

 The worker hands over the blocks of a plan in turn and holds six buffers in between
 (full_custom/processing_thread.c:60-72, 157-193); the writer fetches, decides, and gives back or puts back
 (full_custom/file_thread.c:28-91).  No handed-over block is ever lost, duplicated or altered.
 */
module FilePipeline {
  import opened DataFormats
  import opened BufferPool
  import opened PoolProtocol
  import Recording
  import Writer

  const WORKER: nat := 0
  const WRITER: nat := 1

  type Block = Writer.Block

  /** What the writer has in its hands. */
  datatype Hand =
    | Nothing
    | Fetched(i: nat, b: Block)  // to be decided on
    | Keep(i: nat)               // written or discarded, buffer to be returned empty
    | Back(i: nat, b: Block)     // to be put back

  datatype Sys = Sys(pool: State<seq<byte>>, wr: Writer.State, hand: Hand, posted: nat, discarded: set<int>)

  datatype Move =
    | WorkerFetch | WorkerPost(i: nat) | WorkerToken
    | WriterToken | WriterTake | WriterDecide | WriterRelease | WriterPutBack | WriterPutToken

  /** The blocks the worker will hand over, in order; their orders are distinct. */
  ghost predicate PlanOk(plan: seq<Block>) {
    && (forall k :: 0 <= k < |plan| ==> 0 < plan[k].order < INT_MAX)
    && (forall i, j :: 0 <= i < j < |plan| ==> plan[i].order != plan[j].order)
  }

  /** The pool event of a move; WriterDecide has none. */
  ghost function EventOf(plan: seq<Block>, s: Sys, mv: Move): Event<seq<byte>>
    requires !mv.WriterDecide?
    requires mv.WorkerPost? ==> s.posted < |plan|
    requires mv.WriterRelease? ==> s.hand.Keep?
    requires mv.WriterPutBack? ==> s.hand.Back?
  {
    match mv
    case WorkerFetch => FetchEmpty(WORKER)
    case WorkerPost(i) => PostOrder(WORKER, i, plan[s.posted].order, plan[s.posted].d)
    case WorkerToken => PostToken(WORKER)
    case WriterToken => GrabToken(WRITER)
    case WriterTake => GrabLowest(WRITER)
    case WriterRelease => GiveBack(WRITER, s.hand.i)
    case WriterPutBack => PostOrder(WRITER, s.hand.i, s.hand.b.order, s.hand.b.d)
    case WriterPutToken => PostToken(WRITER)
  }

  ghost predicate Possible(plan: seq<Block>, s: Sys, mv: Move) {
    && |s.pool.threads| == 2
    && if mv.WriterDecide? then
         s.hand.Fetched? && s.hand.b.order > 0 && (s.wr.lastOrd != 0 ==> s.wr.files != [])
       else
         && Reached(plan, s, mv)
         && WellFormed(s.pool.sh)
         && Enabled(s.pool, EventOf(plan, s, mv))
  }

  /** The thread that moves has reached the point in its own program where it makes this call. */
  ghost predicate Reached(plan: seq<Block>, s: Sys, mv: Move)
    requires |s.pool.threads| == 2
  {
    var n := |s.pool.threads[WORKER].held|;
    && (mv.WorkerFetch? ==> n < N_FILE_BUFFERS_AT_A_TIME)
    && (mv.WorkerPost? ==> n == N_FILE_BUFFERS_AT_A_TIME && s.posted < |plan|)
    && (mv.WriterToken? || mv.WriterTake? || mv.WriterPutToken? ==> s.hand.Nothing?)
    && (mv.WriterRelease? ==> s.hand.Keep?)
    && (mv.WriterPutBack? ==> s.hand.Back?)
  }

  /** The block fetchBuffer delivers. */
  ghost function Delivered(sh: Shared<seq<byte>>): Hand
    requires WellFormed(sh)
  {
    var k := FindLowest(sh.orderNo);
    if k == -1 then Nothing else Fetched(k, Writer.Block(sh.orderNo[k], sh.data[k]))
  }

  ghost function Decide(s: Sys): Sys
    requires s.hand.Fetched? && s.hand.b.order > 0 && (s.wr.lastOrd != 0 ==> s.wr.files != [])
  {
    var r := Writer.Handle(s.wr, s.hand.b.order, s.hand.b.d);
    s.(wr := r.s,
       hand := if r.outcome == Writer.PutBack then Back(s.hand.i, s.hand.b) else Keep(s.hand.i),
       discarded := if r.outcome == Writer.Discarded then s.discarded + {s.hand.b.order} else s.discarded)
  }

  ghost function Step(plan: seq<Block>, s: Sys, mv: Move): Sys
    requires Possible(plan, s, mv)
  {
    if mv.WriterDecide? then Decide(s)
    else
      s.(pool := Next(s.pool, EventOf(plan, s, mv)),
         posted := if mv.WorkerPost? then s.posted + 1 else s.posted,
         hand := if mv.WriterTake? then Delivered(s.pool.sh)
                 else if mv.WriterRelease? || mv.WriterPutBack? then Nothing
                 else s.hand)
  }

  // Where a block is.

  /** The place of an order in the plan, or -1. */
  ghost function Lookup(plan: seq<Block>, o: int): (k: int)
    ensures -1 <= k < |plan|
    ensures k >= 0 ==> plan[k].order == o
    ensures k == -1 <==> forall i :: 0 <= i < |plan| ==> plan[i].order != o
  {
    if plan == [] then -1
    else if plan[|plan| - 1].order == o then |plan| - 1
    else Lookup(plan[..|plan| - 1], o)
  }

  ghost predicate Posted(plan: seq<Block>, s: Sys, o: int) {
    0 <= Lookup(plan, o) < s.posted
  }

  ghost predicate IsWritten(s: Sys, o: int) { o in Writer.Written(s.wr.files) }

  ghost predicate IsDiscarded(s: Sys, o: int) { o in s.discarded }

  ghost predicate IsReady(s: Sys, o: int) { o > 0 && o in s.pool.sh.orderNo }

  ghost predicate InHand(s: Sys, o: int) {
    (s.hand.Fetched? || s.hand.Back?) && s.hand.b.order == o
  }

  ghost function Places(s: Sys, o: int): int {
    Bit(IsWritten(s, o)) + Bit(IsDiscarded(s, o)) + Bit(IsReady(s, o)) + Bit(InHand(s, o))
  }

  /**
   Every handed-over order is in exactly one of: written, discarded, ready, in the writer's hands; no other order
   is anywhere.
   */
  ghost predicate Conserved(plan: seq<Block>, s: Sys) {
    && DistinctReady(s.pool.sh.orderNo)
    && (forall o :: o > 0 ==> Places(s, o) == Bit(Posted(plan, s, o)))
    && (forall o :: o in s.discarded ==> 0 < o <= s.wr.lastOrd)
  }

  /** The bytes of the given orders, end to end. */
  ghost function Joined(plan: seq<Block>, orders: seq<int>): seq<byte>
    requires forall i :: 0 <= i < |orders| ==> Lookup(plan, orders[i]) >= 0
  {
    if orders == [] then []
    else Joined(plan, orders[..|orders| - 1]) + plan[Lookup(plan, orders[|orders| - 1])].d
  }

  ghost predicate Carries(plan: seq<Block>, o: int, d: seq<byte>) {
    Lookup(plan, o) >= 0 && plan[Lookup(plan, o)].d == d
  }

  ghost predicate FileIntact(plan: seq<Block>, f: Writer.File) {
    (forall i :: 0 <= i < |f.orders| ==> Lookup(plan, f.orders[i]) >= 0) && f.data == Joined(plan, f.orders)
  }

  /** Contents arrive in the files as the worker handed them over. */
  ghost predicate Intact(plan: seq<Block>, s: Sys) {
    && WellFormed(s.pool.sh)
    && (forall i :: 0 <= i < |s.pool.sh.orderNo| && s.pool.sh.orderNo[i] > 0 ==>
          Carries(plan, s.pool.sh.orderNo[i], s.pool.sh.data[i]))
    && (s.hand.Fetched? || s.hand.Back? ==> Carries(plan, s.hand.b.order, s.hand.b.d) && s.hand.b.order > 0)
    && FilesIntact(plan, s.wr.files)
  }

  /** The two threads' positions. */
  ghost predicate Threads(s: Sys) {
    && Inv(s.pool) && |s.pool.threads| == 2
    && |s.pool.sh.orderNo| == N_FILE_BUFFERS
    && |s.pool.threads[WORKER].held| <= N_FILE_BUFFERS_AT_A_TIME
    && s.pool.threads[WORKER].pc != HasToken
    && s.pool.threads[WRITER].held == (if s.hand.Nothing? then {} else {s.hand.i})
    && (!s.hand.Nothing? ==> s.pool.threads[WRITER].pc == Idle)
  }

  ghost predicate SysInv(h: Recording.Header, plan: seq<Block>, s: Sys) {
    && Threads(s)
    && Writer.FilesOk(s.wr) && Writer.StartsOk(h, s.wr)
    && Conserved(plan, s)
    && Intact(plan, s)
    && s.posted <= |plan|
  }

  ghost predicate SysStart(h: Recording.Header, s: Sys) {
    && Start(s.pool) && |s.pool.threads| == 2 && |s.pool.sh.orderNo| == N_FILE_BUFFERS
    && s.wr == Writer.Init(h) && s.hand == Nothing && s.posted == 0 && s.discarded == {}
  }

  lemma StartHolds(h: Recording.Header, plan: seq<Block>, s: Sys)
    requires SysStart(h, s)
    ensures SysInv(h, plan, s)
  {
    StartInv(s.pool);
    forall o | o > 0 ensures Places(s, o) == Bit(Posted(plan, s, o)) {
    }
  }

  // Step by step.

  lemma MemberAfter(no: seq<int>, i: nat, v: int, o: int)
    requires o > 0 && i < |no| && DistinctReady(no)
    ensures o in no[i := v] <==> o == v || (o in no && no[i] != o)
  {
    var no' := no[i := v];
    if o == v {
      assert no'[i] == o;
    }
    if o in no && no[i] != o {
      var j :| 0 <= j < |no| && no[j] == o;
      assert no'[j] == o;
    }
    if o in no' && o != v {
      var j :| 0 <= j < |no'| && no'[j] == o;
      assert no[j] == o;
    }
  }

  /** One slot changes its order number from u to v. */
  lemma ReadyAfter(s: Sys, s': Sys, i: nat, v: int)
    requires i < |s.pool.sh.orderNo| && DistinctReady(s.pool.sh.orderNo)
    requires s'.pool.sh.orderNo == s.pool.sh.orderNo[i := v]
    requires v > 0 ==> !IsReady(s, v) || s.pool.sh.orderNo[i] == v
    ensures DistinctReady(s'.pool.sh.orderNo)
    ensures forall o :: o > 0 ==> (IsReady(s', o) <==> o == v || (IsReady(s, o) && s.pool.sh.orderNo[i] != o))
  {
    forall o | o > 0 ensures IsReady(s', o) <==> o == v || (IsReady(s, o) && s.pool.sh.orderNo[i] != o) {
      MemberAfter(s.pool.sh.orderNo, i, v, o);
    }
  }

  lemma WorkerThreads(plan: seq<Block>, s: Sys, mv: Move)
    requires PlanOk(plan) && Threads(s) && Possible(plan, s, mv)
    requires mv.WorkerFetch? || mv.WorkerPost? || mv.WorkerToken?
    ensures Threads(Step(plan, s, mv))
  {
    StepInv(s.pool, EventOf(plan, s, mv));
  }

  lemma WriterThreads(plan: seq<Block>, s: Sys, mv: Move)
    requires Threads(s) && Possible(plan, s, mv) && !mv.WorkerFetch? && !mv.WorkerPost? && !mv.WorkerToken?
    requires s.hand.Back? ==> s.hand.b.order < INT_MAX
    ensures Threads(Step(plan, s, mv))
  {
    if mv.WriterTake? {
      TakeThreads(plan, s);
    } else if mv.WriterRelease? || mv.WriterPutBack? {
      ReturnThreads(plan, s, mv);
    } else if !mv.WriterDecide? {
      StepInv(s.pool, EventOf(plan, s, mv));
    }
  }

  lemma TakeThreads(plan: seq<Block>, s: Sys)
    requires Threads(s) && Possible(plan, s, WriterTake)
    ensures Threads(Step(plan, s, WriterTake))
  {
    StepInv(s.pool, GrabLowest(WRITER));
    LowestExists(s.pool, WRITER);
  }

  lemma ReturnThreads(plan: seq<Block>, s: Sys, mv: Move)
    requires Threads(s) && Possible(plan, s, mv) && (mv.WriterRelease? || mv.WriterPutBack?)
    requires s.hand.Back? ==> s.hand.b.order < INT_MAX
    ensures Threads(Step(plan, s, mv))
  {
    StepInv(s.pool, EventOf(plan, s, mv));
  }

  lemma LookupAt(plan: seq<Block>, k: nat)
    requires PlanOk(plan) && k < |plan|
    ensures Lookup(plan, plan[k].order) == k
  {
  }

  /** The worker posts the next block of the plan: one more order is posted, and it is ready. */
  lemma PostConserves(plan: seq<Block>, s: Sys, i: nat)
    requires PlanOk(plan) && Threads(s) && Conserved(plan, s) && Possible(plan, s, WorkerPost(i))
    ensures Conserved(plan, Step(plan, s, WorkerPost(i)))
  {
    var s' := Step(plan, s, WorkerPost(i));
    var v := plan[s.posted].order;
    assert Holds(s.pool.threads, WORKER, i);
    LookupAt(plan, s.posted);
    assert Places(s, v) == 0;
    ReadyAfter(s, s', i, v);
    forall o | o > 0 ensures Places(s', o) == Bit(Posted(plan, s', o)) {
      assert Places(s, o) == Bit(Posted(plan, s, o));
      if Lookup(plan, o) == s.posted { assert o == v; }
    }
  }

  /** Fetching moves the lowest ready order into the writer's hands. */
  lemma TakeConserves(plan: seq<Block>, s: Sys)
    requires Threads(s) && Conserved(plan, s) && Possible(plan, s, WriterTake)
    ensures Conserved(plan, Step(plan, s, WriterTake))
  {
    var s' := Step(plan, s, WriterTake);
    LowestExists(s.pool, WRITER);
    var k := FindLowest(s.pool.sh.orderNo);
    ReadyAfter(s, s', k, IN_USE);
    forall o | o > 0 ensures Places(s', o) == Bit(Posted(plan, s', o)) {
      assert Places(s, o) == Bit(Posted(plan, s, o));
      assert s.pool.sh.orderNo[k] in s.pool.sh.orderNo;
    }
  }

  lemma WrittenAfter(s: Sys, o: int)
    requires Writer.FilesOk(s.wr) && s.hand.Fetched? && s.hand.b.order > 0
    ensures IsWritten(Decide(s), o) <==>
            IsWritten(s, o)
            || (o == s.hand.b.order && Writer.Handle(s.wr, s.hand.b.order, s.hand.b.d).outcome == Writer.Wrote)
  {
    Writer.HandleWritten(s.wr, s.hand.b.order, s.hand.b.d);
  }

  lemma DecidePlaces(s: Sys, o: int)
    requires Possible([], s, WriterDecide) && Places(s, s.hand.b.order) <= 1
    requires IsWritten(Decide(s), o) <==>
             IsWritten(s, o)
             || (o == s.hand.b.order && Writer.Handle(s.wr, s.hand.b.order, s.hand.b.d).outcome == Writer.Wrote)
    ensures Places(Decide(s), o) == Places(s, o)
  {
    var s' := Decide(s);
    assert IsReady(s', o) == IsReady(s, o);
    if o != s.hand.b.order {
      assert !InHand(s, o) && !InHand(s', o);
      assert IsDiscarded(s', o) == IsDiscarded(s, o);
    } else {
      assert InHand(s, o) && !IsWritten(s, o) && !IsDiscarded(s, o);
    }
  }

  /** Deciding moves it from the hands to written or discarded, or leaves it there. */
  lemma DecideConserves(plan: seq<Block>, s: Sys)
    requires Writer.FilesOk(s.wr) && Conserved(plan, s) && Possible(plan, s, WriterDecide)
    ensures Conserved(plan, Step(plan, s, WriterDecide))
  {
    var s' := Step(plan, s, WriterDecide);
    Writer.HandleWritten(s.wr, s.hand.b.order, s.hand.b.d);
    assert Places(s, s.hand.b.order) <= 1;
    forall o | o > 0 ensures Places(s', o) == Bit(Posted(plan, s', o)) {
      WrittenAfter(s, o);
      DecidePlaces(s, o);
      assert Posted(plan, s', o) == Posted(plan, s, o);
    }
  }

  /** Putting back moves it from the hands to the ready slots. */
  lemma PutBackConserves(plan: seq<Block>, s: Sys)
    requires Threads(s) && Conserved(plan, s) && Possible(plan, s, WriterPutBack)
    ensures Conserved(plan, Step(plan, s, WriterPutBack))
  {
    var s' := Step(plan, s, WriterPutBack);
    var v := s.hand.b.order;
    assert Holds(s.pool.threads, WRITER, s.hand.i);
    assert Places(s, v) == Bit(Posted(plan, s, v));
    ReadyAfter(s, s', s.hand.i, v);
    forall o | o > 0 ensures Places(s', o) == Bit(Posted(plan, s', o)) {
      assert Places(s, o) == Bit(Posted(plan, s, o));
    }
  }

  /** The other moves touch no ready slot. */
  lemma QuietConserves(plan: seq<Block>, s: Sys, mv: Move)
    requires Threads(s) && Conserved(plan, s) && Possible(plan, s, mv)
    requires mv.WorkerFetch? || mv.WorkerToken? || mv.WriterToken? || mv.WriterRelease? || mv.WriterPutToken?
    ensures Conserved(plan, Step(plan, s, mv))
  {
    var s' := Step(plan, s, mv);
    var no := s.pool.sh.orderNo;
    if mv.WorkerFetch? && FindEmpty(no) >= 0 {
      ReadyAfter(s, s', FindEmpty(no), IN_USE);
    } else if mv.WriterRelease? {
      assert Holds(s.pool.threads, WRITER, s.hand.i);
      ReadyAfter(s, s', s.hand.i, EMPTY);
    }
    forall o | o > 0 ensures Places(s', o) == Bit(Posted(plan, s', o)) {
      assert Places(s, o) == Bit(Posted(plan, s, o));
    }
  }

  // Contents.

  lemma JoinedSnoc(plan: seq<Block>, f: Writer.File, order: int, d: seq<byte>)
    requires FileIntact(plan, f) && Carries(plan, order, d)
    ensures FileIntact(plan, f.(orders := f.orders + [order], data := f.data + d))
  {
    assert (f.orders + [order])[..|f.orders|] == f.orders;
  }

  ghost predicate FilesIntact(plan: seq<Block>, files: seq<Writer.File>) {
    forall f :: 0 <= f < |files| ==> FileIntact(plan, files[f])
  }

  lemma ExtendIntact(plan: seq<Block>, files: seq<Writer.File>, o: int, d: seq<byte>)
    requires files != [] && FilesIntact(plan, files) && Carries(plan, o, d)
    ensures FilesIntact(plan, Writer.Extended(files, o, d))
  {
    JoinedSnoc(plan, files[|files| - 1], o, d);
  }

  lemma DecideIntact(plan: seq<Block>, s: Sys)
    requires Intact(plan, s) && Possible(plan, s, WriterDecide)
    ensures Intact(plan, Step(plan, s, WriterDecide))
  {
    var o, d := s.hand.b.order, s.hand.b.d;
    Writer.WroteExtends(s.wr, o, d);
    if Writer.Handle(s.wr, o, d).outcome == Writer.Wrote {
      var base := Writer.Target(s.wr, o, d);
      assert FilesIntact(plan, base);
      ExtendIntact(plan, base, o, d);
    }
  }

  lemma PoolIntact(plan: seq<Block>, s: Sys, mv: Move)
    requires PlanOk(plan) && Intact(plan, s) && Possible(plan, s, mv) && !mv.WriterDecide?
    ensures Intact(plan, Step(plan, s, mv))
  {
    var s' := Step(plan, s, mv);
    if mv.WorkerPost? {
      LookupAt(plan, s.posted);
    }
    var no, no' := s.pool.sh.orderNo, s'.pool.sh.orderNo;
    forall i | 0 <= i < |no'| && no'[i] > 0 ensures Carries(plan, no'[i], s'.pool.sh.data[i]) {
      assert no'[i] == no[i] || (mv.WorkerPost? && i == mv.i) || (mv.WriterPutBack? && i == s.hand.i);
    }
  }

  /** Every move keeps everything. */
  lemma StepKeeps(h: Recording.Header, plan: seq<Block>, s: Sys, mv: Move)
    requires PlanOk(plan) && SysInv(h, plan, s) && Possible(plan, s, mv)
    ensures SysInv(h, plan, Step(plan, s, mv))
  {
    match mv {
      case WorkerPost(i) => PostConserves(plan, s, i);
      case WriterTake => TakeConserves(plan, s);
      case WriterDecide =>
        DecideConserves(plan, s);
        Writer.HandleFiles(s.wr, s.hand.b.order, s.hand.b.d);
        Writer.HandleStarts(h, s.wr, s.hand.b.order, s.hand.b.d);
      case WriterPutBack => PutBackConserves(plan, s);
      case _ => QuietConserves(plan, s, mv);
    }
    if mv.WriterDecide? { DecideIntact(plan, s); } else { PoolIntact(plan, s, mv); }
    assert s.hand.Back? ==> s.hand.b.order < INT_MAX by {
      assert s.hand.Back? ==> Carries(plan, s.hand.b.order, s.hand.b.d);
    }
    if mv.WorkerFetch? || mv.WorkerPost? || mv.WorkerToken? {
      WorkerThreads(plan, s, mv);
    } else {
      WriterThreads(plan, s, mv);
    }
  }

  ghost predicate RunTo(plan: seq<Block>, s: Sys, mvs: seq<Move>, s': Sys)
    decreases |mvs|
  {
    if mvs == [] then s == s'
    else Possible(plan, s, mvs[0]) && RunTo(plan, Step(plan, s, mvs[0]), mvs[1..], s')
  }

  lemma {:induction false} RunKeeps(h: Recording.Header, plan: seq<Block>, s: Sys, mvs: seq<Move>, s': Sys)
    requires PlanOk(plan) && SysInv(h, plan, s) && RunTo(plan, s, mvs, s')
    ensures SysInv(h, plan, s')
    decreases |mvs|
  {
    if mvs != [] {
      StepKeeps(h, plan, s, mvs[0]);
      RunKeeps(h, plan, Step(plan, s, mvs[0]), mvs[1..], s');
    }
  }

  ghost predicate Reachable(h: Recording.Header, plan: seq<Block>, s: Sys) {
    exists s0, mvs :: SysStart(h, s0) && RunTo(plan, s0, mvs, s)
  }

  /**
   Conservation.  In every reachable state each of the blocks handed over so far is in exactly one place -
   written, discarded, ready in one slot, or in the writer's hands - and each file's data are the blocks of
   its orders, as handed over, end to end.
   */
  lemma Conservation(h: Recording.Header, plan: seq<Block>, s: Sys)
    requires PlanOk(plan) && Reachable(h, plan, s)
    ensures SysInv(h, plan, s)
    ensures forall k :: 0 <= k < s.posted ==> Places(s, plan[k].order) == 1
    ensures forall k :: s.posted <= k < |plan| ==> Places(s, plan[k].order) == 0
    ensures FilesIntact(plan, s.wr.files)
  {
    var s0, mvs :| SysStart(h, s0) && RunTo(plan, s0, mvs, s);
    StartHolds(h, plan, s0);
    RunKeeps(h, plan, s0, mvs, s);
    forall k | 0 <= k < |plan| ensures Places(s, plan[k].order) == Bit(k < s.posted) {
      LookupAt(plan, k);
    }
  }
}
