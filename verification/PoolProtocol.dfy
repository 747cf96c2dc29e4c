/**
 The pool under concurrency (full_custom/common.c:67-166): any number of threads, any
 interleaving of the critical sections.  returnBuffer holds the data mutex across two updates and
 fetchBuffer uses the two mutexes one after the other, so a thread can stop in the middle of
 either; `Pc` records where.
 */
module PoolProtocol {
  import opened BufferPool

  datatype Pc =
    | Idle      // outside the pool
    | HasToken  // fetchBuffer, between its two locks
    | Posting   // returnBuffer, data mutex held, between its two updates

  datatype Thread = Thread(held: set<nat>, pc: Pc)

  datatype State<D> = State(sh: Shared<D>, threads: seq<Thread>)

  datatype Event<D> =
    | FetchEmpty(t: nat)
    | PostOrder(t: nat, i: nat, order: int, d: D)
    | PostToken(t: nat)
    | GrabToken(t: nat)
    | GrabLowest(t: nat)
    | GiveBack(t: nat, i: nat)

  ghost predicate MutexFree(threads: seq<Thread>) {
    forall t :: 0 <= t < |threads| ==> threads[t].pc != Posting
  }

  /** A thread returns only what it holds, and the mutexes are respected. */
  ghost predicate Enabled<D>(s: State<D>, e: Event<D>) {
    && e.t < |s.threads|
    && var th := s.threads[e.t];
       match e
       case FetchEmpty(_) => th.pc == Idle && MutexFree(s.threads)
       case PostOrder(_, i, order, _) =>
         && th.pc == Idle && MutexFree(s.threads) && i in th.held && order > 0
         && WellFormed(s.sh) && i < |s.sh.orderNo|
       case PostToken(_) => th.pc == Posting
       case GrabToken(_) => th.pc == Idle && s.sh.nReady > 0
       case GrabLowest(_) => th.pc == HasToken && MutexFree(s.threads)
       case GiveBack(_, i) =>
         th.pc == Idle && MutexFree(s.threads) && i in th.held && i < |s.sh.orderNo|
  }

  /** A successful search puts the slot in the thread's hands. */
  function Hold(th: Thread, i: int): Thread {
    if i < 0 then th.(pc := Idle) else Thread(th.held + {i}, Idle)
  }

  ghost function Next<D>(s: State<D>, e: Event<D>): State<D>
    requires Enabled(s, e)
  {
    var th := s.threads[e.t];
    match e
    case FetchEmpty(t) =>
      State(TakeEmpty(s.sh), s.threads[t := Hold(th, FindEmpty(s.sh.orderNo))])
    case PostOrder(t, i, order, d) =>
      State(Publish(s.sh, i, order, d), s.threads[t := Thread(th.held - {i}, Posting)])
    case PostToken(t) =>
      State(Count(s.sh), s.threads[t := th.(pc := Idle)])
    case GrabToken(t) =>
      State(TakeToken(s.sh), s.threads[t := th.(pc := HasToken)])
    case GrabLowest(t) =>
      State(TakeLowest(s.sh), s.threads[t := Hold(th, FindLowest(s.sh.orderNo))])
    case GiveBack(t, i) =>
      State(Release(s.sh, i), s.threads[t := th.(held := th.held - {i})])
  }

  // What the counter counts.

  ghost function Ready(no: seq<int>): set<nat> {
    set i: nat | i < |no| && no[i] > 0
  }

  /** No two slots are ready with the same order. */
  ghost predicate DistinctReady(no: seq<int>) {
    forall i, j :: 0 <= i < |no| && 0 <= j < |no| && no[i] > 0 && no[i] == no[j] ==> i == j
  }

  ghost function At(threads: seq<Thread>, pc: Pc): set<nat> {
    set t: nat | t < |threads| && threads[t].pc == pc
  }

  ghost predicate Holds(threads: seq<Thread>, t: nat, i: nat) {
    t < |threads| && i in threads[t].held
  }

  /** Each slot is empty, ready, or in the hands of exactly one thread. */
  ghost predicate Ownership<D>(s: State<D>) {
    && WellFormed(s.sh)
    && (forall i :: 0 <= i < |s.sh.orderNo| ==> -1 <= s.sh.orderNo[i])
    && (forall t: nat, i: nat :: Holds(s.threads, t, i) ==> i < |s.sh.orderNo| && s.sh.orderNo[i] == IN_USE)
    && (forall i: nat :: i < |s.sh.orderNo| && s.sh.orderNo[i] == IN_USE ==>
          exists t: nat :: Holds(s.threads, t, i))
    && (forall t: nat, u: nat, i: nat :: Holds(s.threads, t, i) && Holds(s.threads, u, i) ==> t == u)
  }

  /** Ready slots = counter + fetchers between their locks + a returner between its updates + tokens lost. */
  ghost predicate Balance<D>(s: State<D>, lost: nat) {
    && |At(s.threads, Posting)| <= 1
    && |Ready(s.sh.orderNo)| == s.sh.nReady + |At(s.threads, HasToken)| + |At(s.threads, Posting)| + lost
  }

  ghost predicate Bounded<D>(s: State<D>) {
    forall i :: 0 <= i < |s.sh.orderNo| ==> s.sh.orderNo[i] < INT_MAX
  }

  ghost predicate Inv<D>(s: State<D>) {
    Ownership(s) && Bounded(s) && Balance(s, 0)
  }

  ghost predicate Start<D>(s: State<D>) {
    && WellFormed(s.sh) && s.sh.nReady == 0
    && (forall i :: 0 <= i < |s.sh.orderNo| ==> s.sh.orderNo[i] == EMPTY)
    && (forall t :: 0 <= t < |s.threads| ==> s.threads[t] == Thread({}, Idle))
  }

  /** Orders stay below INT_MAX. */
  predicate Small<D>(e: Event<D>) {
    e.PostOrder? ==> e.order < INT_MAX
  }

  /** A fetch past the counter that comes back with nothing: its token is lost. */
  predicate IsEmptyFetch<D>(s: State<D>, e: Event<D>) {
    e.GrabLowest? && FindLowest(s.sh.orderNo) == -1
  }

  // Small facts about the counted sets.

  function Bit(b: bool): int {
    if b then 1 else 0
  }

  /** Sets that agree but for one element. */
  lemma SwapSize(a: set<nat>, b: set<nat>, t: nat)
    requires forall u: nat :: u != t ==> (u in a <==> u in b)
    ensures |b| == |a| + Bit(t in b) - Bit(t in a)
  {
    assert a - {t} == b - {t};
    assert |a - {t}| == |a| - Bit(t in a);
    assert |b - {t}| == |b| - Bit(t in b);
  }

  lemma ReadyUpdate(no: seq<int>, i: nat, v: int)
    requires i < |no|
    ensures |Ready(no[i := v])| == |Ready(no)| + Bit(v > 0) - Bit(no[i] > 0)
  {
    SwapSize(Ready(no), Ready(no[i := v]), i);
  }

  lemma AtUpdate(threads: seq<Thread>, t: nat, th: Thread, pc: Pc)
    requires t < |threads|
    ensures |At(threads[t := th], pc)| == |At(threads, pc)| + Bit(th.pc == pc) - Bit(threads[t].pc == pc)
  {
    SwapSize(At(threads, pc), At(threads[t := th], pc), t);
  }

  lemma NoneAt(threads: seq<Thread>)
    requires MutexFree(threads)
    ensures At(threads, Posting) == {}
  {
  }

  lemma StartInv<D>(s: State<D>)
    requires Start(s)
    ensures Inv(s)
  {
    assert Ready(s.sh.orderNo) == {};
    assert At(s.threads, HasToken) == {};
    assert At(s.threads, Posting) == {};
  }

  lemma StepOwnership<D>(s: State<D>, e: Event<D>)
    requires Ownership(s) && Enabled(s, e)
    ensures Ownership(Next(s, e))
  {
    var s' := Next(s, e);
    var no, no' := s.sh.orderNo, s'.sh.orderNo;
    forall t: nat, i: nat | Holds(s'.threads, t, i)
      ensures i < |no'| && no'[i] == IN_USE
    {
      if !Holds(s.threads, t, i) {
        assert t == e.t && i == if e.FetchEmpty? then FindEmpty(no) else FindLowest(no);
      } else if e.PostOrder? || e.GiveBack? {
        assert Holds(s.threads, e.t, e.i);
      }
    }
    forall i: nat | i < |no'| && no'[i] == IN_USE
      ensures exists t: nat :: Holds(s'.threads, t, i)
    {
      if no[i] == IN_USE {
        var t: nat :| Holds(s.threads, t, i);
        assert Holds(s'.threads, t, i);
      } else {
        assert Holds(s'.threads, e.t, i);
      }
    }
    forall t: nat, u: nat, i: nat | Holds(s'.threads, t, i) && Holds(s'.threads, u, i)
      ensures t == u
    {
      assert t != e.t ==> Holds(s.threads, t, i);
      assert u != e.t ==> Holds(s.threads, u, i);
      if no[i] == IN_USE {
        assert Holds(s.threads, t, i) && Holds(s.threads, u, i);
      }
    }
  }

  /** Every critical section keeps the balance, whatever the orders are. */
  lemma StepBalance<D>(s: State<D>, e: Event<D>, lost: nat)
    requires Ownership(s) && Balance(s, lost) && Enabled(s, e)
    ensures Balance(Next(s, e), lost + Bit(IsEmptyFetch(s, e)))
  {
    var s' := Next(s, e);
    var t, th' := e.t, s'.threads[e.t];
    AtUpdate(s.threads, t, th', HasToken);
    AtUpdate(s.threads, t, th', Posting);
    var no := s.sh.orderNo;
    match e {
      case FetchEmpty(_) =>
        if FindEmpty(no) != -1 { ReadyUpdate(no, FindEmpty(no), IN_USE); }
      case PostOrder(_, i, order, _) =>
        assert Holds(s.threads, t, i);
        ReadyUpdate(no, i, order);
        NoneAt(s.threads);
      case GrabLowest(_) =>
        if FindLowest(no) != -1 { ReadyUpdate(no, FindLowest(no), IN_USE); }
      case GiveBack(_, i) =>
        assert Holds(s.threads, t, i);
        ReadyUpdate(no, i, EMPTY);
      case _ =>
    }
  }

  /** A fetcher holding a token always finds a slot, and it is the one of lowest order. */
  lemma LowestExists<D>(s: State<D>, t: nat)
    requires Inv(s) && t < |s.threads| && s.threads[t].pc == HasToken
    ensures FindLowest(s.sh.orderNo) >= 0
    ensures var k := FindLowest(s.sh.orderNo);
            && 0 < s.sh.orderNo[k] < INT_MAX
            && forall i :: 0 <= i < |s.sh.orderNo| && s.sh.orderNo[i] > 0 ==>
                             s.sh.orderNo[k] <= s.sh.orderNo[i]
  {
    assert t in At(s.threads, HasToken);
    assert At(s.threads, HasToken) != {};
    assert Ready(s.sh.orderNo) != {};
    var i :| i in Ready(s.sh.orderNo);
  }

  lemma StepInv<D>(s: State<D>, e: Event<D>)
    requires Inv(s) && Enabled(s, e) && Small(e)
    ensures Inv(Next(s, e))
  {
    StepOwnership(s, e);
    if e.GrabLowest? {
      LowestExists(s, e.t);
    }
    StepBalance(s, e, 0);
  }

  // Whole runs.

  ghost predicate ValidRun<D>(s: State<D>, es: seq<Event<D>>)
    decreases |es|
  {
    es == [] || (Enabled(s, es[0]) && ValidRun(Next(s, es[0]), es[1..]))
  }

  ghost function Run<D>(s: State<D>, es: seq<Event<D>>): State<D>
    requires ValidRun(s, es)
    decreases |es|
  {
    if es == [] then s else Run(Next(s, es[0]), es[1..])
  }

  /** The fetches of a run that came back empty. */
  ghost function EmptyFetches<D>(s: State<D>, es: seq<Event<D>>): nat
    requires ValidRun(s, es)
    decreases |es|
  {
    if es == [] then 0 else Bit(IsEmptyFetch(s, es[0])) + EmptyFetches(Next(s, es[0]), es[1..])
  }

  lemma {:induction false} RunBalance<D>(s: State<D>, es: seq<Event<D>>, lost: nat)
    requires Ownership(s) && Balance(s, lost) && ValidRun(s, es)
    ensures Ownership(Run(s, es)) && Balance(Run(s, es), lost + EmptyFetches(s, es))
    decreases |es|
  {
    if es != [] {
      StepOwnership(s, es[0]);
      StepBalance(s, es[0], lost);
      RunBalance(Next(s, es[0]), es[1..], lost + Bit(IsEmptyFetch(s, es[0])));
    }
  }

  lemma {:induction false} SmallRunInv<D>(s: State<D>, es: seq<Event<D>>)
    requires Inv(s) && ValidRun(s, es) && forall i :: 0 <= i < |es| ==> Small(es[i])
    ensures Inv(Run(s, es)) && EmptyFetches(s, es) == 0
    decreases |es|
  {
    if es != [] {
      StepInv(s, es[0]);
      if es[0].GrabLowest? {
        LowestExists(s, es[0].t);
      }
      SmallRunInv(Next(s, es[0]), es[1..]);
    }
  }

  /**
   The protocol theorem, for orders of any size.  After any run of any number of threads: every slot in
   use has exactly one holder and no other slot has any; the integrity checks of returnBuffer and
   returnEmptyBuffer cannot fail; the counter is short of the ready slots by exactly the fetches under way,
   the returner under way and the fetches that came back empty; and a fetch past the counter comes back
   empty exactly when every ready order is INT_MAX or more.
   */
  lemma ProtocolSafety<D>(s0: State<D>, es: seq<Event<D>>)
    requires Start(s0) && ValidRun(s0, es)
    ensures var s := Run(s0, es);
            && Ownership(s)
            && Balance(s, EmptyFetches(s0, es))
            && (forall t: nat, i: nat :: Enabled(s, GiveBack(t, i)) ==> s.sh.orderNo[i] == IN_USE)
            && (forall t: nat, i: nat, o: int, d: D :: Enabled(s, PostOrder(t, i, o, d)) ==>
               s.sh.orderNo[i] == IN_USE)
            && (forall t: nat :: Enabled(s, GrabLowest(t)) ==>
                  (IsEmptyFetch(s, GrabLowest(t)) <==>
                   forall i: nat :: i in Ready(s.sh.orderNo) ==> s.sh.orderNo[i] >= INT_MAX))
  {
    StartInv(s0);
    RunBalance(s0, es, 0);
    var s := Run(s0, es);
    forall t: nat, i: nat | Enabled(s, GiveBack(t, i)) ensures s.sh.orderNo[i] == IN_USE {
      assert Holds(s.threads, t, i);
    }
    forall t: nat, i: nat, o: int, d: D | Enabled(s, PostOrder(t, i, o, d)) ensures s.sh.orderNo[i] == IN_USE {
      assert Holds(s.threads, t, i);
    }
    EmptyIff(s.sh.orderNo);
  }

  lemma EmptyIff(no: seq<int>)
    ensures FindLowest(no) == -1 <==> forall i: nat :: i in Ready(no) ==> no[i] >= INT_MAX
  {
    if FindLowest(no) != -1 {
      assert FindLowest(no) in Ready(no);
    }
  }

  /** With orders below INT_MAX no fetch comes back empty: it always gets the slot of lowest order. */
  lemma SmallOrdersAreFound<D>(s0: State<D>, es: seq<Event<D>>)
    requires Start(s0) && ValidRun(s0, es) && forall i :: 0 <= i < |es| ==> Small(es[i])
    ensures EmptyFetches(s0, es) == 0
    ensures var s := Run(s0, es);
            forall t: nat :: Enabled(s, GrabLowest(t)) ==>
              exists k: nat :: k in Ready(s.sh.orderNo) && FindLowest(s.sh.orderNo) == k
                       && forall i: nat :: i in Ready(s.sh.orderNo) ==> s.sh.orderNo[k] <= s.sh.orderNo[i]
  {
    StartInv(s0);
    SmallRunInv(s0, es);
    var s := Run(s0, es);
    forall t: nat | Enabled(s, GrabLowest(t))
      ensures exists k: nat :: k in Ready(s.sh.orderNo) && FindLowest(s.sh.orderNo) == k
                       && forall i: nat :: i in Ready(s.sh.orderNo) ==> s.sh.orderNo[k] <= s.sh.orderNo[i]
    {
      LowestExists(s, t);
      assert FindLowest(s.sh.orderNo) in Ready(s.sh.orderNo);
    }
  }

  /** One thread posts order INT_MAX in a pool of one slot and fetches it back. */
  function HugeRun<D>(d: D): seq<Event<D>> {
    [FetchEmpty(0), PostOrder(0, 0, INT_MAX, d), PostToken(0), GrabToken(0), GrabLowest(0)]
  }

  function OneSlot<D>(d: D): State<D> {
    State(Shared([EMPTY], [d], 0), [Thread({}, Idle)])
  }

  /** The fetch comes back empty: the slot stays ready with no token for it, so it is never fetched again. */
  lemma HugeOrderIsLost<D>(d: D)
    ensures Start(OneSlot(d)) && ValidRun(OneSlot(d), HugeRun(d))
    ensures EmptyFetches(OneSlot(d), HugeRun(d)) == 1
    ensures var s := Run(OneSlot(d), HugeRun(d));
            s.sh.orderNo == [INT_MAX] && s.sh.nReady == 0 && s.threads == [Thread({}, Idle)]
  {
    var s0 := OneSlot(d);
    var es := HugeRun(d);
    var s1 := Next(s0, es[0]);
    assert [EMPTY][0] == EMPTY;
    assert FindEmpty([EMPTY]) == 0;
    assert {} + {0} == {0};
    assert s1.sh.orderNo == [IN_USE] && s1.threads[0] == Thread({0}, Idle);
    assert s1 == State(Shared([IN_USE], [d], 0), [Thread({0}, Idle)]);
    assert {0} - {0} == {};
    var s2 := Next(s1, es[1]);
    assert s2 == State(Shared([INT_MAX], [d], 0), [Thread({}, Posting)]);
    var s3 := Next(s2, es[2]);
    assert s3 == State(Shared([INT_MAX], [d], 1), [Thread({}, Idle)]);
    var s4 := Next(s3, es[3]);
    assert s4 == State(Shared([INT_MAX], [d], 0), [Thread({}, HasToken)]);
    var s5 := Next(s4, es[4]);
    assert FindLowest([INT_MAX]) == -1;
    assert es[1..][1..][1..][1..] == [es[4]];
    LastStep(s4, es[4]);
    StepRun(s3, es[3..]);
    assert es[3..][1..] == [es[4]];
    StepRun(s2, es[2..]);
    assert es[2..][1..] == es[3..];
    StepRun(s1, es[1..]);
    assert es[1..][1..] == es[2..];
    StepRun(s0, es);
  }

  lemma LastStep<D>(s: State<D>, e: Event<D>)
    requires Enabled(s, e)
    ensures ValidRun(s, [e]) && Run(s, [e]) == Next(s, e) && EmptyFetches(s, [e]) == Bit(IsEmptyFetch(s, e))
  {
    assert [e][1..] == [];
  }

  lemma StepRun<D>(s: State<D>, es: seq<Event<D>>)
    requires es != [] && Enabled(s, es[0]) && ValidRun(Next(s, es[0]), es[1..])
    ensures ValidRun(s, es) && Run(s, es) == Run(Next(s, es[0]), es[1..])
    ensures EmptyFetches(s, es) == Bit(IsEmptyFetch(s, es[0])) + EmptyFetches(Next(s, es[0]), es[1..])
  {
  }
}
