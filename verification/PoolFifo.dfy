/**
 The pool between the network thread and the worker.  The producer numbers its batches 1, 2, 3, ...
 (full_custom/udp_thread.c:32-88); fetching the lowest order then behaves as a FIFO queue, under every
 interleaving of the critical sections, and the worker receives batch 1, batch 2, ... with none
 lost, repeated or reordered.
 */
module PoolFifo {
  import opened BufferPool
  import opened PoolProtocol

  /** The pool together with what has been put in and taken out of it so far. */
  datatype Link<D> = Link(pool: State<D>, produced: seq<D>, delivered: seq<D>)

  /** The simple form: a queue. */
  ghost function Queue<D>(l: Link<D>): seq<D>
    requires |l.delivered| <= |l.produced|
  {
    l.produced[|l.delivered|..]
  }

  /** The only discipline asked of the threads: batches are posted with consecutive orders from 1. */
  ghost predicate LinkEnabled<D>(l: Link<D>, e: Event<D>) {
    && Enabled(l.pool, e) && Small(e)
    && (e.PostOrder? ==> e.order == |l.produced| + 1)
  }

  ghost function LinkNext<D>(l: Link<D>, e: Event<D>): Link<D>
    requires LinkEnabled(l, e) && WellFormed(l.pool.sh)
  {
    var k := FindLowest(l.pool.sh.orderNo);
    Link(
      Next(l.pool, e),
      if e.PostOrder? then l.produced + [e.d] else l.produced,
      if e.GrabLowest? && k >= 0 then l.delivered + [l.pool.sh.data[k]] else l.delivered)
  }

  /** The ready slots carry exactly the batches after the first `lo`, one each. */
  ghost predicate Carries<D>(sh: Shared<D>, produced: seq<D>, lo: nat) {
    && WellFormed(sh)
    && (forall i :: 0 <= i < |sh.orderNo| && sh.orderNo[i] > 0 ==>
          lo < sh.orderNo[i] <= |produced| && sh.data[i] == produced[sh.orderNo[i] - 1])
    && (forall o :: lo < o <= |produced| ==> o in sh.orderNo)
    && DistinctReady(sh.orderNo)
  }

  ghost predicate LinkInv<D>(l: Link<D>) {
    && Inv(l.pool)
    && l.delivered <= l.produced
    && Carries(l.pool.sh, l.produced, |l.delivered|)
  }

  lemma CarriesPublished<D>(sh: Shared<D>, produced: seq<D>, lo: nat, i: nat, d: D)
    requires Carries(sh, produced, lo) && lo <= |produced| && i < |sh.orderNo| && sh.orderNo[i] <= 0
    ensures Carries(Publish(sh, i, |produced| + 1, d), produced + [d], lo)
  {
    var no' := sh.orderNo[i := |produced| + 1];
    forall x | lo < x <= |produced| + 1 ensures x in no' {
      if x == |produced| + 1 {
        assert no'[i] == x;
      } else {
        assert x in sh.orderNo;
        var j :| 0 <= j < |no'| && sh.orderNo[j] == x;
        assert no'[j] == x;
      }
    }
  }

  lemma CarriesTaken<D>(sh: Shared<D>, produced: seq<D>, lo: nat, k: nat)
    requires Carries(sh, produced, lo) && k < |sh.orderNo| && sh.orderNo[k] == lo + 1
    ensures Carries(sh.(orderNo := sh.orderNo[k := IN_USE]), produced, lo + 1)
  {
    var no' := sh.orderNo[k := IN_USE];
    forall x | lo + 1 < x <= |produced| ensures x in no' {
      assert x in sh.orderNo;
      var j :| 0 <= j < |no'| && sh.orderNo[j] == x;
      assert no'[j] == x;
    }
  }

  lemma CarriesOther<D>(sh: Shared<D>, produced: seq<D>, lo: nat, i: nat, v: int)
    requires Carries(sh, produced, lo) && i < |sh.orderNo| && sh.orderNo[i] <= 0 && v <= 0
    ensures Carries(sh.(orderNo := sh.orderNo[i := v]), produced, lo)
  {
    var no' := sh.orderNo[i := v];
    forall x | lo < x <= |produced| ensures x in no' {
      assert x in sh.orderNo;
      var j :| 0 <= j < |no'| && sh.orderNo[j] == x;
      assert no'[j] == x;
    }
  }

  lemma LinkStart<D>(s: State<D>)
    requires Start(s)
    ensures LinkInv(Link(s, [], []))
  {
    StartInv(s);
  }

  /** What a fetcher past the counter gets is the head of the queue. */
  lemma HeadIsLowest<D>(l: Link<D>, t: nat)
    requires LinkInv(l) && t < |l.pool.threads| && l.pool.threads[t].pc == HasToken
    ensures Queue(l) != []
    ensures var k := FindLowest(l.pool.sh.orderNo);
            k >= 0 && l.pool.sh.orderNo[k] == |l.delivered| + 1 && l.pool.sh.data[k] == Queue(l)[0]
  {
    LowestExists(l.pool, t);
    var no := l.pool.sh.orderNo;
    var k := FindLowest(no);
    assert |l.delivered| + 1 in no;
    var j :| 0 <= j < |no| && no[j] == |l.delivered| + 1;
    assert no[k] <= no[j];
  }

  lemma Enqueues<D>(l: Link<D>, e: Event<D>)
    requires LinkInv(l) && LinkEnabled(l, e) && e.PostOrder?
    ensures LinkInv(LinkNext(l, e)) && Queue(LinkNext(l, e)) == Queue(l) + [e.d]
  {
    StepInv(l.pool, e);
    assert Holds(l.pool.threads, e.t, e.i);
    CarriesPublished(l.pool.sh, l.produced, |l.delivered|, e.i, e.d);
  }

  lemma Dequeues<D>(l: Link<D>, e: Event<D>)
    requires LinkInv(l) && LinkEnabled(l, e) && e.GrabLowest?
    ensures var l' := LinkNext(l, e);
            LinkInv(l') && Queue(l) != [] && Queue(l') == Queue(l)[1..] && l'.delivered == l.delivered + [Queue(l)[0]]
  {
    var l' := LinkNext(l, e);
    var n := |l.delivered|;
    HeadIsLowest(l, e.t);
    assert l'.delivered == l.produced[..n] + [l.produced[n]] == l.produced[..n + 1];
    assert Inv(l'.pool) by { StepInv(l.pool, e); }
    assert Carries(l'.pool.sh, l'.produced, n + 1) by {
      CarriesTaken(l.pool.sh, l.produced, n, FindLowest(l.pool.sh.orderNo));
    }
  }

  lemma LeavesQueue<D>(l: Link<D>, e: Event<D>)
    requires LinkInv(l) && LinkEnabled(l, e) && !e.PostOrder? && !e.GrabLowest?
    ensures var l' := LinkNext(l, e);
            LinkInv(l') && Queue(l') == Queue(l) && l'.delivered == l.delivered
  {
    StepInv(l.pool, e);
    var no := l.pool.sh.orderNo;
    if e.GiveBack? {
      assert Holds(l.pool.threads, e.t, e.i);
      CarriesOther(l.pool.sh, l.produced, |l.delivered|, e.i, EMPTY);
    } else if e.FetchEmpty? && FindEmpty(no) >= 0 {
      CarriesOther(l.pool.sh, l.produced, |l.delivered|, FindEmpty(no), IN_USE);
    }
  }

  /** One step of the pool is one step of the queue: enqueue, dequeue or nothing. */
  lemma FifoStep<D>(l: Link<D>, e: Event<D>)
    requires LinkInv(l) && LinkEnabled(l, e)
    ensures LinkInv(LinkNext(l, e))
    ensures var l' := LinkNext(l, e);
            match e
            case PostOrder(_, _, _, d) => Queue(l') == Queue(l) + [d]
            case GrabLowest(_) => Queue(l) != [] && Queue(l') == Queue(l)[1..]
                                  && l'.delivered == l.delivered + [Queue(l)[0]]
            case _ => Queue(l') == Queue(l) && l'.delivered == l.delivered
  {
    if e.PostOrder? {
      Enqueues(l, e);
    } else if e.GrabLowest? {
      Dequeues(l, e);
    } else {
      LeavesQueue(l, e);
    }
  }

  ghost predicate LinkRun<D>(l: Link<D>, es: seq<Event<D>>, l': Link<D>)
    decreases |es|
  {
    if es == [] then l == l'
    else WellFormed(l.pool.sh) && LinkEnabled(l, es[0]) && LinkRun(LinkNext(l, es[0]), es[1..], l')
  }

  lemma {:induction false} LinkRunInv<D>(l: Link<D>, es: seq<Event<D>>, l': Link<D>)
    requires LinkInv(l) && LinkRun(l, es, l')
    ensures LinkInv(l')
    decreases |es|
  {
    if es != [] {
      FifoStep(l, es[0]);
      LinkRunInv(LinkNext(l, es[0]), es[1..], l');
    }
  }

  /** Some slot is ready with this order and this content. */
  ghost predicate Waiting<D>(sh: Shared<D>, order: int, d: D) {
    exists i :: 0 <= i < |sh.orderNo| && i < |sh.data| && sh.orderNo[i] == order && sh.data[i] == d
  }

  /** Over any run: what was delivered is what was produced first, in order, and the rest is waiting in the pool. */
  lemma FifoRefinement<D>(s: State<D>, es: seq<Event<D>>, l: Link<D>)
    requires Start(s) && LinkRun(Link(s, [], []), es, l)
    ensures l.delivered <= l.produced
    ensures l.delivered + Queue(l) == l.produced
    ensures forall k :: 0 <= k < |Queue(l)| ==> Waiting(l.pool.sh, |l.delivered| + k + 1, Queue(l)[k])
    ensures |Ready(l.pool.sh.orderNo)| == |Queue(l)|
  {
    LinkStart(s);
    LinkRunInv(Link(s, [], []), es, l);
    var no := l.pool.sh.orderNo;
    forall k | 0 <= k < |Queue(l)| ensures Waiting(l.pool.sh, |l.delivered| + k + 1, Queue(l)[k]) {
      var o := |l.delivered| + k + 1;
      assert o in no;
      var i :| 0 <= i < |no| && no[i] == o;
      assert l.pool.sh.data[i] == l.produced[o - 1];
    }
    CountOrders(no, |l.delivered|, |l.produced|);
  }

  /** Distinct ready orders that fill (lo, hi] are hi - lo in number. */
  lemma {:induction false} CountOrders(no: seq<int>, lo: nat, hi: nat)
    requires lo <= hi
    requires forall i :: 0 <= i < |no| && no[i] > 0 ==> lo < no[i] <= hi
    requires forall o :: lo < o <= hi ==> o in no
    requires DistinctReady(no)
    ensures |Ready(no)| == hi - lo
    decreases hi
  {
    if lo == hi {
      assert Ready(no) == {};
    } else {
      assert hi in no;
      var i :| 0 <= i < |no| && no[i] == hi;
      var no' := no[i := EMPTY];
      forall o | lo < o <= hi - 1 ensures o in no' {
        assert o in no;
        var j :| 0 <= j < |no| && no[j] == o;
        assert no'[j] == o;
      }
      CountOrders(no', lo, hi - 1);
      ReadyUpdate(no, i, EMPTY);
    }
  }
}
