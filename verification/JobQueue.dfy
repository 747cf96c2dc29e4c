/**
 The packet job queue (half_hashpipe/ata_volt_outer_thread.c:539-696): a bounded ring filled by one boss
 and emptied by any number of workers, with a wait for all jobs to complete.
 */
module JobQueue {
  const PJQ_NUM_ENTRIES: nat := 65536

  datatype Job = Job(dst: nat, src: nat, rowLen: nat, ostride: nat, nbytes: nat)

  // The ring as a value.

  datatype Ring = Ring(jobs: seq<Job>, idxnew: nat, idxold: nat, numQueued: nat, numPending: nat)

  ghost predicate RingOk(r: Ring) {
    && |r.jobs| == PJQ_NUM_ENTRIES
    && r.idxnew < PJQ_NUM_ENTRIES && r.idxold < PJQ_NUM_ENTRIES && r.numQueued < PJQ_NUM_ENTRIES
    && r.numQueued == (r.idxnew - r.idxold) % PJQ_NUM_ENTRIES
  }

  function At(r: Ring, k: nat): (i: nat)
    ensures i < PJQ_NUM_ENTRIES
  {
    (r.idxold + k) % PJQ_NUM_ENTRIES
  }

  /** The queued jobs, oldest first. */
  ghost function Contents(r: Ring): (s: seq<Job>)
    requires RingOk(r)
    ensures |s| == r.numQueued
    ensures forall k :: 0 <= k < |s| ==> s[k] == r.jobs[At(r, k)]
  {
    seq(r.numQueued, k requires 0 <= k < r.numQueued => r.jobs[At(r, k)])
  }

  predicate IsFull(r: Ring) {
    (r.idxnew + 1) % PJQ_NUM_ENTRIES == r.idxold
  }

  function RingPush(r: Ring, j: Job): Ring
    requires r.idxnew < |r.jobs|
  {
    if IsFull(r) then r
    else Ring(r.jobs[r.idxnew := j], (r.idxnew + 1) % PJQ_NUM_ENTRIES, r.idxold, r.numQueued + 1, r.numPending + 1)
  }

  function RingPop(r: Ring): Ring
    requires r.numQueued > 0
  {
    r.(idxold := (r.idxold + 1) % PJQ_NUM_ENTRIES, numQueued := r.numQueued - 1)
  }

  function RingComplete(r: Ring): Ring {
    if r.numPending != 0 then r.(numPending := r.numPending - 1) else r
  }

  /** One entry always stays unused: the ring is full at one job fewer than it has entries. */
  lemma FullIff(r: Ring)
    requires RingOk(r)
    ensures IsFull(r) <==> |Contents(r)| == PJQ_NUM_ENTRIES - 1
  {
  }

  lemma PushContents(r: Ring, j: Job)
    requires RingOk(r) && !IsFull(r)
    ensures RingOk(RingPush(r, j))
    ensures Contents(RingPush(r, j)) == Contents(r) + [j]
  {
    var r' := RingPush(r, j);
    assert At(r, r.numQueued) == r.idxnew;
    forall k | 0 <= k < r.numQueued ensures Contents(r')[k] == Contents(r)[k] {
      assert At(r, k) != r.idxnew;
    }
  }

  lemma PopContents(r: Ring)
    requires RingOk(r) && r.numQueued > 0
    ensures RingOk(RingPop(r))
    ensures Contents(r) == [r.jobs[r.idxold]] + Contents(RingPop(r))
  {
    var r' := RingPop(r);
    forall k | 0 <= k < r'.numQueued ensures Contents(r')[k] == Contents(r)[k + 1] {
      assert At(r', k) == At(r, k + 1);
    }
  }

  /** The queue in memory; each method is one critical section. */
  class PacketJobQueue {
    var idxnew: nat
    var idxold: nat
    var numQueued: nat
    var numPending: nat
    const jobs: array<Job>

    ghost function View(): Ring
      reads this, jobs
    {
      Ring(jobs[..], idxnew, idxold, numQueued, numPending)
    }

    ghost predicate Valid()
      reads this, jobs
    {
      RingOk(View())
    }

    constructor ()
      ensures Valid() && fresh(jobs) && Contents(View()) == [] && numPending == 0 && idxold == 0
    {
      idxnew, idxold, numQueued, numPending := 0, 0, 0, 0;
      jobs := new Job[PJQ_NUM_ENTRIES](_ => Job(0, 0, 0, 0, 0));
    }

    /** push_job; fails exactly when the queue is full. */
    method Push(j: Job) returns (failed: bool)
      requires Valid()
      modifies this, jobs
      ensures Valid() && View() == RingPush(old(View()), j)
      ensures failed <==> |old(Contents(View()))| == PJQ_NUM_ENTRIES - 1
      ensures Contents(View()) == if failed then old(Contents(View())) else old(Contents(View())) + [j]
    {
      FullIff(View());
      var next := (idxnew + 1) % PJQ_NUM_ENTRIES;
      if next == idxold {
        return true;
      }
      PushContents(View(), j);
      jobs[idxnew] := j;
      idxnew := next;
      numQueued := numQueued + 1;
      numPending := numPending + 1;
      failed := false;
    }

    /** pop_job past its wait: takes the oldest job. */
    method Pop() returns (j: Job)
      requires Valid() && numQueued > 0
      modifies this
      ensures Valid() && View() == RingPop(old(View()))
      ensures old(Contents(View())) == [j] + Contents(View())
    {
      PopContents(View());
      j := jobs[idxold];
      idxold := (idxold + 1) % PJQ_NUM_ENTRIES;
      numQueued := numQueued - 1;
    }

    /** complete_job; reports whether the boss is signalled. */
    method Complete() returns (signal: bool)
      requires Valid()
      modifies this
      ensures Valid() && View() == RingComplete(old(View())) && Contents(View()) == old(Contents(View()))
      ensures signal <==> old(numPending) <= 1
    {
      if numPending != 0 {
        numPending := numPending - 1;
      }
      signal := numPending == 0;
    }
  }

  // Boss and workers, under every interleaving.

  /** Busy(k, job): the worker has the job that was pushed k-th. */
  datatype Worker = Looking | Asleep | Busy(k: nat, job: Job)

  /** Woken: signalled, but still to look at num_pending again. */
  datatype Boss = Running | Sleeping | Woken

  datatype State = State(
    q: Ring, workers: seq<Worker>, boss: Boss, pushed: seq<Job>, popped: nat, done: set<nat>)

  /** The last two are wake-ups without a signal, which a condition wait may have at any time. */
  datatype Event =
    | PushJob(j: Job) | Wait | PopJob(t: nat) | CompleteJob(t: nat)
    | WakeBoss | WakeWorker(t: nat)

  predicate Enabled(s: State, e: Event) {
    match e
    case PushJob(_) => s.boss == Running
    case Wait => s.boss != Sleeping
    case PopJob(t) => t < |s.workers| && s.workers[t] == Looking
    case CompleteJob(t) => t < |s.workers| && s.workers[t].Busy?
    case WakeBoss => s.boss == Sleeping
    case WakeWorker(t) => t < |s.workers| && s.workers[t] == Asleep
  }

  predicate IsSpurious(e: Event) {
    e.WakeBoss? || e.WakeWorker?
  }

  /** pthread_cond_broadcast. */
  function WakeAll(ws: seq<Worker>): (r: seq<Worker>)
    ensures |r| == |ws|
    ensures forall t :: 0 <= t < |r| ==> r[t] == if ws[t] == Asleep then Looking else ws[t]
  {
    seq(|ws|, t requires 0 <= t < |ws| => if ws[t] == Asleep then Looking else ws[t])
  }

  function Next(s: State, e: Event): State
    requires Enabled(s, e) && s.q.idxnew < |s.q.jobs| && s.q.idxold < |s.q.jobs|
  {
    match e
    case PushJob(j) =>
      if IsFull(s.q) then s
      else s.(q := RingPush(s.q, j), pushed := s.pushed + [j], workers := WakeAll(s.workers))
    case Wait => s.(boss := if s.q.numPending != 0 then Sleeping else Running)
    case PopJob(t) =>
      if s.q.numQueued == 0 then s.(workers := s.workers[t := Asleep])
      else s.(q := RingPop(s.q), workers := s.workers[t := Busy(s.popped, s.q.jobs[s.q.idxold])],
        popped := s.popped + 1)
    case CompleteJob(t) =>
      var q := RingComplete(s.q);
      s.(q := q, workers := s.workers[t := Looking], done := s.done + {s.workers[t].k},
         boss := if q.numPending == 0 && s.boss == Sleeping then Woken else s.boss)
    case WakeBoss => s.(boss := Woken)
    case WakeWorker(t) => s.(workers := s.workers[t := Looking])
  }

  ghost predicate Start(s: State) {
    && RingOk(s.q) && s.q.idxnew == 0 && s.q.idxold == 0 && s.q.numPending == 0
    && (forall t :: 0 <= t < |s.workers| ==> s.workers[t] == Looking)
    && s.boss == Running && s.pushed == [] && s.popped == 0 && s.done == {}
  }

  function InHands(ws: seq<Worker>): nat {
    if ws == [] then 0 else InHands(ws[..|ws| - 1]) + if ws[|ws| - 1].Busy? then 1 else 0
  }

  lemma {:induction false} InHandsUpdate(ws: seq<Worker>, t: nat, w: Worker)
    requires t < |ws|
    ensures InHands(ws[t := w]) == InHands(ws) - (if ws[t].Busy? then 1 else 0) + (if w.Busy? then 1 else 0)
  {
    var n := |ws| - 1;
    if t < n {
      InHandsUpdate(ws[..n], t, w);
      assert ws[t := w][..n] == ws[..n][t := w];
    } else {
      assert ws[t := w][..n] == ws[..n];
    }
  }

  lemma {:induction false} InHandsWake(ws: seq<Worker>)
    ensures InHands(WakeAll(ws)) == InHands(ws)
  {
    if ws != [] {
      InHandsWake(ws[..|ws| - 1]);
      assert WakeAll(ws)[..|ws| - 1] == WakeAll(ws[..|ws| - 1]);
    }
  }

  lemma {:induction false} NoHands(ws: seq<Worker>)
    ensures InHands(ws) <= |ws|
    ensures InHands(ws) == 0 <==> forall t :: 0 <= t < |ws| ==> !ws[t].Busy?
  {
    if ws != [] {
      NoHands(ws[..|ws| - 1]);
    }
  }

  ghost predicate HeldBy(ws: seq<Worker>, t: int, k: nat) {
    0 <= t < |ws| && ws[t].Busy? && ws[t].k == k
  }

  /** Each popped job has been completed or is in exactly one worker's hands. */
  ghost predicate Handled(ws: seq<Worker>, popped: nat, done: set<nat>) {
    && (forall k: nat :: k in done ==> k < popped)
    && (forall t, k: nat :: HeldBy(ws, t, k) ==> k < popped && k !in done)
    && (forall t, t', k: nat :: HeldBy(ws, t, k) && HeldBy(ws, t', k) ==> t == t')
    && (forall k: nat :: k < popped && k !in done ==> IsHeld(ws, k))
  }

  ghost predicate IsHeld(ws: seq<Worker>, k: nat) {
    exists t :: HeldBy(ws, t, k)
  }

  lemma TakenHandled(ws: seq<Worker>, popped: nat, done: set<nat>, t: nat, j: Job)
    requires Handled(ws, popped, done) && t < |ws| && !ws[t].Busy?
    ensures Handled(ws[t := Busy(popped, j)], popped + 1, done)
  {
    var ws' := ws[t := Busy(popped, j)];
    assert forall u, k: nat :: HeldBy(ws', u, k) <==> HeldBy(ws, u, k) || (u == t && k == popped);
    assert HeldBy(ws', t, popped);
    forall k: nat | k < popped && k !in done ensures IsHeld(ws', k) {
      assert IsHeld(ws, k);
      var u :| HeldBy(ws, u, k);
      assert HeldBy(ws', u, k);
    }
  }

  lemma DoneHandled(ws: seq<Worker>, popped: nat, done: set<nat>, t: nat)
    requires Handled(ws, popped, done) && t < |ws| && ws[t].Busy?
    ensures Handled(ws[t := Looking], popped, done + {ws[t].k})
  {
    var ws' := ws[t := Looking];
    assert HeldBy(ws, t, ws[t].k);
    assert forall u, k: nat :: HeldBy(ws', u, k) <==> HeldBy(ws, u, k) && u != t;
    forall k: nat | k < popped && k !in done + {ws[t].k} ensures IsHeld(ws', k) {
      assert IsHeld(ws, k);
      var u :| HeldBy(ws, u, k);
      assert HeldBy(ws', u, k);
    }
  }

  lemma SameHandled(ws: seq<Worker>, ws': seq<Worker>, popped: nat, done: set<nat>)
    requires Handled(ws, popped, done) && forall u, k: nat :: HeldBy(ws', u, k) <==> HeldBy(ws, u, k)
    ensures Handled(ws', popped, done)
  {
    forall k: nat | k < popped && k !in done ensures IsHeld(ws', k) {
      assert IsHeld(ws, k);
      var u :| HeldBy(ws, u, k);
      assert HeldBy(ws', u, k);
    }
  }

  /** A worker has the job that was pushed at its turn. */
  ghost predicate Delivered(s: State) {
    forall t :: 0 <= t < |s.workers| && s.workers[t].Busy? ==>
      s.workers[t].k < |s.pushed| && s.workers[t].job == s.pushed[s.workers[t].k]
  }

  /** The counters, and who may sleep. */
  ghost predicate Counted(s: State) {
    && RingOk(s.q)
    && s.popped <= |s.pushed| && Contents(s.q) == s.pushed[s.popped..]
    && s.q.numPending - s.q.numQueued == InHands(s.workers)
    && (s.boss == Sleeping ==> s.q.numPending != 0)
    && (forall t :: 0 <= t < |s.workers| && s.workers[t] == Asleep ==> s.q.numQueued == 0)
  }

  ghost predicate Inv(s: State) {
    Counted(s) && Handled(s.workers, s.popped, s.done) && Delivered(s)
  }

  lemma {:induction false} AllLooking(ws: seq<Worker>)
    requires forall t :: 0 <= t < |ws| ==> ws[t] == Looking
    ensures InHands(ws) == 0
  {
    NoHands(ws);
  }

  lemma StartInv(s: State)
    requires Start(s)
    ensures Inv(s)
  {
    AllLooking(s.workers);
  }

  lemma PushInv(s: State, j: Job)
    requires Inv(s) && Enabled(s, PushJob(j))
    ensures Inv(Next(s, PushJob(j)))
  {
    if !IsFull(s.q) {
      var s' := Next(s, PushJob(j));
      PushContents(s.q, j);
      InHandsWake(s.workers);
      assert s'.pushed[s'.popped..] == s.pushed[s.popped..] + [j];
      SameHandled(s.workers, s'.workers, s.popped, s.done);
    }
  }

  lemma PopInv(s: State, t: nat)
    requires Inv(s) && Enabled(s, PopJob(t))
    ensures Inv(Next(s, PopJob(t)))
  {
    var s' := Next(s, PopJob(t));
    InHandsUpdate(s.workers, t, s'.workers[t]);
    if s.q.numQueued == 0 {
      SameHandled(s.workers, s'.workers, s.popped, s.done);
    } else {
      PopContents(s.q);
      TakenHandled(s.workers, s.popped, s.done, t, s'.workers[t].job);
      assert Contents(s.q)[0] == s.pushed[s.popped];
      assert s'.pushed[s'.popped..] == s.pushed[s.popped..][1..];
    }
  }

  lemma CompleteContents(r: Ring)
    requires RingOk(r)
    ensures RingOk(RingComplete(r)) && Contents(RingComplete(r)) == Contents(r)
  {
  }

  lemma CompleteCounted(s: State, t: nat)
    requires Counted(s) && Enabled(s, CompleteJob(t))
    ensures Counted(Next(s, CompleteJob(t)))
  {
    NoHands(s.workers);
    InHandsUpdate(s.workers, t, Looking);
    CompleteContents(s.q);
  }

  lemma CompleteInv(s: State, t: nat)
    requires Inv(s) && Enabled(s, CompleteJob(t))
    ensures Inv(Next(s, CompleteJob(t)))
  {
    CompleteCounted(s, t);
    DoneHandled(s.workers, s.popped, s.done, t);
  }

  lemma WakeInv(s: State, t: nat)
    requires Inv(s) && Enabled(s, WakeWorker(t))
    ensures Inv(Next(s, WakeWorker(t)))
  {
    var s' := Next(s, WakeWorker(t));
    InHandsUpdate(s.workers, t, Looking);
    SameHandled(s.workers, s'.workers, s.popped, s.done);
  }

  lemma StepInv(s: State, e: Event)
    requires Inv(s) && Enabled(s, e)
    ensures Inv(Next(s, e))
  {
    match e
    case PushJob(j) => PushInv(s, j);
    case Wait =>
    case PopJob(t) => PopInv(s, t);
    case CompleteJob(t) => CompleteInv(s, t);
    case WakeBoss =>
    case WakeWorker(t) => WakeInv(s, t);
  }

  ghost predicate Run(s: State, es: seq<Event>, s': State)
    decreases |es|
  {
    if es == [] then s == s'
    else RingOk(s.q) && Enabled(s, es[0]) && Run(Next(s, es[0]), es[1..], s')
  }

  lemma {:induction false} RunInv(s: State, es: seq<Event>, s': State)
    requires Inv(s) && Run(s, es, s')
    ensures Inv(s')
    decreases |es|
  {
    if es != [] {
      StepInv(s, es[0]);
      RunInv(Next(s, es[0]), es[1..], s');
    }
  }

  ghost predicate AllDone(s: State) {
    s.popped == |s.pushed| && forall k: nat :: k < |s.pushed| ==> k in s.done
  }

  /** In every state of every run of one boss and any workers. */
  lemma QueueSafety(s0: State, es: seq<Event>, s: State)
    requires Start(s0) && Run(s0, es, s)
    // num_queued is the distance round the ring, and num_pending - num_queued the jobs in workers' hands
    ensures s.q.numQueued == (s.q.idxnew - s.q.idxold) % PJQ_NUM_ENTRIES
    ensures s.q.numPending - s.q.numQueued == InHands(s.workers) <= |s.workers|
    // jobs come out in the order they went in
    ensures RingOk(s.q) && s.popped <= |s.pushed| && Contents(s.q) == s.pushed[s.popped..]
    ensures Delivered(s) && Handled(s.workers, s.popped, s.done)
    // the wait returns exactly when every pushed job has completed, and is never slept through
    ensures s.q.numPending == 0 <==> AllDone(s)
    ensures s.boss == Sleeping ==> !AllDone(s)
    // complete_job never finds the counter at zero
    ensures forall t :: Enabled(s, CompleteJob(t)) ==> s.q.numPending != 0
    // a push fails exactly when one entry is left
    ensures IsFull(s.q) <==> |s.pushed| - s.popped == PJQ_NUM_ENTRIES - 1
  {
    StartInv(s0);
    RunInv(s0, es, s);
    NoHands(s.workers);
    FullIff(s.q);
    PendingIff(s);
  }

  lemma PendingIff(s: State)
    requires Inv(s)
    ensures s.q.numPending == 0 <==> AllDone(s)
  {
    NoHands(s.workers);
    if s.q.numPending == 0 {
      assert |Contents(s.q)| == |s.pushed| - s.popped;
      assert forall k: nat :: !IsHeld(s.workers, k);
    } else if s.q.numQueued == 0 {
      var t :| 0 <= t < |s.workers| && s.workers[t].Busy?;
      assert HeldBy(s.workers, t, s.workers[t].k);
    }
  }

  // The boss's wait ends: while it waits some thread can move, and each move but a spurious wake-up lowers a rank.

  function LookingCount(ws: seq<Worker>): nat {
    if ws == [] then 0 else LookingCount(ws[..|ws| - 1]) + if ws[|ws| - 1] == Looking then 1 else 0
  }

  lemma {:induction false} LookingUpdate(ws: seq<Worker>, t: nat, w: Worker)
    requires t < |ws|
    ensures LookingCount(ws[t := w])
            == LookingCount(ws) - (if ws[t] == Looking then 1 else 0) + (if w == Looking then 1 else 0)
  {
    var n := |ws| - 1;
    if t < n {
      LookingUpdate(ws[..n], t, w);
      assert ws[t := w][..n] == ws[..n][t := w];
    } else {
      assert ws[t := w][..n] == ws[..n];
    }
  }

  function Rank(s: State): nat {
    4 * s.q.numQueued + 3 * InHands(s.workers) + LookingCount(s.workers) + if s.boss == Woken then 1 else 0
  }

  /** The boss is in wait_for_job_completion, asleep or about to look again. */
  predicate IsWaiting(s: State) {
    s.boss != Running
  }

  /** Some thread can move without a spurious wake-up: the boss itself, or a worker. */
  lemma WaitingBossProgress(s: State)
    requires Inv(s) && IsWaiting(s) && |s.workers| > 0
    ensures exists e :: Enabled(s, e) && !IsSpurious(e)
  {
    NoHands(s.workers);
    if s.boss == Woken {
      assert Enabled(s, Wait);
    } else if s.q.numQueued > 0 {
      if s.workers[0].Busy? {
        assert Enabled(s, CompleteJob(0));
      } else {
        assert Enabled(s, PopJob(0));
      }
    } else {
      var t :| 0 <= t < |s.workers| && s.workers[t].Busy?;
      assert Enabled(s, CompleteJob(t));
    }
  }

  /** While the boss waits every move lowers the rank, except that a spurious wake-up raises it by one. */
  lemma WaitingMoveRank(s: State, e: Event)
    requires Inv(s) && IsWaiting(s) && Enabled(s, e) && IsWaiting(Next(s, e))
    ensures if IsSpurious(e) then Rank(Next(s, e)) == Rank(s) + 1 else Rank(Next(s, e)) < Rank(s)
  {
    var s' := Next(s, e);
    if e.PopJob? || e.CompleteJob? || e.WakeWorker? {
      InHandsUpdate(s.workers, e.t, s'.workers[e.t]);
      LookingUpdate(s.workers, e.t, s'.workers[e.t]);
    }
  }

  function Spurious(es: seq<Event>): nat {
    if es == [] then 0 else Spurious(es[1..]) + if IsSpurious(es[0]) then 1 else 0
  }

  /** The boss waits in every state of the run. */
  ghost predicate KeepsWaiting(s: State, es: seq<Event>, s': State)
    decreases |es|
  {
    && IsWaiting(s)
    && if es == [] then s == s' else RingOk(s.q) && Enabled(s, es[0]) && KeepsWaiting(Next(s, es[0]), es[1..], s')
  }

  /** No run keeps the boss waiting for more steps than the rank at its start and twice its spurious wake-ups. */
  lemma {:induction false} WaitIsBounded(s: State, es: seq<Event>, s': State)
    requires Inv(s) && KeepsWaiting(s, es, s')
    ensures |es| + Rank(s') <= Rank(s) + 2 * Spurious(es)
    decreases |es|
  {
    if es != [] {
      WaitingMoveRank(s, es[0]);
      StepInv(s, es[0]);
      WaitIsBounded(Next(s, es[0]), es[1..], s');
    }
  }
}
