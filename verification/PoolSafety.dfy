/** What every reachable state of the pthread pool satisfies. */
module PoolSafety {
  import opened PoolSections
  import opened PoolSystem

  function Taken(removed: seq<(nat, Task)>): (r: seq<Task>)
    ensures |r| == |removed|
  {
    seq(|removed|, i requires 0 <= i < |removed| => removed[i].1)
  }

  /** The ring is a FIFO: what was accepted is what workers took, in order, and then what is queued;
      and a full ring starts at slot 0. */
  ghost predicate QueueInv(s: Sys) {
    && RingOk(s.pool)
    && (s.pool.size == |s.pool.ring| ==> s.pool.front == 0)
    && s.accepted == Taken(s.removed) + Queued(s.pool)
  }

  /** The mutex is held by the one thread that stands between taking and releasing it. */
  ghost predicate LockInv(s: Sys) {
    && (forall w | 0 <= w < |s.workers| ::
          s.workers[w].InTest? || s.workers[w].InCheck? <==> s.mutex == HeldByWorker(w))
    && (forall p | 0 <= p < |s.producers| ::
          s.producers[p].AddTest? || s.producers[p].AddCheck? <==> s.mutex == HeldByProducer(p))
  }

  /** What the tests before a critical section still guarantee inside it, and why a producer waits. */
  ghost predicate GuardInv(s: Sys) {
    && (forall w | 0 <= w < |s.workers| :: s.workers[w].InCheck? ==> s.pool.size > 0 || s.pool.shutdown)
    && (forall p | 0 <= p < |s.producers| ::
          s.producers[p].AddCheck? ==> s.pool.size < |s.pool.ring| || s.pool.shutdown)
    && (forall p | 0 <= p < |s.producers| :: s.producers[p].ParkedFull? ==> s.pool.size == |s.pool.ring|)
  }

  /** The counters of the structure against the threads there are. */
  ghost predicate CountInv(s: Sys) {
    && 0 <= s.pool.minThreads <= s.pool.live <= s.pool.maxThreads
    && s.pool.waitExit >= 0
    && s.pool.busy == Count(Counted, s.workers)
    && Count(Unexited, s.workers) <= s.pool.live
  }

  /** No lost wakeup: while a worker is parked, every queued task has a worker that will look at the
      queue, except for those whose wakeup a worker took along through the shrink branch since the
      ring was last empty. */
  ghost predicate WakeInv(s: Sys) {
    !s.pool.shutdown && SomeParked(s.workers) ==> s.pool.size <= Count(Awake, s.workers) + s.shrunk
  }

  ghost predicate Inv(s: Sys) {
    QueueInv(s) && LockInv(s) && GuardInv(s) && CountInv(s) && WakeInv(s)
  }

  lemma {:induction false} CountZero(k: Kind, workers: seq<Worker>)
    requires forall i | 0 <= i < |workers| :: !Is(k, workers[i])
    ensures Count(k, workers) == 0
    decreases |workers|
  {
    if workers != [] {
      CountZero(k, workers[..|workers| - 1]);
    }
  }

  lemma {:induction false} CountBounded(k: Kind, workers: seq<Worker>)
    ensures Count(k, workers) <= |workers|
    decreases |workers|
  {
    if workers != [] {
      CountBounded(k, workers[..|workers| - 1]);
    }
  }

  lemma InitialInv(s: Sys)
    requires Initial(s)
    ensures Inv(s)
  {
    CountZero(Counted, s.workers);
    CountBounded(Unexited, s.workers);
  }

  // ---- each part is kept by every step ----

  lemma QueueWork(s: Sys, w: nat)
    requires Inv(s) && Enabled(s, Work(w))
    ensures QueueInv(WorkerStep(s, w))
  {
    hide Queued, Taken, RingOk, LockInv, CountInv, WakeInv;
    var t := WorkerStep(s, w);
    if s.workers[w].InCheck? && !s.pool.shutdown {
      hide TakeSection, Head;
      TakenAppend(s.removed, w, Head(s.pool));
      TakeOutcome(s.pool);
      assert Taken(s.removed) + [Head(s.pool)] + Queued(t.pool) == Taken(s.removed) + ([Head(s.pool)] + Queued(t.pool));
    } else {
      QueueUntouched(s.pool, t.pool);
    }
  }

  lemma TakenAppend(removed: seq<(nat, Task)>, w: nat, task: Task)
    ensures Taken(removed + [(w, task)]) == Taken(removed) + [task]
  {
  }

  lemma QueueProduce(s: Sys, p: nat, task: Task, wake: nat)
    requires Inv(s) && Enabled(s, Produce(p, task, wake))
    ensures QueueInv(ProducerStep(s, p, task, wake))
  {
    hide Queued, Taken, RingOk, LockInv, CountInv, WakeInv, Signal, WakeWorkers;
    if s.producers[p].AddCheck? && !s.pool.shutdown {
      AddOutcome(s.pool, s.producers[p].task);
    }
  }

  lemma LockWork(s: Sys, w: nat)
    requires LockInv(s) && Enabled(s, Work(w))
    ensures LockInv(WorkerStep(s, w))
  {
  }

  lemma LockProduce(s: Sys, p: nat, task: Task, wake: nat)
    requires LockInv(s) && Enabled(s, Produce(p, task, wake))
    ensures LockInv(ProducerStep(s, p, task, wake))
  {
  }

  lemma GuardWork(s: Sys, w: nat)
    requires Inv(s) && Enabled(s, Work(w))
    ensures GuardInv(WorkerStep(s, w))
  {
  }

  lemma GuardProduce(s: Sys, p: nat, task: Task, wake: nat)
    requires Inv(s) && Enabled(s, Produce(p, task, wake))
    ensures GuardInv(ProducerStep(s, p, task, wake))
  {
  }

  /** What a worker's step does to the three counts. */
  lemma CountMove(s: Sys, w: nat, to: Worker)
    requires w < |s.workers|
    ensures forall k: Kind :: Count(k, s.workers[w := to])
              == Count(k, s.workers) - (if Is(k, s.workers[w]) then 1 else 0) + (if Is(k, to) then 1 else 0)
  {
    forall k: Kind ensures Count(k, s.workers[w := to])
        == Count(k, s.workers) - (if Is(k, s.workers[w]) then 1 else 0) + (if Is(k, to) then 1 else 0) {
      CountUpdate(k, s.workers, w, to);
    }
  }

  /** A worker takes the mutex, tests, parks, or wakes up. */
  lemma CountTest(s: Sys, w: nat)
    requires CountInv(s) && WakeInv(s) && w < |s.workers|
    requires s.workers[w].AtLock? || s.workers[w].InTest? || s.workers[w].Parked?
    ensures CountInv(WorkerStep(s, w)) && WakeInv(WorkerStep(s, w))
  {
    hide Count;
    CountMove(s, w, WorkerStep(s, w).workers[w]);
  }

  /** A woken worker exits or tests again. */
  lemma CountWoken(s: Sys, w: nat)
    requires CountInv(s) && WakeInv(s) && RingOk(s.pool) && w < |s.workers| && s.workers[w].Woken?
    ensures CountInv(WorkerStep(s, w)) && WakeInv(WorkerStep(s, w))
  {
    hide Count;
    CountMove(s, w, WorkerStep(s, w).workers[w]);
  }

  /** A worker exits on shutdown or takes a task. */
  lemma CountCheck(s: Sys, w: nat)
    requires CountInv(s) && WakeInv(s) && RingOk(s.pool) && w < |s.workers| && s.workers[w].InCheck?
    requires s.pool.size > 0 || s.pool.shutdown
    ensures CountInv(WorkerStep(s, w)) && WakeInv(WorkerStep(s, w))
  {
    hide Count, Head;
    CountMove(s, w, WorkerStep(s, w).workers[w]);
  }

  /** A worker counts itself busy, or not busy any more. */
  lemma CountBusy(s: Sys, w: nat)
    requires CountInv(s) && WakeInv(s) && w < |s.workers| && (s.workers[w].Took? || s.workers[w].Running?)
    ensures CountInv(WorkerStep(s, w)) && WakeInv(WorkerStep(s, w))
  {
    hide Count;
    CountMove(s, w, WorkerStep(s, w).workers[w]);
  }

  lemma CountWork(s: Sys, w: nat)
    requires Inv(s) && Enabled(s, Work(w))
    ensures CountInv(WorkerStep(s, w)) && WakeInv(WorkerStep(s, w))
  {
    hide WorkerStep, CountInv, WakeInv, RingOk, Queued, Taken, LockInv;
    match s.workers[w]
    case Woken => CountWoken(s, w);
    case InCheck => CountCheck(s, w);
    case Took(_) => CountBusy(s, w);
    case Running(_) => CountBusy(s, w);
    case _ => CountTest(s, w);
  }

  lemma CountSignal(s: Sys, wake: nat)
    requires CountInv(s) && MayWake(s.workers, wake)
    ensures var t := Signal(s.workers, wake);
      && Count(Counted, t) == Count(Counted, s.workers) && Count(Unexited, t) == Count(Unexited, s.workers)
      && Count(Awake, t) == Count(Awake, s.workers) + (if SomeParked(s.workers) then 1 else 0)
      && (SomeParked(t) ==> SomeParked(s.workers))
  {
    if wake < |s.workers| && s.workers[wake].Parked? {
      CountUpdate(Unexited, s.workers, wake, Woken);
      CountUpdate(Counted, s.workers, wake, Woken);
      CountUpdate(Awake, s.workers, wake, Woken);
    }
  }

  /** The last stretch of threadpool_add. */
  lemma CountAdd(s: Sys, p: nat, task: Task, wake: nat)
    requires CountInv(s) && WakeInv(s) && p < |s.producers| && s.producers[p].AddCheck? && MayWake(s.workers, wake)
    ensures CountInv(ProducerStep(s, p, task, wake)) && WakeInv(ProducerStep(s, p, task, wake))
  {
    CountSignal(s, wake);
    CountSame(Unexited, s.workers, WakeWorkers(s.workers));
    CountSame(Counted, s.workers, WakeWorkers(s.workers));
    hide Count, Signal, WakeWorkers;
  }

  lemma CountProduce(s: Sys, p: nat, task: Task, wake: nat)
    requires Inv(s) && Enabled(s, Produce(p, task, wake))
    ensures CountInv(ProducerStep(s, p, task, wake)) && WakeInv(ProducerStep(s, p, task, wake))
  {
    hide QueueInv, LockInv, GuardInv, Count;
    if s.producers[p].AddCheck? {
      CountAdd(s, p, task, wake);
    }
  }

  lemma CountGrowth(s: Sys, counted: nat, created: nat, wake: nat)
    requires CountInv(s) && WakeInv(s) && s.manager.Growing? && created <= counted
    requires counted > 0 ==> s.pool.live + counted <= s.pool.maxThreads
    ensures CountInv(ManagerStep(s, counted, created, wake)) && WakeInv(ManagerStep(s, counted, created, wake))
  {
    CountNew(Unexited, s.workers, created);
    CountNew(Counted, s.workers, created);
    CountNew(Awake, s.workers, created);
    hide Count;
  }

  lemma CountManage(s: Sys, counted: nat, created: nat, wake: nat)
    requires Inv(s) && Enabled(s, Manage(counted, created, wake))
    ensures CountInv(ManagerStep(s, counted, created, wake)) && WakeInv(ManagerStep(s, counted, created, wake))
  {
    hide QueueInv, LockInv, GuardInv, Count, Signal;
    if s.manager.Growing? {
      CountGrowth(s, counted, created, wake);
    } else {
      CountSignal(s, wake);
    }
  }

  lemma RestManage(s: Sys, counted: nat, created: nat, wake: nat)
    requires Inv(s) && Enabled(s, Manage(counted, created, wake))
    ensures var t := ManagerStep(s, counted, created, wake); QueueInv(t) && LockInv(t) && GuardInv(t)
  {
    hide Queued, RingOk, Taken;
    QueueUntouched(s.pool, ManagerStep(s, counted, created, wake).pool);
  }

  lemma StepInv(s: Sys, a: Action)
    requires Inv(s) && Enabled(s, a)
    ensures Inv(Next(s, a))
  {
    hide WorkerStep, ProducerStep, ManagerStep, Queued, Taken, RingOk;
    match a
    case Work(w) => QueueWork(s, w); LockWork(s, w); GuardWork(s, w); CountWork(s, w);
    case Produce(p, task, wake) =>
      QueueProduce(s, p, task, wake);
      LockProduce(s, p, task, wake);
      GuardProduce(s, p, task, wake);
      CountProduce(s, p, task, wake);
    case Manage(counted, created, wake) =>
      CountManage(s, counted, created, wake);
      RestManage(s, counted, created, wake);
    case Shutdown => QueueUntouched(s.pool, Next(s, a).pool);
    case DestroySignal(wake) => CountSignal(s, wake);
  }

  /** Every state the pool can reach, on any interleaving with spurious wakeups, satisfies all of it. */
  lemma {:induction false} ReachableInv(s: Sys, actions: seq<Action>, t: Sys)
    requires Inv(s) && Runs(s, actions, t)
    ensures Inv(t)
    decreases |actions|
  {
    hide Inv, Next, Enabled;
    if actions != [] {
      StepInv(s, actions[0]);
      ReachableInv(Next(s, actions[0]), actions[1..], t);
    }
  }

  // ---- the theorems ----

  /** `t` is reached from an initial state by some interleaving. */
  ghost predicate Reached(s: Sys, actions: seq<Action>, t: Sys) {
    Initial(s) && Runs(s, actions, t)
  }

  lemma ReachedInv(s: Sys, actions: seq<Action>, t: Sys)
    requires Reached(s, actions, t)
    ensures Inv(t)
  {
    InitialInv(s);
    ReachableInv(s, actions, t);
  }

  /** First in, first out: the i-th task taken is the i-th accepted, by one worker, and the rest
      waits in the ring in order. */
  lemma Fifo(s: Sys, actions: seq<Action>, t: Sys)
    requires Reached(s, actions, t)
    ensures RingOk(t.pool)
    ensures |t.pool.ring| > 0 ==> t.pool.rear == (t.pool.front + t.pool.size) % |t.pool.ring|
    ensures t.pool.size == |t.pool.ring| ==> t.pool.front == 0
    ensures |t.accepted| == |t.removed| + t.pool.size
    ensures forall i | 0 <= i < |t.removed| :: t.removed[i].1 == t.accepted[i]
    ensures forall i | 0 <= i < t.pool.size ::
              t.accepted[|t.removed| + i] == t.pool.ring[SlotOf(t.pool, i)]
  {
    ReachedInv(s, actions, t);
    if |t.pool.ring| > 0 { RearIsModular(t.pool); }
  }

  /** Line 143 drops a task exactly when one slot is left and the front has moved; any other call
      past its shutdown check appends. So the ring only fills while its front is at slot 0, and
      clearing the rear slot's argument never alters a queued task. */
  lemma DropsExactly(s: Sys, actions: seq<Action>, t: Sys, p: nat, task: Task, wake: nat)
    requires Reached(s, actions, t) && Enabled(t, Produce(p, task, wake))
    requires t.producers[p].AddCheck? && !t.pool.shutdown
    ensures var u := Next(t, Produce(p, task, wake));
      var drop := t.pool.size == |t.pool.ring| - 1 && t.pool.front > 0;
      && RingOk(t.pool) && RingOk(u.pool)
      && (if drop then
            u.dropped == t.dropped + [t.producers[p].task] && Queued(u.pool) == Queued(t.pool)
          else
            u.accepted == t.accepted + [t.producers[p].task]
            && Queued(u.pool) == Queued(t.pool) + [t.producers[p].task])
      && (u.pool.size == |u.pool.ring| ==> u.pool.front == 0)
    ensures t.pool.size < |t.pool.ring|
  {
    hide Queued, RingOk;
    ReachedInv(s, actions, t);
    AddOutcome(t.pool, t.producers[p].task);
    StepInv(t, Produce(p, task, wake));
  }

  /** No worker takes from an empty ring, although shutdown is written without the lock. */
  lemma NeverTakesFromEmpty(s: Sys, actions: seq<Action>, t: Sys, w: nat)
    requires Reached(s, actions, t) && Enabled(t, Work(w))
    requires Next(t, Work(w)).removed != t.removed
    ensures t.pool.size > 0 && t.mutex == HeldByWorker(w)
  {
    hide Queued, RingOk, QueueInv, CountInv, WakeInv;
    ReachedInv(s, actions, t);
  }

  lemma {:induction false} CountPositive(k: Kind, workers: seq<Worker>)
    requires Count(k, workers) > 0
    ensures exists i | 0 <= i < |workers| :: Is(k, workers[i])
    decreases |workers|
  {
    var last := |workers| - 1;
    if !Is(k, workers[last]) {
      CountPositive(k, workers[..last]);
      var i :| 0 <= i < last && Is(k, workers[..last][i]);
      assert Is(k, workers[i]);
    }
  }

  /** No lost wakeup before shutdown: unless a worker left through the shrink branch since the ring
      was last empty, no task is queued while some worker is parked and none will look at the queue
      by itself. PoolStuck says for which pools that can happen at all. */
  lemma NoLostWakeup(s: Sys, actions: seq<Action>, t: Sys)
    requires Reached(s, actions, t) && !t.pool.shutdown && SomeParked(t.workers)
    ensures t.pool.size <= Count(Awake, t.workers) + t.shrunk
    ensures t.pool.size > t.shrunk ==> exists w | 0 <= w < |t.workers| :: Is(Awake, t.workers[w])
  {
    ReachedInv(s, actions, t);
    if t.pool.size > t.shrunk {
      CountPositive(Awake, t.workers);
    }
  }

  /** The counters on every interleaving, although the manager decides on stale values. */
  lemma ThreadCounts(s: Sys, actions: seq<Action>, t: Sys)
    requires Reached(s, actions, t)
    ensures t.pool.minThreads <= t.pool.live <= t.pool.maxThreads && t.pool.waitExit >= 0
    ensures Count(Unexited, t.workers) <= t.pool.live
    ensures t.pool.busy == Count(Counted, t.workers)
    ensures forall p | 0 <= p < |t.producers| && t.producers[p].ParkedFull? ::
              t.pool.size == |t.pool.ring| && t.pool.front == 0
  {
    ReachedInv(s, actions, t);
  }
}
