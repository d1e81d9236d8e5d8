/** The pthread pool as an interleaving of producers, workers and the manager. A step runs from one
    mutex operation or wait to the next; between two steps any other thread may run, and the
    shutdown flag, which is written without the lock, may be set even while a thread holds it. */
module PoolSystem {
  import opened PoolSections

  /** Where a worker stands in threadpool_thread. */
  datatype Worker =
    | AtLock                // line 164, heading for the mutex
    | InTest                // line 166, holding it
    | Parked                // line 168, in the wait set of queue_not_empty
    | Woken                 // line 168, woken, must take the mutex again
    | InCheck               // line 186, holding it
    | Took(task: Task)      // line 204, about to count itself busy
    | Running(task: Task)   // lines 210-216, counted busy
    | Exited

  /** Where a producer stands in threadpool_add. */
  datatype Producer =
    | Idle
    | AddLock(task: Task)     // line 123
    | AddTest(task: Task)     // line 126, holding the mutex
    | ParkedFull(task: Task)  // line 127, in the wait set of queue_not_full
    | WokenFull(task: Task)
    | AddCheck(task: Task)    // line 131, holding the mutex

  /** Where the manager stands in adjust_thread, with the values it has read. */
  datatype Manager =
    | Looping
    | ReadPool
    | ReadBusy(size: int, live: int)
    | Growing(size: int, live: int, busy: int)
    | Shrinking(live: int, busy: int)
    | Signalling(left: int)
    | Stopped

  datatype Mutex = Free | HeldByWorker(w: nat) | HeldByProducer(p: nat)

  /** The whole system and its history: the tasks queued, the tasks dropped at line 143, the tasks
      taken and by whom, and how often a worker left through the shrink branch since the ring was last
      empty. */
  datatype Sys = Sys(
    pool: Pool, mutex: Mutex, workers: seq<Worker>, producers: seq<Producer>, manager: Manager,
    accepted: seq<Task>, dropped: seq<Task>, removed: seq<(nat, Task)>, shrunk: nat)

  /** One step. `wake` is the worker a cond_signal picks; a step of a parked thread is a spurious
      wakeup; `counted` and `created` are the threads one growth adds to live_thread_num and really
      starts. */
  datatype Action =
    | Work(w: nat)
    | Produce(p: nat, task: Task, wake: nat)
    | Manage(counted: nat, created: nat, wake: nat)
    | Shutdown
    | DestroySignal(wake: nat)

  // ---- the condition variables ----

  predicate SomeParked(workers: seq<Worker>) {
    exists i | 0 <= i < |workers| :: workers[i].Parked?
  }

  /** A cond_signal of queue_not_empty may pick `wake`: some parked worker, if there is one. */
  predicate MayWake(workers: seq<Worker>, wake: nat) {
    SomeParked(workers) ==> wake < |workers| && workers[wake].Parked?
  }

  function Signal(workers: seq<Worker>, wake: nat): seq<Worker> {
    if wake < |workers| && workers[wake].Parked? then workers[wake := Woken] else workers
  }

  function WakeWorkers(workers: seq<Worker>): (r: seq<Worker>)
    ensures |r| == |workers|
  {
    seq(|workers|, i requires 0 <= i < |workers| => if workers[i].Parked? then Woken else workers[i])
  }

  function WakeProducers(producers: seq<Producer>): (r: seq<Producer>)
    ensures |r| == |producers|
  {
    seq(|producers|, i requires 0 <= i < |producers| =>
      if producers[i].ParkedFull? then WokenFull(producers[i].task) else producers[i])
  }

  // ---- the steps ----

  /** The test of line 243 on the manager's snapshots. */
  predicate Grows(p: Pool, size: int, live: int) {
    size > p.minThreads && live < p.maxThreads
  }

  /** The test of line 261. */
  predicate Shrinks(p: Pool, live: int, busy: int) {
    busy * 2 < live && live > p.minThreads
  }

  /** Whether the manager's next stretch takes the mutex: always for its snapshot, and in the branches
      only if their tests hold. */
  predicate Locks(p: Pool, m: Manager) {
    match m
    case ReadPool => true
    case Growing(size, live, _) => Grows(p, size, live)
    case Shrinking(live, busy) => Shrinks(p, live, busy)
    case _ => false
  }

  predicate Enabled(s: Sys, a: Action) {
    match a
    case Work(w) =>
      && w < |s.workers| && !s.workers[w].Exited?
      && (s.workers[w].AtLock? || s.workers[w].Woken? ==> s.mutex == Free)
    case Produce(p, _, wake) =>
      && p < |s.producers| && MayWake(s.workers, wake)
      && (s.producers[p].AddLock? || s.producers[p].WokenFull? ==> s.mutex == Free)
    case Manage(counted, created, wake) =>
      && MayWake(s.workers, wake) && !s.manager.Stopped?
      && created <= counted && (counted > 0 ==> counted <= ADD_SIZE && s.pool.live + counted <= s.pool.maxThreads)
      && (Locks(s.pool, s.manager) ==> s.mutex == Free)
    case Shutdown => true
    case DestroySignal(wake) => s.pool.shutdown && MayWake(s.workers, wake)
  }

  function WorkerStep(s: Sys, w: nat): Sys
    requires w < |s.workers|
  {
    match s.workers[w]
    case AtLock => s.(mutex := HeldByWorker(w), workers := s.workers[w := InTest])
    case InTest =>
      if s.pool.size == 0 && !s.pool.shutdown then s.(mutex := Free, workers := s.workers[w := Parked])
      else s.(workers := s.workers[w := InCheck])
    case Parked => s.(workers := s.workers[w := Woken])
    case Woken =>
      if ShrinkExits(s.pool) then
        s.(pool := WokenSection(s.pool), workers := s.workers[w := Exited],
           shrunk := if s.pool.size == 0 then 0 else s.shrunk + 1)
      else
        s.(pool := WokenSection(s.pool), mutex := HeldByWorker(w), workers := s.workers[w := InTest])
    case InCheck =>
      if s.pool.shutdown then s.(mutex := Free, workers := s.workers[w := Exited])
      else
        var task := Head(s.pool);
        s.(pool := TakeSection(s.pool), mutex := Free, workers := s.workers[w := Took(task)],
           producers := WakeProducers(s.producers), removed := s.removed + [(w, task)],
           shrunk := if s.pool.size == 1 then 0 else s.shrunk)
    case Took(task) => s.(pool := s.pool.(busy := s.pool.busy + 1), workers := s.workers[w := Running(task)])
    case Running(_) => s.(pool := s.pool.(busy := s.pool.busy - 1), workers := s.workers[w := AtLock])
    case Exited => s
  }

  function ProducerStep(s: Sys, p: nat, task: Task, wake: nat): Sys
    requires p < |s.producers|
  {
    match s.producers[p]
    case Idle => s.(producers := s.producers[p := AddLock(task)])
    case AddLock(t) => s.(mutex := HeldByProducer(p), producers := s.producers[p := AddTest(t)])
    case AddTest(t) =>
      if s.pool.size == |s.pool.ring| && !s.pool.shutdown then
        s.(mutex := Free, producers := s.producers[p := ParkedFull(t)])
      else s.(producers := s.producers[p := AddCheck(t)])
    case ParkedFull(t) => s.(producers := s.producers[p := WokenFull(t)])
    case WokenFull(t) => s.(mutex := HeldByProducer(p), producers := s.producers[p := AddTest(t)])
    case AddCheck(t) =>
      if s.pool.shutdown then
        s.(mutex := Free, producers := s.producers[p := Idle], workers := WakeWorkers(s.workers))
      else
        s.(pool := AddSection(s.pool, t), mutex := Free, producers := s.producers[p := Idle],
           workers := Signal(s.workers, wake),
           accepted := if Keeps(s.pool) then s.accepted + [t] else s.accepted,
           dropped := if Keeps(s.pool) then s.dropped else s.dropped + [t])
  }

  function ManagerStep(s: Sys, counted: nat, created: nat, wake: nat): Sys {
    match s.manager
    case Looping => s.(manager := if s.pool.shutdown then Stopped else ReadPool)
    case ReadPool => s.(manager := ReadBusy(s.pool.size, s.pool.live))
    case ReadBusy(size, live) => s.(manager := Growing(size, live, s.pool.busy))
    case Growing(size, live, busy) =>
      if Grows(s.pool, size, live) then
        s.(pool := s.pool.(live := s.pool.live + counted), manager := Shrinking(live, busy),
           workers := s.workers + seq(created, _ => AtLock))
      else s.(manager := Shrinking(live, busy))
    case Shrinking(live, busy) =>
      if Shrinks(s.pool, live, busy) then
        s.(pool := s.pool.(waitExit := ADD_SIZE), manager := Signalling(ADD_SIZE))
      else s.(manager := Looping)
    case Signalling(left) =>
      if left == 0 then s.(manager := Looping)
      else s.(manager := Signalling(left - 1), workers := Signal(s.workers, wake))
    case Stopped => s
  }

  function Next(s: Sys, a: Action): Sys
    requires Enabled(s, a)
  {
    match a
    case Work(w) => WorkerStep(s, w)
    case Produce(p, task, wake) => ProducerStep(s, p, task, wake)
    case Manage(counted, created, wake) => ManagerStep(s, counted, created, wake)
    case Shutdown => s.(pool := s.pool.(shutdown := true))
    case DestroySignal(wake) => s.(workers := Signal(s.workers, wake))
  }

  /** What threadpool_create leaves behind: pthread_create's result is not checked, so up to
      min_thread_num workers exist, and any number of producers may call. */
  predicate Initial(s: Sys) {
    && s.pool.front == s.pool.rear == 0 && s.pool.size == 0 && !s.pool.shutdown
    && 0 <= s.pool.minThreads <= s.pool.maxThreads
    && s.pool.live == s.pool.minThreads && s.pool.busy == 0 && s.pool.waitExit == 0
    && s.mutex == Free && s.manager == Looping
    && |s.workers| <= s.pool.minThreads && (forall w | 0 <= w < |s.workers| :: s.workers[w] == AtLock)
    && (forall p | 0 <= p < |s.producers| :: s.producers[p] == Idle)
    && s.accepted == s.dropped == [] && s.removed == [] && s.shrunk == 0
  }

  /** The state after a sequence of steps, each enabled when it is taken. */
  ghost predicate Runs(s: Sys, actions: seq<Action>, t: Sys)
    decreases |actions|
  {
    if actions == [] then t == s
    else Enabled(s, actions[0]) && Runs(Next(s, actions[0]), actions[1..], t)
  }

  // ---- counting workers ----

  datatype Kind = Unexited | Counted | Awake

  /** Unexited threads, threads counted busy, and threads that will look at the queue without
      being woken: awake, or heading for the mutex. */
  predicate Is(k: Kind, w: Worker) {
    match k
    case Unexited => !w.Exited?
    case Counted => w.Running?
    case Awake => w.AtLock? || w.InTest? || w.Woken? || w.InCheck?
  }

  function Count(k: Kind, workers: seq<Worker>): nat {
    if workers == [] then 0
    else Count(k, workers[..|workers| - 1]) + if Is(k, workers[|workers| - 1]) then 1 else 0
  }

  lemma {:induction false} CountUpdate(k: Kind, workers: seq<Worker>, i: nat, w: Worker)
    requires i < |workers|
    ensures Count(k, workers[i := w])
         == Count(k, workers) - (if Is(k, workers[i]) then 1 else 0) + (if Is(k, w) then 1 else 0)
    decreases |workers|
  {
    var last := |workers| - 1;
    if i == last {
      assert workers[i := w][..last] == workers[..last];
    } else {
      CountUpdate(k, workers[..last], i, w);
      assert workers[i := w][..last] == workers[..last][i := w];
    }
  }

  lemma {:induction false} CountSame(k: Kind, a: seq<Worker>, b: seq<Worker>)
    requires |a| == |b| && forall i | 0 <= i < |a| :: Is(k, a[i]) == Is(k, b[i])
    ensures Count(k, a) == Count(k, b)
    decreases |a|
  {
    if a != [] {
      CountSame(k, a[..|a| - 1], b[..|b| - 1]);
    }
  }

  lemma {:induction false} CountNew(k: Kind, workers: seq<Worker>, created: nat)
    ensures Count(k, workers + seq(created, _ => AtLock))
         == Count(k, workers) + if k == Counted then 0 else created
    decreases created
  {
    if created == 0 {
      assert workers + seq(created, _ => AtLock) == workers;
    } else {
      var all := workers + seq(created, _ => AtLock);
      assert all[..|all| - 1] == workers + seq(created - 1, _ => AtLock);
      CountNew(k, workers, created - 1);
    }
  }
}
