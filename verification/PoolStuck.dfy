/** For which pools a task can be left queued with every worker parked and nobody owing a signal. */
module PoolStuck {
  import opened PoolSections
  import opened PoolSystem
  import opened PoolSafety

  /** Some interleaving leads from `s` to `t`. */
  ghost predicate Reaches(s: Sys, t: Sys) {
    exists actions :: Runs(s, actions, t)
  }

  /** Before shutdown a task is queued, some worker is parked, no other is awake or busy, and the
      manager owes no signal. */
  predicate Stuck(s: Sys) {
    && !s.pool.shutdown && s.pool.size > 0 && SomeParked(s.workers) && !s.manager.Signalling?
    && forall w | 0 <= w < |s.workers| :: s.workers[w].Parked? || s.workers[w].Exited?
  }

  // ---- pools that cannot get stuck ----

  /** The parameters never change; the pool has grown past its minimum only if the ring can hold more
      tasks than that, and only then has a worker left through the shrink branch. */
  ghost predicate Grown(s: Sys, min: int, max: int, room: nat) {
    && |s.pool.ring| == room && s.pool.minThreads == min && s.pool.maxThreads == max
    && (s.manager.ReadBusy? || s.manager.Growing? ==> s.manager.size <= room)
    && (s.pool.live > min ==> room > min)
    && (s.shrunk > 0 ==> min < max && room > min)
  }

  /** A lone worker is never parked on a non-empty ring. */
  ghost predicate Alone(s: Sys) {
    s.pool.maxThreads <= 1 && !s.pool.shutdown && SomeParked(s.workers) ==> s.pool.size == 0
  }

  lemma GrownWork(s: Sys, w: nat, min: int, max: int, room: nat)
    requires CountInv(s) && w < |s.workers| && Grown(s, min, max, room)
    ensures Grown(WorkerStep(s, w), min, max, room)
  {
    hide Count, WakeProducers;
  }

  lemma GrownManage(s: Sys, counted: nat, created: nat, wake: nat, min: int, max: int, room: nat)
    requires CountInv(s) && RingOk(s.pool) && Enabled(s, Manage(counted, created, wake)) && Grown(s, min, max, room)
    ensures Grown(ManagerStep(s, counted, created, wake), min, max, room)
  {
    hide Count, Signal, SlotOf;
  }

  lemma GrownStep(s: Sys, a: Action, min: int, max: int, room: nat)
    requires Inv(s) && Enabled(s, a) && Grown(s, min, max, room)
    ensures Grown(Next(s, a), min, max, room)
  {
    hide Queued, Taken, LockInv, GuardInv, CountInv, WakeInv, RingOk, WorkerStep, ManagerStep, Signal, WakeWorkers;
    match a
    case Work(w) => GrownWork(s, w, min, max, room);
    case Manage(counted, created, wake) => GrownManage(s, counted, created, wake, min, max, room);
    case _ =>
  }

  lemma {:induction false} CountTwo(k: Kind, workers: seq<Worker>, v: nat, w: nat)
    requires v < w < |workers| && Is(k, workers[v]) && Is(k, workers[w])
    ensures Count(k, workers) >= 2
    decreases |workers|
  {
    var last := |workers| - 1;
    if w < last {
      CountTwo(k, workers[..last], v, w);
    } else {
      CountUpdate(k, workers[..last], v, Exited);
      CountUpdate(k, workers[..last], v, workers[v]);
      assert workers[..last][v := workers[v]] == workers[..last];
    }
  }

  /** Two unexited workers are one more than such a pool has. */
  lemma OnlyOne(s: Sys, v: nat, w: nat)
    requires CountInv(s) && s.pool.maxThreads <= 1 && v < |s.workers| && w < |s.workers|
    requires !s.workers[v].Exited? && !s.workers[w].Exited?
    ensures v == w
  {
    if v < w { CountTwo(Unexited, s.workers, v, w); }
    if w < v { CountTwo(Unexited, s.workers, w, v); }
  }

  lemma AloneWork(s: Sys, w: nat)
    requires CountInv(s) && w < |s.workers| && !s.workers[w].Exited? && Alone(s)
    ensures Alone(WorkerStep(s, w))
  {
    hide CountInv, TakeSection, WakeProducers;
    var t := WorkerStep(s, w);
    if t.pool.maxThreads <= 1 && SomeParked(t.workers) {
      SameLimit(s, w);
      var v :| 0 <= v < |t.workers| && t.workers[v].Parked?;
      assert !s.workers[v].Exited?;
      OnlyOne(s, v, w);
    }
  }

  lemma SameLimit(s: Sys, w: nat)
    requires w < |s.workers|
    ensures WorkerStep(s, w).pool.maxThreads == s.pool.maxThreads
  {
  }

  lemma AloneProduce(s: Sys, p: nat, task: Task, wake: nat)
    requires CountInv(s) && p < |s.producers| && MayWake(s.workers, wake) && Alone(s)
    ensures Alone(ProducerStep(s, p, task, wake))
  {
    hide CountInv, WakeWorkers;
    var t := ProducerStep(s, p, task, wake);
    if t.pool.maxThreads <= 1 && !t.pool.shutdown && SomeParked(t.workers) {
      var v :| 0 <= v < |t.workers| && t.workers[v].Parked?;
      assert s.workers[v].Parked?;
      OnlyOne(s, v, wake);
    }
  }

  lemma AloneManage(s: Sys, counted: nat, created: nat, wake: nat)
    requires Alone(s)
    ensures Alone(ManagerStep(s, counted, created, wake))
  {
  }

  lemma AloneStep(s: Sys, a: Action)
    requires Inv(s) && Enabled(s, a) && Alone(s)
    ensures Alone(Next(s, a))
  {
    hide QueueInv, LockInv, GuardInv, CountInv, WakeInv, WorkerStep, ProducerStep, ManagerStep;
    match a
    case Work(w) => AloneWork(s, w);
    case Produce(p, task, wake) => AloneProduce(s, p, task, wake);
    case Manage(counted, created, wake) => AloneManage(s, counted, created, wake);
    case _ =>
  }

  lemma {:induction false} Stays(s: Sys, actions: seq<Action>, t: Sys, min: int, max: int, room: nat)
    requires Inv(s) && Grown(s, min, max, room) && Alone(s) && Runs(s, actions, t)
    ensures Inv(t) && Grown(t, min, max, room) && Alone(t)
    decreases |actions|
  {
    hide Inv, Next, Enabled, Grown, Alone;
    if actions != [] {
      StepInv(s, actions[0]);
      GrownStep(s, actions[0], min, max, room);
      AloneStep(s, actions[0]);
      Stays(Next(s, actions[0]), actions[1..], t, min, max, room);
    }
  }

  /** A pool that gets stuck may grow, has a ring longer than its minimum, and may have two threads. */
  lemma StuckNeeds(s: Sys, t: Sys)
    requires Initial(s) && Reaches(s, t) && Stuck(t)
    ensures s.pool.minThreads < s.pool.maxThreads && s.pool.maxThreads >= 2
    ensures |s.pool.ring| > s.pool.minThreads
  {
    hide Inv;
    var actions :| Runs(s, actions, t);
    InitialInv(s);
    Stays(s, actions, t, s.pool.minThreads, s.pool.maxThreads, |s.pool.ring|);
    NoLostWakeup(s, actions, t);
  }

  // ---- pools that can ----

  lemma {:induction false} RunsThen(s: Sys, a: seq<Action>, t: Sys, b: seq<Action>, u: Sys)
    requires Runs(s, a, t) && Runs(t, b, u)
    ensures Runs(s, a + b, u)
    decreases |a|
  {
    if a == [] {
      assert a + b == b;
    } else {
      RunsThen(Next(s, a[0]), a[1..], t, b, u);
      assert (a + b)[1..] == a[1..] + b;
    }
  }

  lemma Then(s: Sys, t: Sys, u: Sys)
    requires Reaches(s, t) && Reaches(t, u)
    ensures Reaches(s, u)
  {
    var a :| Runs(s, a, t);
    var b :| Runs(t, b, u);
    RunsThen(s, a, t, b, u);
  }

  lemma Here(s: Sys)
    ensures Reaches(s, s)
  {
    assert Runs(s, [], s);
  }

  lemma Step(s: Sys, t: Sys, a: Action, u: Sys)
    requires Reaches(s, t) && Enabled(t, a) && u == Next(t, a)
    ensures Reaches(s, u)
  {
    assert [a][1..] == [];
    assert Runs(t, [a], u);
    Then(s, t, u);
  }

  /** One producer between calls, nobody holding the mutex, and no shutdown. */
  predicate Calm(s: Sys) {
    s.producers == [Idle] && s.mutex == Free && !s.pool.shutdown && RingOk(s.pool)
  }

  const NONE: Task := Task(0, 0)

  /** The producer calls threadpool_add and gets past its tests. */
  lemma Offer(s: Sys, wake: nat) returns (t: Sys)
    requires Calm(s) && s.pool.size < |s.pool.ring| && MayWake(s.workers, wake)
    ensures Reaches(s, t) && t == s.(mutex := HeldByProducer(0), producers := [AddCheck(NONE)])
  {
    hide RingOk, AddSection, Keeps;
    var put := Produce(0, NONE, wake);
    Here(s);
    var s1 := s.(producers := [AddLock(NONE)]);
    Step(s, s, put, s1);
    var s2 := s.(mutex := HeldByProducer(0), producers := [AddTest(NONE)]);
    Step(s, s1, put, s2);
    t := s2.(producers := [AddCheck(NONE)]);
    Step(s, s2, put, t);
  }

  /** The producer hands in a task. */
  lemma Add(s: Sys, wake: nat) returns (t: Sys)
    requires Calm(s) && s.pool.size < |s.pool.ring| && Keeps(s.pool) && MayWake(s.workers, wake)
    ensures Reaches(s, t) && Calm(t) && t.pool == AddSection(s.pool, NONE) && t.pool.size == s.pool.size + 1
    ensures t == s.(pool := t.pool, workers := Signal(s.workers, wake), accepted := t.accepted)
  {
    AddOutcome(s.pool, NONE);
    Appends(s.pool, NONE);
    hide RingOk, AddSection, Keeps, Signal, Queued;
    var u := Offer(s, wake);
    t := Next(u, Produce(0, NONE, wake));
    assert t.producers == [Idle];
    Step(s, u, Produce(0, NONE, wake), t);
  }

  lemma Appends(p: Pool, task: Task)
    requires RingOk(p) && p.size < |p.ring| && Keeps(p)
    ensures AddSection(p, task).size == p.size + 1 && AddSection(p, task).shutdown == p.shutdown
  {
  }

  /** `k` tasks are handed in while nobody is parked, into slots that line 143 does not refuse. */
  lemma {:induction false} AddMany(s: Sys, k: nat) returns (t: Sys)
    requires Calm(s) && !SomeParked(s.workers)
    requires s.pool.size + k <= if s.pool.front == 0 then |s.pool.ring| else |s.pool.ring| - 1
    ensures Reaches(s, t) && Calm(t) && t == s.(pool := t.pool, accepted := t.accepted)
    ensures t.pool == s.pool.(ring := t.pool.ring, rear := t.pool.rear, size := s.pool.size + k)
    ensures |t.pool.ring| == |s.pool.ring|
    decreases k
  {
    Here(s);
    t := s;
    if k > 0 {
      AddOutcome(s.pool, NONE);
      var u := Add(s, 0);
      t := AddMany(u, k - 1);
      Then(s, u, t);
    }
  }

  /** The manager sees more tasks than the minimum, starts `g` threads, and finds nothing to shrink. */
  lemma GrowBy(s: Sys, g: nat) returns (t: Sys)
    requires Calm(s) && !SomeParked(s.workers) && s.manager == Looping && s.pool.size > s.pool.minThreads
    requires s.pool.live == s.pool.minThreads && g <= ADD_SIZE && s.pool.live + g <= s.pool.maxThreads && g > 0
    ensures Reaches(s, t)
    ensures t == s.(pool := s.pool.(live := s.pool.live + g), workers := s.workers + seq(g, _ => AtLock))
  {
    hide RingOk;
    var m, grow := Manage(0, 0, 0), Manage(g, g, 0);
    var size, live, busy := s.pool.size, s.pool.live, s.pool.busy;
    t := s.(pool := s.pool.(live := live + g), workers := s.workers + seq(g, _ => AtLock));
    Here(s);
    var s1 := s.(manager := ReadPool);
    Step(s, s, m, s1);
    var s2 := s.(manager := ReadBusy(size, live));
    Step(s, s1, m, s2);
    var s3 := s.(manager := Growing(size, live, busy));
    Step(s, s2, m, s3);
    var s4 := t.(manager := Shrinking(live, busy));
    Step(s, s3, grow, s4);
    assert forall w | 0 <= w < |t.workers| :: !t.workers[w].Parked?;
    Step(s, s4, m, t);
  }

  /** Worker 0 takes a task, runs it and comes back for the mutex. */
  lemma TakeOne(s: Sys) returns (t: Sys)
    requires Calm(s) && s.workers != [] && s.workers[0] == AtLock && s.pool.size > 0 && s.shrunk == 0
    ensures Reaches(s, t) && Calm(t) && t == s.(pool := t.pool, removed := t.removed)
    ensures t.pool == TakeSection(s.pool) && t.pool.size == s.pool.size - 1
  {
    TakeOutcome(s.pool);
    var task, a := Head(s.pool), Work(0);
    assert TakeSection(s.pool).size == s.pool.size - 1;
    hide RingOk, TakeSection, Head;
    Here(s);
    var s1 := s.(mutex := HeldByWorker(0), workers := s.workers[0 := InTest]);
    Step(s, s, a, s1);
    var s2 := s1.(workers := s.workers[0 := InCheck]);
    Step(s, s1, a, s2);
    t := s.(pool := TakeSection(s.pool), removed := s.removed + [(0, task)]);
    assert WakeProducers(s.producers) == s.producers;
    var s3 := t.(workers := s.workers[0 := Took(task)]);
    Step(s, s2, a, s3);
    var s4 := t.(pool := t.pool.(busy := t.pool.busy + 1), workers := s.workers[0 := Running(task)]);
    Step(s, s3, a, s4);
    assert s.workers[0 := AtLock] == s.workers;
    Step(s, s4, a, t);
  }

  lemma {:induction false} TakeAll(s: Sys) returns (t: Sys)
    requires Calm(s) && s.workers != [] && s.workers[0] == AtLock && s.shrunk == 0
    ensures Reaches(s, t) && Calm(t) && t == s.(pool := t.pool, removed := t.removed)
    ensures t.pool == s.pool.(front := t.pool.front, size := 0)
    decreases s.pool.size
  {
    if s.pool.size == 0 {
      t := s;
      Here(s);
    } else {
      var u := TakeOne(s);
      t := TakeAll(u);
      Then(s, u, t);
    }
  }

  /** The manager's signals find nobody parked. */
  lemma {:induction false} SignalOff(s: Sys, left: nat)
    requires s.manager == Signalling(left) && !SomeParked(s.workers)
    ensures Reaches(s, s.(manager := Looping))
    decreases left
  {
    Here(s);
    if left == 0 {
      Step(s, s, Manage(0, 0, 0), s.(manager := Looping));
    } else {
      var t := s.(manager := Signalling(left - 1));
      Step(s, s, Manage(0, 0, 0), t);
      SignalOff(t, left - 1);
      Then(s, t, s.(manager := Looping));
    }
  }

  /** The manager decides to shrink and sends all its signals while nobody is parked. */
  lemma Shrink(s: Sys) returns (t: Sys)
    requires Calm(s) && !SomeParked(s.workers) && s.manager == Looping
    requires s.pool.size <= s.pool.minThreads < s.pool.live && s.pool.busy == 0 <= s.pool.minThreads
    ensures Reaches(s, t) && t == s.(pool := s.pool.(waitExit := ADD_SIZE))
  {
    hide RingOk;
    var m, size, live := Manage(0, 0, 0), s.pool.size, s.pool.live;
    Here(s);
    var s1 := s.(manager := ReadPool);
    Step(s, s, m, s1);
    var s2 := s.(manager := ReadBusy(size, live));
    Step(s, s1, m, s2);
    var s3 := s.(manager := Growing(size, live, 0));
    Step(s, s2, m, s3);
    var s4 := s.(manager := Shrinking(live, 0));
    Step(s, s3, m, s4);
    t := s.(pool := s.pool.(waitExit := ADD_SIZE));
    var s5 := t.(manager := Signalling(ADD_SIZE));
    Step(s, s4, m, s5);
    SignalOff(s5, ADD_SIZE);
    Then(s, s5, t);
  }

  /** The first `k` of `n` workers are parked, the others head for the mutex. */
  function ParkedFirst(n: nat, k: nat): seq<Worker> {
    seq(n, i => if i < k then Parked else AtLock)
  }

  /** On an empty ring the workers park one after the other. */
  lemma {:induction false} ParkAll(s: Sys, n: nat, k: nat) returns (t: Sys)
    requires Calm(s) && s.pool.size == 0 && k <= n && s.workers == ParkedFirst(n, k)
    ensures Reaches(s, t) && t == s.(workers := ParkedFirst(n, n))
    decreases n - k
  {
    hide RingOk;
    Here(s);
    t := s;
    if k < n {
      var s1 := s.(mutex := HeldByWorker(k), workers := s.workers[k := InTest]);
      Step(s, s, Work(k), s1);
      var u := s.(workers := ParkedFirst(n, k + 1));
      assert s1.workers[k := Parked] == u.workers;
      Step(s, s1, Work(k), u);
      t := ParkAll(u, n, k + 1);
      Then(s, u, t);
    }
  }

  /** threadpool_create with every thread started, and one producer. */
  function Created(min: nat, max: nat, room: nat): Sys {
    var pool := Pool(seq(room, _ => NONE), 0, 0, 0, false, min, max, min, 0, 0);
    Sys(pool, Free, ParkedFirst(min, 0), [Idle], Looping, [], [], [], 0)
  }

  /** After one growth, one shrink decision whose signals meet nobody, and no task left: all workers
      are parked and the next ones that wake are to exit. */
  lemma AllParked(min: nat, max: nat, room: nat) returns (n: nat, t: Sys)
    requires min < max && min < room && 2 <= max
    ensures Reaches(Created(min, max, room), t) && Calm(t) && t.pool.size == 0 && |t.pool.ring| == room
    ensures n >= 2 && n > min && t.workers == ParkedFirst(n, n) && t.manager == Looping && t.shrunk == 0
    ensures t.pool.live == n && t.pool.minThreads == min && t.pool.waitExit == ADD_SIZE
  {
    var s := Created(min, max, room);
    var g := if max - min < ADD_SIZE then max - min else ADD_SIZE;
    n := min + g;
    var a := AddMany(s, min + 1);
    var b := GrowBy(a, g);
    Then(s, a, b);
    assert b.workers == ParkedFirst(n, 0);
    var c := TakeAll(b);
    Then(s, b, c);
    var d := Shrink(c);
    Then(s, c, d);
    t := ParkAll(d, n, 0);
    Then(s, d, t);
  }

  /** A run that gets stuck, for every such pool: the next task wakes a worker that exits through the
      shrink branch, and the task stays queued with every other worker parked, nobody holding the
      mutex, no call under way and the manager between two rounds. */
  lemma StuckRun(min: nat, max: nat, room: nat) returns (t: Sys)
    requires min < max && min < room && 2 <= max
    ensures Initial(Created(min, max, room)) && Reaches(Created(min, max, room), t)
    ensures Stuck(t) && Calm(t) && t.manager == Looping
  {
    var n, u := AllParked(min, max, room);
    var s := Created(min, max, room);
    assert u.workers[0].Parked?;
    var v := Add(u, 0);
    Then(s, u, v);
    t := Next(v, Work(0));
    assert t.workers == ParkedFirst(n, n)[0 := Exited];
    assert t.workers[1].Parked?;
    Step(s, v, Work(0), t);
  }

  /** `t` is a stuck state of a pool created as `s` with these parameters. */
  ghost predicate Sticks(s: Sys, t: Sys, min: nat, max: nat, room: nat) {
    && Initial(s) && Reaches(s, t) && Stuck(t)
    && s.pool.minThreads == min && s.pool.maxThreads == max && |s.pool.ring| == room
  }

  /** Exactly which pools can leave a task queued with every worker parked: those that may grow, whose
      ring is longer than their minimum, and that may have two threads. */
  lemma StuckExactly(min: nat, max: nat, room: nat)
    requires min <= max
    ensures (exists s, t :: Sticks(s, t, min, max, room)) <==> min < max && room > min && max >= 2
  {
    hide Stuck, Reaches;
    if min < max && room > min && max >= 2 {
      var t := StuckRun(min, max, room);
      assert Sticks(Created(min, max, room), t, min, max, room);
    }
    if s, t :| Sticks(s, t, min, max, room) {
      StuckNeeds(s, t);
    }
  }
}
