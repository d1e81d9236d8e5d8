/** For which pools line 143 really drops a task. */
module PoolDrops {
  import opened PoolSections
  import opened PoolSystem
  import opened PoolSafety
  import opened PoolStuck

  // ---- pools that never do ----

  /** With one slot at most the front cannot move, and without threads it never does. */
  ghost predicate Undropped(s: Sys, max: int, room: nat) {
    && s.pool.maxThreads == max && |s.pool.ring| == room
    && (room <= 1 || max <= 0 ==> s.dropped == [])
    && (max <= 0 ==> s.pool.front == 0)
  }

  lemma UndroppedWork(s: Sys, w: nat, max: int, room: nat)
    requires Inv(s) && Enabled(s, Work(w)) && Undropped(s, max, room)
    ensures Undropped(WorkerStep(s, w), max, room)
  {
    hide QueueInv, LockInv, GuardInv, WakeInv;
    CountUpdate(Unexited, s.workers, w, Exited);
  }

  lemma UndroppedProduce(s: Sys, p: nat, task: Task, wake: nat, max: int, room: nat)
    requires Inv(s) && Enabled(s, Produce(p, task, wake)) && Undropped(s, max, room)
    ensures Undropped(ProducerStep(s, p, task, wake), max, room)
  {
    if s.producers[p].AddCheck? && !s.pool.shutdown {
      AddHere(s, p);
    }
    hide Inv, AddSection, Keeps, Signal, WakeWorkers;
  }

  /** The call that adds leaves the front and the ring's size alone, and drops only with a slot to
      spare behind a front that has moved. */
  lemma AddHere(s: Sys, p: nat)
    requires Inv(s) && p < |s.producers| && s.producers[p].AddCheck? && !s.pool.shutdown
    ensures var q := AddSection(s.pool, s.producers[p].task);
      q.front == s.pool.front && |q.ring| == |s.pool.ring| && q.maxThreads == s.pool.maxThreads
    ensures !Keeps(s.pool) ==> 0 < s.pool.front < |s.pool.ring|
  {
    hide Queued, Taken, LockInv, CountInv, WakeInv;
    AddOutcome(s.pool, s.producers[p].task);
  }

  lemma UndroppedStep(s: Sys, a: Action, max: int, room: nat)
    requires Inv(s) && Enabled(s, a) && Undropped(s, max, room)
    ensures Undropped(Next(s, a), max, room)
  {
    hide Inv, WorkerStep, ProducerStep;
    match a
    case Work(w) => UndroppedWork(s, w, max, room);
    case Produce(p, task, wake) => UndroppedProduce(s, p, task, wake, max, room);
    case _ =>
  }

  lemma {:induction false} UndroppedStays(s: Sys, actions: seq<Action>, t: Sys, max: int, room: nat)
    requires Inv(s) && Undropped(s, max, room) && Runs(s, actions, t)
    ensures Undropped(t, max, room)
    decreases |actions|
  {
    hide Inv, Next, Enabled, Undropped;
    if actions != [] {
      StepInv(s, actions[0]);
      UndroppedStep(s, actions[0], max, room);
      UndroppedStays(Next(s, actions[0]), actions[1..], t, max, room);
    }
  }

  // ---- pools that do ----

  /** A call that line 143 refuses. */
  lemma AddDropped(s: Sys) returns (t: Sys)
    requires Calm(s) && !SomeParked(s.workers) && s.pool.size == |s.pool.ring| - 1 && s.pool.front > 0
    ensures Reaches(s, t) && t.dropped == s.dropped + [NONE]
  {
    assert !Keeps(s.pool) by { AddOutcome(s.pool, NONE); }
    var u := Offer(s, 0);
    hide RingOk, AddSection, Signal, Keeps, Reaches;
    t := Next(u, Produce(0, NONE, 0));
    Step(s, u, Produce(0, NONE, 0), t);
  }

  /** A pool in which a first task has been handed in and at least one thread is there to take it. */
  lemma FirstTask(min: nat, max: nat, room: nat) returns (t: Sys)
    requires min <= max && 2 <= room && 1 <= max
    ensures Reaches(Created(min, max, room), t) && Calm(t) && t.shrunk == 0 && t.dropped == []
    ensures t.pool.size == 1 && t.pool.front == 0 && |t.pool.ring| == room
    ensures t.workers != [] && forall w | 0 <= w < |t.workers| :: t.workers[w] == AtLock
  {
    var s := Created(min, max, room);
    t := AddMany(s, 1);
    if min == 0 {
      var u := GrowBy(t, if max < ADD_SIZE then max else ADD_SIZE);
      Then(s, t, u);
      t := u;
    }
  }

  /** For every such pool a run that drops a task: one is taken, so that the front moves off slot 0,
      the ring is filled up to its last slot, and one more is handed in. */
  lemma DropRun(min: nat, max: nat, room: nat) returns (t: Sys)
    requires min <= max && 2 <= room && 1 <= max
    ensures Initial(Created(min, max, room)) && Reaches(Created(min, max, room), t) && t.dropped == [NONE]
  {
    var s := Created(min, max, room);
    var a := FirstTask(min, max, room);
    var b := TakeOne(a);
    Then(s, a, b);
    FrontMoves(a.pool);
    var c := AddMany(b, room - 1);
    Then(s, b, c);
    t := AddDropped(c);
    Then(s, c, t);
  }

  lemma FrontMoves(p: Pool)
    requires RingOk(p) && p.front == 0 && |p.ring| >= 2
    ensures TakeSection(p).front == 1 && |TakeSection(p).ring| == |p.ring|
  {
    ModWrap(1, |p.ring|);
  }

  /** `t` is a state of a pool created as `s` with these parameters, and a task has been dropped. */
  ghost predicate DropsIn(s: Sys, t: Sys, min: nat, max: nat, room: nat) {
    && Initial(s) && Reaches(s, t) && t.dropped != []
    && s.pool.minThreads == min && s.pool.maxThreads == max && |s.pool.ring| == room
  }

  /** Exactly which pools lose a task at line 143: those with two slots and a thread. */
  lemma DropsSomeExactly(min: nat, max: nat, room: nat)
    requires min <= max
    ensures (exists s, t :: DropsIn(s, t, min, max, room)) <==> room >= 2 && max >= 1
  {
    hide Inv;
    if room >= 2 && max >= 1 {
      var t := DropRun(min, max, room);
      assert DropsIn(Created(min, max, room), t, min, max, room);
    }
    if s, t :| DropsIn(s, t, min, max, room) {
      var actions :| Runs(s, actions, t);
      InitialInv(s);
      UndroppedStays(s, actions, t, max, room);
    }
  }
}
