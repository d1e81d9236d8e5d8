/** The pthread pool against a record of its run: what producers were asked to add and what became of
    it, which tasks workers began to run, which threads were counted but never started, and what the
    manager read. The record is kept beside the run, from each step and the states around it. */
module PoolHistory {
  import opened PoolSections
  import opened PoolSystem
  import opened PoolSafety

  /** Calls of threadpool_add with the producer, and how they ended: the task kept, lost at line 143, or
      turned away at line 131; tasks begun with the worker; threads counted at line 253 or in
      threadpool_create that do not exist, and exits at line 186, neither of which live_thread_num
      tells from running threads; and the manager's readings. */
  datatype History = History(
    called: seq<(nat, Task)>, ended: seq<(nat, Task)>, kept: seq<Task>, lost: seq<Task>, refused: seq<Task>,
    begun: seq<(nat, Task)>, unstarted: int, quits: nat, readings: seq<(int, int)>, busyReadings: seq<int>)

  /** The entries of one thread. */
  function Of(who: nat, log: seq<(nat, Task)>): seq<Task> {
    if log == [] then []
    else Of(who, log[..|log| - 1]) + if log[|log| - 1].0 == who then [log[|log| - 1].1] else []
  }

  lemma OfAppend(who: nat, log: seq<(nat, Task)>, one: nat, task: Task)
    ensures Of(who, log + [(one, task)]) == Of(who, log) + if one == who then [task] else []
  {
    assert (log + [(one, task)])[..|log|] == log;
  }

  lemma OfMaybe(who: nat, log: seq<(nat, Task)>, one: nat, task: Task, really: bool)
    ensures Of(who, log + if really then [(one, task)] else [])
         == Of(who, log) + if really && one == who then [task] else []
  {
    if really {
      OfAppend(who, log, one, task);
    } else {
      assert log + [] == log;
    }
  }

  /** A worker begins a task when it comes to stand at the call of line 210. */
  function RecordWork(h: History, s: Sys, t: Sys, w: nat): History
    requires w < |s.workers| && w < |t.workers|
  {
    if t.workers[w].Running? && !s.workers[w].Running? then
      h.(begun := h.begun + [(w, t.workers[w].task)])
    else if s.workers[w].InCheck? && s.pool.shutdown then h.(quits := h.quits + 1)
    else h
  }

  /** A call begins when its producer leaves Idle and ends when it comes back. */
  function RecordCall(h: History, s: Sys, t: Sys, p: nat, task: Task): History
    requires p < |s.producers| && p < |t.producers|
  {
    if s.producers[p].Idle? then h.(called := h.called + [(p, task)])
    else if !t.producers[p].Idle? then h
    else
      var x := s.producers[p].task;
      var g := h.(ended := h.ended + [(p, x)]);
      if s.pool.shutdown then g.(refused := h.refused + [x])
      else if s.pool.size == |s.pool.ring| - 1 && s.pool.front > 0 then g.(lost := h.lost + [x])
      else g.(kept := h.kept + [x])
  }

  function RecordManager(h: History, s: Sys, counted: nat, created: nat): History {
    match s.manager
    case ReadPool => h.(readings := h.readings + [(s.pool.size, s.pool.live)])
    case ReadBusy(_, _) => h.(busyReadings := h.busyReadings + [s.pool.busy])
    case Growing(size, live, _) =>
      if size > s.pool.minThreads && live < s.pool.maxThreads then h.(unstarted := h.unstarted + counted - created)
      else h
    case _ => h
  }

  function Record(h: History, s: Sys, a: Action): (g: History)
    requires Enabled(s, a)
  {
    var t := Next(s, a);
    match a
    case Work(w) => RecordWork(h, s, t, w)
    case Produce(p, task, _) => RecordCall(h, s, t, p, task)
    case Manage(counted, created, _) => RecordManager(h, s, counted, created)
    case _ => h
  }

  ghost function Recorded(h: History, s: Sys, actions: seq<Action>): History
    decreases |actions|
  {
    if actions == [] || !Enabled(s, actions[0]) then h
    else Recorded(Record(h, s, actions[0]), Next(s, actions[0]), actions[1..])
  }

  /** Before the first step. */
  function Blank(s: Sys): History {
    History([], [], [], [], [], [], s.pool.minThreads - |s.workers|, 0, [], [])
  }

  // ---- what the record says of the state ----

  /** The call a producer is in. */
  function InCall(p: Producer): seq<Task> {
    if p.Idle? then [] else [p.task]
  }

  /** The task a worker has taken and not begun. */
  function Held(w: Worker): seq<Task> {
    if w.Took? then [w.task] else []
  }

  /** Producer by producer, the calls made are those ended, in order, and the one under way. */
  ghost predicate CallsAgree(h: History, s: Sys) {
    && (forall p | 0 <= p < |s.producers| :: Of(p, h.called) == Of(p, h.ended) + InCall(s.producers[p]))
    && s.accepted == h.kept && s.dropped == h.lost
    && (h.refused != [] ==> s.pool.shutdown)
  }

  /** Worker by worker, the tasks taken are those begun, in order, and the one it holds; a worker runs
      the task it took last. */
  ghost predicate TasksAgree(h: History, s: Sys) {
    && (forall w | 0 <= w < |s.workers| :: Of(w, s.removed) == Of(w, h.begun) + Held(s.workers[w]))
    && (forall w | 0 <= w < |s.workers| && s.workers[w].Running? ::
          Of(w, h.begun) != [] && Of(w, h.begun)[|Of(w, h.begun)| - 1] == s.workers[w].task)
    && (forall w | |s.workers| <= w :: Of(w, s.removed) == [] && Of(w, h.begun) == [])
  }

  /** live_thread_num counts the threads that are there, those that never started and those that quit on
      shutdown. */
  ghost predicate LiveAgrees(h: History, s: Sys) {
    s.pool.live == Count(Unexited, s.workers) + h.unstarted + h.quits
  }

  /** The manager's local variables are what it read last. */
  ghost predicate ReadingsAgree(h: History, s: Sys) {
    match s.manager
    case ReadBusy(size, live) => Last(h.readings, (size, live))
    case Growing(size, live, busy) => Last(h.readings, (size, live)) && LastBusy(h.busyReadings, busy)
    case Shrinking(live, busy) =>
      h.readings != [] && h.readings[|h.readings| - 1].1 == live && LastBusy(h.busyReadings, busy)
    case _ => true
  }

  predicate Last(readings: seq<(int, int)>, r: (int, int)) {
    readings != [] && readings[|readings| - 1] == r
  }

  predicate LastBusy(readings: seq<int>, busy: int) {
    readings != [] && readings[|readings| - 1] == busy
  }

  ghost predicate Agrees(h: History, s: Sys) {
    CallsAgree(h, s) && TasksAgree(h, s) && LiveAgrees(h, s) && ReadingsAgree(h, s)
  }

  // ---- every step keeps it ----

  /** The workers hold and run what they did; new ones hold nothing. */
  ghost predicate SameTasks(a: seq<Worker>, b: seq<Worker>) {
    && |a| <= |b|
    && (forall w | 0 <= w < |a| :: Held(b[w]) == Held(a[w]) && (b[w].Running? || a[w].Running? ==> b[w] == a[w]))
    && (forall w | |a| <= w < |b| :: Held(b[w]) == [] && !b[w].Running?)
  }

  ghost predicate SameCalls(a: seq<Producer>, b: seq<Producer>) {
    |b| == |a| && forall p | 0 <= p < |a| :: InCall(b[p]) == InCall(a[p])
  }

  /** A step that is no producer's leaves the calls alone. */
  lemma CallsUntouched(s: Sys, a: Action)
    requires Enabled(s, a) && !a.Produce?
    ensures var t := Next(s, a);
      && SameCalls(s.producers, t.producers) && t.accepted == s.accepted && t.dropped == s.dropped
      && (s.pool.shutdown ==> t.pool.shutdown)
  {
    hide Head, TakeSection, Signal;
  }

  /** A step that is no worker's leaves the tasks alone. */
  lemma TasksUntouched(s: Sys, a: Action)
    requires Enabled(s, a) && !a.Work?
    ensures var t := Next(s, a); SameTasks(s.workers, t.workers) && t.removed == s.removed
  {
    hide AddSection, Keeps;
  }

  lemma CallsFrame(h: History, s: Sys, a: Action)
    requires CallsAgree(h, s) && Enabled(s, a) && !a.Produce?
    ensures CallsAgree(Record(h, s, a), Next(s, a))
  {
    CallsUntouched(s, a);
    RecordFrame(h, s, a);
    hide Of, Next, Record, InCall;
  }

  lemma RecordFrame(h: History, s: Sys, a: Action)
    requires Enabled(s, a)
    ensures var g := Record(h, s, a);
      && (!a.Produce? ==> g.called == h.called && g.ended == h.ended && g.kept == h.kept && g.lost == h.lost
                          && g.refused == h.refused)
      && (!a.Work? ==> g.begun == h.begun)
  {
    hide Next;
  }

  lemma TasksFrame(h: History, s: Sys, a: Action)
    requires TasksAgree(h, s) && Enabled(s, a) && !a.Work?
    ensures TasksAgree(Record(h, s, a), Next(s, a))
  {
    TasksUntouched(s, a);
    RecordFrame(h, s, a);
    hide Of, Next, Record, Held;
  }

  /** What a producer's step does to the calls under way and to the two lists. */
  lemma CallMoves(s: Sys, p: nat, task: Task, wake: nat)
    requires Inv(s) && Enabled(s, Produce(p, task, wake))
    ensures var t, x := Next(s, Produce(p, task, wake)), InCall(s.producers[p]);
      && t.pool.shutdown == s.pool.shutdown && t.producers == s.producers[p := t.producers[p]]
      && (if s.producers[p].Idle? then
            InCall(t.producers[p]) == [task] && t.accepted == s.accepted && t.dropped == s.dropped
          else if !t.producers[p].Idle? then
            InCall(t.producers[p]) == x && t.accepted == s.accepted && t.dropped == s.dropped
          else if s.pool.shutdown then t.accepted == s.accepted && t.dropped == s.dropped
          else if s.pool.size == |s.pool.ring| - 1 && s.pool.front > 0 then
            t.accepted == s.accepted && t.dropped == s.dropped + x
          else t.accepted == s.accepted + x && t.dropped == s.dropped)
  {
    if s.producers[p].AddCheck? && !s.pool.shutdown {
      assert Keeps(s.pool) <==> !(s.pool.size == |s.pool.ring| - 1 && s.pool.front > 0) by {
        AddOutcome(s.pool, s.producers[p].task);
      }
    }
    AddKeepsFlag(s.pool, s.producers[p]);
    hide Inv, AddSection, Signal, WakeWorkers, Keeps;
  }

  lemma AddKeepsFlag(pool: Pool, producer: Producer)
    ensures producer.AddCheck? ==> AddSection(pool, producer.task).shutdown == pool.shutdown
  {
  }

  /** What the record takes down of it. */
  lemma CallRecorded(h: History, s: Sys, p: nat, task: Task, wake: nat)
    requires Enabled(s, Produce(p, task, wake))
    ensures var g, x := Record(h, s, Produce(p, task, wake)), s.producers[p];
      var ends := !x.Idle? && Next(s, Produce(p, task, wake)).producers[p].Idle?;
      && g.called == h.called + (if x.Idle? then [(p, task)] else [])
      && g.ended == h.ended + (if ends then [(p, x.task)] else [])
      && g.refused == h.refused + (if ends && s.pool.shutdown then [x.task] else [])
      && var drops := s.pool.size == |s.pool.ring| - 1 && s.pool.front > 0;
         && g.lost == h.lost + (if ends && !s.pool.shutdown && drops then [x.task] else [])
         && g.kept == h.kept + (if ends && !s.pool.shutdown && !drops then [x.task] else [])
  {
    hide Next;
  }

  lemma CallsStep(h: History, s: Sys, p: nat, task: Task, wake: nat)
    requires Inv(s) && CallsAgree(h, s) && Enabled(s, Produce(p, task, wake))
    ensures CallsAgree(Record(h, s, Produce(p, task, wake)), Next(s, Produce(p, task, wake)))
  {
    CallMoves(s, p, task, wake);
    var t, g := Next(s, Produce(p, task, wake)), Record(h, s, Produce(p, task, wake));
    forall q: nat | q < |s.producers| ensures Of(q, g.called) == Of(q, g.ended) + InCall(t.producers[q]) {
      CallOf(h, s, p, task, wake, q);
    }
    CallRecorded(h, s, p, task, wake);
    hide Inv, Next, Of, Record;
  }

  /** The account of one producer. */
  lemma CallOf(h: History, s: Sys, p: nat, task: Task, wake: nat, q: nat)
    requires Inv(s) && Enabled(s, Produce(p, task, wake)) && q < |s.producers|
    requires Of(q, h.called) == Of(q, h.ended) + InCall(s.producers[q])
    ensures var t, g := Next(s, Produce(p, task, wake)), Record(h, s, Produce(p, task, wake));
      q < |t.producers| && Of(q, g.called) == Of(q, g.ended) + InCall(t.producers[q])
  {
    CallMoves(s, p, task, wake);
    LogsGrow(h, s, p, task, wake, q);
    IdleCalls(s.producers[p], Next(s, Produce(p, task, wake)).producers[p]);
    hide Inv, Next, Of, Record, InCall;
  }

  lemma IdleCalls(was: Producer, now: Producer)
    ensures was.Idle? ==> InCall(was) == []
    ensures !was.Idle? ==> InCall(was) == [was.task]
    ensures now.Idle? ==> InCall(now) == []
  {
  }

  lemma LogsGrow(h: History, s: Sys, p: nat, task: Task, wake: nat, q: nat)
    requires Enabled(s, Produce(p, task, wake))
    ensures var g, x := Record(h, s, Produce(p, task, wake)), s.producers[p];
      var ends := !x.Idle? && Next(s, Produce(p, task, wake)).producers[p].Idle?;
      && Of(q, g.called) == Of(q, h.called) + (if x.Idle? && p == q then [task] else [])
      && Of(q, g.ended) == Of(q, h.ended) + (if ends && p == q then [x.task] else [])
  {
    CallRecorded(h, s, p, task, wake);
    var t, x := Next(s, Produce(p, task, wake)), s.producers[p];
    OfMaybe(q, h.called, p, task, x.Idle?);
    OfMaybe(q, h.ended, p, if x.Idle? then task else x.task, !x.Idle? && t.producers[p].Idle?);
    hide Next, Of, Record, Enabled;
  }

  /** What a worker's step does to the task it holds and to the list of tasks taken. */
  lemma TaskMoves(s: Sys, w: nat)
    requires Enabled(s, Work(w))
    ensures var t := Next(s, Work(w));
      && t.workers == s.workers[w := t.workers[w]]
      && (if t.workers[w].Took? then !s.workers[w].Running? && Held(s.workers[w]) == []
             && t.removed == s.removed + [(w, t.workers[w].task)]
          else t.removed == s.removed)
      && (t.workers[w].Running? <==> s.workers[w].Took?)
      && (t.workers[w].Running? ==> t.workers[w].task == s.workers[w].task)
  {
    hide Head, TakeSection;
  }

  lemma TaskRecorded(h: History, s: Sys, w: nat)
    requires Enabled(s, Work(w))
    ensures Record(h, s, Work(w)).begun == h.begun + if s.workers[w].Took? then [(w, s.workers[w].task)] else []
  {
    hide Head, TakeSection;
  }

  lemma TasksStep(h: History, s: Sys, w: nat)
    requires TasksAgree(h, s) && Enabled(s, Work(w))
    ensures TasksAgree(Record(h, s, Work(w)), Next(s, Work(w)))
  {
    hide Next, Of, Record, TasksAgree, Held;
    TaskMoves(s, w);
    var t, g := Next(s, Work(w)), Record(h, s, Work(w));
    forall v: nat ensures TasksMove(h, s, g, t, w, v) {
      TasksOf(h, s, w, v);
    }
    TasksCarry(h, s, g, t, w);
  }

  /** One worker's lists after the step of worker `w`. */
  ghost predicate TasksMove(h: History, s: Sys, g: History, t: Sys, w: nat, v: nat)
    requires w < |s.workers| == |t.workers|
  {
    && Of(v, t.removed) == Of(v, s.removed) + (if v == w then Held(t.workers[w]) else [])
    && Of(v, g.begun) == Of(v, h.begun) + (if v == w then Held(s.workers[w]) else [])
  }

  lemma TasksCarry(h: History, s: Sys, g: History, t: Sys, w: nat)
    requires TasksAgree(h, s) && w < |s.workers| == |t.workers| && t.workers == s.workers[w := t.workers[w]]
    requires t.workers[w].Took? ==> Held(s.workers[w]) == []
    requires t.workers[w].Running? <==> s.workers[w].Took?
    requires t.workers[w].Running? ==> t.workers[w].task == s.workers[w].task
    requires forall v: nat :: TasksMove(h, s, g, t, w, v)
    ensures TasksAgree(g, t)
  {
    hide Of;
    forall v | 0 <= v < |t.workers|
      ensures Of(v, t.removed) == Of(v, g.begun) + Held(t.workers[v])
      ensures t.workers[v].Running? ==>
        Of(v, g.begun) != [] && Of(v, g.begun)[|Of(v, g.begun)| - 1] == t.workers[v].task
    {
      assert TasksMove(h, s, g, t, w, v);
    }
    forall v: nat | |t.workers| <= v ensures Of(v, t.removed) == [] && Of(v, g.begun) == [] {
      assert TasksMove(h, s, g, t, w, v);
    }
  }

  /** The account of one worker. */
  lemma TasksOf(h: History, s: Sys, w: nat, v: nat)
    requires Enabled(s, Work(w))
    ensures var t, g := Next(s, Work(w)), Record(h, s, Work(w));
      && |t.workers| == |s.workers|
      && Of(v, t.removed) == Of(v, s.removed) + (if v == w then Held(t.workers[w]) else [])
      && Of(v, g.begun) == Of(v, h.begun) + (if v == w then Held(s.workers[w]) else [])
  {
    TaskMoves(s, w);
    TaskRecorded(h, s, w);
    var t, x := Next(s, Work(w)), s.workers[w];
    if t.workers[w].Took? { OfAppend(v, s.removed, w, t.workers[w].task); }
    if x.Took? { OfAppend(v, h.begun, w, x.task); }
    hide Next, Of, Record, Enabled;
    assert h.begun + [] == h.begun;
  }

  lemma LiveWork(h: History, s: Sys, w: nat)
    requires LiveAgrees(h, s) && Enabled(s, Work(w))
    ensures LiveAgrees(Record(h, s, Work(w)), Next(s, Work(w)))
  {
    hide Count, Head, Of;
    CountMove(s, w, Next(s, Work(w)).workers[w]);
  }

  lemma ProduceMoves(s: Sys, p: nat, task: Task, wake: nat)
    requires Enabled(s, Produce(p, task, wake))
    ensures var t := Next(s, Produce(p, task, wake));
      t.pool.live == s.pool.live && t.workers in {s.workers, Signal(s.workers, wake), WakeWorkers(s.workers)}
  {
    hide Keeps, Signal, WakeWorkers;
  }

  lemma ProduceRecord(h: History, s: Sys, p: nat, task: Task, wake: nat)
    requires Enabled(s, Produce(p, task, wake))
    ensures var g := Record(h, s, Produce(p, task, wake)); g.unstarted == h.unstarted && g.quits == h.quits
  {
    hide Next;
  }

  lemma LiveProduce(h: History, s: Sys, p: nat, task: Task, wake: nat)
    requires Inv(s) && LiveAgrees(h, s) && Enabled(s, Produce(p, task, wake))
    ensures LiveAgrees(Record(h, s, Produce(p, task, wake)), Next(s, Produce(p, task, wake)))
  {
    CountSignal(s, wake);
    CountSame(Unexited, s.workers, WakeWorkers(s.workers));
    ProduceMoves(s, p, task, wake);
    ProduceRecord(h, s, p, task, wake);
    hide Inv, Count, Signal, WakeWorkers, Next, Record;
  }

  lemma LiveGrowth(h: History, s: Sys, counted: nat, created: nat, wake: nat)
    requires LiveAgrees(h, s) && Enabled(s, Manage(counted, created, wake)) && s.manager.Growing?
    ensures LiveAgrees(Record(h, s, Manage(counted, created, wake)), Next(s, Manage(counted, created, wake)))
  {
    CountNew(Unexited, s.workers, created);
    hide Count, Of;
  }

  lemma LiveManage(h: History, s: Sys, counted: nat, created: nat, wake: nat)
    requires Inv(s) && LiveAgrees(h, s) && Enabled(s, Manage(counted, created, wake)) && !s.manager.Growing?
    ensures LiveAgrees(Record(h, s, Manage(counted, created, wake)), Next(s, Manage(counted, created, wake)))
  {
    CountSignal(s, wake);
    hide Inv, Count, Signal, Of;
  }

  lemma LiveStep(h: History, s: Sys, a: Action)
    requires Inv(s) && LiveAgrees(h, s) && Enabled(s, a)
    ensures LiveAgrees(Record(h, s, a), Next(s, a))
  {
    match a
    case Work(w) => LiveWork(h, s, w);
    case Produce(p, task, wake) => LiveProduce(h, s, p, task, wake);
    case Manage(counted, created, wake) =>
      if s.manager.Growing? {
        LiveGrowth(h, s, counted, created, wake);
      } else {
        LiveManage(h, s, counted, created, wake);
      }
    case DestroySignal(wake) => hide Inv, Count, Signal; CountSignal(s, wake);
    case Shutdown =>
  }

  lemma ReadingsStep(h: History, s: Sys, a: Action)
    requires ReadingsAgree(h, s) && Enabled(s, a)
    ensures ReadingsAgree(Record(h, s, a), Next(s, a))
  {
  }

  lemma AgreesStep(h: History, s: Sys, a: Action)
    requires Inv(s) && Agrees(h, s) && Enabled(s, a)
    ensures Agrees(Record(h, s, a), Next(s, a))
  {
    hide Inv, CallsAgree, TasksAgree, LiveAgrees, ReadingsAgree, Record, Next, Enabled;
    LiveStep(h, s, a);
    ReadingsStep(h, s, a);
    match a
    case Work(w) => TasksStep(h, s, w); CallsFrame(h, s, a);
    case Produce(p, task, wake) => CallsStep(h, s, p, task, wake); TasksFrame(h, s, a);
    case _ => CallsFrame(h, s, a); TasksFrame(h, s, a);
  }

  lemma {:induction false} RecordAgrees(h: History, s: Sys, actions: seq<Action>, t: Sys)
    requires Inv(s) && Agrees(h, s) && Runs(s, actions, t)
    ensures Agrees(Recorded(h, s, actions), t)
    decreases |actions|
  {
    hide Inv, Agrees, Record, Next, Enabled;
    if actions != [] {
      StepInv(s, actions[0]);
      AgreesStep(h, s, actions[0]);
      RecordAgrees(Record(h, s, actions[0]), Next(s, actions[0]), actions[1..], t);
    }
  }

  lemma {:induction false} CountAll(workers: seq<Worker>)
    requires forall w | 0 <= w < |workers| :: workers[w] == AtLock
    ensures Count(Unexited, workers) == |workers|
    decreases |workers|
  {
    if workers != [] { CountAll(workers[..|workers| - 1]); }
  }

  lemma BlankAgrees(s: Sys)
    requires Initial(s)
    ensures Agrees(Blank(s), s)
  {
    CountAll(s.workers);
  }

  lemma ReachedAgrees(s: Sys, actions: seq<Action>, t: Sys)
    requires Reached(s, actions, t)
    ensures Agrees(Recorded(Blank(s), s, actions), t)
  {
    hide Agrees, Inv;
    InitialInv(s);
    BlankAgrees(s);
    RecordAgrees(Blank(s), s, actions, t);
  }

  // ---- the theorems ----

  /** Every call of threadpool_add ends once, with its own task kept, lost or turned away, and the calls of
      one producer in the order it made them. What is kept is what the pool has accepted, in the order
      in which the calls had the mutex; only a pool that is shut down turns a task away. */
  lemma CallsAccounted(s: Sys, actions: seq<Action>, t: Sys)
    requires Reached(s, actions, t)
    ensures var h := Recorded(Blank(s), s, actions);
      && t.accepted == h.kept && t.dropped == h.lost && (h.refused != [] ==> t.pool.shutdown)
      && forall p | 0 <= p < |t.producers| :: Of(p, h.called) == Of(p, h.ended) + InCall(t.producers[p])
  {
    hide TasksAgree, LiveAgrees, ReadingsAgree, Inv;
    ReachedAgrees(s, actions, t);
  }

  /** Every accepted task is in the ring, or has been taken by one worker, and the tasks a worker took are
      the ones it has begun to run, in the order it took them, and the one it is about to run. */
  lemma TasksAccounted(s: Sys, actions: seq<Action>, t: Sys)
    requires Reached(s, actions, t)
    ensures var h := Recorded(Blank(s), s, actions);
      && RingOk(t.pool) && t.accepted == Taken(t.removed) + Queued(t.pool)
      && (forall w | 0 <= w < |t.workers| :: Of(w, t.removed) == Of(w, h.begun) + Held(t.workers[w]))
      && forall w | |t.workers| <= w :: Of(w, t.removed) == Of(w, h.begun) == []
  {
    hide CallsAgree, LiveAgrees, ReadingsAgree, LockInv, GuardInv, CountInv, WakeInv, RingOk, Queued, Taken;
    ReachedInv(s, actions, t);
    ReachedAgrees(s, actions, t);
  }

  /** The task a worker is about to run, or runs, is the one it took last. */
  lemma RunsWhatItTook(s: Sys, actions: seq<Action>, t: Sys, w: nat)
    requires Reached(s, actions, t) && w < |t.workers| && (t.workers[w].Took? || t.workers[w].Running?)
    ensures var mine := Of(w, t.removed); mine != [] && mine[|mine| - 1] == t.workers[w].task
  {
    hide CallsAgree, LiveAgrees, ReadingsAgree, Inv, Of;
    ReachedAgrees(s, actions, t);
  }

  /** live_thread_num is the number of threads there are, of those counted that never started, and of
      those that quit on shutdown: a thread that exits in the shrink branch is the only one it forgets. */
  lemma LiveAccount(s: Sys, actions: seq<Action>, t: Sys)
    requires Reached(s, actions, t)
    ensures var h := Recorded(Blank(s), s, actions);
      t.pool.live == Count(Unexited, t.workers) + h.unstarted + h.quits
  {
    hide CallsAgree, TasksAgree, ReadingsAgree, Inv;
    ReachedAgrees(s, actions, t);
  }

  /** The manager asks for exits exactly when what it read last had under half of the threads busy and more
      threads than the minimum, and then for 1024 of them with as many signals; it adds threads only when
      the queue it read was longer than the minimum and the threads fewer than the maximum. */
  lemma ManagerDecides(s: Sys, actions: seq<Action>, t: Sys, counted: nat, created: nat, wake: nat)
    requires Reached(s, actions, t) && Enabled(t, Manage(counted, created, wake))
    ensures var h, u := Recorded(Blank(s), s, actions), Next(t, Manage(counted, created, wake));
      && (t.manager.Shrinking? ==>
            && h.readings != [] && h.busyReadings != []
            && var live, busy := h.readings[|h.readings| - 1].1, h.busyReadings[|h.busyReadings| - 1];
               if busy * 2 < live && live > t.pool.minThreads then
                 u.pool == t.pool.(waitExit := 1024) && u.manager == Signalling(1024)
               else u.pool == t.pool && u.manager == Looping)
      && (!t.manager.Shrinking? ==> u.pool.waitExit == t.pool.waitExit)
      && (u.pool.live != t.pool.live ==>
            && h.readings != [] && u.pool.live == t.pool.live + counted
            && h.readings[|h.readings| - 1].0 > t.pool.minThreads
            && h.readings[|h.readings| - 1].1 < t.pool.maxThreads)
  {
    hide CallsAgree, TasksAgree, LiveAgrees, Inv, Signal;
    ReachedAgrees(s, actions, t);
  }

  /** A thread exits exactly when it finds the pool shut down, or when it is woken with exits asked for and
      more threads than the minimum; every thread woken while exits are asked for uses one up. */
  lemma ExitsExactly(s: Sys, a: Action, w: nat)
    requires Enabled(s, a) && w < |s.workers| && !s.workers[w].Exited?
    ensures var t := Next(s, a);
      && w < |t.workers|
      && (t.workers[w].Exited?
          <==>
          && a == Work(w)
          && (|| (s.workers[w].InCheck? && s.pool.shutdown)
              || (s.workers[w].Woken? && s.pool.waitExit > 0 && s.pool.live > s.pool.minThreads)))
      && (a == Work(w) && s.pool.waitExit > 0 ==>
            t.pool.waitExit == s.pool.waitExit - if s.workers[w].Woken? then 1 else 0)
  {
    match a
    case Work(v) => if v == w { ExitStep(s, w); } else { TaskMoves(s, v); }
    case _ => hide AddSection, Keeps;
  }

  lemma ExitStep(s: Sys, w: nat)
    requires Enabled(s, Work(w))
    ensures var t := Next(s, Work(w));
      && |t.workers| == |s.workers|
      && (t.workers[w].Exited?
          <==>
          || (s.workers[w].InCheck? && s.pool.shutdown)
          || (s.workers[w].Woken? && s.pool.waitExit > 0 && s.pool.live > s.pool.minThreads))
      && (s.pool.waitExit > 0 ==> t.pool.waitExit == s.pool.waitExit - if s.workers[w].Woken? then 1 else 0)
  {
    hide Head;
  }

  // ---- shutdown ----

  /** What a step cannot do once shutdown is set: it hands nothing to the pool and takes nothing from it,
      and parks nobody. */
  ghost predicate Quiet(s: Sys, t: Sys) {
    && t.pool.shutdown && t.accepted == s.accepted && t.dropped == s.dropped && t.removed == s.removed
    && (forall w | 0 <= w < |t.workers| && t.workers[w].Parked? :: w < |s.workers| && s.workers[w].Parked?)
    && |t.producers| == |s.producers|
    && (forall p | 0 <= p < |t.producers| && t.producers[p].ParkedFull? :: s.producers[p].ParkedFull?)
  }

  lemma ShutdownStep(s: Sys, a: Action)
    requires Enabled(s, a) && s.pool.shutdown
    ensures Quiet(s, Next(s, a))
  {
    hide AddSection, Head, Keeps;
  }

  lemma {:induction false} StaysQuiet(s: Sys, actions: seq<Action>, t: Sys)
    requires s.pool.shutdown && Runs(s, actions, t)
    ensures Quiet(s, t)
    decreases |actions|
  {
    if actions != [] {
      hide Next, Enabled;
      ShutdownStep(s, actions[0]);
      StaysQuiet(Next(s, actions[0]), actions[1..], t);
    }
  }

  /** After shutdown is set no task is added, dropped or taken, and no worker and no producer parks that was
      not parked then, on any continuation. */
  lemma ShutdownStops(s: Sys, actions: seq<Action>, t: Sys)
    requires Runs(Next(s, Shutdown), actions, t)
    ensures Quiet(s, t)
  {
    var u := Next(s, Shutdown);
    assert u.pool.shutdown && u.workers == s.workers && u.producers == s.producers;
    hide Next;
    StaysQuiet(u, actions, t);
  }

  /** A call that is turned away wakes every parked worker, and after it none is parked again. */
  lemma TurnedAwayWakesAll(s: Sys, p: nat, task: Task, wake: nat, actions: seq<Action>, t: Sys)
    requires Enabled(s, Produce(p, task, wake)) && s.producers[p].AddCheck? && s.pool.shutdown
    requires Runs(Next(s, Produce(p, task, wake)), actions, t)
    ensures !SomeParked(t.workers)
  {
    var u := Next(s, Produce(p, task, wake));
    assert u.pool.shutdown && !SomeParked(u.workers);
    hide Next, Enabled;
    StaysQuiet(u, actions, t);
  }
}
