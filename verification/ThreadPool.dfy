/** threadpool_t and the code that runs under its mutexes, in place. Each method is one stretch of
    code between taking and giving up a mutex and is equal to the section the interleaving uses. */
module ThreadPool {
  import opened PoolSections

  class ThreadPool {
    var taskQueue: array<Task>
    var queueFront: nat
    var queueRear: nat
    var queueSize: int
    var shutdown: bool
    var minThreadNum: int
    var maxThreadNum: int
    var liveThreadNum: int
    var busyThreadNum: int
    var waitExitThreadNum: int
    var threads: array<int>

    function State(): Pool
      reads this, taskQueue
    {
      Pool(taskQueue[..], queueFront, queueRear, queueSize, shutdown,
           minThreadNum, maxThreadNum, liveThreadNum, busyThreadNum, waitExitThreadNum)
    }

    /** threadpool_create, before the first thread starts. */
    constructor (minThreads: nat, maxThreads: nat, queueMaxSize: nat)
      ensures fresh(taskQueue) && fresh(threads) && threads.Length == maxThreads
      ensures taskQueue.Length == queueMaxSize && RingOk(State()) && Queued(State()) == [] && !shutdown
      ensures minThreadNum == liveThreadNum == minThreads && maxThreadNum == maxThreads
      ensures busyThreadNum == waitExitThreadNum == 0 && queueFront == 0
    {
      minThreadNum, maxThreadNum, liveThreadNum := minThreads, maxThreads, minThreads;
      busyThreadNum, waitExitThreadNum := 0, 0;
      queueFront, queueRear, queueSize := 0, 0, 0;
      shutdown := false;
      threads := new int[maxThreads](_ => 0);
      taskQueue := new Task[queueMaxSize](_ => Task(0, 0));
    }

    /** threadpool_add from line 131 on; `refused` when the pool is shut down. */
    method Add(task: Task) returns (refused: bool)
      requires RingOk(State()) && (queueSize == taskQueue.Length ==> shutdown)
      modifies this`queueRear, this`queueSize, taskQueue
      ensures refused == shutdown && RingOk(State())
      ensures State() == if shutdown then old(State()) else AddSection(old(State()), task)
      ensures !shutdown ==>
        Queued(State()) == if old(queueSize == taskQueue.Length - 1 && queueFront > 0) then Queued(old(State()))
                           else Queued(old(State())) + [task]
    {
      if shutdown {
        return true;
      }
      ghost var was := State();
      AddOutcome(was, task);
      if taskQueue[queueRear].arg != 0 {
        taskQueue[queueRear] := taskQueue[queueRear].(arg := 0);
      }
      if queueRear + 1 != queueFront {
        taskQueue[queueRear] := task;
        queueRear := (queueRear + 1) % taskQueue.Length;
        queueSize := queueSize + 1;
      }
      assert State().ring == AddSection(was, task).ring;
      return false;
    }

    /** threadpool_thread lines 193-198: take the task at the front. */
    method Take() returns (task: Task)
      requires RingOk(State()) && queueSize > 0
      modifies this`queueFront, this`queueSize
      ensures RingOk(State()) && State() == TakeSection(old(State())) && task == Head(old(State()))
      ensures Queued(old(State())) == [task] + Queued(State())
    {
      TakeOutcome(State());
      task := taskQueue[queueFront];
      queueFront := (queueFront + 1) % taskQueue.Length;
      queueSize := queueSize - 1;
    }

    /** threadpool_thread lines 171-182, after a wait: whether this thread exits. */
    method AfterWait() returns (exits: bool)
      modifies this`waitExitThreadNum, this`liveThreadNum
      ensures State() == WokenSection(old(State())) && exits == ShrinkExits(old(State()))
    {
      if waitExitThreadNum > 0 {
        waitExitThreadNum := waitExitThreadNum - 1;
        if liveThreadNum > minThreadNum {
          liveThreadNum := liveThreadNum - 1;
          return true;
        }
      }
      return false;
    }

    /** The slots adjust_thread overwrites among the first `n`: empty ones, and ones whose thread is
        alive, since the sense of is_thread_alive is inverted at its call. */
    static ghost function Eligible(threads: seq<int>, alive: seq<bool>, n: nat): nat
      requires n <= |threads| <= |alive|
    {
      if n == 0 then 0
      else Eligible(threads, alive, n - 1) + if threads[n - 1] == 0 || alive[n - 1] then 1 else 0
    }

    /** The handles after the first `n` slots have been looked at. */
    static ghost predicate Overwritten(before: seq<int>, alive: seq<bool>, tid: int, n: nat, after: seq<int>)
      requires n <= |before| <= |alive|
    {
      && |after| == |before|
      && (forall i | 0 <= i < n :: after[i] == if before[i] == 0 || alive[i] then tid + i else before[i])
      && (forall i | n <= i < |before| :: after[i] == before[i])
    }

    /** adjust_thread lines 247-255; `alive` is what pthread_kill reports, `tid` names new threads. The
        loop looks at the first `seen` slots. */
    method Grow(alive: seq<bool>, tid: int) returns (add: int, seen: nat)
      requires 0 <= maxThreadNum == threads.Length <= |alive|
      modifies this`liveThreadNum, threads
      ensures State() == old(State()).(live := old(liveThreadNum) + add)
      ensures 0 <= add <= ADD_SIZE && (add > 0 ==> liveThreadNum <= maxThreadNum)
      ensures seen <= threads.Length && Overwritten(old(threads[..]), alive, tid, seen, threads[..])
      ensures add == Eligible(old(threads[..]), alive, seen)
      ensures add == ADD_SIZE || liveThreadNum >= maxThreadNum || seen == threads.Length
    {
      add := 0;
      var i := 0;
      while i != maxThreadNum && add < ADD_SIZE && liveThreadNum < maxThreadNum
        invariant 0 <= i <= maxThreadNum == threads.Length && 0 <= add <= ADD_SIZE
        invariant liveThreadNum == old(liveThreadNum) + add && (add > 0 ==> liveThreadNum <= maxThreadNum)
        invariant add == Eligible(old(threads[..]), alive, i)
        invariant Overwritten(old(threads[..]), alive, tid, i, threads[..])
        invariant State() == old(State()).(live := liveThreadNum)
        decreases maxThreadNum - i
      {
        if threads[i] == 0 || alive[i] {
          threads[i] := tid + i;
          add := add + 1;
          liveThreadNum := liveThreadNum + 1;
        }
        i := i + 1;
      }
      seen := i;
    }
  }
}
