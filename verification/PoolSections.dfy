/** The shared structure of the pthread pool and its critical sections, as functions on a value. */
module PoolSections {

  /** A queue slot: the callback and its argument, 0 standing for NULL. */
  datatype Task = Task(callback: int, arg: int)

  /** threadpool_t without the locks and handles; queue_max_size is `|ring|`. */
  datatype Pool = Pool(
    ring: seq<Task>, front: nat, rear: nat, size: int, shutdown: bool,
    minThreads: int, maxThreads: int, live: int, busy: int, waitExit: int)

  const ADD_SIZE: int := 1024

  /** The slot `i` places after the front. */
  function SlotOf(p: Pool, i: int): int {
    if p.front + i < |p.ring| then p.front + i else p.front + i - |p.ring|
  }

  /** Front, rear and size agree. */
  predicate RingOk(p: Pool) {
    && 0 <= p.size <= |p.ring|
    && (if |p.ring| == 0 then p.front == 0 else p.front < |p.ring|)
    && p.rear == SlotOf(p, p.size)
  }

  /** The queued tasks, oldest first. */
  function Queued(p: Pool): (q: seq<Task>)
    requires RingOk(p)
    ensures |q| == p.size
    ensures forall i | 0 <= i < p.size :: q[i] == p.ring[SlotOf(p, i)]
  {
    seq(p.size, i requires 0 <= i < p.size => p.ring[SlotOf(p, i)])
  }

  /** Line 143 compares without the modulus: the task is kept unless rear is just behind front. */
  predicate Keeps(p: Pool) {
    p.rear + 1 != p.front
  }

  /** threadpool_add past its shutdown check, lines 137-148. */
  function AddSection(p: Pool, task: Task): Pool {
    if p.rear >= |p.ring| then p
    else
      var ring := if p.ring[p.rear].arg != 0 then p.ring[p.rear := p.ring[p.rear].(arg := 0)] else p.ring;
      if Keeps(p) then
        p.(ring := ring[p.rear := task], rear := (p.rear + 1) % |p.ring|, size := p.size + 1)
      else p.(ring := ring)
  }

  function Head(p: Pool): Task {
    if p.front < |p.ring| then p.ring[p.front] else Task(0, 0)
  }

  /** A worker takes a task, lines 193-198. */
  function TakeSection(p: Pool): Pool {
    if p.front >= |p.ring| then p
    else p.(front := (p.front + 1) % |p.ring|, size := p.size - 1)
  }

  /** A woken worker passes the shrink branch, lines 171-182; true when it exits there. */
  predicate ShrinkExits(p: Pool) {
    p.waitExit > 0 && p.live > p.minThreads
  }

  function WokenSection(p: Pool): Pool {
    if p.waitExit <= 0 then p
    else p.(waitExit := p.waitExit - 1, live := if ShrinkExits(p) then p.live - 1 else p.live)
  }

  // ---- what the sections do to the queue ----

  lemma ModWrap(x: int, n: int)
    requires 0 < n && 0 <= x < 2 * n
    ensures x % n == if x < n then x else x - n
  {
    if x >= n {
      assert x == n * 1 + (x - n);
    }
  }

  /** rear is the slot after the last queued task, in the arithmetic of the code. */
  lemma RearIsModular(p: Pool)
    requires RingOk(p) && |p.ring| > 0
    ensures p.rear == (p.front + p.size) % |p.ring|
  {
    ModWrap(p.front + p.size, |p.ring|);
  }

  /** When the ring is not full, the task is dropped exactly when one slot is left and the front has
      moved off slot 0; otherwise it is appended. Clearing the slot never touches a queued task. */
  lemma AddOutcome(p: Pool, task: Task)
    requires RingOk(p) && p.size < |p.ring|
    ensures Keeps(p) <==> !(p.size == |p.ring| - 1 && p.front > 0)
    ensures RingOk(AddSection(p, task))
    ensures Queued(AddSection(p, task)) == if Keeps(p) then Queued(p) + [task] else Queued(p)
  {
    ModWrap(p.rear + 1, |p.ring|);
    AddSlots(p, task);
    if Keeps(p) { AddAppends(p, task); } else { AddClears(p, task); }
  }

  /** The slots of the queued tasks stay where they are, apart from the rear slot. */
  lemma AddSlots(p: Pool, task: Task)
    requires RingOk(p) && p.size < |p.ring|
    ensures var q := AddSection(p, task);
      |q.ring| == |p.ring| && forall i | 0 <= i < p.size :: SlotOf(q, i) == SlotOf(p, i) != p.rear
  {
  }

  lemma AddAppends(p: Pool, task: Task)
    requires RingOk(p) && p.size < |p.ring| && Keeps(p) && RingOk(AddSection(p, task))
    ensures Queued(AddSection(p, task)) == Queued(p) + [task]
  {
    AddSlots(p, task);
  }

  lemma AddClears(p: Pool, task: Task)
    requires RingOk(p) && p.size < |p.ring| && !Keeps(p) && RingOk(AddSection(p, task))
    ensures Queued(AddSection(p, task)) == Queued(p)
  {
    AddSlots(p, task);
  }

  lemma TakeOutcome(p: Pool)
    requires RingOk(p) && p.size > 0
    ensures RingOk(TakeSection(p)) && |TakeSection(p).ring| == |p.ring| && TakeSection(p).size < |p.ring|
    ensures Queued(p) == [Head(p)] + Queued(TakeSection(p))
  {
    ModWrap(p.front + 1, |p.ring|);
    var q := TakeSection(p);
    assert forall i | 0 <= i < q.size :: SlotOf(q, i) == SlotOf(p, i + 1);
  }

  /** The counters and the flag are no part of the queue. */
  lemma QueueUntouched(p: Pool, q: Pool)
    requires RingOk(p) && q.ring == p.ring && q.front == p.front && q.rear == p.rear && q.size == p.size
    ensures RingOk(q) && Queued(q) == Queued(p)
  {
  }
}
