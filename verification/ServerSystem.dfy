/** The HTTP server as an interleaving of the event loop in main and the pool's workers: who owns a
    connection, what the semaphore says about the queue, and what the unlocked m_user_count says about
    the number of connections. Closing is split where another thread can come between: the descriptor
    is free for accept as soon as removefd has closed it, the object is written after that, and ++ and
    -- on the counter load it and store it back in two steps. */
module ServerSystem {
  import R = HttpResponse

  /** A load of m_user_count: the value, and how the history stood then. */
  datatype Seen = Seen(value: int, ups: nat, downs: nat, done: nat)

  /** The history of the counter: the increments and decrements stored so far, how many of each the
      counter still holds, and how many were stored over another update that came after their load. */
  datatype Tally = Tally(ups: nat, downs: nat, keptUps: nat, keptDowns: nat, clashes: nat)

  /** Where main stands: in its loop, between pushing a request and posting the semaphore, or about to
      load or to store the counter, for a connection it has accepted (`up`) or closed. */
  datatype Main =
    | Looping
    | Posting
    | Counting(up: bool, fd: nat)
    | Counted(up: bool, fd: nat, seen: Seen)

  /** Where a worker stands in threadpool::run and, from Serving on, in process(). */
  datatype Worker =
    | AtWait                           // m_queuestat.wait()
    | AtQueue                          // past the wait, about to take the list's lock
    | Serving(fd: nat)                 // inside request->process()
    | Unsetting(fd: nat)               // line 58, the descriptor is closed
    | Uncounting(fd: nat)              // line 59, about to load the counter
    | Uncounted(fd: nat, seen: Seen)   // line 59, about to store it
    | Rearming(fd: nat)                // line 549, about to call modfd with m_sockfd

  /** `bound` holds the descriptors whose object has them in m_sockfd, `batch` is what epoll_wait has
      delivered and main has not handled, `stranded` the connections that were disarmed and then
      neither queued, re-armed nor closed, and `reused` those accept handed out while a worker was
      still closing their object. The last two count events that happened. */
  datatype Server = Server(
    maxUsers: nat, maxRequests: nat,
    open: set<nat>, bound: set<nat>, userCount: int, armed: set<nat>, batch: seq<nat>, main: Main,
    queue: seq<nat>, sem: nat, workers: seq<Worker>, stranded: set<nat>,
    tally: Tally, reused: set<nat>, failedWaits: nat, emptyTakes: nat)

  /** What main finds on an event and what the call it makes returns. */
  datatype Handling = HangUp | ReadOk | ReadFailed | WriteMore | WriteDone | NoBranch

  datatype Action =
    | Accept(fd: nat)
    | Poll(delivered: seq<nat>)
    | Handle(how: Handling)
    | Proceed                          // main goes on with a post or with the counter
    | Wait(w: nat)
    | FailWait(w: nat)
    | Take(w: nat)
    | Process(w: nat, end: R.Processing)
    | Advance(w: nat)                  // a worker goes on with closing

  predicate Distinct(fds: seq<nat>) {
    forall i, j | 0 <= i < j < |fds| :: fds[i] != fds[j]
  }

  /** The worker has closed a descriptor and is not done with its object. */
  predicate Closing(worker: Worker) {
    worker.Unsetting? || worker.Uncounting? || worker.Uncounted? || worker.Rearming?
  }

  predicate IsClosing(worker: Worker, fd: nat) {
    Closing(worker) && worker.fd == fd
  }

  predicate SomeClosing(workers: seq<Worker>, fd: nat) {
    exists w | 0 <= w < |workers| :: IsClosing(workers[w], fd)
  }

  /** recv on an object without a descriptor fails, so only a bound one is read. */
  predicate Enabled(s: Server, a: Action) {
    match a
    case Accept(fd) => s.main.Looping? && fd !in s.open
    case Poll(delivered) =>
      && s.main.Looping? && s.batch == []
      && Distinct(delivered) && forall i | 0 <= i < |delivered| :: delivered[i] in s.armed
    case Handle(how) => s.main.Looping? && s.batch != [] && (how.ReadOk? ==> s.batch[0] in s.bound)
    case Proceed => !s.main.Looping?
    case Wait(w) => w < |s.workers| && s.workers[w].AtWait? && s.sem > 0
    case FailWait(w) => w < |s.workers| && s.workers[w].AtWait?
    case Take(w) => w < |s.workers| && s.workers[w].AtQueue?
    case Process(w, _) => w < |s.workers| && s.workers[w].Serving?
    case Advance(w) => w < |s.workers| && Closing(s.workers[w])
  }

  /** threadpool::append under its lock: a request is refused only once the list is longer than
      m_max_requests. */
  predicate Refuses(s: Server) {
    |s.queue| > s.maxRequests
  }

  function Strand(s: Server, fd: nat): Server {
    if fd in s.open then s.(stranded := s.stranded + {fd}) else s
  }

  /** modfd with the object's m_sockfd. */
  function Rearm(s: Server, fd: nat): Server {
    if fd in s.bound && fd in s.open then s.(armed := s.armed + {fd}) else Strand(s, fd)
  }

  /** removefd */
  function Remove(s: Server, fd: nat): Server {
    s.(open := s.open - {fd}, armed := s.armed - {fd})
  }

  /** close_conn in main up to the counter; it does nothing on an object without a descriptor. */
  function CloseInMain(s: Server, fd: nat): Server {
    if fd in s.bound then Remove(s, fd).(bound := s.bound - {fd}, main := Counting(false, fd)) else Strand(s, fd)
  }

  /** One event of the batch, main.cpp lines 124-147. */
  function HandleEvent(s: Server, fd: nat, how: Handling): Server {
    match how
    case HangUp => CloseInMain(s, fd)
    case ReadFailed => CloseInMain(s, fd)
    case ReadOk => if Refuses(s) then Strand(s, fd) else s.(queue := s.queue + [fd], main := Posting)
    case WriteMore => Rearm(s, fd)
    case WriteDone => CloseInMain(s, fd)
    case NoBranch => Strand(s, fd)
  }

  // ---- the counter ----

  function Bit(b: bool): nat {
    if b then 1 else 0
  }

  function Done(t: Tally): nat {
    t.ups + t.downs
  }

  /** A load of m_user_count. */
  function Load(s: Server): Seen {
    Seen(s.userCount, s.tally.keptUps, s.tally.keptDowns, Done(s.tally))
  }

  /** The store that follows it: updates stored in between are lost, and ones that had been lost when
      this one was loaded stay so. */
  function Store(s: Server, up: bool, seen: Seen): Server {
    var t := s.tally;
    s.(userCount := if up then seen.value + 1 else seen.value - 1,
       tally := Tally(t.ups + Bit(up), t.downs + Bit(!up), seen.ups + Bit(up), seen.downs + Bit(!up),
                      t.clashes + Bit(seen.done != Done(t))))
  }

  // ---- the steps ----

  /** accept, the test of MAX_FD, and init() up to the counter. */
  function AcceptStep(s: Server, fd: nat): Server {
    if s.userCount >= s.maxUsers then s
    else
      s.(open := s.open + {fd}, bound := s.bound + {fd}, armed := s.armed + {fd}, main := Counting(true, fd),
         reused := if SomeClosing(s.workers, fd) then s.reused + {fd} else s.reused)
  }

  function ProceedStep(s: Server): Server {
    match s.main
    case Looping => s
    case Posting => s.(sem := s.sem + 1, main := Looping)
    case Counting(up, fd) => s.(main := Counted(up, fd, Load(s)))
    case Counted(up, _, seen) => Store(s, up, seen).(main := Looping)
  }

  function ProcessStep(s: Server, w: nat, end: R.Processing): Server
    requires w < |s.workers| && s.workers[w].Serving?
  {
    var fd := s.workers[w].fd;
    if end != R.Closed then Rearm(s.(workers := s.workers[w := AtWait]), fd)
    else if fd in s.bound then Remove(s.(workers := s.workers[w := Unsetting(fd)]), fd)
    else Strand(s.(workers := s.workers[w := AtWait]), fd)
  }

  function AdvanceStep(s: Server, w: nat): Server
    requires w < |s.workers|
  {
    match s.workers[w]
    case Unsetting(fd) => s.(bound := s.bound - {fd}, workers := s.workers[w := Uncounting(fd)])
    case Uncounting(fd) => s.(workers := s.workers[w := Uncounted(fd, Load(s))])
    case Uncounted(fd, seen) => Store(s, false, seen).(workers := s.workers[w := Rearming(fd)])
    case Rearming(fd) =>
      s.(workers := s.workers[w := AtWait],
         armed := if fd in s.bound && fd in s.open then s.armed + {fd} else s.armed)
    case _ => s
  }

  function Next(s: Server, a: Action): Server
    requires Enabled(s, a)
  {
    match a
    case Accept(fd) => AcceptStep(s, fd)
    case Poll(delivered) =>
      s.(batch := delivered, armed := s.armed - set i | 0 <= i < |delivered| :: delivered[i])
    case Handle(how) => HandleEvent(s.(batch := s.batch[1..]), s.batch[0], how)
    case Proceed => ProceedStep(s)
    case Wait(w) => s.(sem := s.sem - 1, workers := s.workers[w := AtQueue])
    case FailWait(w) => s.(failedWaits := s.failedWaits + 1, workers := s.workers[w := AtQueue])
    case Take(w) =>
      if s.queue == [] then s.(emptyTakes := s.emptyTakes + 1, workers := s.workers[w := AtWait])
      else s.(queue := s.queue[1..], workers := s.workers[w := Serving(s.queue[0])])
    case Process(w, end) => ProcessStep(s, w, end)
    case Advance(w) => AdvanceStep(s, w)
  }

  predicate Initial(s: Server) {
    && s.open == {} && s.bound == {} && s.armed == {} && s.stranded == {} && s.reused == {}
    && s.userCount == 0 && s.tally == Tally(0, 0, 0, 0, 0)
    && s.batch == [] && s.queue == [] && s.sem == 0 && s.main == Looping
    && (forall w | 0 <= w < |s.workers| :: s.workers[w] == AtWait)
    && s.failedWaits == s.emptyTakes == 0
  }

  ghost predicate Runs(s: Server, actions: seq<Action>, t: Server)
    decreases |actions|
  {
    if actions == [] then t == s
    else Enabled(s, actions[0]) && Runs(Next(s, actions[0]), actions[1..], t)
  }

  ghost predicate Reached(s: Server, actions: seq<Action>, t: Server) {
    Initial(s) && Runs(s, actions, t)
  }

  lemma {:induction false} RunsThen(s: Server, a: seq<Action>, t: Server, b: seq<Action>, u: Server)
    requires Runs(s, a, t) && Runs(t, b, u)
    ensures Runs(s, a + b, u)
    decreases |a|
  {
    if a == [] {
      assert a + b == b;
    } else {
      RunsThen(Next(s, a[0]), a[1..], t, b, u);
      assert (a + b)[1..] == a[1..] + b;
    }
  }

  // ---- counting ----

  /** How often `fd` occurs in a list of connections. */
  function Times(fds: seq<nat>, fd: nat): nat {
    if fds == [] then 0 else Times(fds[1..], fd) + if fds[0] == fd then 1 else 0
  }

  /** Workers past the wait, serving or closing one connection, and with a decrement still to store. */
  datatype Kind = Taking | Serves(fd: nat) | Closes(fd: nat) | Owing

  predicate Is(k: Kind, w: Worker) {
    match k
    case Taking => w.AtQueue?
    case Serves(fd) => w == Serving(fd)
    case Closes(fd) => IsClosing(w, fd)
    case Owing => w.Unsetting? || w.Uncounting? || w.Uncounted?
  }

  function Count(k: Kind, workers: seq<Worker>): nat {
    if workers == [] then 0 else Count(k, workers[1..]) + Bit(Is(k, workers[0]))
  }

  /** The number of places that own `fd`. */
  function Owners(s: Server, fd: nat): nat {
    Bit(fd in s.armed) + Times(s.batch, fd) + Times(s.queue, fd) + Count(Serves(fd), s.workers) + Bit(fd in s.stranded)
  }

  lemma {:induction false} TimesAppend(fds: seq<nat>, last: nat, fd: nat)
    ensures Times(fds + [last], fd) == Times(fds, fd) + Bit(last == fd)
    decreases |fds|
  {
    if fds != [] {
      assert (fds + [last])[1..] == fds[1..] + [last];
      TimesAppend(fds[1..], last, fd);
    }
  }

  lemma {:induction false} TimesPositive(fds: seq<nat>, fd: nat, i: nat)
    requires i < |fds| && fds[i] == fd
    ensures Times(fds, fd) >= 1
    decreases |fds|
  {
    if i > 0 { TimesPositive(fds[1..], fd, i - 1); }
  }

  lemma {:induction false} TimesTwo(fds: seq<nat>, fd: nat, i: nat, j: nat)
    requires i < j < |fds| && fds[i] == fds[j] == fd
    ensures Times(fds, fd) >= 2
    decreases |fds|
  {
    if i == 0 { TimesPositive(fds[1..], fd, j - 1); } else { TimesTwo(fds[1..], fd, i - 1, j - 1); }
  }

  lemma DistinctIfOnce(fds: seq<nat>)
    requires forall fd :: Times(fds, fd) <= 1
    ensures Distinct(fds)
  {
    forall i, j | 0 <= i < j < |fds| ensures fds[i] != fds[j] {
      if fds[i] == fds[j] { TimesTwo(fds, fds[i], i, j); }
    }
  }

  lemma {:induction false} TimesOfDistinct(fds: seq<nat>, fd: nat)
    requires Distinct(fds)
    ensures Times(fds, fd) == Bit(fd in fds)
    decreases |fds|
  {
    if fds != [] {
      assert forall i, j | 0 <= i < j < |fds[1..]| :: fds[1..][i] == fds[i + 1] && fds[1..][j] == fds[j + 1];
      TimesOfDistinct(fds[1..], fd);
      assert fds == [fds[0]] + fds[1..];
    }
  }

  lemma {:induction false} CountUpdate(k: Kind, workers: seq<Worker>, w: nat, to: Worker)
    requires w < |workers|
    ensures Count(k, workers[w := to]) == Count(k, workers) - Bit(Is(k, workers[w])) + Bit(Is(k, to))
    ensures Count(k, workers) >= Bit(Is(k, workers[w]))
    decreases |workers|
  {
    if w > 0 {
      CountUpdate(k, workers[1..], w - 1, to);
      assert workers[w := to][1..] == workers[1..][w - 1 := to];
    } else {
      assert workers[w := to][1..] == workers[1..];
    }
  }

  lemma {:induction false} CountTwo(k: Kind, workers: seq<Worker>, v: nat, w: nat)
    requires v < w < |workers| && Is(k, workers[v]) && Is(k, workers[w])
    ensures Count(k, workers) >= 2
    decreases |workers|
  {
    if v == 0 {
      CountUpdate(k, workers[1..], w - 1, workers[w]);
    } else {
      CountTwo(k, workers[1..], v - 1, w - 1);
    }
  }

  lemma {:induction false} CountNone(k: Kind, workers: seq<Worker>)
    requires forall w | 0 <= w < |workers| :: !Is(k, workers[w])
    ensures Count(k, workers) == 0
    decreases |workers|
  {
    if workers != [] { CountNone(k, workers[1..]); }
  }
}
