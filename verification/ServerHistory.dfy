/** What the events of a run say about where connections are: which are lost, which are armed again,
    and in which order requests are served. The histories here are read off the run itself, not off
    the state. */
module ServerHistory {
  import opened ServerSystem
  import opened ServerSafety
  import R = HttpResponse

  // ---- one step ----

  /** Nothing is said of any other connection by this step. */
  ghost predicate OthersStay(s: Server, t: Server, fd: nat) {
    forall f | f != fd ::
      && (f in t.open <==> f in s.open) && (f in t.armed <==> f in s.armed)
      && (f in t.stranded <==> f in s.stranded) && Times(t.queue, f) == Times(s.queue, f)
  }

  /** What main does with the first event of its batch, for a connection accept has not handed out while
      a worker was still closing it: on a hangup, a failed read or a finished answer it is closed; a
      request that was read is queued last unless the list is too long; a half-sent answer is armed
      again; anything else loses it. */
  lemma EventOutcome(s: Server, actions: seq<Action>, t: Server, how: Handling)
    requires Reached(s, actions, t) && Enabled(t, Handle(how)) && t.batch[0] !in t.reused
    ensures var u, fd := Next(t, Handle(how)), t.batch[0];
      && fd in t.open && u.batch == t.batch[1..] && OthersStay(t, u, fd)
      && (how in {HangUp, ReadFailed, WriteDone} ==> fd !in u.open)
      && (how == WriteMore ==> fd in u.open && fd in u.armed)
      && (how == ReadOk && |t.queue| <= t.maxRequests ==>
            fd in u.open && u.queue == t.queue + [fd] && u.main == Posting)
      && (Loses(t, Handle(how), fd) ==> fd in u.open && fd in u.stranded)
  {
    ReachedInv(s, actions, t);
    hide CounterInv, OpenInv, TokenInv;
    var fd := t.batch[0];
    assert Single(t, fd);
    forall f | f != fd ensures Times(t.queue + [fd], f) == Times(t.queue, f) {
      TimesAppend(t.queue, fd, f);
    }
    hide Times, Count;
  }

  /** What a worker's process() does with such a connection: closed if it says so, and otherwise, input
      wanted or answer ready, armed again. */
  lemma ProcessOutcome(s: Server, actions: seq<Action>, t: Server, w: nat, end: R.Processing)
    requires Reached(s, actions, t) && Enabled(t, Process(w, end)) && t.workers[w].fd !in t.reused
    ensures var u, fd := Next(t, Process(w, end)), t.workers[w].fd;
      && fd in t.open && fd !in u.stranded && OthersStay(t, u, fd) && u.queue == t.queue
      && (end == R.Closed ==> fd !in u.open && u.workers == t.workers[w := Unsetting(fd)])
      && (end != R.Closed ==> fd in u.open && fd in u.armed && u.workers == t.workers[w := AtWait])
  {
    ReachedInv(s, actions, t);
    hide CounterInv, OpenInv, TokenInv;
    assert Single(t, t.workers[w].fd);
    CountUpdate(Serves(t.workers[w].fd), t.workers, w, AtWait);
    hide Times, Count;
  }

  // ---- over a run ----

  /** Some event of the run loses the connection. */
  ghost predicate Lost(s: Server, actions: seq<Action>, fd: nat)
    decreases |actions|
  {
    actions != [] && Enabled(s, actions[0])
    && (Loses(s, actions[0], fd) || Lost(Next(s, actions[0]), actions[1..], fd))
  }

  lemma {:induction false} LostIs(s: Server, actions: seq<Action>, t: Server, fd: nat)
    requires Inv(s) && Runs(s, actions, t) && fd !in t.reused
    ensures fd in t.stranded <==> fd in s.stranded || Lost(s, actions, fd)
    decreases |actions|
  {
    hide Next, Enabled, Single, CounterInv, OpenInv, TokenInv, Loses;
    if actions != [] {
      var u := Next(s, actions[0]);
      StepInv(s, actions[0]);
      ReachableInv(u, actions[1..], t);
      assert Single(s, fd);
      LossStep(s, actions[0], fd);
      LostIs(u, actions[1..], t, fd);
    }
  }

  /** A connection is stranded exactly if some event of the run lost it: a request append refused, or an
      event no branch takes. */
  lemma StrandedExactly(s: Server, actions: seq<Action>, t: Server, fd: nat)
    requires Reached(s, actions, t) && fd !in t.reused
    ensures fd in t.stranded <==> Lost(s, actions, fd)
  {
    assert s.stranded == {};
    InitialInv(s);
    hide Initial, Inv, Runs, Lost;
    LostIs(s, actions, t, fd);
  }

  /** Each open connection is in exactly one of: armed, delivered, queued, served, or lost by an event of
      the run; a closed one is in none. So what no event loses is never out of everybody's hands. This holds
      of every descriptor that accept never handed out while a worker was still closing its object; if there
      was none at all, no list holds a connection twice. */
  lemma SingleOwner(s: Server, actions: seq<Action>, t: Server, fd: nat)
    requires Reached(s, actions, t)
    ensures fd !in t.reused ==>
      Bit(fd in t.armed) + Times(t.batch, fd) + Times(t.queue, fd) + Count(Serves(fd), t.workers)
      + (if Lost(s, actions, fd) then 1 else 0) == Bit(fd in t.open)
    ensures t.reused == {} ==> Distinct(t.queue) && Distinct(t.batch)
  {
    hide Lost;
    OwnersReached(s, actions, t, fd);
    if fd !in t.reused { StrandedExactly(s, actions, t, fd); }
  }

  // ---- the order of service ----

  /** The request a step of main hands to append, which takes it. */
  function AppendedBy(s: Server, a: Action): seq<nat>
    requires Enabled(s, a)
  {
    if a == Handle(ReadOk) && |s.queue| <= s.maxRequests then [s.batch[0]] else []
  }

  /** The request a worker begins to serve in a step. */
  function ServedBy(s: Server, a: Action): seq<nat>
    requires Enabled(s, a)
  {
    var t := Next(s, a);
    if a.Take? && a.w < |t.workers| && t.workers[a.w].Serving? then [t.workers[a.w].fd] else []
  }

  /** The requests append has taken in the run, in order. */
  ghost function Appended(s: Server, actions: seq<Action>): seq<nat>
    decreases |actions|
  {
    if actions == [] || !Enabled(s, actions[0]) then []
    else AppendedBy(s, actions[0]) + Appended(Next(s, actions[0]), actions[1..])
  }

  /** The requests workers have begun to serve in the run, in order. */
  ghost function Served(s: Server, actions: seq<Action>): seq<nat>
    decreases |actions|
  {
    if actions == [] || !Enabled(s, actions[0]) then []
    else ServedBy(s, actions[0]) + Served(Next(s, actions[0]), actions[1..])
  }

  lemma OrderStep(s: Server, a: Action)
    requires Enabled(s, a)
    ensures s.queue + AppendedBy(s, a) == ServedBy(s, a) + Next(s, a).queue
  {
  }

  lemma {:induction false} OrderIs(s: Server, actions: seq<Action>, t: Server)
    requires Runs(s, actions, t)
    ensures s.queue + Appended(s, actions) == Served(s, actions) + t.queue
    decreases |actions|
  {
    hide Next, Enabled, AppendedBy, ServedBy;
    if actions != [] {
      var u := Next(s, actions[0]);
      OrderStep(s, actions[0]);
      OrderIs(u, actions[1..], t);
      Exchanged(s.queue, AppendedBy(s, actions[0]), ServedBy(s, actions[0]), u.queue,
                Appended(u, actions[1..]), Served(u, actions[1..]), t.queue);
    }
  }

  lemma Exchanged(q: seq<nat>, a: seq<nat>, b: seq<nat>, r: seq<nat>, later: seq<nat>, done: seq<nat>, left: seq<nat>)
    requires q + a == b + r && r + later == done + left
    ensures q + (a + later) == (b + done) + left
  {
    assert q + (a + later) == (q + a) + later;
    assert (b + r) + later == b + (r + later);
    assert b + (done + left) == (b + done) + left;
  }

  /** Requests are served in the order in which append took them, each once, and the rest are queued. */
  lemma ServedInOrder(s: Server, actions: seq<Action>, t: Server)
    requires Reached(s, actions, t)
    ensures Appended(s, actions) == Served(s, actions) + t.queue
  {
    OrderIs(s, actions, t);
    assert [] + Appended(s, actions) == Appended(s, actions);
  }
}
