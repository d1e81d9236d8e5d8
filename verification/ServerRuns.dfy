/** What overlapping threads can do to the server: the exact limit up to which MAX_FD is safe from lost
    updates of m_user_count, and a descriptor that is reused while it is being closed. */
module ServerRuns {
  import opened ServerSystem
  import opened ServerSafety
  import R = HttpResponse

  ghost predicate Reaches(s: Server, t: Server) {
    exists actions :: Runs(s, actions, t)
  }

  lemma Step(s: Server, t: Server, a: Action, u: Server)
    requires Reaches(s, t) && Enabled(t, a) && u == Next(t, a)
    ensures Reaches(s, u)
  {
    var actions :| Runs(s, actions, t);
    assert [a][1..] == [];
    assert Runs(t, [a], u);
    RunsThen(s, actions, t, [a], u);
  }

  // ---- limits that cannot be exceeded ----

  /** With room for one connection there is never more than one, open or owing its decrement, and so
      no update is ever stored over another. */
  ghost predicate Alone(s: Server) {
    s.maxUsers <= 1 && s.reused == {} ==>
      && s.tally.clashes == 0
      && |s.open| + OwedDowns(s) <= s.maxUsers
      && (s.main.Counted? ==> s.main.seen.done == Done(s.tally))
      && (forall w | 0 <= w < |s.workers| && s.workers[w].Uncounted? :: s.workers[w].seen.done == Done(s.tally))
  }

  /** One update is owed at most, and none is owed and loaded before another's store. */
  lemma AloneOwes(s: Server)
    requires OwnerInv(s) && Alone(s) && s.maxUsers <= 1 && s.reused == {}
    ensures OwedUps(s) <= |s.open| && OwedUps(s) + OwedDowns(s) <= 1
  {
    if OwedUps(s) == 1 {
      assert Single(s, s.main.fd);
      assert s.main.fd in s.open;
    }
  }

  lemma AloneAccept(s: Server, a: Action)
    requires Inv(s) && Alone(s) && Enabled(s, a) && (a.Accept? || a.Poll?)
    ensures Alone(Next(s, a))
  {
    hide OwnerInv, TokenInv, SeenOk;
  }

  lemma AloneHandle(s: Server, how: Handling)
    requires Inv(s) && Alone(s) && Enabled(s, Handle(how))
    ensures Alone(Next(s, Handle(how)))
  {
    hide CounterInv, OpenInv, TokenInv, Count, Single;
    if s.maxUsers <= 1 && s.reused == {} {
      BatchOpen(s);
    }
  }

  lemma BatchOpen(s: Server)
    requires OwnerInv(s) && s.batch != [] && s.reused == {}
    ensures s.batch[0] in s.open
  {
    assert Single(s, s.batch[0]);
    hide Count;
  }

  lemma AloneProceed(s: Server)
    requires Inv(s) && Alone(s) && !s.main.Looping?
    ensures Alone(ProceedStep(s))
  {
    hide TokenInv, OpenInv, CounterInv, Single;
    if s.maxUsers <= 1 && s.reused == {} {
      AloneOwes(s);
      forall w | 0 <= w < |s.workers| && (s.main.Counting? || s.main.Counted?) ensures !Is(Owing, s.workers[w]) {
        CountUpdate(Owing, s.workers, w, s.workers[w]);
      }
    }
  }

  lemma AloneProcess(s: Server, w: nat, end: R.Processing)
    requires Inv(s) && Alone(s) && Enabled(s, Process(w, end))
    ensures Alone(Next(s, Process(w, end)))
  {
    hide CounterInv, OpenInv, TokenInv, Next, Count, Single;
    ProcessReuses(s, w, end);
    if s.maxUsers <= 1 && s.reused == {} {
      assert Single(s, s.workers[w].fd);
      hide OwnerInv;
      ServedOpen(s, w);
      ProcessOpens(s, w, end);
      CountUpdate(Owing, s.workers, w, Next(s, Process(w, end)).workers[w]);
    }
  }

  lemma AloneAdvance(s: Server, w: nat)
    requires Inv(s) && Alone(s) && Enabled(s, Advance(w))
    ensures Alone(AdvanceStep(s, w))
  {
    hide CounterInv, OpenInv, TokenInv, OwnerInv, Single, Count;
    CountUpdate(Owing, s.workers, w, AdvanceStep(s, w).workers[w]);
    if s.maxUsers <= 1 && s.reused == {} && s.workers[w].Uncounted? {
      OneOwes(s, w);
    }
  }

  /** While one worker owes its decrement, no other does. */
  lemma OneOwes(s: Server, w: nat)
    requires OwnerInv(s) && Alone(s) && s.maxUsers <= 1 && s.reused == {}
    requires w < |s.workers| && s.workers[w].Uncounted?
    ensures !s.main.Counted?
    ensures forall v | 0 <= v < |s.workers| && v != w :: !s.workers[v].Uncounted?
  {
    AloneOwes(s);
    hide OwnerInv, Alone;
    CountUpdate(Owing, s.workers, w, s.workers[w]);
    forall v | 0 <= v < |s.workers| && v != w ensures !s.workers[v].Uncounted? {
      if s.workers[v].Uncounted? {
        CountTwo(Owing, s.workers, if v < w then v else w, if v < w then w else v);
      }
    }
  }

  lemma AloneTake(s: Server, w: nat, a: Action)
    requires Inv(s) && Alone(s) && Enabled(s, a) && (a == Wait(w) || a == FailWait(w) || a == Take(w))
    ensures Alone(Next(s, a))
  {
    hide OwnerInv, CounterInv, OpenInv, TokenInv;
    CountUpdate(Owing, s.workers, w, Next(s, a).workers[w]);
  }

  lemma AloneStep(s: Server, a: Action)
    requires Inv(s) && Alone(s) && Enabled(s, a)
    ensures Alone(Next(s, a)) && Next(s, a).maxUsers == s.maxUsers
  {
    hide Inv, Alone;
    match a
    case Accept(_) => AloneAccept(s, a);
    case Poll(_) => AloneAccept(s, a);
    case Handle(how) => AloneHandle(s, how);
    case Proceed => AloneProceed(s);
    case Process(w, end) => AloneProcess(s, w, end);
    case Advance(w) => AloneAdvance(s, w);
    case _ => AloneTake(s, a.w, a);
  }

  lemma {:induction false} AloneStays(s: Server, actions: seq<Action>, t: Server)
    requires Inv(s) && Alone(s) && Runs(s, actions, t)
    ensures Inv(t) && Alone(t) && t.maxUsers == s.maxUsers
    decreases |actions|
  {
    hide Inv, Alone, Next, Enabled;
    if actions != [] {
      StepInv(s, actions[0]);
      AloneStep(s, actions[0]);
      AloneStays(Next(s, actions[0]), actions[1..], t);
    }
  }

  // ---- limits that can ----

  /** A server with one worker, no connection and no event yet. */
  function Fresh(maxUsers: nat, workers: nat): Server {
    Server(maxUsers, 10000, {}, {}, 0, {}, [], Looping, [], 0, seq(workers, _ => AtWait), {},
           Tally(0, 0, 0, 0, 0), {}, 0, 0)
  }

  /** Main accepts `fd` and counts it. */
  lemma Enter(s: Server, t: Server, fd: nat) returns (u: Server)
    requires Reaches(s, t) && t.main == Looping && t.userCount < t.maxUsers && fd !in t.open
    requires !SomeClosing(t.workers, fd)
    ensures Reaches(s, u)
    ensures u == t.(open := t.open + {fd}, bound := t.bound + {fd}, armed := t.armed + {fd},
                    userCount := t.userCount + 1, tally := u.tally)
    ensures u.tally == Store(t, true, Load(t)).tally
  {
    var a := t.(open := t.open + {fd}, bound := t.bound + {fd}, armed := t.armed + {fd}, main := Counting(true, fd));
    Step(s, t, Accept(fd), a);
    var b := a.(main := Counted(true, fd, Load(t)));
    Step(s, a, Proceed, b);
    u := Next(b, Proceed);
    Step(s, b, Proceed, u);
  }

  lemma {:induction false} EnterMany(s: Server, t: Server, from: nat, k: nat) returns (u: Server)
    requires Reaches(s, t) && t.main == Looping && t.userCount + k <= t.maxUsers
    requires forall fd | fd in t.open :: fd < from
    requires forall w | 0 <= w < |t.workers| :: t.workers[w] == AtWait
    ensures Reaches(s, u) && u.reused == t.reused && |u.open| == |t.open| + k
    decreases k
  {
    u := t;
    if k > 0 {
      var v := Enter(s, t, from);
      u := EnterMany(s, v, from + 1, k - 1);
    }
  }

  /** A connection is accepted, sends a request, and worker 0 is about to process it. */
  lemma FirstServed(maxUsers: nat, workers: nat) returns (t: Server)
    requires maxUsers >= 1 && workers > 0
    ensures var s := Fresh(maxUsers, workers);
      && Reaches(s, t)
      && t == s.(open := {1}, bound := {1}, userCount := 1, tally := Tally(1, 0, 1, 0, 0),
                 workers := s.workers[0 := Serving(1)])
  {
    var s := Fresh(maxUsers, workers);
    assert Runs(s, [], s);
    var a := Enter(s, s, 1);
    assert a.open == a.bound == a.armed == {1};
    t := Served(s, a, 1, 0);
    assert t.armed == {};
  }

  /** A request arrives on an armed connection and worker `w` takes it. */
  lemma Served(s: Server, t: Server, fd: nat, w: nat) returns (u: Server)
    requires Reaches(s, t) && t.main == Looping && t.batch == [] && t.queue == [] && t.sem == 0
    requires fd in t.armed && fd in t.bound && w < |t.workers| && t.workers[w] == AtWait
    ensures Reaches(s, u) && u == t.(armed := t.armed - {fd}, workers := t.workers[w := Serving(fd)])
  {
    var b := t.(batch := [fd], armed := t.armed - {fd});
    assert (set i | 0 <= i < |[fd]| :: [fd][i]) == {fd} by { assert [fd][0] == fd; }
    Step(s, t, Poll([fd]), b);
    u := Handed(s, b, fd, w);
  }

  /** Main handles a delivered request and worker `w` takes it. */
  lemma Handed(s: Server, t: Server, fd: nat, w: nat) returns (u: Server)
    requires Reaches(s, t) && t.main == Looping && t.batch == [fd] && t.queue == [] && t.sem == 0
    requires fd in t.bound && w < |t.workers| && t.workers[w] == AtWait
    ensures Reaches(s, u) && u == t.(batch := [], workers := t.workers[w := Serving(fd)])
  {
    var c := t.(batch := [], queue := [fd], main := Posting);
    Step(s, t, Handle(ReadOk), c);
    var d := t.(batch := [], queue := [fd], sem := 1);
    Step(s, c, Proceed, d);
    var e := t.(batch := [], queue := [fd], workers := t.workers[w := AtQueue]);
    Step(s, d, Wait(w), e);
    u := t.(batch := [], workers := t.workers[w := Serving(fd)]);
    assert e.workers[w := Serving(fd)] == u.workers;
    Step(s, e, Take(w), u);
  }

  /** Worker 0 closes its connection, up to the counter. */
  lemma Closed(s: Server, t: Server, fd: nat) returns (u: Server)
    requires Reaches(s, t) && t.workers != [] && t.workers[0] == Serving(fd) && fd in t.bound
    ensures Reaches(s, u)
    ensures u == t.(open := t.open - {fd}, armed := t.armed - {fd}, bound := t.bound - {fd},
                    workers := t.workers[0 := Uncounting(fd)])
  {
    var a := t.(open := t.open - {fd}, armed := t.armed - {fd}, workers := t.workers[0 := Unsetting(fd)]);
    Step(s, t, Process(0, R.Closed), a);
    u := a.(bound := t.bound - {fd}, workers := t.workers[0 := Uncounting(fd)]);
    assert a.workers[0 := Uncounting(fd)] == u.workers;
    Step(s, a, Advance(0), u);
  }

  /** Worker 0 stores the counter and calls modfd. */
  lemma CountedOff(s: Server, t: Server, fd: nat, seen: Seen) returns (u: Server)
    requires Reaches(s, t) && t.workers != [] && t.workers[0] == Uncounted(fd, seen)
    ensures Reaches(s, u)
    ensures u == Store(t, false, seen).(workers := t.workers[0 := AtWait],
                                        armed := if fd in t.bound && fd in t.open then t.armed + {fd} else t.armed)
  {
    hide Store;
    StoreFrame(t, false, seen);
    var a := Store(t, false, seen).(workers := t.workers[0 := Rearming(fd)]);
    Step(s, t, Advance(0), a);
    u := Next(a, Advance(0));
    assert a.workers[0 := AtWait] == t.workers[0 := AtWait];
    Step(s, a, Advance(0), u);
  }

  /** Worker 0 loads the counter to count a closed connection off, main counts a new one on, and the
      worker's store undoes it: one connection is open and the counter is 0. */
  lemma LostUpdate(maxUsers: nat) returns (t: Server)
    requires maxUsers >= 2
    ensures Reaches(Fresh(maxUsers, 1), t) && t.maxUsers == maxUsers && t.reused == {}
    ensures t.open == {2} && t.userCount == 0 && t.main == Looping && t.workers == [AtWait]
  {
    var c := ClosedAndLoaded(maxUsers);
    t := Overtaken(Fresh(maxUsers, 1), c);
  }

  /** Worker 0 has closed the one connection and loaded the counter, which still counts it. */
  lemma ClosedAndLoaded(maxUsers: nat) returns (c: Server)
    requires maxUsers >= 2
    ensures Reaches(Fresh(maxUsers, 1), c) && c.maxUsers == maxUsers && c.reused == {} && c.open == {}
    ensures c.main == Looping && c.userCount == 1
    ensures c.workers == [Uncounted(1, Load(c))]
  {
    var s := Fresh(maxUsers, 1);
    var a := FirstServed(maxUsers, 1);
    hide Reaches, Next, Enabled;
    var b := Closed(s, a, 1);
    c := Loaded(s, b, 1);
  }

  /** Main counts connection 2 on before worker 0 stores what it loaded. */
  lemma Overtaken(s: Server, c: Server) returns (t: Server)
    requires Reaches(s, c) && c.maxUsers >= 2 && c.reused == {} && c.open == {}
    requires c.main == Looping && c.userCount == 1 && c.workers == [Uncounted(1, Load(c))]
    ensures Reaches(s, t) && t.maxUsers == c.maxUsers && t.reused == {}
    ensures t.open == {2} && t.userCount == 0 && t.main == Looping && t.workers == [AtWait]
  {
    hide Reaches, Store, SomeClosing;
    var seen := Load(c);
    NobodyElse(c, 2);
    var d := Enter(s, c, 2);
    t := CountedOff(s, d, 1, seen);
    StoreFrame(d, false, seen);
    StoreOver(d, seen);
  }

  lemma NobodyElse(t: Server, fd: nat)
    requires |t.workers| == 1 && Closing(t.workers[0]) && t.workers[0].fd != fd
    ensures !SomeClosing(t.workers, fd)
  {
  }

  lemma StoreOver(s: Server, seen: Seen)
    ensures Store(s, false, seen).userCount == seen.value - 1
  {
  }

  /** Worker 0 loads the counter. */
  lemma Loaded(s: Server, t: Server, fd: nat) returns (u: Server)
    requires Reaches(s, t) && t.workers != [] && t.workers[0] == Uncounting(fd)
    ensures Reaches(s, u) && u == t.(workers := t.workers[0 := Uncounted(fd, Load(t))])
  {
    hide Reaches;
    u := t.(workers := t.workers[0 := Uncounted(fd, Load(t))]);
    Step(s, t, Advance(0), u);
  }

  /** A run, without early reuse of a descriptor, to more open connections than the limit allows. */
  ghost predicate Exceeds(s: Server, t: Server, maxUsers: nat) {
    Initial(s) && s.maxUsers == maxUsers && Reaches(s, t) && t.reused == {} && |t.open| > maxUsers
  }

  /** Exactly which limits the unlocked counter can let main exceed: all from two up. */
  lemma LimitExactly(maxUsers: nat)
    ensures (exists s, t :: Exceeds(s, t, maxUsers)) <==> maxUsers >= 2
  {
    hide Inv, Alone;
    if maxUsers >= 2 {
      var s := Fresh(maxUsers, 1);
      var u := LostUpdate(maxUsers);
      var t := EnterMany(s, u, 3, maxUsers);
      assert Exceeds(s, t, maxUsers);
    }
    if s, t :| Exceeds(s, t, maxUsers) {
      InitialInv(s);
      AloneInitial(s);
      var actions :| Runs(s, actions, t);
      AloneStays(s, actions, t);
      AloneBounds(t);
    }
  }

  lemma AloneInitial(s: Server)
    requires Initial(s)
    ensures Alone(s)
  {
    CountNone(Owing, s.workers);
  }

  lemma AloneBounds(s: Server)
    requires Alone(s) && s.reused == {}
    ensures s.maxUsers <= 1 ==> |s.open| <= s.maxUsers
  {
  }

  /** A settled state, in a run without early reuse of a descriptor, in which the counter is wrong. */
  ghost predicate Miscounts(s: Server, t: Server, maxUsers: nat) {
    && Initial(s) && s.maxUsers == maxUsers && Reaches(s, t) && t.reused == {}
    && OwedUps(t) == OwedDowns(t) == 0 && t.userCount != |t.open|
  }

  /** Exactly with which limits the counter can go wrong for good: again all from two up. */
  lemma MiscountExactly(maxUsers: nat)
    ensures (exists s, t :: Miscounts(s, t, maxUsers)) <==> maxUsers >= 2
  {
    hide Inv, Alone, Runs;
    if maxUsers >= 2 {
      var t := LostUpdate(maxUsers);
      assert Count(Owing, t.workers) == 0 by { CountNone(Owing, t.workers); }
      assert |t.open| == 1;
      assert Miscounts(Fresh(maxUsers, 1), t, maxUsers);
    }
    if s, t :| Miscounts(s, t, maxUsers) {
      InitialInv(s);
      AloneInitial(s);
      var actions :| Runs(s, actions, t);
      AloneStays(s, actions, t);
      UserCount(s, actions, t);
      AloneClashes(t);
    }
  }

  lemma AloneClashes(s: Server)
    requires Alone(s) && s.reused == {}
    ensures s.maxUsers <= 1 ==> s.tally.clashes == 0
  {
  }

  // ---- sharing a connection ----

  /** Without a worker, or without room for a connection, no descriptor is reused. */
  lemma NoReuse(s: Server, a: Action)
    requires Inv(s) && Alone(s) && Enabled(s, a) && s.reused == {} && (s.maxUsers == 0 || s.workers == [])
    ensures Next(s, a).reused == {} && |Next(s, a).workers| == |s.workers| && Next(s, a).maxUsers == s.maxUsers
  {
    hide OwnerInv, TokenInv, SeenOk, Count;
  }

  lemma {:induction false} NeverReused(s: Server, actions: seq<Action>, t: Server)
    requires Inv(s) && Alone(s) && Runs(s, actions, t) && s.reused == {} && (s.maxUsers == 0 || s.workers == [])
    ensures Inv(t) && t.reused == {}
    decreases |actions|
  {
    hide Inv, Alone, Next, Enabled;
    if actions != [] {
      StepInv(s, actions[0]);
      AloneStep(s, actions[0]);
      NoReuse(s, actions[0]);
      NeverReused(Next(s, actions[0]), actions[1..], t);
    }
  }

  /** Worker 0 has counted its connection off, and accept hands the descriptor out before the worker
      is done with the object. */
  lemma ReuseAfterCount(maxUsers: nat, workers: nat) returns (t: Server)
    requires maxUsers >= 1 && workers >= 1
    ensures Reaches(Fresh(maxUsers, workers), t) && Shared(t, 1)
  {
    var s := Fresh(maxUsers, workers);
    var a := FirstServed(maxUsers, workers);
    var b := Closed(s, a, 1);
    var c := Loaded(s, b, 1);
    var d := Store(c, false, Load(b)).(workers := c.workers[0 := Rearming(1)]);
    Step(s, c, Advance(0), d);
    assert IsClosing(d.workers[0], 1) && d.userCount == 0 && d.open == {};
    t := Next(d, Accept(1));
    ReuseShares(d, Accept(1), 1);
    Step(s, d, Accept(1), t);
  }

  /** Two threads work on one connection in `t`. */
  ghost predicate SharesIn(s: Server, t: Server, maxUsers: nat, workers: nat) {
    && Initial(s) && s.maxUsers == maxUsers && |s.workers| == workers && Reaches(s, t)
    && exists fd :: Shared(t, fd)
  }

  /** Exactly which servers can share a connection between two threads: all that can have one and have
      a worker. */
  lemma SharingExactly(maxUsers: nat, workers: nat)
    ensures (exists s, t :: SharesIn(s, t, maxUsers, workers)) <==> maxUsers >= 1 && workers >= 1
  {
    hide Inv, Alone, Runs, Shared;
    if maxUsers >= 1 && workers >= 1 {
      var t := ReuseAfterCount(maxUsers, workers);
      assert SharesIn(Fresh(maxUsers, workers), t, maxUsers, workers);
    }
    if s, t :| SharesIn(s, t, maxUsers, workers) {
      var fd :| Shared(t, fd);
      if maxUsers == 0 || workers == 0 {
        InitialInv(s);
        AloneInitial(s);
        var actions :| Runs(s, actions, t);
        NeverReused(s, actions, t);
        SingleOf(t, fd);
        NotShared(t, fd);
      }
    }
  }

  lemma SingleOf(s: Server, fd: nat)
    requires Inv(s) && s.reused == {}
    ensures Single(s, fd)
  {
  }

  /** Accept has handed out the descriptor worker 0 was closing, and main has been told of a request
      on it. */
  lemma ToldTooEarly() returns (t: Server)
    ensures var s := Fresh(2, 2);
      && Reaches(s, t) && t.open == t.bound == t.reused == {1} && t.armed == {} && t.batch == [1]
      && t.workers == [Uncounting(1), AtWait] && t.queue == [] && t.sem == 0 && t.main == Looping
  {
    var s := Fresh(2, 2);
    var a := FirstServed(2, 2);
    var b := Closed(s, a, 1);
    assert b.workers == [Uncounting(1), AtWait] && IsClosing(b.workers[0], 1);
    var c := EnterReused(s, b);
    t := c.(batch := [1], armed := {});
    assert (set i | 0 <= i < |[1]| :: [1][i]) == {1} by { assert [1][0] == 1; }
    Step(s, c, Poll([1]), t);
  }

  /** The worker's last modfd arms it all the same. */
  lemma ArmedTwice() returns (t: Server)
    ensures var s := Fresh(2, 2);
      && Reaches(s, t) && t.armed == {1} == t.bound == t.reused && t.batch == [1]
      && t.workers == [AtWait, AtWait] && t.queue == [] && t.sem == 0 && t.main == Looping
  {
    hide Store, Fresh, Reaches, Next, Enabled;
    var s := Fresh(2, 2);
    var a := ToldTooEarly();
    var b := Loaded(s, a, 1);
    t := CountedOff(s, b, 1, Load(a));
    StoreFrame(b, false, Load(a));
  }

  /** Early reuse does break ownership: in the end both workers run process() on the same object. */
  lemma ServedTwice() returns (t: Server)
    ensures Reaches(Fresh(2, 2), t) && t.workers == [Serving(1), Serving(1)] && t.reused == {1}
  {
    var s := Fresh(2, 2);
    var a := ArmedTwice();
    var b := Handed(s, a, 1, 1);
    assert b.workers == [AtWait, Serving(1)];
    t := Served(s, b, 1, 0);
    assert t.workers == [Serving(1), Serving(1)];
  }

  lemma EnterReused(s: Server, t: Server) returns (u: Server)
    requires Reaches(s, t) && t.main == Looping && t.userCount < t.maxUsers && 1 !in t.open
    requires SomeClosing(t.workers, 1) && t.open == t.bound == t.armed == t.reused == {}
    ensures Reaches(s, u) && u == t.(open := {1}, bound := {1}, armed := {1}, reused := {1},
                                     userCount := u.userCount, tally := u.tally)
  {
    var a := t.(open := {1}, bound := {1}, armed := {1}, reused := {1}, main := Counting(true, 1));
    Step(s, t, Accept(1), a);
    var b := a.(main := Counted(true, 1, Load(t)));
    Step(s, a, Proceed, b);
    u := Next(b, Proceed);
    Step(s, b, Proceed, u);
  }
}
