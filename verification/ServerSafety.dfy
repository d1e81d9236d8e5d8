/** Ownership of connections, the counter of users and the account of the semaphore, in every
    reachable state. */
module ServerSafety {
  import opened ServerSystem

  /** Main is in init() of `fd`. */
  predicate Starting(s: Server, fd: nat) {
    (s.main.Counting? || s.main.Counted?) && s.main.up && s.main.fd == fd
  }

  /** A connection has one owner while it is open and none otherwise; nobody closes an open one, and
      one thread at most closes a closed one. */
  ghost predicate Single(s: Server, fd: nat) {
    && Owners(s, fd) == Bit(fd in s.open)
    && Count(Closes(fd), s.workers) + Bit(fd in s.open) <= 1
    && (fd in s.open ==> fd in s.bound)
    && (Starting(s, fd) ==> fd in s.armed)
  }

  ghost predicate OwnerInv(s: Server) {
    forall fd | fd !in s.reused :: Single(s, fd)
  }

  /** A load agrees with the history: it holds what was kept then, and all that is kept now if nothing
      has been stored since. */
  predicate SeenOk(s: Server, seen: Seen) {
    && seen.value == seen.ups - seen.downs
    && seen.ups <= s.tally.ups && seen.downs <= s.tally.downs
    && seen.ups + seen.downs <= seen.done <= Done(s.tally)
    && (seen.done == Done(s.tally) ==> seen == Load(s))
  }

  /** The counter is what it kept of the updates, and it kept all of them exactly as long as none was
      stored over another. */
  ghost predicate CounterInv(s: Server) {
    && s.userCount == s.tally.keptUps - s.tally.keptDowns
    && s.tally.keptUps <= s.tally.ups && s.tally.keptDowns <= s.tally.downs
    && (s.tally.keptUps + s.tally.keptDowns == Done(s.tally) <==> s.tally.clashes == 0)
    && (s.main.Counted? ==> SeenOk(s, s.main.seen))
    && (forall w | 0 <= w < |s.workers| && s.workers[w].Uncounted? :: SeenOk(s, s.workers[w].seen))
  }

  /** Updates of the counter that are still to be stored. */
  function OwedUps(s: Server): nat {
    Bit((s.main.Counting? || s.main.Counted?) && s.main.up)
  }

  function OwedDowns(s: Server): nat {
    Count(Owing, s.workers) + Bit((s.main.Counting? || s.main.Counted?) && !s.main.up)
  }

  /** Every connection opened or closed is counted or owed, and the limit holds as long as no update
      was lost. */
  ghost predicate OpenInv(s: Server) {
    s.reused == {} ==>
      && |s.open| == s.tally.ups - s.tally.downs + OwedUps(s) - OwedDowns(s)
      && (s.tally.clashes == 0 ==> |s.open| <= s.maxUsers)
  }

  /** Tokens and pushes: what is in the queue, plus waits that failed, is accounted for by the
      semaphore, the workers past their wait, the post main still owes, and the takes that found
      nothing. Without failed waits nothing is ever found empty. */
  ghost predicate TokenInv(s: Server) {
    && |s.queue| + s.failedWaits == s.sem + Count(Taking, s.workers) + Bit(s.main.Posting?) + s.emptyTakes
    && s.emptyTakes <= s.failedWaits
    && |s.queue| <= s.maxRequests + 1
  }

  ghost predicate Inv(s: Server) {
    OwnerInv(s) && CounterInv(s) && OpenInv(s) && TokenInv(s)
  }

  lemma InitialSingle(s: Server, fd: nat)
    requires Initial(s)
    ensures Single(s, fd)
  {
    CountNone(Serves(fd), s.workers);
    CountNone(Closes(fd), s.workers);
  }

  lemma InitialCounts(s: Server)
    requires Initial(s)
    ensures Count(Taking, s.workers) == 0 && Count(Owing, s.workers) == 0
    ensures forall w | 0 <= w < |s.workers| :: !s.workers[w].Uncounted?
  {
    CountNone(Taking, s.workers);
    CountNone(Owing, s.workers);
  }

  lemma InitialTallies(s: Server)
    requires Initial(s) && Count(Taking, s.workers) == 0 && Count(Owing, s.workers) == 0
    requires forall w | 0 <= w < |s.workers| :: !s.workers[w].Uncounted?
    ensures CounterInv(s) && OpenInv(s) && TokenInv(s)
  {
    hide SeenOk, Count;
  }

  lemma InitialInv(s: Server)
    requires Initial(s)
    ensures Inv(s)
  {
    hide Initial, Single, CounterInv, OpenInv, TokenInv;
    forall fd ensures Single(s, fd) { InitialSingle(s, fd); }
    InitialCounts(s);
    InitialTallies(s);
  }

  // ---- ownership, one connection at a time ----

  /** `f` has been taken from its owner and has no other yet; `fd` is any connection. */
  ghost predicate Loose(s: Server, f: nat, fd: nat) {
    && Owners(s, fd) + Bit(f == fd) == Bit(fd in s.open)
    && Count(Closes(fd), s.workers) + Bit(fd in s.open) <= 1
    && (fd in s.open ==> fd in s.bound)
    && (Starting(s, fd) ==> fd in s.armed)
  }

  lemma StrandSingle(s: Server, f: nat, fd: nat)
    requires Loose(s, f, fd)
    ensures Single(Strand(s, f), fd)
  {
    hide Times, Count;
  }

  lemma RearmSingle(s: Server, f: nat, fd: nat)
    requires Loose(s, f, fd)
    ensures Single(Rearm(s, f), fd)
  {
    hide Times, Count;
  }

  lemma CloseSingle(s: Server, f: nat, fd: nat)
    requires Loose(s, f, fd) && s.main.Looping?
    ensures Single(CloseInMain(s, f), fd)
  {
    hide Times, Count;
  }

  lemma QueueSingle(s: Server, f: nat, fd: nat)
    requires Loose(s, f, fd) && s.main.Looping?
    ensures Single(s.(queue := s.queue + [f], main := Posting), fd)
  {
    TimesAppend(s.queue, f, fd);
    hide Times, Count;
  }

  /** Main takes the first event of the batch. */
  lemma BatchLoose(s: Server, fd: nat)
    requires Single(s, fd) && s.batch != [] && s.main.Looping?
    ensures Loose(s.(batch := s.batch[1..]), s.batch[0], fd)
  {
    assert Times(s.batch, fd) == Times(s.batch[1..], fd) + Bit(s.batch[0] == fd);
    hide Times, Count;
  }

  lemma SingleHandle(s: Server, how: Handling, fd: nat)
    requires Single(s, fd) && Enabled(s, Handle(how))
    ensures Single(Next(s, Handle(how)), fd)
  {
    hide Single, Loose, Strand, Rearm, CloseInMain;
    BatchLoose(s, fd);
    var t, f := s.(batch := s.batch[1..]), s.batch[0];
    match how
    case ReadOk => QueueSingle(t, f, fd); StrandSingle(t, f, fd);
    case WriteMore => RearmSingle(t, f, fd);
    case NoBranch => StrandSingle(t, f, fd);
    case _ => CloseSingle(t, f, fd);
  }

  lemma SinglePoll(s: Server, delivered: seq<nat>, fd: nat)
    requires Single(s, fd) && Enabled(s, Poll(delivered))
    ensures Single(Next(s, Poll(delivered)), fd)
  {
    TimesOfDistinct(delivered, fd);
    if fd in delivered {
      var i :| 0 <= i < |delivered| && delivered[i] == fd;
      assert fd in s.armed;
    }
  }

  lemma SingleTake(s: Server, w: nat, fd: nat)
    requires Single(s, fd) && Enabled(s, Take(w))
    ensures Single(Next(s, Take(w)), fd)
  {
    var t := Next(s, Take(w));
    CountUpdate(Serves(fd), s.workers, w, t.workers[w]);
    CountUpdate(Closes(fd), s.workers, w, t.workers[w]);
  }

  /** A worker is done serving. */
  lemma ServedLoose(s: Server, w: nat, fd: nat)
    requires Single(s, fd) && w < |s.workers| && s.workers[w].Serving?
    ensures Loose(s.(workers := s.workers[w := AtWait]), s.workers[w].fd, fd)
  {
    CountUpdate(Serves(fd), s.workers, w, AtWait);
    CountUpdate(Closes(fd), s.workers, w, AtWait);
    hide Times, Count;
  }

  /** A worker closes what it has served. */
  lemma RemoveSingle(s: Server, w: nat, fd: nat)
    requires Single(s, fd) && w < |s.workers| && s.workers[w].Serving?
    ensures Single(Remove(s.(workers := s.workers[w := Unsetting(s.workers[w].fd)]), s.workers[w].fd), fd)
  {
    CountUpdate(Serves(fd), s.workers, w, Unsetting(s.workers[w].fd));
    CountUpdate(Closes(fd), s.workers, w, Unsetting(s.workers[w].fd));
    hide Times, Count;
  }

  lemma SingleProcess(s: Server, w: nat, end: R.Processing, fd: nat)
    requires Single(s, fd) && Enabled(s, Process(w, end))
    ensures Single(Next(s, Process(w, end)), fd)
  {
    hide Single, Loose, Strand, Rearm, Remove;
    var t, f := s.(workers := s.workers[w := AtWait]), s.workers[w].fd;
    ServedLoose(s, w, fd);
    RearmSingle(t, f, fd);
    StrandSingle(t, f, fd);
    RemoveSingle(s, w, fd);
  }

  /** What a step of closing does to the two counts. */
  lemma AdvanceCounts(s: Server, w: nat, fd: nat)
    requires Enabled(s, Advance(w))
    ensures var t := AdvanceStep(s, w);
      && Count(Serves(fd), t.workers) == Count(Serves(fd), s.workers)
      && Count(Closes(fd), t.workers)
         == Count(Closes(fd), s.workers) - Bit(s.workers[w].Rearming? && s.workers[w].fd == fd)
      && Count(Closes(fd), s.workers) >= Bit(s.workers[w].fd == fd)
  {
    var t := AdvanceStep(s, w);
    CountUpdate(Serves(fd), s.workers, w, t.workers[w]);
    CountUpdate(Closes(fd), s.workers, w, t.workers[w]);
    hide Count;
  }

  /** And what it leaves alone. */
  lemma AdvanceFrame(s: Server, w: nat)
    requires Enabled(s, Advance(w))
    ensures var t, f := AdvanceStep(s, w), s.workers[w].fd;
      && t.open == s.open && t.batch == s.batch && t.queue == s.queue && t.main == s.main
      && t.stranded == s.stranded && t.bound + {f} == s.bound + {f} && t.armed + {f} == s.armed + {f}
      && (f !in s.open ==> t.armed == s.armed)
  {
    hide Count, Times;
  }

  lemma SingleAdvance(s: Server, w: nat, fd: nat)
    requires Single(s, fd) && Enabled(s, Advance(w))
    ensures Single(Next(s, Advance(w)), fd)
  {
    AdvanceCounts(s, w, fd);
    AdvanceFrame(s, w);
    hide Times, Count, AdvanceStep;
    var t, f := AdvanceStep(s, w), s.workers[w].fd;
    if fd != f { Apart(s, t, f, fd); }
  }

  lemma Apart(s: Server, t: Server, f: nat, fd: nat)
    requires f != fd && t.bound + {f} == s.bound + {f} && t.armed + {f} == s.armed + {f}
    ensures (fd in t.bound <==> fd in s.bound) && (fd in t.armed <==> fd in s.armed)
  {
    assert fd in t.bound + {f} <==> fd in s.bound + {f};
    assert fd in t.armed + {f} <==> fd in s.armed + {f};
  }

  lemma SingleWait(s: Server, w: nat, a: Action, fd: nat)
    requires Single(s, fd) && Enabled(s, a) && (a == Wait(w) || a == FailWait(w))
    ensures Single(Next(s, a), fd)
  {
    CountUpdate(Serves(fd), s.workers, w, AtQueue);
    CountUpdate(Closes(fd), s.workers, w, AtQueue);
  }

  lemma {:induction false} ClosingCounts(workers: seq<Worker>, fd: nat)
    ensures SomeClosing(workers, fd) <==> Count(Closes(fd), workers) > 0
    decreases |workers|
  {
    if workers != [] {
      ClosingCounts(workers[1..], fd);
      if SomeClosing(workers[1..], fd) {
        var w :| 0 <= w < |workers[1..]| && IsClosing(workers[1..][w], fd);
        assert IsClosing(workers[w + 1], fd);
      }
      if SomeClosing(workers, fd) && !IsClosing(workers[0], fd) {
        var w :| 0 <= w < |workers| && IsClosing(workers[w], fd);
        assert IsClosing(workers[1..][w - 1], fd);
      }
    }
  }

  lemma SingleMain(s: Server, a: Action, fd: nat)
    requires Single(s, fd) && Enabled(s, a) && (a.Accept? || a.Proceed?)
    requires fd !in Next(s, a).reused
    ensures Single(Next(s, a), fd)
  {
    ClosingCounts(s.workers, fd);
  }

  /** Main drops the connection: append refuses its request, or no branch of the loop takes the event. */
  predicate Loses(s: Server, a: Action, fd: nat) {
    && a.Handle? && s.batch != [] && s.batch[0] == fd
    && (a.how == NoBranch || (a.how == ReadOk && |s.queue| > s.maxRequests))
  }

  lemma LossStep(s: Server, a: Action, fd: nat)
    requires Single(s, fd) && Enabled(s, a)
    ensures fd in Next(s, a).stranded <==> fd in s.stranded || Loses(s, a, fd)
  {
    match a
    case Handle(how) => LossHandle(s, how, fd);
    case Process(w, end) => LossProcess(s, w, end, fd);
    case _ => hide Times, Count, Single;
  }

  lemma LossHandle(s: Server, how: Handling, fd: nat)
    requires Single(s, fd) && Enabled(s, Handle(how))
    ensures fd in Next(s, Handle(how)).stranded <==> fd in s.stranded || Loses(s, Handle(how), fd)
  {
    TimesPositive(s.batch, s.batch[0], 0);
    hide Times, Count;
  }

  lemma LossProcess(s: Server, w: nat, end: R.Processing, fd: nat)
    requires Single(s, fd) && Enabled(s, Process(w, end))
    ensures fd in Next(s, Process(w, end)).stranded <==> fd in s.stranded
  {
    CountUpdate(Serves(fd), s.workers, w, AtWait);
    hide Times, Count;
  }

  lemma OwnerStep(s: Server, a: Action)
    requires OwnerInv(s) && Enabled(s, a)
    ensures OwnerInv(Next(s, a)) && s.reused <= Next(s, a).reused
    ensures forall fd | fd !in Next(s, a).reused ::
              fd in Next(s, a).stranded <==> fd in s.stranded || Loses(s, a, fd)
  {
    hide Single, Loses;
    var t := Next(s, a);
    forall fd | fd !in t.reused ensures fd in t.stranded <==> fd in s.stranded || Loses(s, a, fd) {
      assert Single(s, fd);
      LossStep(s, a, fd);
    }
    forall fd | fd !in t.reused ensures Single(t, fd) {
      assert Single(s, fd);
      match a
      case Poll(delivered) => SinglePoll(s, delivered, fd);
      case Handle(how) => SingleHandle(s, how, fd);
      case Accept(_) => SingleMain(s, a, fd);
      case Proceed => SingleMain(s, a, fd);
      case Take(w) => SingleTake(s, w, fd);
      case Process(w, end) => SingleProcess(s, w, end, fd);
      case Advance(w) => SingleAdvance(s, w, fd);
      case _ => SingleWait(s, a.w, a, fd);
    }
  }

  // ---- the counter ----

  /** A store keeps the history right, also in the eyes of the threads that have loaded before it. */
  lemma StoreKeeps(s: Server, up: bool, seen: Seen, other: Seen)
    requires CounterInv(s) && SeenOk(s, seen)
    ensures var t := Store(s, up, seen);
      && t.userCount == t.tally.keptUps - t.tally.keptDowns
      && t.tally.keptUps <= t.tally.ups && t.tally.keptDowns <= t.tally.downs
      && (t.tally.keptUps + t.tally.keptDowns == Done(t.tally) <==> t.tally.clashes == 0)
      && (SeenOk(s, other) ==> SeenOk(t, other))
  {
  }

  lemma CounterStep(s: Server, a: Action)
    requires CounterInv(s) && Enabled(s, a)
    ensures CounterInv(Next(s, a))
  {
    match a
    case Proceed => CounterProceed(s);
    case Advance(w) => CounterAdvance(s, w);
    case _ => CounterRest(s, a);
  }

  lemma CounterProceed(s: Server)
    requires CounterInv(s) && !s.main.Looping?
    ensures CounterInv(ProceedStep(s))
  {
    if s.main.Counted? {
      hide SeenOk, Store;
      StoreFrame(s, s.main.up, s.main.seen);
      forall other ensures SeenOk(s, other) ==> SeenOk(Store(s, s.main.up, s.main.seen), other) {
        StoreKeeps(s, s.main.up, s.main.seen, other);
      }
      SeenSame(Store(s, s.main.up, s.main.seen), ProceedStep(s));
      StoreKeeps(s, s.main.up, s.main.seen, s.main.seen);
    }
  }

  lemma CounterAdvance(s: Server, w: nat)
    requires CounterInv(s) && Enabled(s, Advance(w))
    ensures CounterInv(AdvanceStep(s, w))
  {
    match s.workers[w]
    case Unsetting(_) => CounterQuiet(s, w);
    case Uncounting(_) => CounterLoad(s, w);
    case Uncounted(_, seen) => CounterStore(s, w, seen);
    case _ => CounterQuiet(s, w);
  }

  lemma CounterQuiet(s: Server, w: nat)
    requires CounterInv(s) && w < |s.workers| && (s.workers[w].Unsetting? || s.workers[w].Rearming?)
    ensures CounterInv(AdvanceStep(s, w))
  {
    hide SeenOk;
    SeenSame(s, AdvanceStep(s, w));
  }

  lemma CounterLoad(s: Server, w: nat)
    requires CounterInv(s) && w < |s.workers| && s.workers[w].Uncounting?
    ensures CounterInv(AdvanceStep(s, w))
  {
    assert SeenOk(s, Load(s));
    hide SeenOk, Load;
    SeenSame(s, AdvanceStep(s, w));
  }

  lemma CounterStore(s: Server, w: nat, seen: Seen)
    requires CounterInv(s) && w < |s.workers| && s.workers[w].Uncounted? && s.workers[w].seen == seen
    ensures CounterInv(AdvanceStep(s, w))
  {
    hide SeenOk, Store;
    var t, u := Store(s, false, seen), AdvanceStep(s, w);
    StoreFrame(s, false, seen);
    StoreKeeps(s, false, seen, seen);
    SeenSame(t, u);
    forall other ensures SeenOk(s, other) ==> SeenOk(u, other) {
      StoreKeeps(s, false, seen, other);
    }
  }

  lemma StoreFrame(s: Server, up: bool, seen: Seen)
    ensures Store(s, up, seen) == s.(userCount := Store(s, up, seen).userCount, tally := Store(s, up, seen).tally)
  {
  }

  lemma SeenSame(s: Server, t: Server)
    requires t.tally == s.tally && t.userCount == s.userCount
    ensures forall seen :: SeenOk(s, seen) == SeenOk(t, seen)
  {
  }

  lemma CounterRest(s: Server, a: Action)
    requires CounterInv(s) && Enabled(s, a) && !a.Proceed? && !a.Advance?
    ensures CounterInv(Next(s, a))
  {
    hide SeenOk;
    SeenSame(s, Next(s, a));
  }

  lemma OpenStep(s: Server, a: Action)
    requires Inv(s) && Enabled(s, a)
    ensures OpenInv(Next(s, a))
  {
    hide CounterInv, TokenInv, OpenInv, Next, Owners;
    CounterIs(s);
    match a
    case Accept(fd) => OpenAccept(s, fd);
    case Poll(_) => PollFrame(s, a); OpenSame(s, Next(s, a));
    case Handle(how) => OpenHandle(s, how);
    case Proceed => OpenProceed(s);
    case Process(w, end) => OpenProcess(s, w, end);
    case Advance(w) => OpenAdvance(s, w);
    case _ => OpenWait(s, a.w, a);
  }

  predicate CounterExact(s: Server) {
    s.tally.clashes == 0 ==> s.userCount == s.tally.ups - s.tally.downs
  }

  lemma CounterIs(s: Server)
    requires CounterInv(s)
    ensures CounterExact(s)
  {
  }

  /** OpenInv is about these fields and about what is owed. */
  lemma OpenSame(s: Server, t: Server)
    requires OpenInv(s) && t.open == s.open && t.tally == s.tally && t.maxUsers == s.maxUsers
    requires t.reused == s.reused && OwedUps(t) == OwedUps(s) && OwedDowns(t) == OwedDowns(s)
    ensures OpenInv(t)
  {
  }

  lemma PollFrame(s: Server, a: Action)
    requires Enabled(s, a) && a.Poll?
    ensures var t := Next(s, a); t == s.(armed := t.armed, batch := t.batch)
  {
  }

  lemma OpenAccept(s: Server, fd: nat)
    requires OpenInv(s) && CounterExact(s) && Enabled(s, Accept(fd))
    ensures OpenInv(Next(s, Accept(fd)))
  {
  }

  lemma OpenProceed(s: Server)
    requires OpenInv(s) && !s.main.Looping?
    ensures OpenInv(Next(s, Proceed))
  {
  }

  /** What main closes was open. */
  lemma OpenHandle(s: Server, how: Handling)
    requires OwnerInv(s) && OpenInv(s) && Enabled(s, Handle(how))
    ensures OpenInv(Next(s, Handle(how)))
  {
    if s.reused == {} {
      assert Single(s, s.batch[0]);
      assert s.batch[0] in s.open;
    }
  }

  /** What a worker closes was open. */
  lemma OpenProcess(s: Server, w: nat, end: R.Processing)
    requires OwnerInv(s) && OpenInv(s) && Enabled(s, Process(w, end))
    ensures OpenInv(Next(s, Process(w, end)))
  {
    hide Next, Count, Times, Single;
    ProcessReuses(s, w, end);
    if s.reused == {} {
      assert Single(s, s.workers[w].fd);
      hide OwnerInv;
      ServedOpen(s, w);
      ProcessOpens(s, w, end);
      CountUpdate(Owing, s.workers, w, Next(s, Process(w, end)).workers[w]);
    }
  }

  lemma ProcessReuses(s: Server, w: nat, end: R.Processing)
    requires Enabled(s, Process(w, end))
    ensures var t := Next(s, Process(w, end));
      && t.reused == s.reused && t.maxUsers == s.maxUsers
      && |t.workers| == |s.workers| && !t.workers[w].Uncounted?
  {
  }

  /** One connection fewer and one decrement owed, or neither. */
  lemma ProcessOpens(s: Server, w: nat, end: R.Processing)
    requires Enabled(s, Process(w, end)) && s.workers[w].fd in s.open
    ensures var t := Next(s, Process(w, end));
      && t == s.(open := t.open, armed := t.armed, stranded := t.stranded, workers := t.workers)
      && t.workers == s.workers[w := t.workers[w]]
      && |t.open| == |s.open| - Bit(Is(Owing, t.workers[w]))
  {
    hide Count, Times;
  }

  lemma ServedOpen(s: Server, w: nat)
    requires w < |s.workers| && s.workers[w].Serving? && Single(s, s.workers[w].fd)
    ensures s.workers[w].fd in s.open
  {
    CountUpdate(Serves(s.workers[w].fd), s.workers, w, AtWait);
    hide Times, Count;
  }

  lemma OpenWait(s: Server, w: nat, a: Action)
    requires OpenInv(s) && Enabled(s, a) && (a == Wait(w) || a == FailWait(w) || a == Take(w))
    ensures OpenInv(Next(s, a))
  {
    CountUpdate(Owing, s.workers, w, Next(s, a).workers[w]);
    hide Count;
  }

  lemma OpenAdvance(s: Server, w: nat)
    requires OpenInv(s) && Enabled(s, Advance(w))
    ensures OpenInv(Next(s, Advance(w)))
  {
    CountUpdate(Owing, s.workers, w, Next(s, Advance(w)).workers[w]);
    hide Count;
  }

  lemma TokenMain(s: Server, a: Action)
    requires TokenInv(s) && Enabled(s, a) && (a.Accept? || a.Poll? || a.Handle? || a.Proceed?)
    ensures TokenInv(Next(s, a))
  {
  }

  lemma TokenWait(s: Server, w: nat, a: Action)
    requires TokenInv(s) && Enabled(s, a) && (a == Wait(w) || a == FailWait(w) || a == Take(w))
    ensures TokenInv(Next(s, a))
  {
    CountUpdate(Taking, s.workers, w, Next(s, a).workers[w]);
  }

  /** Serving and closing have nothing to do with the queue. */
  lemma ProcessFrame(s: Server, w: nat, a: Action)
    requires Enabled(s, a) && (a.Process? || a.Advance?) && a.w == w
    ensures var t := Next(s, a);
      && t.queue == s.queue && t.sem == s.sem && t.main == s.main && t.maxRequests == s.maxRequests
      && t.failedWaits == s.failedWaits && t.emptyTakes == s.emptyTakes
      && |t.workers| == |s.workers| && t.workers == s.workers[w := t.workers[w]]
      && !s.workers[w].AtQueue? && !t.workers[w].AtQueue?
  {
    hide Count, Times;
  }

  lemma TokenProcess(s: Server, w: nat, a: Action)
    requires TokenInv(s) && Enabled(s, a) && (a.Process? || a.Advance?) && a.w == w
    ensures TokenInv(Next(s, a))
  {
    ProcessFrame(s, w, a);
    hide Next;
    CountUpdate(Taking, s.workers, w, Next(s, a).workers[w]);
    hide Count;
  }

  lemma TokenStep(s: Server, a: Action)
    requires TokenInv(s) && Enabled(s, a)
    ensures TokenInv(Next(s, a))
  {
    hide TokenInv, Next, Enabled;
    if a.Wait? || a.FailWait? || a.Take? {
      TokenWait(s, a.w, a);
    } else if a.Process? || a.Advance? {
      TokenProcess(s, a.w, a);
    } else {
      TokenMain(s, a);
    }
  }

  lemma StepInv(s: Server, a: Action)
    requires Inv(s) && Enabled(s, a)
    ensures Inv(Next(s, a)) && s.reused <= Next(s, a).reused
  {
    hide OwnerInv, CounterInv, OpenInv, TokenInv, Next;
    OwnerStep(s, a);
    CounterStep(s, a);
    OpenStep(s, a);
    TokenStep(s, a);
  }

  lemma {:induction false} ReachableInv(s: Server, actions: seq<Action>, t: Server)
    requires Inv(s) && Runs(s, actions, t)
    ensures Inv(t) && s.reused <= t.reused
    decreases |actions|
  {
    hide Inv, Next, Enabled;
    if actions != [] {
      StepInv(s, actions[0]);
      ReachableInv(Next(s, actions[0]), actions[1..], t);
    }
  }

  lemma ReachedInv(s: Server, actions: seq<Action>, t: Server)
    requires Reached(s, actions, t)
    ensures Inv(t)
  {
    InitialInv(s);
    ReachableInv(s, actions, t);
  }

  // ---- ownership ----

  /** One owner in every reachable state for every descriptor that accept never handed out while a worker
      was still closing its object; if there was none at all, no list holds a connection twice. */
  lemma OwnersReached(s: Server, actions: seq<Action>, t: Server, fd: nat)
    requires Reached(s, actions, t)
    ensures fd !in t.reused ==> Owners(t, fd) == Bit(fd in t.open)
    ensures t.reused == {} ==> Distinct(t.queue) && Distinct(t.batch)
  {
    ReachedInv(s, actions, t);
    if t.reused == {} {
      forall f ensures Times(t.queue, f) <= 1 && Times(t.batch, f) <= 1 {
        assert Single(t, f);
      }
      DistinctIfOnce(t.queue);
      DistinctIfOnce(t.batch);
    }
  }

  /** Main works on the connection whose event it handles and on the one it initialises; a worker on
      the one it serves or closes. */
  datatype Thread = Main | Nth(w: nat)

  predicate Touches(s: Server, thread: Thread, fd: nat) {
    match thread
    case Main => (s.batch != [] && s.batch[0] == fd) || Starting(s, fd)
    case Nth(w) => w < |s.workers| && (s.workers[w] == Serving(fd) || IsClosing(s.workers[w], fd))
  }

  ghost predicate Shared(s: Server, fd: nat) {
    exists a, b :: a != b && Touches(s, a, fd) && Touches(s, b, fd)
  }

  /** Two threads work on the same connection in some state of the run. */
  ghost predicate SharesOn(s: Server, actions: seq<Action>, fd: nat)
    decreases |actions|
  {
    Shared(s, fd)
    || (actions != [] && Enabled(s, actions[0]) && SharesOn(Next(s, actions[0]), actions[1..], fd))
  }

  lemma WorkersApart(s: Server, v: nat, w: nat, fd: nat)
    requires Single(s, fd) && v < w && Touches(s, Nth(v), fd)
    ensures !Touches(s, Nth(w), fd)
  {
    if Touches(s, Nth(w), fd) {
      CountUpdate(Serves(fd), s.workers, v, s.workers[v]);
      CountUpdate(Serves(fd), s.workers, w, s.workers[w]);
      CountUpdate(Closes(fd), s.workers, v, s.workers[v]);
      CountUpdate(Closes(fd), s.workers, w, s.workers[w]);
      if s.workers[v] == s.workers[w] == Serving(fd) { CountTwo(Serves(fd), s.workers, v, w); }
      if IsClosing(s.workers[v], fd) && IsClosing(s.workers[w], fd) { CountTwo(Closes(fd), s.workers, v, w); }
    }
  }

  lemma MainApart(s: Server, w: nat, fd: nat)
    requires Single(s, fd) && Touches(s, Main, fd)
    ensures !Touches(s, Nth(w), fd)
  {
    if s.batch != [] && s.batch[0] == fd { TimesPositive(s.batch, fd, 0); }
    if Touches(s, Nth(w), fd) {
      CountUpdate(Serves(fd), s.workers, w, s.workers[w]);
      CountUpdate(Closes(fd), s.workers, w, s.workers[w]);
    }
  }

  lemma NotShared(s: Server, fd: nat)
    requires Single(s, fd)
    ensures !Shared(s, fd)
  {
    hide Single, Touches;
    forall a: Thread, b: Thread | a != b && Touches(s, a, fd) && Touches(s, b, fd) ensures false {
      match (a, b)
      case (Main, Nth(w)) => MainApart(s, w, fd);
      case (Nth(w), Main) => MainApart(s, w, fd);
      case (Nth(v), Nth(w)) => if v < w { WorkersApart(s, v, w, fd); } else { WorkersApart(s, w, v, fd); }
      case _ =>
    }
  }

  /** An accept that hands out a descriptor whose object a worker is still closing. */
  lemma ReuseShares(s: Server, a: Action, fd: nat)
    requires Enabled(s, a) && fd !in s.reused && fd in Next(s, a).reused
    ensures a == Accept(fd) && SomeClosing(s.workers, fd) && Shared(Next(s, a), fd)
  {
    var t := Next(s, a);
    var w :| 0 <= w < |s.workers| && IsClosing(s.workers[w], fd);
    assert Touches(t, Main, fd) && Touches(t, Nth(w), fd);
  }

  /** Exactly when two threads work on one connection: in some state of a run if and only if accept
      handed out its descriptor between removefd and the end of process() in a worker closing it. */
  lemma SharesExactly(s: Server, actions: seq<Action>, t: Server, fd: nat)
    requires Reached(s, actions, t)
    ensures SharesOn(s, actions, fd) <==> fd in t.reused
  {
    hide Inv, Runs, SharesOn;
    InitialInv(s);
    SharesIffReused(s, actions, t, fd);
  }

  lemma {:induction false} SharesIffReused(s: Server, actions: seq<Action>, t: Server, fd: nat)
    requires Inv(s) && fd !in s.reused && Runs(s, actions, t)
    ensures SharesOn(s, actions, fd) <==> fd in t.reused
    decreases |actions|
  {
    hide Next, Enabled, Single, Shared, CounterInv, OpenInv, TokenInv;
    NotShared(s, fd);
    if actions != [] {
      var u := Next(s, actions[0]);
      StepInv(s, actions[0]);
      if fd in u.reused {
        ReuseShares(s, actions[0], fd);
        ReachableInv(u, actions[1..], t);
      } else {
        SharesIffReused(u, actions[1..], t, fd);
      }
    }
  }

  // ---- the counter of users ----

  /** Updates stored and no longer in the counter. */
  function LostUps(s: Server): int {
    s.tally.ups - s.tally.keptUps
  }

  function LostDowns(s: Server): int {
    s.tally.downs - s.tally.keptDowns
  }

  /** m_user_count against the connections there are, as long as no descriptor was reused too early:
      it is off by the updates still owed and by those lost to overlaps, and with none owed it is
      right if and only if as many decrements as increments are lost. None is lost if and only if no
      update was ever stored over another, and then MAX_FD is kept. */
  lemma UserCount(s: Server, actions: seq<Action>, t: Server)
    requires Reached(s, actions, t) && t.reused == {}
    ensures |t.open| == t.userCount + OwedUps(t) - OwedDowns(t) + LostUps(t) - LostDowns(t)
    ensures LostUps(t) >= 0 && LostDowns(t) >= 0
    ensures OwedUps(t) == OwedDowns(t) == 0 ==> (t.userCount == |t.open| <==> LostUps(t) == LostDowns(t))
    ensures LostUps(t) == LostDowns(t) == 0 <==> t.tally.clashes == 0
    ensures t.tally.clashes == 0 ==> |t.open| <= t.maxUsers
  {
    ReachedInv(s, actions, t);
  }

  // ---- the request queue ----

  /** The semaphore's account: exact while sem_wait does not fail, in which case no worker ever finds
      the queue empty; with failures it weakens to an inequality. */
  lemma SemaphoreAccount(s: Server, actions: seq<Action>, t: Server)
    requires Reached(s, actions, t)
    ensures var tokens := t.sem + Count(Taking, t.workers) + Bit(t.main.Posting?);
      && |t.queue| <= tokens
      && (t.failedWaits == 0 ==> |t.queue| == tokens && t.emptyTakes == 0)
      && t.emptyTakes <= t.failedWaits
    ensures |t.queue| <= t.maxRequests + 1
  {
    ReachedInv(s, actions, t);
  }

  /** No request is left waiting while all workers sleep in the semaphore and main owes no post. */
  lemma NoSleepingQueue(s: Server, actions: seq<Action>, t: Server)
    requires Reached(s, actions, t)
    requires t.sem == 0 && !t.main.Posting? && forall w | 0 <= w < |t.workers| :: t.workers[w].AtWait?
    ensures t.queue == []
  {
    ReachedInv(s, actions, t);
    CountNone(Taking, t.workers);
  }

  /** A stranded connection is lost for good: whatever happens afterwards, it stays open, disarmed and
      out of the queue. */
  lemma {:induction false} StrandedForever(t: Server, actions: seq<Action>, u: Server, fd: nat)
    requires Inv(t) && Runs(t, actions, u) && fd in t.stranded && fd !in t.reused
    ensures fd in u.stranded && fd in u.open && fd !in u.armed && fd !in u.queue
    decreases |actions|
  {
    hide Next, Enabled;
    assert Single(t, fd);
    if actions == [] {
      if fd in t.queue {
        var i :| 0 <= i < |t.queue| && t.queue[i] == fd;
        TimesPositive(t.queue, fd, i);
      }
    } else {
      StepInv(t, actions[0]);
      StrandedStep(t, actions[0], fd);
      StrandedForever(Next(t, actions[0]), actions[1..], u, fd);
    }
  }

  /** A refused append does that: when main has read a request and the list is too long, its connection
      stays open but is never armed, queued or worked on again, on any continuation. */
  lemma RefusedForever(s: Server, before: seq<Action>, t: Server, after: seq<Action>, u: Server)
    requires Reached(s, before, t) && Enabled(t, Handle(ReadOk)) && Refuses(t) && t.batch[0] !in t.reused
    requires Runs(Next(t, Handle(ReadOk)), after, u)
    ensures var fd := t.batch[0];
      && fd in u.stranded && fd in u.open && fd !in u.armed && fd !in u.queue
      && forall thread :: !Touches(u, thread, fd)
  {
    hide Inv;
    var fd, r := t.batch[0], Next(t, Handle(ReadOk));
    ReachedInv(s, before, t);
    StepInv(t, Handle(ReadOk));
    assert fd in r.stranded && fd !in r.reused by { RefusedStrands(t); }
    StrandedForever(r, after, u, fd);
    ReachableInv(r, after, u);
    StrandedUnreused(r, after, u, fd);
    StrandedUntouched(u, fd);
  }

  lemma RefusedStrands(t: Server)
    requires Inv(t) && Enabled(t, Handle(ReadOk)) && Refuses(t) && t.batch[0] !in t.reused
    ensures var r := Next(t, Handle(ReadOk)); t.batch[0] in r.stranded && r.reused == t.reused
  {
    assert Single(t, t.batch[0]);
  }

  lemma {:induction false} StrandedUnreused(t: Server, actions: seq<Action>, u: Server, fd: nat)
    requires Inv(t) && Runs(t, actions, u) && fd in t.stranded && fd !in t.reused
    ensures fd !in u.reused
    decreases |actions|
  {
    hide Next, Enabled, CounterInv, OpenInv, TokenInv;
    if actions != [] {
      assert Single(t, fd);
      StepInv(t, actions[0]);
      StrandedStep(t, actions[0], fd);
      StrandedUnreused(Next(t, actions[0]), actions[1..], u, fd);
    }
  }

  lemma StrandedUntouched(u: Server, fd: nat)
    requires Inv(u) && fd in u.stranded && fd in u.open && fd !in u.reused
    ensures forall thread :: !Touches(u, thread, fd)
  {
    hide CounterInv, OpenInv, TokenInv;
    assert Single(u, fd);
    forall thread: Thread ensures !Touches(u, thread, fd) {
      if thread.Nth? && thread.w < |u.workers| {
        CountUpdate(Serves(fd), u.workers, thread.w, AtWait);
        CountUpdate(Closes(fd), u.workers, thread.w, AtWait);
      }
    }
  }

  lemma StrandedStep(t: Server, a: Action, fd: nat)
    requires Enabled(t, a) && fd in t.stranded && fd in t.open && fd !in t.reused
    ensures fd in Next(t, a).stranded && fd !in Next(t, a).reused
  {
  }
}
