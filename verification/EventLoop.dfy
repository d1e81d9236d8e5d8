/** The server's own objects: the request list with its semaphore, and main's loop over a batch. */
module EventLoop {
  import opened ServerSystem

  /** threadpool<http_conn>: the list guarded by a lock, and the semaphore. */
  class RequestPool {
    const maxRequests: nat
    var workqueue: seq<nat>
    var queuestat: nat

    constructor (maxRequests: nat)
      ensures workqueue == [] && queuestat == 0 && this.maxRequests == maxRequests
    {
      this.maxRequests := maxRequests;
      workqueue, queuestat := [], 0;
    }

    /** append(): push under the lock, then post. The test lets the list grow one past the limit. */
    method Append(request: nat) returns (ok: bool)
      modifies this
      ensures ok <==> |old(workqueue)| <= maxRequests
      ensures workqueue == if ok then old(workqueue) + [request] else old(workqueue)
      ensures queuestat == old(queuestat) + Bit(ok)
    {
      if |workqueue| > maxRequests {
        return false;
      }
      workqueue := workqueue + [request];
      queuestat := queuestat + 1;
      return true;
    }

    /** run() under the lock: the oldest request, if there is one. */
    method Take() returns (found: bool, request: nat)
      modifies this`workqueue
      ensures found <==> old(workqueue) != []
      ensures if found then old(workqueue) == [request] + workqueue else workqueue == old(workqueue)
    {
      if workqueue == [] {
        return false, 0;
      }
      request := workqueue[0];
      workqueue := workqueue[1..];
      return true, request;
    }
  }

  /** What main meets in a batch: the listening socket with what accept returns, or a connection. */
  datatype Item = Listening(accepted: int) | Connection(fd: nat, how: Handling)

  /** Main's steps up to its next look at the batch, with no worker in between: a post, or the counter
      loaded and stored. */
  function Settle(s: Server): Server {
    match s.main
    case Looping => s
    case Counting(_, _) => ProceedStep(ProceedStep(s))
    case _ => ProceedStep(s)
  }

  /** The steps main takes on one item. */
  function HandleItem(s: Server, item: Item): Server
    requires MayMeet(s, item)
  {
    match item
    case Listening(accepted) => if accepted < 0 then s else Settle(Next(s, Accept(accepted)))
    case Connection(_, how) => Settle(Next(s, Handle(how)))
  }

  /** accept hands out an unused descriptor; connections come in the order of the batch. */
  predicate MayMeet(s: Server, item: Item) {
    match item
    case Listening(accepted) => accepted >= 0 ==> Enabled(s, Accept(accepted))
    case Connection(fd, how) => Enabled(s, Handle(how)) && s.batch[0] == fd
  }

  predicate MayMeetAll(s: Server, items: seq<Item>)
    decreases |items|
  {
    items == [] || (MayMeet(s, items[0]) && MayMeetAll(HandleItem(s, items[0]), items[1..]))
  }

  function HandleAll(s: Server, items: seq<Item>): Server
    requires MayMeetAll(s, items)
    decreases |items|
  {
    if items == [] then s else HandleAll(HandleItem(s, items[0]), items[1..])
  }

  /** main's state: the connections it counts, the objects that have a descriptor, what epoll has
      armed, and the pool. */
  class Loop {
    const maxUsers: nat
    const pool: RequestPool
    var open: set<nat>
    var bound: set<nat>
    var userCount: int
    var armed: set<nat>
    ghost var stranded: set<nat>
    ghost var tally: Tally
    ghost var reused: set<nat>

    constructor (maxUsers: nat, maxRequests: nat)
      ensures fresh(pool) && pool.workqueue == [] && pool.queuestat == 0 && pool.maxRequests == maxRequests
      ensures this.maxUsers == maxUsers && open == bound == armed == stranded == reused == {}
      ensures userCount == 0 && tally == Tally(0, 0, 0, 0, 0)
    {
      this.maxUsers := maxUsers;
      open, bound, userCount, armed, stranded, reused := {}, {}, 0, {}, {}, {};
      tally := Tally(0, 0, 0, 0, 0);
      pool := new RequestPool(maxRequests);
    }

    /** The server as this thread sees it; `rest` gives what the workers own. */
    ghost function View(rest: Server, batch: seq<nat>): Server
      reads this, pool
    {
      rest.(maxUsers := maxUsers, maxRequests := pool.maxRequests, open := open, bound := bound,
            userCount := userCount, armed := armed, batch := batch, main := Looping, queue := pool.workqueue,
            sem := pool.queuestat, stranded := stranded, tally := tally, reused := reused)
    }

    /** `++` or `--` on m_user_count, with no other thread in between. */
    method Count(up: bool)
      modifies this`userCount, this`tally
      ensures userCount == if up then old(userCount) + 1 else old(userCount) - 1
      ensures tally == Kept(old(tally), up)
    {
      userCount := if up then userCount + 1 else userCount - 1;
      tally := Kept(tally, up);
    }

    /** close_conn(): afterwards the object has no descriptor, and an object without one is left as it
        is, so closing twice is closing once; the counter follows the number of open connections. */
    method CloseConn(fd: nat)
      modifies this`open, this`bound, this`userCount, this`armed, this`tally, this`stranded
      ensures bound == old(bound) - {fd}
      ensures fd !in old(bound) ==>
        unchanged(`open) && unchanged(`userCount) && unchanged(`armed) && unchanged(`tally)
      ensures stranded == if fd !in old(bound) && fd in open then old(stranded) + {fd} else old(stranded)
      ensures fd in old(bound) ==> open == old(open) - {fd} && armed == old(armed) - {fd}
      ensures fd in old(bound) ==> tally == Kept(old(tally), false) && userCount == old(userCount) - 1
      ensures (fd in old(bound) ==> fd in old(open)) ==> userCount - |open| == old(userCount) - |old(open)|
    {
      if fd in bound {
        open, armed := open - {fd}, armed - {fd};
        bound := bound - {fd};
        Count(false);
      } else {
        Strand(fd);
      }
    }

    /** modfd with the object's m_sockfd; without one the connection is never heard of again. */
    method Rearm(fd: nat)
      modifies this`armed, this`stranded
      ensures fd in bound && fd in open ==> armed == old(armed) + {fd} && stranded == old(stranded)
      ensures !(fd in bound && fd in open) ==> armed == old(armed)
      ensures !(fd in bound && fd in open) ==> stranded == if fd in open then old(stranded) + {fd} else old(stranded)
    {
      if fd in bound && fd in open {
        armed := armed + {fd};
      } else {
        Strand(fd);
      }
    }

    ghost method Strand(fd: nat)
      modifies this`stranded
      ensures stranded == if fd in open then old(stranded) + {fd} else old(stranded)
    {
      if fd in open {
        stranded := stranded + {fd};
      }
    }

    /** Lines 108-122: a new connection is refused or taken in. */
    method Welcome(connfd: int, ghost rest: Server, ghost batch: seq<nat>)
      requires MayMeet(View(rest, batch), Listening(connfd))
      modifies this
      ensures View(rest, batch) == HandleItem(old(View(rest, batch)), Listening(connfd))
    {
      hide Settle, Next;
      if connfd < 0 {
        return;
      }
      AcceptSettled(View(rest, batch), connfd);
      if userCount >= maxUsers {
        return;
      }
      open, bound, armed := open + {connfd}, bound + {connfd}, armed + {connfd};
      reused := if SomeClosing(rest.workers, connfd) then reused + {connfd} else reused;
      Count(true);
    }

    /** Lines 124-147: one event on a connection. */
    method Attend(sockfd: nat, how: Handling, ghost rest: Server, ghost batch: seq<nat>)
      requires MayMeet(View(rest, batch), Connection(sockfd, how))
      modifies this, pool
      ensures View(rest, batch[1..]) == HandleItem(old(View(rest, batch)), Connection(sockfd, how))
    {
      hide Settle, CloseInMain;
      ghost var s := View(rest, batch[1..]);
      CloseSettled(s, sockfd);
      RestSettled(s, sockfd);
      match how {
        case HangUp => CloseConn(sockfd);
        case ReadOk =>
          var ok := pool.Append(sockfd);
          if !ok {
            Strand(sockfd);
          }
        case ReadFailed => CloseConn(sockfd);
        case WriteMore => Rearm(sockfd);
        case WriteDone => CloseConn(sockfd);
        case NoBranch => Strand(sockfd);
      }
    }

    /** The body of main's inner loop, lines 105-147. */
    method HandleOne(item: Item, ghost rest: Server, ghost batch: seq<nat>)
      requires MayMeet(View(rest, batch), item)
      modifies this, pool
      ensures View(rest, if item.Connection? then batch[1..] else batch) == HandleItem(old(View(rest, batch)), item)
    {
      hide HandleItem;
      match item {
        case Listening(connfd) => Welcome(connfd, rest, batch);
        case Connection(sockfd, how) => Attend(sockfd, how, rest, batch);
      }
    }

    /** main's inner loop over what epoll_wait delivered. */
    method HandleBatch(items: seq<Item>, ghost rest: Server, ghost batch: seq<nat>) returns (ghost left: seq<nat>)
      requires MayMeetAll(View(rest, batch), items)
      modifies this, pool
      ensures View(rest, left) == HandleAll(old(View(rest, batch)), items)
    {
      left := batch;
      var i := 0;
      while i < |items|
        invariant 0 <= i <= |items|
        invariant MayMeetAll(View(rest, left), items[i..])
        invariant HandleAll(View(rest, left), items[i..]) == HandleAll(old(View(rest, batch)), items)
      {
        assert items[i..][0] == items[i] && items[i..][1..] == items[i + 1..];
        HandleOne(items[i], rest, left);
        left := if items[i].Connection? then left[1..] else left;
        i := i + 1;
      }
    }
  }

  /** The history after an update that no other overlaps. */
  function Kept(t: Tally, up: bool): Tally {
    Tally(t.ups + Bit(up), t.downs + Bit(!up), t.keptUps + Bit(up), t.keptDowns + Bit(!up), t.clashes)
  }

  lemma AcceptSettled(s: Server, fd: nat)
    requires Enabled(s, Accept(fd))
    ensures Settle(Next(s, Accept(fd)))
         == if s.userCount >= s.maxUsers then s
            else s.(open := s.open + {fd}, bound := s.bound + {fd}, armed := s.armed + {fd},
                    userCount := s.userCount + 1, tally := Kept(s.tally, true),
                    reused := if SomeClosing(s.workers, fd) then s.reused + {fd} else s.reused)
  {
  }

  lemma CloseSettled(s: Server, fd: nat)
    requires s.main == Looping
    ensures Settle(CloseInMain(s, fd))
         == if fd !in s.bound then Strand(s, fd)
            else s.(open := s.open - {fd}, armed := s.armed - {fd}, bound := s.bound - {fd},
                    userCount := s.userCount - 1, tally := Kept(s.tally, false))
  {
  }

  lemma RestSettled(s: Server, fd: nat)
    requires s.main == Looping
    ensures Settle(Strand(s, fd)) == Strand(s, fd) && Settle(Rearm(s, fd)) == Rearm(s, fd)
    ensures Settle(s.(queue := s.queue + [fd], main := Posting)) == s.(queue := s.queue + [fd], sem := s.sem + 1)
  {
  }

  lemma SettleRuns(s: Server) returns (actions: seq<Action>)
    ensures Runs(s, actions, Settle(s))
  {
    actions := if s.main.Looping? then [] else if s.main.Counting? then [Proceed, Proceed] else [Proceed];
    assert [Proceed, Proceed][1..] == [Proceed] && [Proceed][1..] == [];
    if s.main.Counting? {
      assert Runs(ProceedStep(s), [Proceed], Settle(s));
    }
  }

  /** A batch handled without interruption is one of the interleavings. */
  lemma {:induction false} BatchIsRun(s: Server, items: seq<Item>) returns (actions: seq<Action>)
    requires MayMeetAll(s, items)
    ensures Runs(s, actions, HandleAll(s, items))
    decreases |items|
  {
    hide Next, Settle, Enabled;
    actions := [];
    if items != [] {
      var rest := BatchIsRun(HandleItem(s, items[0]), items[1..]);
      match items[0] {
        case Listening(accepted) =>
          actions := rest;
          if accepted >= 0 {
            actions := ItemRuns(s, Accept(accepted), HandleAll(s, items), rest);
          }
        case Connection(_, how) =>
          actions := ItemRuns(s, Handle(how), HandleAll(s, items), rest);
      }
    }
  }

  lemma ItemRuns(s: Server, a: Action, t: Server, rest: seq<Action>) returns (actions: seq<Action>)
    requires Enabled(s, a) && Runs(Settle(Next(s, a)), rest, t)
    ensures Runs(s, actions, t)
  {
    hide Next, Settle, Enabled;
    var settle := SettleRuns(Next(s, a));
    RunsThen(Next(s, a), settle, Settle(Next(s, a)), rest, t);
    actions := [a] + (settle + rest);
    assert actions[1..] == settle + rest;
  }
}
