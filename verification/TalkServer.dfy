/** The chat server's pass over its poll table: accept at the front, clients removed by moving the
    last entry into their place while the loop index steps back. */
module TalkServer {

  /** A pollfd: the descriptor and the events poll reported. */
  datatype Entry = Entry(fd: int, readable: bool, error: bool, hangup: bool, writable: bool)

  /** A client leaves on a hangup, or when reading it fails for good; an error flag comes first. */
  predicate Departs(e: Entry, readFails: int -> bool) {
    !e.error && (e.hangup || (e.readable && readFails(e.fd)))
  }

  /** A fresh client, with no events reported yet. */
  function Quiet(fd: int): Entry {
    Entry(fd, false, false, false, false)
  }

  /** The client's entries are those of distinct descriptors, none of them the listening socket. */
  ghost predicate ProperClients(clients: seq<Entry>, listenFd: int) {
    && (forall i | 0 <= i < |clients| :: clients[i].fd >= 0 && clients[i].fd != listenFd)
    && (forall i, j | 0 <= i < j < |clients| :: clients[i].fd != clients[j].fd)
  }

  /** The clients one pass works on: those that were polled, and the one accepted at its start. */
  function Met(clients: seq<Entry>, accepted: bool, connFd: int): seq<Entry> {
    if accepted then clients + [Quiet(connFd)] else clients
  }

  /** Swap with the last, then drop the last. */
  function SwapRemove(clients: seq<Entry>, i: nat): seq<Entry>
    requires i < |clients|
  {
    clients[i := clients[|clients| - 1]][..|clients| - 1]
  }

  lemma TailSwap(tail: seq<Entry>)
    requires tail != []
    ensures multiset(SwapRemove(tail, 0)) == multiset(tail) - multiset{tail[0]}
  {
    var last := |tail| - 1;
    if last == 0 {
      assert tail == [tail[0]];
    } else {
      var mid := tail[1..last];
      assert tail == [tail[0]] + mid + [tail[last]];
      assert SwapRemove(tail, 0) == [tail[last]] + mid;
    }
  }

  lemma SwapShape(clients: seq<Entry>, i: nat)
    requires i < |clients|
    ensures SwapRemove(clients, i) == clients[..i] + SwapRemove(clients[i..], 0)
    ensures SwapRemove(clients, i)[i..] == SwapRemove(clients[i..], 0)
    ensures SwapRemove(clients, i)[..i] == clients[..i]
  {
    var t := SwapRemove(clients[i..], 0);
    assert |SwapRemove(clients, i)| == i + |t|;
    assert forall j | 0 <= j < |t| :: SwapRemove(clients, i)[i + j] == t[j];
  }

  lemma SwapRemoves(clients: seq<Entry>, i: nat)
    requires i < |clients|
    ensures multiset(SwapRemove(clients, i)) == multiset(clients) - multiset{clients[i]}
    ensures multiset(SwapRemove(clients, i)[i..]) == multiset(clients[i..]) - multiset{clients[i]}
    ensures SwapRemove(clients, i)[..i] == clients[..i]
  {
    hide SwapRemove;
    SwapShape(clients, i);
    TailSwap(clients[i..]);
    assert clients == clients[..i] + clients[i..];
    assert clients[i] == clients[i..][0];
  }

  lemma SwapRemoveProper(clients: seq<Entry>, i: nat, listenFd: int)
    requires i < |clients| && ProperClients(clients, listenFd)
    ensures ProperClients(SwapRemove(clients, i), listenFd)
  {
  }

  /** Where a pass stands at client `i`: the clients before `i` stay, those gone have departed, and
      those examined together with those to come are the ones met. */
  ghost predicate PassInv(met: seq<Entry>, clients: seq<Entry>, i: nat, gone: multiset<Entry>,
                          examined: seq<Entry>, readFails: int -> bool)
  {
    && i <= |clients|
    && multiset(clients) + gone == multiset(met)
    && (forall e | e in gone :: Departs(e, readFails))
    && (forall e | e in clients[..i] :: !Departs(e, readFails))
    && multiset(examined) + multiset(clients[i..]) == multiset(met)
  }

  lemma PassStart(met: seq<Entry>, readFails: int -> bool)
    ensures PassInv(met, met, 0, multiset{}, [], readFails)
  {
    assert met[0..] == met;
  }

  lemma PassStay(met: seq<Entry>, clients: seq<Entry>, i: nat, gone: multiset<Entry>, examined: seq<Entry>,
                 readFails: int -> bool)
    requires PassInv(met, clients, i, gone, examined, readFails) && i < |clients| && !Departs(clients[i], readFails)
    ensures PassInv(met, clients, i + 1, gone, examined + [clients[i]], readFails)
  {
    assert clients[i..] == [clients[i]] + clients[i + 1..];
    assert clients[..i + 1] == clients[..i] + [clients[i]];
  }

  lemma PassLeave(met: seq<Entry>, clients: seq<Entry>, i: nat, gone: multiset<Entry>, examined: seq<Entry>,
                  readFails: int -> bool)
    requires PassInv(met, clients, i, gone, examined, readFails) && i < |clients| && Departs(clients[i], readFails)
    ensures PassInv(met, SwapRemove(clients, i), i, gone + multiset{clients[i]}, examined + [clients[i]], readFails)
  {
    hide SwapRemove, Departs;
    var e, left := clients[i], SwapRemove(clients, i);
    SwapRemoves(clients, i);
    SwapLength(clients, i);
    assert e in clients && clients[i..][0] == e;
    MoveOver(multiset(clients), gone, e);
    MoveOver(multiset(clients[i..]), multiset(examined), e);
    assert multiset(examined + [e]) == multiset(examined) + multiset{e};
  }

  lemma SwapLength(clients: seq<Entry>, i: nat)
    requires i < |clients|
    ensures |SwapRemove(clients, i)| == |clients| - 1
  {
  }

  lemma MoveOver(from: multiset<Entry>, to: multiset<Entry>, e: Entry)
    requires e in from
    ensures (from - multiset{e}) + (to + multiset{e}) == from + to
  {
  }

  /** Exactly the departing clients of `met` are missing from `clients`. */
  ghost predicate Remain(clients: seq<Entry>, met: seq<Entry>, readFails: int -> bool) {
    forall e :: multiset(clients)[e] == if Departs(e, readFails) then 0 else multiset(met)[e]
  }

  /** At the end of the pass each client met has been examined once and the departing ones are gone. */
  lemma PassEnd(met: seq<Entry>, clients: seq<Entry>, gone: multiset<Entry>, examined: seq<Entry>,
                readFails: int -> bool)
    requires PassInv(met, clients, |clients|, gone, examined, readFails)
    ensures multiset(examined) == multiset(met) && Remain(clients, met, readFails)
  {
    assert clients[|clients|..] == [] && clients[..|clients|] == clients;
    forall e ensures multiset(clients)[e] == if Departs(e, readFails) then 0 else multiset(met)[e] {
      assert (multiset(clients) + gone)[e] == multiset(met)[e];
      assert e in multiset(clients) ==> e in clients;
    }
  }

  // ---- what a pass means for each client ----

  /** The client is in the table once, and no other entry has its descriptor. */
  ghost predicate Stayed(e: Entry, clients: seq<Entry>) {
    exists i ::
      && 0 <= i < |clients| && clients[i] == e
      && forall j | 0 <= j < |clients| && j != i :: clients[j].fd != e.fd
  }

  /** No entry of the table has the client's descriptor. */
  ghost predicate Gone(e: Entry, clients: seq<Entry>) {
    forall i | 0 <= i < |clients| :: clients[i].fd != e.fd
  }

  /** Of the clients met, those with a hangup and no error are gone, and of those with neither the ones
      that were readable and whose read fails; every other one is there once, all those with an error
      among them; and nobody else is. */
  ghost predicate Settled(clients: seq<Entry>, met: seq<Entry>, readFails: int -> bool) {
    && (forall e | e in met && e.hangup && !e.error :: Gone(e, clients))
    && (forall e | e in met && !e.error && !e.hangup && e.readable && readFails(e.fd) :: Gone(e, clients))
    && (forall e | e in met && e.error :: Stayed(e, clients))
    && (forall e | e in met && !e.hangup && !(e.readable && readFails(e.fd)) :: Stayed(e, clients))
    && (forall e | e in clients :: e in met)
  }

  /** What remains, said of each client by its flags. */
  lemma RemainMeans(clients: seq<Entry>, met: seq<Entry>, readFails: int -> bool, listenFd: int)
    requires Remain(clients, met, readFails) && ProperClients(clients, listenFd) && ProperClients(met, listenFd)
    ensures Settled(clients, met, readFails)
  {
    forall e | e in met ensures if Departs(e, readFails) then Gone(e, clients) else Stayed(e, clients) {
      OneFate(clients, met, readFails, listenFd, e);
    }
    forall e | e in clients ensures e in met {
      assert multiset(clients)[e] > 0;
    }
  }

  lemma OneFate(clients: seq<Entry>, met: seq<Entry>, readFails: int -> bool, listenFd: int, e: Entry)
    requires Remain(clients, met, readFails) && ProperClients(clients, listenFd) && ProperClients(met, listenFd)
    requires e in met
    ensures if Departs(e, readFails) then Gone(e, clients) else Stayed(e, clients)
  {
    hide Departs;
    assert multiset(met)[e] > 0;
    if Departs(e, readFails) {
      forall i | 0 <= i < |clients| ensures clients[i].fd != e.fd {
        assert multiset(clients)[clients[i]] > 0 && multiset(met)[clients[i]] > 0;
        assert clients[i] in met;
      }
    } else {
      assert multiset(clients)[e] > 0;
      var i :| 0 <= i < |clients| && clients[i] == e;
    }
  }

  lemma MetProper(clients: seq<Entry>, accepted: bool, connFd: int, listenFd: int)
    requires ProperClients(clients, listenFd)
    requires accepted ==> 0 <= connFd != listenFd && forall e | e in clients :: e.fd != connFd
    ensures ProperClients(Met(clients, accepted, connFd), listenFd)
  {
  }

  /** The client accepted in a pass has no events yet, and so it stays. */
  lemma NewStays(clients: seq<Entry>, was: seq<Entry>, connFd: int, readFails: int -> bool)
    ensures Settled(clients, Met(was, true, connFd), readFails)
            ==> Stayed(Entry(connFd, false, false, false, false), clients)
  {
    hide Stayed, Gone;
    var met := Met(was, true, connFd);
    assert met[|was|] in met;
  }

  class Server {
    const listenFd: int
    const fds: array<Entry>
    var userCounter: nat

    /** fds[1..user_counter] */
    function Clients(): seq<Entry>
      requires userCounter < fds.Length
      reads this, fds
    {
      fds[1..userCounter + 1]
    }

    ghost predicate Valid()
      reads this, fds
    {
      userCounter < fds.Length && fds[0].fd == listenFd && ProperClients(Clients(), listenFd)
    }

    constructor (listenFd: int, userLimit: nat)
      requires listenFd >= 0
      ensures Valid() && fresh(fds) && fds.Length == userLimit + 1 && Clients() == [] && this.listenFd == listenFd
    {
      this.listenFd := listenFd;
      userCounter := 0;
      fds := new Entry[userLimit + 1](i => Quiet(if i == 0 then listenFd else -1));
      new;
      assert fds[0] == Quiet(listenFd) && Clients() == [];
    }

    /** Lines 93-106: a new client goes behind the last, unless the table is full. */
    method Enter(connFd: int) returns (entered: bool)
      requires Valid() && connFd >= 0 && connFd != listenFd && forall e | e in Clients() :: e.fd != connFd
      modifies this, fds
      ensures Valid() && fds[0] == old(fds[0])
      ensures entered <==> old(userCounter) + 1 < fds.Length
      ensures Clients() == Met(old(Clients()), entered, connFd)
    {
      if userCounter >= fds.Length - 1 {
        return false;
      }
      ghost var was := Clients();
      userCounter := userCounter + 1;
      fds[userCounter] := Quiet(connFd);
      assert Clients() == was + [Quiet(connFd)];
      return true;
    }

    /** Lines 83-108 on the listening socket, which leave its other events to line 109: a client that has
        been accepted is entered if there is room. */
    method Greet(connFd: int) returns (entered: bool)
      requires Valid()
      requires connFd >= 0 ==> connFd != listenFd && forall e | e in Clients() :: e.fd != connFd
      modifies this, fds
      ensures Valid() && fds[0] == old(fds[0])
      ensures entered <==> fds[0].readable && connFd >= 0 && old(userCounter) + 1 < fds.Length
      ensures Clients() == Met(old(Clients()), entered, connFd)
    {
      hide ProperClients;
      entered := false;
      if fds[0].readable && connFd >= 0 {
        entered := Enter(connFd);
      }
    }

    /** Lines 123-127 and 140-144: the last client takes the place of the one that left. */
    method Remove(i: nat)
      requires Valid() && 1 <= i <= userCounter
      modifies this, fds
      ensures Valid() && fds[0] == old(fds[0]) && userCounter == old(userCounter) - 1
      ensures Clients() == SwapRemove(old(Clients()), i - 1)
    {
      SwapRemoveProper(Clients(), i - 1, listenFd);
      ghost var was := Clients();
      fds[i] := fds[userCounter];
      userCounter := userCounter - 1;
      assert Clients() == SwapRemove(was, i - 1);
    }

    lemma ListenerFirst(i: nat)
      requires Valid() && i <= userCounter
      ensures fds[i].fd == listenFd <==> i == 0
    {
      assert i > 0 ==> fds[i] == Clients()[i - 1];
    }

    /** Lines 109-178 on client `i`: it stays, or the last client takes its place. */
    method Examine(i: nat, readFails: int -> bool, ghost met: seq<Entry>, ghost gone: multiset<Entry>,
                   ghost examined: seq<Entry>) returns (e: Entry, left: bool, ghost gone': multiset<Entry>)
      requires Valid() && 1 <= i <= userCounter
      requires PassInv(met, Clients(), i - 1, gone, examined, readFails)
      modifies this, fds
      ensures Valid() && userCounter == old(userCounter) - if left then 1 else 0
      ensures e == old(Clients())[i - 1]
      ensures left <==> !e.error && (e.hangup || (e.readable && readFails(e.fd)))
      ensures PassInv(met, Clients(), if left then i - 1 else i, gone', examined + [e], readFails)
    {
      hide PassInv, SwapRemove, ProperClients;
      e, left := fds[i], false;
      assert e == Clients()[i - 1];
      if !e.error {
        if e.hangup {
          left := true;
        } else if e.readable {
          left := readFails(e.fd);
        }
      }
      gone' := gone;
      if left {
        PassLeave(met, Clients(), i - 1, gone, examined, readFails);
        gone' := gone + multiset{e};
        Remove(i);
      } else {
        PassStay(met, Clients(), i - 1, gone, examined, readFails);
      }
    }

    /** Where the loop stands at index `i`: nothing has happened at the listening socket, and behind it
        the pass is at client `i - 1`. `was` are the clients polled, `enters` whether one is entered. */
    ghost predicate Going(i: nat, was: seq<Entry>, enters: bool, connFd: int, entered: bool, gone: multiset<Entry>,
                          examined: seq<Entry>, readFails: int -> bool)
      requires userCounter < fds.Length
      reads this, fds
    {
      if i == 0 then
        && Clients() == was && !entered && examined == [] && gone == multiset{}
        && enters == (fds[0].readable && connFd >= 0 && userCounter + 1 < fds.Length)
        && (connFd >= 0 ==> connFd != listenFd && forall e | e in was :: e.fd != connFd)
      else
        && i <= userCounter + 1 && entered == enters
        && PassInv(Met(was, enters, connFd), Clients(), i - 1, gone, examined, readFails)
    }

    /** The loop body on the listening socket. */
    method AtListener(connFd: int, readFails: int -> bool, ghost was: seq<Entry>, ghost enters: bool,
                      ghost gone: multiset<Entry>) returns (entered: bool)
      requires Valid() && Going(0, was, enters, connFd, false, gone, [], readFails)
      modifies this, fds
      ensures Valid() && Going(1, was, enters, connFd, entered, gone, [], readFails)
    {
      hide PassInv, ProperClients, Met;
      entered := Greet(connFd);
      PassStart(Clients(), readFails);
    }

    /** The loop body on a client. */
    method AtClient(i: nat, connFd: int, readFails: int -> bool, entered: bool, ghost was: seq<Entry>,
                    ghost enters: bool, ghost gone: multiset<Entry>, examined: seq<Entry>)
      returns (next: nat, examined': seq<Entry>, ghost gone': multiset<Entry>)
      requires Valid() && 0 < i <= userCounter && Going(i, was, enters, connFd, entered, gone, examined, readFails)
      modifies this, fds
      ensures Valid() && Going(next, was, enters, connFd, entered, gone', examined', readFails)
      ensures next > 0 && userCounter - next == old(userCounter) - i - 1
    {
      hide PassInv, ProperClients, Met;
      var e, left;
      e, left, gone' := Examine(i, readFails, Met(was, enters, connFd), gone, examined);
      examined' := examined + [e];
      next := if left then i else i + 1;
    }

    /** One pass of the sweep, lines 81-178: `connFd` is what accept returns if it is called, and
        `readFails` says whose recv fails with other than EAGAIN. Each polled client, and the one
        accepted on the way, is examined exactly once; those that hung up or fail to be read, and show
        no error, leave the table, and the others stay, each once. */
    method Pass(connFd: int, readFails: int -> bool) returns (examined: seq<Entry>, entered: bool)
      requires Valid() && !fds[0].hangup
      requires connFd >= 0 ==> connFd != listenFd && forall e | e in Clients() :: e.fd != connFd
      modifies this, fds
      ensures Valid()
      ensures entered <==> old(fds[0].readable) && connFd >= 0 && old(userCounter) + 1 < fds.Length
      ensures multiset(examined) == multiset(Met(old(Clients()), entered, connFd))
      ensures Settled(Clients(), Met(old(Clients()), entered, connFd), readFails)
      ensures entered ==> Stayed(Entry(connFd, false, false, false, false), Clients())
    {
      examined, entered := [], false;
      ghost var was, gone := Clients(), multiset{};
      ghost var enters := fds[0].readable && connFd >= 0 && userCounter + 1 < fds.Length;
      assert Going(0, was, enters, connFd, entered, gone, examined, readFails);
      hide Going, ProperClients, Met, Remain;
      var i := 0;
      while i < userCounter + 1
        invariant Valid() && Going(i, was, enters, connFd, entered, gone, examined, readFails)
        invariant i <= userCounter + 1 && (i == 0 ==> !entered && examined == [])
        decreases if i == 0 then 1 else 0, userCounter + 1 - i
      {
        ListenerFirst(i);
        if fds[i].fd == listenFd {
          entered := AtListener(connFd, readFails, was, enters, gone);
          i := 1;
        } else {
          i, examined, gone := AtClient(i, connFd, readFails, entered, was, enters, gone, examined);
        }
      }
      AtEnd(i, was, enters, connFd, entered, gone, examined, readFails);
      if entered { NewStays(Clients(), was, connFd, readFails); }
      hide Settled;
      MetProper(was, entered, connFd, listenFd);
      RemainMeans(Clients(), Met(was, entered, connFd), readFails, listenFd);
    }

    lemma AtEnd(i: nat, was: seq<Entry>, enters: bool, connFd: int, entered: bool, gone: multiset<Entry>,
                examined: seq<Entry>, readFails: int -> bool)
      requires Valid() && i == userCounter + 1 && Going(i, was, enters, connFd, entered, gone, examined, readFails)
      ensures entered == enters && multiset(examined) == multiset(Met(was, entered, connFd))
      ensures Remain(Clients(), Met(was, entered, connFd), readFails)
    {
      hide PassInv, ProperClients, Met;
      PassEnd(Met(was, entered, connFd), Clients(), gone, examined, readFails);
    }
  }
}
