/** The select() server: its client table, descriptor set and the sweep that stops early once the
    count of ready descriptors is used up. */
module SelectServer {

  const FREE: int := -1

  /** What recv reports on a ready client. */
  datatype Received = Interrupted | Failed | PeerClosed | Bytes

  /** The clients in the table. */
  ghost function Clients(table: seq<int>): set<int> {
    set i | 0 <= i < |table| && table[i] != FREE :: table[i]
  }

  /** No client is in the table twice, and every entry is free or a descriptor. */
  ghost predicate ProperTable(table: seq<int>) {
    && (forall i | 0 <= i < |table| :: table[i] == FREE || table[i] >= 0)
    && (forall i, j | 0 <= i < j < |table| :: table[i] != FREE ==> table[i] != table[j])
  }

  /** The ready clients from index `i` on, in table order: what a sweep to the end would read. */
  ghost function ReadyFrom(table: seq<int>, i: nat, rset: set<int>): seq<int>
    requires i <= |table|
    decreases |table| - i
  {
    if i == |table| then []
    else (if table[i] != FREE && table[i] in rset then [table[i]] else []) + ReadyFrom(table, i + 1, rset)
  }

  /** The table after such a sweep: clients that closed are gone. */
  ghost function Swept(table: seq<int>, rset: set<int>, recv: int -> Received): (r: seq<int>)
    ensures |r| == |table|
    ensures forall i | 0 <= i < |table| ::
              r[i] == if table[i] in rset && recv(table[i]) == PeerClosed then FREE else table[i]
  {
    seq(|table|, i requires 0 <= i < |table| =>
      if table[i] in rset && recv(table[i]) == PeerClosed then FREE else table[i])
  }

  /** The ready clients are as many as select counted for them. */
  lemma {:induction false} ReadyCount(table: seq<int>, i: nat, rset: set<int>)
    requires ProperTable(table) && i <= |table|
    ensures |ReadyFrom(table, i, rset)| == |rset * Clients(table[i..])|
    decreases |table| - i
  {
    hide Clients;
    if i < |table| {
      ReadyCount(table, i + 1, rset);
      assert table[i..] == [table[i]] + table[i + 1..];
      LaterDiffer(table, i);
      ReadyCons(table[i], table[i + 1..], rset);
    } else {
      assert table[i..] == [];
      ClientsNone();
    }
  }

  lemma ClientsNone()
    ensures Clients([]) == {}
  {
  }

  lemma LaterDiffer(table: seq<int>, i: nat)
    requires ProperTable(table) && i < |table|
    ensures table[i] == FREE || table[i] !in Clients(table[i + 1..])
  {
    assert forall j | i < j < |table| :: table[j] == table[i + 1..][j - i - 1];
  }

  lemma ReadyCons(first: int, rest: seq<int>, rset: set<int>)
    requires first == FREE || first !in Clients(rest)
    ensures |rset * Clients([first] + rest)|
         == |rset * Clients(rest)| + if first != FREE && first in rset then 1 else 0
  {
    hide Clients;
    ClientsCons(first, rest);
    if first != FREE && first in rset {
      assert rset * Clients([first] + rest) == rset * Clients(rest) + {first};
    } else {
      assert rset * Clients([first] + rest) == rset * Clients(rest);
    }
  }

  lemma ClientsCons(first: int, table: seq<int>)
    ensures Clients([first] + table) == (if first == FREE then {} else {first}) + Clients(table)
  {
    var all := [first] + table;
    forall c | c in Clients(table) ensures c in Clients(all) {
      var i :| 0 <= i < |table| && table[i] == c;
      assert all[i + 1] == c;
    }
    if first != FREE { assert all[0] in Clients(all); }
  }

  lemma ClientsUpdate(table: seq<int>, i: nat, fd: int)
    requires i < |table| && ProperTable(table)
    ensures Clients(table[i := fd])
         == Clients(table) - {table[i]} + if fd == FREE then {} else {fd}
  {
    var t := table[i := fd];
    forall c | c in Clients(table) && c != table[i] ensures c in Clients(t) {
      var j :| 0 <= j < |table| && table[j] == c;
      assert t[j] == c;
    }
    if fd != FREE { assert t[i] in Clients(t); }
  }

  /** `after` is `before` with the client in its first free place. */
  ghost predicate Entered(before: seq<int>, fd: int, after: seq<int>) {
    exists i | 0 <= i < |before| :: before[i] == FREE && FREE !in before[..i] && after == before[i := fd]
  }

  ghost predicate NoReady(table: seq<int>, i: nat, rset: set<int>) {
    forall j | i <= j < |table| :: table[j] == FREE || table[j] !in rset
  }

  lemma NoReadyUnfolds(table: seq<int>, i: nat, rset: set<int>)
    requires i < |table|
    ensures NoReady(table, i, rset) <==> (table[i] == FREE || table[i] !in rset) && NoReady(table, i + 1, rset)
  {
  }

  lemma {:induction false} NoneReady(table: seq<int>, i: nat, rset: set<int>)
    requires i <= |table|
    ensures ReadyFrom(table, i, rset) == [] <==> NoReady(table, i, rset)
    decreases |table| - i
  {
    if i == |table| {
      ReadyNone(table, rset);
    } else {
      hide ReadyFrom, NoReady;
      NoneReady(table, i + 1, rset);
      ReadyUnfolds(table, i, rset);
      NoReadyUnfolds(table, i, rset);
    }
  }

  /** The sweep has dealt with the first `i` entries. */
  ghost predicate SweptTo(table: seq<int>, now: seq<int>, i: nat, rset: set<int>, recv: int -> Received) {
    && i <= |table| == |now|
    && (forall j | 0 <= j < i :: now[j] == Swept(table, rset, recv)[j])
    && (forall j | i <= j < |table| :: now[j] == table[j])
  }

  lemma SweepStep(table: seq<int>, now: seq<int>, i: nat, rset: set<int>, recv: int -> Received)
    requires SweptTo(table, now, i, rset, recv) && i < |table|
    ensures now[i] == table[i]
    ensures var gone := table[i] in rset && recv(table[i]) == PeerClosed;
      SweptTo(table, if gone then now[i := FREE] else now, i + 1, rset, recv)
    ensures ReadyFrom(table, i, rset)
         == (if table[i] != FREE && table[i] in rset then [table[i]] else []) + ReadyFrom(table, i + 1, rset)
  {
  }

  lemma SweepEnd(table: seq<int>, now: seq<int>, i: nat, rset: set<int>, recv: int -> Received)
    requires SweptTo(table, now, i, rset, recv) && FREE !in rset && ReadyFrom(table, i, rset) == []
    ensures now == Swept(table, rset, recv)
  {
    NoneReady(table, i, rset);
  }

  class Server {
    const listenFd: nat
    const clientnum: array<int>
    var allset: set<int>
    var maxi: int
    var maxFd: int

    ghost predicate Valid()
      reads this, clientnum
    {
      && ProperTable(clientnum[..]) && listenFd !in clientnum[..]
      && -1 <= maxi < clientnum.Length && (forall i | maxi < i < clientnum.Length :: clientnum[i] == FREE)
      && allset == {listenFd as int} + Clients(clientnum[..])
      && (forall fd | fd in allset :: 0 <= fd <= maxFd)
    }

    constructor (listenFd: nat, fdSetSize: nat)
      ensures Valid() && fresh(clientnum) && clientnum.Length == fdSetSize && this.listenFd == listenFd
      ensures allset == {listenFd as int} && maxi == -1
    {
      this.listenFd := listenFd;
      maxFd, maxi := listenFd, -1;
      allset := {listenFd};
      clientnum := new int[fdSetSize](_ => FREE);
    }

    /** Lines 65-86: enter a new client in the first free place; `full` ends the program. */
    method Enter(connectFd: int) returns (full: bool)
      requires Valid() && connectFd >= 0 && connectFd !in allset
      modifies this, clientnum
      ensures full <==> FREE !in old(clientnum[..])
      ensures !full ==> Valid() && allset == old(allset) + {connectFd}
      ensures !full ==> Entered(old(clientnum[..]), connectFd, clientnum[..])
    {
      allset := allset + {connectFd};
      var i := 0;
      while i != clientnum.Length
        invariant 0 <= i <= clientnum.Length && FREE !in clientnum[..i]
        invariant clientnum[..] == old(clientnum[..])
        invariant allset == old(allset) + {connectFd} && maxi == old(maxi) && maxFd == old(maxFd)
        decreases clientnum.Length - i
      {
        if clientnum[i] == FREE {
          break;
        }
        i := i + 1;
      }
      if i == clientnum.Length {
        return true;
      }
      ClientsUpdate(clientnum[..], i, connectFd);
      ghost var was := clientnum[..];
      clientnum[i] := connectFd;
      assert clientnum[..] == was[i := connectFd];
      if i > maxi {
        maxi := i;
      }
      if maxFd < connectFd {
        maxFd := connectFd;
      }
      return false;
    }

    /** Lines 98-117 on one ready client: whether it uses up one of select's count. */
    method ServeOne(i: nat, got: Received) returns (counts: bool)
      requires Valid() && i < clientnum.Length && clientnum[i] != FREE
      modifies this`allset, clientnum
      ensures Valid() && counts == (got != Interrupted)
      ensures clientnum[..] == if got == PeerClosed then old(clientnum[..])[i := FREE] else old(clientnum[..])
      ensures allset == if got == PeerClosed then old(allset) - {old(clientnum[i])} else old(allset)
    {
      match got {
        case Interrupted => return false;
        case Failed =>
        case PeerClosed =>
          ghost var was := clientnum[..];
          ClientsUpdate(was, i, FREE);
          allset := allset - {clientnum[i]};
          clientnum[i] := FREE;
          assert clientnum[..] == was[i := FREE];
        case Bytes =>
      }
      return true;
    }

    /** Lines 93-124: read the ready clients, `max` of which select still counts. `served` lists the
        recv calls in order. The early exit skips no ready client. */
    method Sweep(rset: set<int>, max: nat, recv: int -> Received) returns (served: seq<int>)
      requires Valid() && FREE !in rset
      requires 0 < max == |ReadyFrom(clientnum[..], 0, rset)|
      modifies this`allset, clientnum
      ensures Valid()
      ensures served == ReadyFrom(old(clientnum[..]), 0, rset)
      ensures clientnum[..] == Swept(old(clientnum[..]), rset, recv)
    {
      hide ReadyFrom, SweptTo, Swept, ProperTable, Clients;
      ghost var was := clientnum[..];
      assert SweptTo(was, was, 0, rset, recv) by { SweepStart(was, rset, recv); }
      served := [];
      var left := max;
      var i := 0;
      while i != maxi + 1
        invariant 0 <= i <= maxi + 1 && maxi == old(maxi) && Valid()
        invariant served + ReadyFrom(was, i, rset) == ReadyFrom(was, 0, rset)
        invariant |ReadyFrom(was, i, rset)| <= left
        invariant SweptTo(was, clientnum[..], i, rset, recv)
        decreases maxi + 1 - i
      {
        var sockfd := clientnum[i];
        SweepStep(was, clientnum[..], i, rset, recv);
        if sockfd != FREE && sockfd in rset {
          served := served + [sockfd];
          var counts := ServeOne(i, recv(sockfd));
          if counts {
            left := left - 1;
            if left == 0 {
              i := i + 1;
              break;
            }
          }
        }
        i := i + 1;
      }
      if i == maxi + 1 {
        TailFree(was, clientnum[..], i, rset, recv);
        NoneReady(was, i, rset);
      }
      SweepEnd(was, clientnum[..], i, rset, recv);
    }

    /** One round after select returned `max` descriptors in `rset`: `connectFd` is what accept
        returns and `recv` what reading each client reports. When the program does not give up,
        exactly the clients that were ready have been read, in table order, and none was skipped. */
    method Round(rset: set<int>, max: nat, connectFd: int, recv: int -> Received)
      returns (exits: bool, served: seq<int>)
      requires Valid() && rset <= allset && 0 < max == |rset|
      requires connectFd >= 0 ==> connectFd !in allset
      modifies this, clientnum
      ensures !exits ==> Valid() && served == ReadyFrom(old(clientnum[..]), 0, rset)
      ensures exits <==> listenFd in rset && (connectFd < 0 || FREE !in old(clientnum[..]))
      ensures !exits && listenFd in rset ==>
        exists table :: Entered(old(clientnum[..]), connectFd, table) && clientnum[..] == Swept(table, rset, recv)
      ensures !exits && listenFd !in rset ==> clientnum[..] == Swept(old(clientnum[..]), rset, recv)
    {
      hide ReadyFrom, Swept;
      ghost var was := clientnum[..];
      CountIsReady(was, listenFd, rset);
      assert FREE !in rset;
      served := [];
      var left := max;
      if listenFd in rset {
        if connectFd < 0 {
          return true, [];
        }
        var full := Enter(connectFd);
        if full {
          return true, [];
        }
        forall i | 0 <= i < |was| && was[i] == FREE
          ensures ReadyFrom(was[i := connectFd], 0, rset) == ReadyFrom(was, 0, rset)
        {
          ReadyEntered(was, i, connectFd, 0, rset);
        }
        left := left - 1;
        if left == 0 {
          SweptNone(clientnum[..], rset, recv);
          return false, [];
        }
      }
      served := Sweep(rset, left, recv);
      return false, served;
    }
  }

  lemma ReadyUnfolds(table: seq<int>, i: nat, rset: set<int>)
    requires i < |table|
    ensures ReadyFrom(table, i, rset)
         == (if table[i] != FREE && table[i] in rset then [table[i]] else []) + ReadyFrom(table, i + 1, rset)
  {
  }

  /** A client that is not ready does not show up in the sweep. */
  lemma {:induction false} ReadyEntered(table: seq<int>, k: nat, fd: int, i: nat, rset: set<int>)
    requires k < |table| && i <= |table| && table[k] == FREE && fd !in rset
    ensures ReadyFrom(table[k := fd], i, rset) == ReadyFrom(table, i, rset)
    decreases |table| - i
  {
    if i == |table| {
      ReadyNone(table, rset);
      ReadyNone(table[k := fd], rset);
    } else {
      hide ReadyFrom;
      ReadyUnfolds(table, i, rset);
      ReadyUnfolds(table[k := fd], i, rset);
      ReadyEntered(table, k, fd, i + 1, rset);
    }
  }

  lemma ReadyNone(table: seq<int>, rset: set<int>)
    ensures ReadyFrom(table, |table|, rset) == []
  {
  }

  /** select's count, less the listening socket, is the number of ready clients. */
  lemma CountIsReady(table: seq<int>, listenFd: int, rset: set<int>)
    requires ProperTable(table) && listenFd !in table && listenFd != FREE
    requires rset <= {listenFd} + Clients(table)
    ensures |rset| == |ReadyFrom(table, 0, rset)| + if listenFd in rset then 1 else 0
  {
    ReadyCount(table, 0, rset);
    assert table[0..] == table;
    assert listenFd !in Clients(table);
    if listenFd in rset {
      assert rset == rset * Clients(table) + {listenFd};
    } else {
      assert rset == rset * Clients(table);
    }
  }

  lemma SweptNone(table: seq<int>, rset: set<int>, recv: int -> Received)
    requires FREE !in rset && ReadyFrom(table, 0, rset) == []
    ensures Swept(table, rset, recv) == table
  {
    NoneReady(table, 0, rset);
  }

  lemma SweepStart(table: seq<int>, rset: set<int>, recv: int -> Received)
    ensures SweptTo(table, table, 0, rset, recv)
  {
  }

  lemma TailFree(table: seq<int>, now: seq<int>, i: nat, rset: set<int>, recv: int -> Received)
    requires SweptTo(table, now, i, rset, recv) && forall j | i <= j < |now| :: now[j] == FREE
    ensures forall j | i <= j < |table| :: table[j] == FREE
  {
  }
}
