/** Round-robin hand-out of new connections to child processes. */
module RoundRobin {

  /** m_pid of a child that has been reaped. */
  const NO_PID: int := -1

  predicate Live(pids: seq<int>, c: int) {
    0 <= c < |pids| && pids[c] != NO_PID
  }

  /** The position `d` places after `start`, cyclically. */
  function At(start: int, d: int, n: int): int {
    if start + d < n then start + d else start + d - n
  }

  function Following(i: int, n: int): int {
    At(i, 1, n)
  }

  lemma NextIsFollowing(i: nat, n: nat)
    requires i < n
    ensures (i + 1) % n == Following(i, n)
  {
    if i + 1 < n {
      assert (i + 1) / n == 0;
    }
  }

  /** The do-while search: positions from `d` places after `start` on; back at `start` it gives up. */
  function Search(pids: seq<int>, start: nat, d: nat): (c: int)
    requires start < |pids| && d <= |pids|
    ensures 0 <= c < |pids|
    decreases |pids| - d
  {
    if d == |pids| then start
    else if Live(pids, At(start, d, |pids|)) then At(start, d, |pids|)
    else Search(pids, start, d + 1)
  }

  /** The child the search settles on. */
  function Pick(pids: seq<int>, start: nat): (c: int)
    requires start < |pids|
    ensures 0 <= c < |pids|
  {
    Search(pids, start, 0)
  }

  /** The children chosen by `k` dispatches in a row, the first one starting at `start`. */
  function Dispatches(pids: seq<int>, start: nat, k: nat): (r: seq<int>)
    requires start < |pids|
    ensures |r| == k
    decreases k
  {
    if k == 0 then []
    else [Pick(pids, start)] + Dispatches(pids, Following(Pick(pids, start), |pids|), k - 1)
  }

  ghost function LiveSet(pids: seq<int>): set<int> {
    set c | 0 <= c < |pids| && pids[c] != NO_PID
  }

  /** The live children among the `m` positions from `start` on, in cyclic order. */
  function LiveFrom(pids: seq<int>, start: nat, m: nat): seq<int>
    requires start < |pids|
    decreases m
  {
    if m == 0 then []
    else (if Live(pids, start) then [start as int] else []) + LiveFrom(pids, Following(start, |pids|), m - 1)
  }

  lemma {:induction false} SearchFinds(pids: seq<int>, start: nat, d: nat, e: nat)
    requires start < |pids| && d <= e < |pids|
    requires Live(pids, At(start, e, |pids|)) && forall f | d <= f < e :: !Live(pids, At(start, f, |pids|))
    ensures Search(pids, start, d) == At(start, e, |pids|)
    decreases e - d
  {
    if d < e { SearchFinds(pids, start, d + 1, e); }
  }

  /** The distance from `start` to the first live child. */
  lemma {:induction false} FirstLive(pids: seq<int>, start: nat, d: nat, c: int) returns (e: nat)
    requires start < |pids| && d < |pids| && Live(pids, c) && c == At(start, d, |pids|)
    ensures e <= d && Live(pids, At(start, e, |pids|)) && forall f | 0 <= f < e :: !Live(pids, At(start, f, |pids|))
    decreases d
  {
    if f :| 0 <= f < d && Live(pids, At(start, f, |pids|)) {
      e := FirstLive(pids, start, f, At(start, f, |pids|));
    } else {
      e := d;
    }
  }

  /** The cyclic search ends on a live child if there is one, and otherwise where it started. */
  lemma PickIsLive(pids: seq<int>, start: nat)
    requires start < |pids|
    ensures Live(pids, Pick(pids, start)) <==> LiveSet(pids) != {}
    ensures LiveSet(pids) == {} ==> Pick(pids, start) == start
  {
    if LiveSet(pids) == {} {
      assert forall c :: Live(pids, c) ==> c in LiveSet(pids);
      NothingFound(pids, start, 0);
    } else {
      var c :| c in LiveSet(pids);
      var e := FirstLive(pids, start, if c >= start then c - start else c - start + |pids|, c);
      SearchFinds(pids, start, 0, e);
    }
  }

  /** A reaped child gets no connection while any other is there: `after` is the table without `pid`. */
  lemma ReapedSkipped(pids: seq<int>, pid: int, after: seq<int>, start: nat, d: nat)
    requires start < |pids| == |after| && d < |after| && after[d] != -1
    requires forall c | 0 <= c < |pids| :: after[c] == if pids[c] == pid then -1 else pids[c]
    ensures pids[Pick(after, start)] != pid && pids[Pick(after, start)] == after[Pick(after, start)]
  {
    PickIsLive(after, start);
    assert d in LiveSet(after);
  }

  lemma {:induction false} NothingFound(pids: seq<int>, start: nat, d: nat)
    requires start < |pids| && d <= |pids| && forall c :: !Live(pids, c)
    ensures Search(pids, start, d) == start
    decreases |pids| - d
  {
    if d < |pids| { NothingFound(pids, start, d + 1); }
  }

  /** A dead child does not change whom the search finds. */
  lemma SkipDead(pids: seq<int>, start: nat, c: int)
    requires start < |pids| && !Live(pids, start) && Live(pids, c)
    ensures Pick(pids, start) == Pick(pids, Following(start, |pids|))
  {
    var n := |pids|;
    var e := FirstLive(pids, start, if c >= start then c - start else c - start + n, c);
    SearchFinds(pids, start, 0, e);
    var next := Following(start, n);
    assert forall f | 0 <= f < e :: At(next, f, n) == At(start, f + 1, n);
    SearchFinds(pids, next, 0, e - 1);
  }

  /** Consecutive dispatches visit the live children in cyclic order. */
  lemma {:induction false} DispatchesInOrder(pids: seq<int>, start: nat, m: nat)
    requires start < |pids|
    ensures Dispatches(pids, start, |LiveFrom(pids, start, m)|) == LiveFrom(pids, start, m)
    decreases m
  {
    if m > 0 {
      var next := Following(start, |pids|);
      var rest := LiveFrom(pids, next, m - 1);
      DispatchesInOrder(pids, next, m - 1);
      if Live(pids, start) {
        SearchFinds(pids, start, 0, 0);
      } else if rest != [] {
        LiveFromLive(pids, next, m - 1);
        SkipDead(pids, start, rest[0]);
      }
    }
  }

  lemma {:induction false} LiveFromLive(pids: seq<int>, start: nat, m: nat)
    requires start < |pids|
    ensures forall c | c in LiveFrom(pids, start, m) :: Live(pids, c)
    decreases m
  {
    if m > 0 { LiveFromLive(pids, Following(start, |pids|), m - 1); }
  }

  /** Each live child within reach appears once, and nothing else does. */
  lemma {:induction false} LiveFromOnce(pids: seq<int>, start: nat, m: nat, c: int)
    requires start < |pids| && m <= |pids|
    ensures multiset(LiveFrom(pids, start, m))[c] == if Live(pids, c) && Ahead(start, c, |pids|) < m then 1 else 0
    decreases m
  {
    hide LiveFrom, Following, Live, Ahead;
    if m == 0 {
      NoneInReach(pids, start, c);
    } else {
      LiveFromUnfolds(pids, start, m);
      var next := Following(start, |pids|);
      LiveFromOnce(pids, next, m - 1, c);
      TimesBoth(if Live(pids, start) then [start as int] else [], LiveFrom(pids, next, m - 1), c);
      if Live(pids, c) { InReach(pids, start, m, c); }
    }
  }

  lemma NoneInReach(pids: seq<int>, start: nat, c: int)
    requires start < |pids|
    ensures LiveFrom(pids, start, 0) == [] && !(Live(pids, c) && Ahead(start, c, |pids|) < 0)
  {
  }

  lemma InReach(pids: seq<int>, start: nat, m: nat, c: int)
    requires start < |pids| && 0 < m <= |pids| && Live(pids, c)
    ensures Ahead(start, c, |pids|) < m <==> c == start || Ahead(Following(start, |pids|), c, |pids|) < m - 1
    ensures c == start ==> Ahead(Following(start, |pids|), c, |pids|) >= m - 1
  {
    AheadOfNext(start, c, |pids|);
  }

  lemma TimesBoth(here: seq<int>, rest: seq<int>, c: int)
    requires |here| <= 1
    ensures multiset(here + rest)[c] == multiset(rest)[c] + if here == [c] then 1 else 0
  {
    assert multiset(here + rest) == multiset(here) + multiset(rest);
    if |here| == 1 {
      assert here == [here[0]] && multiset(here) == multiset{here[0]};
    } else {
      assert here == [];
    }
  }

  /** How many places `c` is ahead of `start`, cyclically. */
  function Ahead(start: int, c: int, n: int): int {
    if c >= start then c - start else c - start + n
  }

  lemma AheadOfNext(start: int, c: int, n: int)
    requires 0 <= start < n && 0 <= c < n
    ensures Ahead(Following(start, n), c, n) == if c == start then n - 1 else Ahead(start, c, n) - 1
  {
  }

  lemma LiveFromUnfolds(pids: seq<int>, start: nat, m: nat)
    requires start < |pids| && m > 0
    ensures 0 <= Following(start, |pids|) < |pids|
    ensures LiveFrom(pids, start, m)
         == (if Live(pids, start) then [start as int] else []) + LiveFrom(pids, Following(start, |pids|), m - 1)
  {
  }

  /** Fairness: with a fixed set of k live children, any k dispatches in a row, wherever they start,
      send to each live child exactly once and to no other. */
  lemma RoundRobinFair(pids: seq<int>, start: nat)
    requires start < |pids|
    ensures multiset(Dispatches(pids, start, |LiveSet(pids)|)) == multiset(LiveSet(pids))
  {
    var all := LiveFrom(pids, start, |pids|);
    forall c ensures multiset(all)[c] == multiset(LiveSet(pids))[c] {
      LiveFromOnce(pids, start, |pids|, c);
    }
    assert multiset(all) == multiset(LiveSet(pids));
    assert |all| == |multiset(all)| == |multiset(LiveSet(pids))| == |LiveSet(pids)|;
    DispatchesInOrder(pids, start, |pids|);
  }

  /** The parent: the pids of its children, where the next search starts, and whether to stop. */
  class ProcessPool {
    const pids: array<int>
    var subProcessCount: nat
    var stop: bool

    ghost predicate Valid()
      reads this
    {
      subProcessCount < pids.Length
    }

    constructor (forked: seq<int>)
      requires forked != []
      ensures Valid() && fresh(pids) && pids[..] == forked && subProcessCount == 0 && !stop
    {
      var a := new int[|forked|](i requires 0 <= i < |forked| => forked[i]);
      pids := a;
      subProcessCount, stop := 0, false;
      new;
      assert pids[..] == forked;
    }

    /** run_parent lines 265-279, on a new connection: the child notified, or none and a stop. */
    method Dispatch() returns (sent: bool, child: nat)
      requires Valid()
      modifies this
      ensures Valid() && child < pids.Length && child == Pick(pids[..], old(subProcessCount))
      ensures sent <==> LiveSet(pids[..]) != {}
      ensures sent ==> Live(pids[..], child) && stop == old(stop)
      ensures sent ==> subProcessCount == Following(child, pids.Length)
      ensures !sent ==> stop && subProcessCount == old(subProcessCount)
    {
      ghost var was, start, d := pids[..], subProcessCount, 0;
      var i := subProcessCount;
      while true
        invariant 0 <= i < pids.Length && 0 <= d < pids.Length
        invariant i == At(start, d, pids.Length) && subProcessCount == start && stop == old(stop) && was == pids[..]
        invariant Search(was, start, d) == Pick(was, start)
        decreases pids.Length - d
      {
        if pids[i] != NO_PID {
          assert i == Pick(was, start);
          break;
        }
        assert Search(was, start, d) == Search(was, start, d + 1);
        NextIsFollowing(i, pids.Length);
        i := (i + 1) % pids.Length;
        if i == subProcessCount {
          assert i == Pick(was, start);
          break;
        }
        d := d + 1;
      }
      child := i;
      PickIsLive(was, start);
      if pids[i] == NO_PID {
        stop := true;
        return false, child;
      }
      NextIsFollowing(i, pids.Length);
      subProcessCount := (i + 1) % pids.Length;
      return true, child;
    }

    /** run_parent lines 295-301: forget a reaped child. */
    method Reap(pid: int)
      modifies pids
      ensures forall c | 0 <= c < pids.Length :: pids[c] == if old(pids[c]) == pid then NO_PID else old(pids[c])
    {
      for i := 0 to pids.Length
        invariant forall c | 0 <= c < i :: pids[c] == if old(pids[c]) == pid then NO_PID else old(pids[c])
        invariant forall c | i <= c < pids.Length :: pids[c] == old(pids[c])
      {
        if pids[i] == pid {
          pids[i] := NO_PID;
        }
      }
    }
  }
}
