/** What cuts strictly inside the body do: exactly when the cutting of the input into reads matters. */
module HttpBodyCuts {
  import opened CStrings
  import opened HttpParser
  import opened HttpReference
  import opened HttpChunks
  import opened HttpRefinement
  import opened HttpRoundTrip

  /** Where the body that `a` ends in should end. */
  function BodyEnd(a: string): int
    requires InsideBody(a)
  {
    ReadHead(a).body + DeclaredLength(ReadHead(a).headers)
  }

  /** What becomes of a body over several reads: it is counted from `pos`, and each read that leaves it
      pending moves `pos` over the bytes parse_line scans. `received` is what the first of them brings
      the input to. */
  function ReadsFate(received: string, pos: nat, length: int, later: seq<string>): Fate
    requires pos <= |received|
    decreases |later|
  {
    match BodyFate(received, pos, length)
    case Pending =>
      if later == [] then Pending
      else ReadsFate(received + later[0], pos + ScanLength(received[pos..]), length, later[1..])
    case fate => fate
  }

  /** The connection stands inside the body: it holds `received`, untouched from m_checked_idx on. */
  ghost predicate InBody(q: Parser, received: string, url: string, headers: seq<string>) {
    && Valid(q) && q.state == Content && Represents(q, url, headers)
    && |q.buf| == |received| && q.buf[q.checkedIdx..] == received[q.checkedIdx..]
  }

  /** One run inside the body. */
  lemma BodyRead(env: Env, p: Parser, received: string, url: string, headers: seq<string>)
    requires InBody(p, received, url, headers)
    requires |received| < env.readSize <= INT_MAX && 0 <= p.contentLength
    ensures var (v, r) := ProcessRead(env, p);
      var fate := BodyFate(received, p.checkedIdx, p.contentLength);
      && v == Outcome(env, url, fate)
      && (fate == Pending ==>
            && InBody(r, received, url, headers) && r.contentLength == p.contentLength
            && r.checkedIdx == p.checkedIdx + ScanLength(received[p.checkedIdx..]))
  {
    hide ProcessRead, Represents, ScanLength, WholeLines, Serve;
    BodyRun(env, p, url, headers);
    if BodyFate(received, p.checkedIdx, p.contentLength) == Pending {
      SameTail(p.buf, received, p.checkedIdx, ProcessRead(env, p).1.checkedIdx);
    }
  }

  lemma FedInBody(q: Parser, received: string, more: string, url: string, headers: seq<string>)
    requires InBody(q, received, url, headers)
    ensures InBody(Feed(q, more), received + more, url, headers)
  {
    ValidFeed(q, more);
    var p := Feed(q, more);
    assert p.buf[..q.startLine] == q.buf[..q.startLine];
    RepresentsStable(q, p, url, headers);
    assert p.buf[q.checkedIdx..] == q.buf[q.checkedIdx..] + more == (received + more)[q.checkedIdx..];
  }

  lemma ReceiveStep(env: Env, q: Parser, later: seq<string>)
    requires q.startLine <= q.checkedIdx <= |q.buf| && later != []
    ensures var (v, r) := ProcessRead(env, Feed(q, later[0]));
      Receive(env, q, later).0 == if v != NoRequest then v else Receive(env, r, later[1..]).0
  {
    hide ProcessRead;
  }

  /** Any number of reads from inside the body on. */
  lemma {:induction false} BodyReads(env: Env, p: Parser, received: string, url: string, headers: seq<string>,
                                     later: seq<string>)
    requires InBody(p, received, url, headers) && 0 <= p.contentLength
    requires |received + Concat(later)| < env.readSize <= INT_MAX
    ensures var (v, q) := ProcessRead(env, p);
      Outcome(env, url, ReadsFate(received, p.checkedIdx, p.contentLength, later))
      == if v != NoRequest then v else Receive(env, q, later).0
    decreases |later|
  {
    hide ProcessRead, InBody, Outcome, ScanLength, BodyFate, Receive, Represents;
    Place(p, received, url, headers);
    BodyRead(env, p, received, url, headers);
    WaitsOn(env, url, BodyFate(received, p.checkedIdx, p.contentLength));
    if BodyFate(received, p.checkedIdx, p.contentLength) == Pending {
      var q := ProcessRead(env, p).1;
      if later == [] {
        ReceiveNone(env, q);
      } else {
        var now := received + later[0];
        FedInBody(q, received, later[0], url, headers);
        assert received + Concat(later) == now + Concat(later[1..]);
        BodyReads(env, Feed(q, later[0]), now, url, headers, later[1..]);
        ReceiveStep(env, q, later);
      }
    }
  }

  lemma Place(p: Parser, received: string, url: string, headers: seq<string>)
    requires InBody(p, received, url, headers)
    ensures p.startLine <= p.checkedIdx <= |p.buf| == |received|
  {
  }

  lemma WaitsOn(env: Env, url: string, fate: Fate)
    ensures Outcome(env, url, fate) == NoRequest <==> fate == Pending
  {
  }

  lemma ReceiveNone(env: Env, q: Parser)
    requires q.startLine <= q.checkedIdx <= |q.buf|
    ensures Receive(env, q, []) == (NoRequest, q)
  {
  }

  /** The connection after a complete head and part of the body: the run that read the head goes on as
      one that starts at the body. */
  lemma FirstRead(env: Env, a: string) returns (r: Parser)
    requires InsideBody(a)
    ensures var Ready(url, headers, body) := ReadHead(a);
      && InBody(r, a, url, headers) && r.contentLength == DeclaredLength(headers) > 0 && r.checkedIdx == body
      && ProcessRead(env, Feed(INIT, a)) == ProcessRead(env, r)
  {
    hide ProcessRead, ReadHead, DeclaredLength, Represents;
    assert Feed(INIT, a).buf == a;
    r := HeadRun(env, a);
    RepresentsLength(r, ReadHead(a).url, ReadHead(a).headers);
  }

  // ---- the reads before the first cut inside the body ----

  lemma RejectedStays(input: string, more: string)
    requires ReadHead(input) == Rejected
    ensures ReadHead(input + more) == Rejected
  {
    hide CStr, RequestTarget;
    FirstLineGrows(input, more);
  }

  /** Before a cut strictly inside the body nothing has been decided, unless the body is too long for
      line 258 from its first byte on. */
  lemma EarlyWaits(env: Env, a: string, more: string)
    requires InsideBody(a + more) && !InsideBody(a) && |a| < env.readSize <= INT_MAX && BodyEnd(a + more) <= INT_MAX
    ensures ProcessRead(env, Feed(INIT, a)).0 == NoRequest
  {
    hide ProcessRead, ReadHead, DeclaredLength, Represents, Holds, UrlStart, CutAt;
    RunRefinesReference(env, a);
    if ReadHead(a) == Rejected {
      RejectedStays(a, more);
    } else if ReadHead(a).Ready? {
      ReadHeadGrows(a, more);
      assert a[ReadHead(a).body..] == "";
    }
  }

  /** Two reads of which the first decides nothing might as well have been one. */
  lemma MergeFirst(env: Env, a: string, b: string, rest: seq<string>)
    requires !InsideBody(a) && ProcessRead(env, Feed(INIT, a)).0 == NoRequest
    ensures Receive(env, INIT, [a, b] + rest) == Receive(env, INIT, [a + b] + rest)
  {
    hide ProcessRead, InsideBody, Resumes;
    CutResumes(env, a, b);
    ResumesOnce(env, Feed(INIT, a), b);
    assert Feed(Feed(INIT, a), b) == Feed(INIT, a + b);
    assert ([a, b] + rest)[0] == a && ([a, b] + rest)[1..] == [b] + rest;
    assert ([b] + rest)[0] == b && ([b] + rest)[1..] == rest;
    assert ([a + b] + rest)[0] == a + b && ([a + b] + rest)[1..] == rest;
  }

  lemma ResumesOnce(env: Env, p: Parser, more: string)
    requires p.startLine <= p.checkedIdx <= |p.buf| && Resumes(env, p, more) && ProcessRead(env, p).0 == NoRequest
    ensures ProcessRead(env, Feed(ProcessRead(env, p).1, more)) == ProcessRead(env, Feed(p, more))
  {
    hide ProcessRead;
  }

  /** The reads before the first cut inside the body might as well have been one. */
  lemma {:induction false} CleanPrefix(env: Env, pieces: seq<string>, k: nat)
    requires 1 <= k <= |pieces| && |Concat(pieces[..k])| < env.readSize <= INT_MAX
    requires forall j | 1 <= j < k :: !InsideBody(Concat(pieces[..j]))
    requires InsideBody(Concat(pieces[..k])) && BodyEnd(Concat(pieces[..k])) <= INT_MAX
    ensures Receive(env, INIT, pieces) == Receive(env, INIT, [Concat(pieces[..k])] + pieces[k..])
    decreases k
  {
    hide ProcessRead, InsideBody, BodyEnd, Receive;
    var a := pieces[0];
    assert pieces[..1] == [a] && [a][1..] == [] && Concat([a]) == a && [a] + pieces[1..] == pieces;
    if k > 1 {
      var b, rest := pieces[1], pieces[2..];
      assert pieces == [a, b] + rest;
      var merged := [a + b] + rest;
      forall j | 1 <= j < k ensures Concat(merged[..j]) == Concat(pieces[..j + 1]) {
        ConcatMerge(a, b, rest, j);
      }
      assert pieces[..k] == [a] + pieces[1..k];
      ConcatCons(a, pieces[1..k]);
      EarlyWaits(env, a, Concat(pieces[1..k]));
      MergeFirst(env, a, b, rest);
      CleanPrefix(env, merged, k - 1);
      assert merged[k - 1..] == pieces[k..];
    }
  }

  // ---- the theorem ----

  /** The first place where the reads are cut strictly inside the body, or their number. */
  ghost function FirstInside(pieces: seq<string>, k: nat): (r: nat)
    requires k <= |pieces|
    ensures k <= r <= |pieces|
    decreases |pieces| - k
  {
    if k == |pieces| || InsideBody(Concat(pieces[..k])) then k else FirstInside(pieces, k + 1)
  }

  lemma {:induction false} FirstInsideIs(pieces: seq<string>, k: nat)
    requires k <= |pieces|
    ensures var r := FirstInside(pieces, k);
      && (forall j | k <= j < r :: !InsideBody(Concat(pieces[..j])))
      && (r < |pieces| ==> InsideBody(Concat(pieces[..r])))
    decreases |pieces| - k
  {
    hide InsideBody, Concat;
    if k < |pieces| && !InsideBody(Concat(pieces[..k])) {
      FirstInsideIs(pieces, k + 1);
    }
  }

  // ---- the fate without running anything ----

  /** Bytes without CR or LF in front only move the end of the first line. */
  lemma {:induction false} FirstLineFrom(u: string, j: nat)
    requires j <= |u| && forall i | 0 <= i < j :: !Has(Eol, u[i])
    ensures Find(u, 0, Eol) == j + Find(u[j..], 0, Eol)
    ensures match FirstLine(u[j..])
            case Whole(_, next) => FirstLine(u).Whole? && FirstLine(u).next == j + next
            case _ => !FirstLine(u).Whole?
  {
    var k := Find(u[j..], 0, Eol);
    assert forall i | j <= i < j + k :: u[i] == u[j..][i - j];
    assert j + k < |u| ==> u[j + k] == u[j..][k];
    FindIs(u, 0, Eol, j + k);
    if k + 1 < |u[j..]| { assert u[j + k + 1] == u[j..][k + 1]; }
  }

  lemma {:induction false} ScanFrom(u: string, j: nat)
    requires j <= |u| && forall i | 0 <= i < j :: !Has(Eol, u[i])
    ensures ScanLength(u) == j + ScanLength(u[j..])
  {
    hide FirstLine;
    FirstLineFrom(u, j);
    if FirstLine(u[j..]).Whole? {
      var next := FirstLine(u[j..]).next;
      assert u[j..][next..] == u[j + next..];
    }
  }

  /** Scanning on from where a scan of the first bytes stopped is scanning all of them. */
  lemma ScanAdds(s: string, t: string)
    ensures ScanLength(s) <= |s| && ScanLength(s + t) == ScanLength(s) + ScanLength((s + t)[ScanLength(s)..])
  {
    assert (s + t)[..|s|] == s;
    ScanSplit(s + t, |s|);
  }

  lemma {:induction false} ScanSplit(u: string, i: nat)
    requires i <= |u|
    ensures ScanLength(u) == ScanLength(u[..i]) + ScanLength(u[ScanLength(u[..i])..])
    decreases i
  {
    hide FirstLine, ScanLength;
    var here := u[..i];
    ScanUnfolds(here);
    if FirstLine(here).Whole? {
      var next := FirstLine(here).next;
      LineStays(u, i);
      ScanUnfolds(u);
      ScanSplit(u[next..], i - next);
      assert here[next..] == u[next..][..i - next];
      DropTwice(u, next, ScanLength(here[next..]));
    } else {
      ScanFrom(u, Find(here, 0, Eol));
    }
  }

  lemma ScanUnfolds(u: string)
    ensures FirstLine(u).Whole? ==>
              FirstLine(u).next <= |u| && ScanLength(u) == FirstLine(u).next + ScanLength(u[FirstLine(u).next..])
    ensures !FirstLine(u).Whole? ==> ScanLength(u) == Find(u, 0, Eol)
  {
  }

  lemma LineStays(u: string, i: nat)
    requires i <= |u| && FirstLine(u[..i]).Whole?
    ensures FirstLine(u) == FirstLine(u[..i]) && 0 < FirstLine(u).next <= i
  {
    FirstLineGrows(u[..i], u[i..]);
    assert u == u[..i] + u[i..];
  }

  lemma DropTwice(u: string, i: nat, j: nat)
    requires i + j <= |u|
    ensures u[i..][j..] == u[i + j..]
  {
  }

  /** What has arrived by the `j`-th of the later reads. */
  function Arrived(a: string, later: seq<string>, j: nat): string
    requires j <= |later|
  {
    a + Concat(later[..j])
  }

  /** Where the body is counted from when the `j`-th of the later reads has arrived: behind what
      parse_line scanned of the body bytes that were there before it. */
  function CountedFrom(a: string, body: nat, later: seq<string>, j: nat): (pos: nat)
    requires body <= |a| && j <= |later|
    ensures pos <= |Arrived(a, later, j)|
  {
    if j == 0 then body
    else
      ConcatLast(later, j);
      body + ScanLength(Arrived(a, later, j - 1)[body..])
  }

  /** What the body would come to when the `j`-th read has arrived, if it was pending before. */
  function FateAt(a: string, body: nat, length: int, later: seq<string>, j: nat): Fate
    requires body <= |a| && j <= |later|
  {
    BodyFate(Arrived(a, later, j), CountedFrom(a, body, later, j), length)
  }

  lemma {:induction false} ConcatLast(pieces: seq<string>, j: nat)
    requires 0 < j <= |pieces|
    ensures Concat(pieces[..j]) == Concat(pieces[..j - 1]) + pieces[j - 1]
    decreases j
  {
    if j == 1 {
      assert pieces[..1][1..] == [] && pieces[..0] == [];
    } else {
      ConcatLast(pieces[1..], j - 1);
      assert pieces[..j][1..] == pieces[1..][..j - 1] && pieces[..j - 1][1..] == pieces[1..][..j - 2];
    }
  }

  /** The first read that settles the body settles it as `fate`, or none does. */
  ghost predicate Settles(a: string, body: nat, length: int, later: seq<string>, fate: Fate)
    requires body <= |a|
  {
    if fate == Pending then forall j | 0 <= j <= |later| :: FateAt(a, body, length, later, j) == Pending
    else exists j | 0 <= j <= |later| :: SettledAt(a, body, length, later, fate, j)
  }

  ghost predicate SettledAt(a: string, body: nat, length: int, later: seq<string>, fate: Fate, j: nat)
    requires body <= |a| && j <= |later|
  {
    && FateAt(a, body, length, later, j) == fate
    && forall i | 0 <= i < j :: FateAt(a, body, length, later, i) == Pending
  }

  /** The reads from the `j`-th on, when all before it left the body pending. */
  lemma {:induction false} FateFrom(a: string, body: nat, length: int, later: seq<string>, j: nat)
    requires body <= |a| && j <= |later|
    requires forall i | 0 <= i < j :: FateAt(a, body, length, later, i) == Pending
    ensures var fate := ReadsFate(Arrived(a, later, j), CountedFrom(a, body, later, j), length, later[j..]);
      Settles(a, body, length, later, fate)
    decreases |later| - j
  {
    hide BodyFate, ScanLength, Concat, FirstLine;
    var now, pos := Arrived(a, later, j), CountedFrom(a, body, later, j);
    if FateAt(a, body, length, later, j) != Pending {
      assert SettledAt(a, body, length, later, FateAt(a, body, length, later, j), j);
    } else if j < |later| {
      NextRead(a, body, later, j);
      FateFrom(a, body, length, later, j + 1);
    }
  }

  /** One read on, the count starts where the code has moved it to. */
  lemma NextRead(a: string, body: nat, later: seq<string>, j: nat)
    requires body <= |a| && j < |later|
    ensures var now, pos := Arrived(a, later, j), CountedFrom(a, body, later, j);
      && later[j..] != [] && later[j..][0] == later[j] && later[j..][1..] == later[j + 1..]
      && Arrived(a, later, j + 1) == now + later[j]
      && CountedFrom(a, body, later, j + 1) == pos + ScanLength(now[pos..])
  {
    hide ScanLength, Concat;
    ConcatLast(later, j + 1);
    var now := Arrived(a, later, j);
    if j > 0 {
      ConcatLast(later, j);
      var before := Arrived(a, later, j - 1);
      ScanAdds(before[body..], later[j - 1]);
      assert now == before + later[j - 1];
      assert now[body..] == before[body..] + later[j - 1];
      assert now[body..][ScanLength(before[body..])..] == now[body + ScanLength(before[body..])..];
    }
  }

  /** At most one fate settles. */
  lemma SettlesOnce(a: string, body: nat, length: int, later: seq<string>, f: Fate, g: Fate)
    requires body <= |a| && Settles(a, body, length, later, f) && Settles(a, body, length, later, g)
    ensures f == g
  {
    hide FateAt;
    if f != Pending && g != Pending {
      var i :| 0 <= i <= |later| && SettledAt(a, body, length, later, f, i);
      var j :| 0 <= j <= |later| && SettledAt(a, body, length, later, g, j);
      assert i == j;
    }
  }

  /** Either no read but the last ends strictly inside the body, or from the first that does the body
      settles over the reads as it does in one run: complete, waited for, or too long. */
  ghost predicate Harmless(pieces: seq<string>)
    requires pieces != []
  {
    var k := FirstInside(pieces, 1);
    k == |pieces| ||
    var a := Concat(pieces[..k]);
    InsideBody(a) && SameFate(a, Concat(pieces), pieces[k..])
  }

  ghost predicate SameFate(a: string, input: string, later: seq<string>)
    requires InsideBody(a)
  {
    var Ready(_, headers, body) := ReadHead(a);
    var length := DeclaredLength(headers);
    body <= |input| && Settles(a, body, length, later, BodyFate(input, body, length))
  }

  lemma SameFateIs(a: string, input: string, later: seq<string>)
    requires InsideBody(a) && |a| <= |input|
    ensures var Ready(_, headers, body) := ReadHead(a);
      var length := DeclaredLength(headers);
      SameFate(a, input, later) <==> ReadsFate(a, body, length, later) == BodyFate(input, body, length)
  {
    hide ReadHead, DeclaredLength, BodyFate, ReadsFate, Settles;
    var Ready(_, headers, body) := ReadHead(a);
    var length := DeclaredLength(headers);
    assert later[..0] == [] && later[0..] == later && a + "" == a;
    FateFrom(a, body, length, later, 0);
    if Settles(a, body, length, later, BodyFate(input, body, length)) {
      SettlesOnce(a, body, length, later, ReadsFate(a, body, length, later), BodyFate(input, body, length));
    }
  }

  lemma {:induction false} ConcatSplit(pieces: seq<string>, k: nat)
    requires k <= |pieces|
    ensures Concat(pieces) == Concat(pieces[..k]) + Concat(pieces[k..])
    decreases k
  {
    if k > 0 {
      ConcatSplit(pieces[1..], k - 1);
      assert pieces[..k][1..] == pieces[1..][..k - 1] && pieces[1..][k - 1..] == pieces[k..];
    }
  }

  /** A verdict is final. */
  lemma {:induction false} ReceivePrefix(env: Env, p: Parser, a: seq<string>, b: seq<string>)
    requires p.startLine <= p.checkedIdx <= |p.buf| && Receive(env, p, a).0 != NoRequest
    ensures Receive(env, p, a + b) == Receive(env, p, a)
    decreases |a|
  {
    hide ProcessRead;
    assert (a + b)[0] == a[0] && (a + b)[1..] == a[1..] + b;
    if ProcessRead(env, Feed(p, a[0])).0 == NoRequest {
      ReceivePrefix(env, ProcessRead(env, Feed(p, a[0])).1, a[1..], b);
    }
  }

  /** With a body too long for line 258 from its first byte on the reads before the cut already end
      as one run on them does. */
  lemma HugeBody(env: Env, pieces: seq<string>, k: nat, a: string)
    requires 1 <= k < |pieces| && a == Concat(pieces[..k])
    requires forall j | 1 <= j < k :: !InsideBody(Concat(pieces[..j]))
    requires ProcessRead(env, Feed(INIT, a)).0 != NoRequest
    ensures Receive(env, INIT, pieces).0 == ProcessRead(env, Feed(INIT, a)).0
  {
    hide ProcessRead, InsideBody;
    var first := pieces[..k];
    forall j | 1 <= j < k ensures !InsideBody(Concat(first[..j])) {
      assert first[..j] == pieces[..j];
    }
    ChunkIndependence(env, first);
    ReceivePrefix(env, INIT, first, pieces[k..]);
    assert first + pieces[k..] == pieces;
  }

  /** What the connection decides when the `k`-th read is the first to end strictly inside the body
      and `a` is what has arrived by then. */
  lemma DirtyCut(env: Env, pieces: seq<string>, k: nat, a: string)
    requires 1 <= k < |pieces| && a == Concat(pieces[..k])
    requires forall j | 1 <= j < k :: !InsideBody(Concat(pieces[..j]))
    requires InsideBody(a) && |Concat(pieces)| < env.readSize <= INT_MAX
    ensures var Ready(url, headers, body) := ReadHead(a);
      Receive(env, INIT, pieces).0 == Outcome(env, url, ReadsFate(a, body, DeclaredLength(headers), pieces[k..]))
  {
    hide ProcessRead, ReadHead, DeclaredLength, Represents, ScanLength, WholeLines, Serve, InBody, BodyFate;
    var later := pieces[k..];
    var Ready(url, headers, body) := ReadHead(a);
    ConcatSplit(pieces, k);
    var r := FirstRead(env, a);
    BodyReads(env, r, a, url, headers, later);
    if BodyEnd(a) <= INT_MAX {
      CleanPrefix(env, pieces, k);
      assert ([a] + later)[1..] == later;
    } else {
      FateTooLong(a, body, DeclaredLength(headers), later);
      BodyRead(env, r, a, url, headers);
      HugeBody(env, pieces, k, a);
    }
  }

  lemma FateTooLong(a: string, body: nat, length: int, later: seq<string>)
    requires body <= |a| <= INT_MAX && body + length > INT_MAX && |a| < body + length
    ensures BodyFate(a, body, length) == ReadsFate(a, body, length, later) == Overflow
  {
  }

  /** Exactly when the cutting matters, for every input and every cutting into reads: the connection
      reaches the verdict of one run on all the input if and only if the cutting is harmless. */
  lemma CutsMatterExactly(env: Env, pieces: seq<string>)
    requires pieces != [] && |Concat(pieces)| < env.readSize <= INT_MAX
    ensures Receive(env, INIT, pieces).0 == ProcessRead(env, Feed(INIT, Concat(pieces))).0 <==> Harmless(pieces)
  {
    hide Receive, ProcessRead, InsideBody, ReadHead, DeclaredLength, ReadsFate, BodyFate, Represents, Holds;
    hide UrlStart, CutAt, Serve;
    var k := FirstInside(pieces, 1);
    FirstInsideIs(pieces, 1);
    ConcatSplit(pieces, k);
    if k == |pieces| {
      assert pieces[..k] == pieces;
      ChunkIndependence(env, pieces);
    } else {
      var a := Concat(pieces[..k]);
      InsideReady(a, Concat(pieces[k..]));
      DirtyCut(env, pieces, k, a);
      SameFateIs(a, Concat(pieces), pieces[k..]);
      RunRefinesReference(env, Concat(pieces));
      OutcomesDiffer(env, ReadHead(a).url);
    }
  }

  lemma InsideReady(a: string, more: string)
    requires InsideBody(a)
    ensures ReadHead(a).Ready? && ReadHead(a + more) == ReadHead(a) && DeclaredLength(ReadHead(a).headers) > 0
  {
    hide ReadHead, DeclaredLength;
    ReadHeadGrows(a, more);
  }

  lemma OutcomesDiffer(env: Env, url: string)
    ensures forall f, g :: Outcome(env, url, f) == Outcome(env, url, g) ==> f == g
  {
  }

  /** For a length that cannot overflow there are two ways to be harmless: the input is shorter than
      declared, or by some read as many bytes have arrived as were declared and as parse_line had
      scanned of the body before it. */
  lemma HarmlessIfShort(a: string, later: seq<string>)
    requires InsideBody(a) && BodyEnd(a) + |a + Concat(later)| <= INT_MAX
    ensures SameFate(a, a + Concat(later), later)
      <==> |a + Concat(later)| < BodyEnd(a) || exists j | 0 < j <= |later| :: InTime(a, later, j)
  {
    hide ReadHead, DeclaredLength, ScanLength, WholeLines, FateAt, Arrived, CountedFrom, CompleteAt, InTime;
    var Ready(_, headers, body) := ReadHead(a);
    var length, input := DeclaredLength(headers), a + Concat(later);
    ShortInput(input, body, length);
    forall j | 0 <= j <= |later|
      ensures FateAt(a, body, length, later, j) == if CompleteAt(a, body, length, later, j) then Complete else Pending
      ensures CompleteAt(a, body, length, later, j) ==> |input| >= body + length && j > 0
      ensures j > 0 ==> (CompleteAt(a, body, length, later, j) <==> InTime(a, later, j))
    {
      ShortFate(a, body, length, later, j);
      if j > 0 { InTimeIs(a, later, j); }
    }
    if j :| 0 <= j <= |later| && CompleteAt(a, body, length, later, j) {
      var first := FirstComplete(a, body, length, later, j);
      assert SettledAt(a, body, length, later, Complete, first);
      assert InTime(a, later, j);
    }
  }

  /** By the `j`-th read as many bytes have arrived as were declared, and as had been scanned. */
  predicate InTime(a: string, later: seq<string>, j: nat)
    requires InsideBody(a) && 0 < j <= |later|
  {
    var before := Arrived(a, later, j - 1);
    ReadHead(a).body <= |before| && |Arrived(a, later, j)| >= BodyEnd(a) + ScanLength(before[ReadHead(a).body..])
  }

  lemma InTimeIs(a: string, later: seq<string>, j: nat)
    requires InsideBody(a) && 0 < j <= |later|
    ensures var Ready(_, headers, body) := ReadHead(a);
      InTime(a, later, j) <==> CompleteAt(a, body, DeclaredLength(headers), later, j)
  {
    hide ReadHead, DeclaredLength, ScanLength;
  }

  lemma ShortInput(input: string, body: nat, length: int)
    requires body <= |input| && body + length + |input| <= INT_MAX
    ensures BodyFate(input, body, length) == if |input| >= body + length then Complete else Pending
  {
    hide WholeLines;
    assert WholeLines(input[body..]) <= |input|;
  }

  predicate CompleteAt(a: string, body: nat, length: int, later: seq<string>, j: nat)
    requires body <= |a| && j <= |later|
  {
    |Arrived(a, later, j)| >= CountedFrom(a, body, later, j) + length
  }

  lemma ShortFate(a: string, body: nat, length: int, later: seq<string>, j: nat)
    requires body < |a| < body + length && j <= |later| && body + length + |a + Concat(later)| <= INT_MAX
    ensures FateAt(a, body, length, later, j) == if CompleteAt(a, body, length, later, j) then Complete else Pending
    ensures CompleteAt(a, body, length, later, j) ==> |a + Concat(later)| >= body + length && j > 0
  {
    hide ScanLength, WholeLines;
    ConcatSplit(later, j);
    var now, pos := Arrived(a, later, j), CountedFrom(a, body, later, j);
    assert WholeLines(now[pos..]) <= |now| - pos;
    if j == 0 { assert now == a by { assert later[..0] == []; } }
  }

  lemma {:induction false} FirstComplete(a: string, body: nat, length: int, later: seq<string>, j: nat)
    returns (first: nat)
    requires body <= |a| && j <= |later| && CompleteAt(a, body, length, later, j)
    ensures first <= j && CompleteAt(a, body, length, later, first)
    ensures forall i | 0 <= i < first :: !CompleteAt(a, body, length, later, i)
    decreases j
  {
    hide CompleteAt;
    if i :| 0 <= i < j && CompleteAt(a, body, length, later, i) {
      first := FirstComplete(a, body, length, later, i);
    } else {
      first := j;
    }
  }

  /** The law does fail: a body of two bytes that arrive one by one is never served, though the
      request is answered when they arrive together. */
  lemma SplitBody(env: Env, url: string, host: string, first: char, second: char)
    requires PlainUrl(url) && Plain(host) && (host != "" ==> !Has(Blank, host[0])) && !Has(Eol, first)
    requires |PrintHead(url, StandardHeaders(host, true, 2))| + 2 < env.readSize <= INT_MAX - 2
    ensures var head := PrintHead(url, StandardHeaders(host, true, 2));
      && Receive(env, INIT, [head + [first] + [second]]).0 == Serve(env, url)
      && Receive(env, INIT, [head + [first], [second]]).0 == NoRequest
  {
    hide Receive, ProcessRead, ReadHead, PrintHead, StandardHeaders, DeclaredLength, KeepsAlive, LastValue, Serve;
    hide Represents, Holds, UrlStart;
    var headers := StandardHeaders(host, true, 2);
    var head := PrintHead(url, headers);
    var a, pieces := head + [first], [head + [first], [second]];
    StandardPlain(host, true, 2);
    StandardMeaning(host, true, 2);
    HeadRoundTrip(url, headers, [first]);
    ConcatTwo(a, [second]);
    DirtyCut(env, pieces, 1, a);
    assert pieces[1..] == [[second]];
    assert a[|head|..] == [first];
    OneByteFate(a, a + [second], |head|, first, [second]);
    ReceiveOne(env, a + [second]);
    ReadHeadGrows(a, [second]);
    RunRefinesReference(env, a + [second]);
  }

  lemma OneByteFate(a: string, input: string, pos: nat, first: char, second: string)
    requires pos + 1 == |a| && a[pos..] == [first] && !Has(Eol, first) && |second| == 1 && input == a + second
    requires |input| < INT_MAX
    ensures ReadsFate(a, pos, 2, [second]) == Pending && BodyFate(input, pos, 2) == Complete
  {
    FindIs([first], 0, Eol, 1);
    assert ScanLength([first]) == 1 && WholeLines([first]) == 0;
    var now := a + second;
    assert now[pos + 1..] == second;
    assert [second][1..] == [];
    assert ReadsFate(now, pos + 1, 2, []) == BodyFate(now, pos + 1, 2);
    OneByteLines(second);
  }

  lemma OneByteLines(s: string)
    requires |s| == 1
    ensures WholeLines(s) == 0
  {
  }

  lemma ConcatTwo(a: string, b: string)
    ensures Concat([a, b][..1]) == a && Concat([a, b]) == a + b
  {
    assert [a, b][..1] == [a] && [a][1..] == [] && [a, b][1..] == [b] && [b][1..] == [];
    assert Concat([b]) == b;
  }

  lemma ReceiveOne(env: Env, a: string)
    ensures Receive(env, INIT, [a]).0 == ProcessRead(env, Feed(INIT, a)).0
  {
    hide ProcessRead;
    assert [a][1..] == [];
  }
}
