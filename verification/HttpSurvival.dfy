/** What becomes of the URL and the host while the rest of a request arrives. */
module HttpSurvival {
  import opened CStrings
  import opened HttpParser
  import opened HttpChunks

  lemma {:induction false} ReceiveKeeps(env: Env, p: Parser, pieces: seq<string>)
    requires Valid(p)
    ensures Kept(p, Receive(env, p, pieces).1)
    decreases |pieces|
  {
    hide ProcessRead, Kept;
    KeptRefl(p, "");
    if pieces != [] {
      var p' := Feed(p, pieces[0]);
      KeptRefl(p, pieces[0]);
      ValidFeed(p, pieces[0]);
      RunStays(env, p');
      var (v, q) := ProcessRead(env, p');
      KeptTrans(p, p', q);
      if v == NoRequest {
        ReceiveKeeps(env, q, pieces[1..]);
        KeptTrans(p, q, Receive(env, q, pieces[1..]).1);
      }
    }
  }

  /** The invariant between reads: a connection waits for a body only if one was declared. */
  ghost predicate Idle(p: Parser) {
    Valid(p) && (p.state == Content ==> p.contentLength > 0)
  }

  /** Every byte before `bound` is kept, but for a NUL at `at`. */
  ghost predicate KeptBut(p: Parser, q: Parser, bound: nat, at: int) {
    && bound <= |p.buf| && bound <= |q.buf|
    && forall i | 0 <= i < bound :: q.buf[i] == if i == at then '\0' else p.buf[i]
  }

  /** Where line 260 has written when a negative length was declared, if it was reached and that is a
      place in m_read_buf. */
  function WrittenAt(env: Env, q: Parser): int {
    var at := q.startLine + q.contentLength;
    if NegativeBody(q) && q.checkedIdx + q.contentLength <= INT_MAX && at < env.readSize then at else -1
  }

  /** The turn that enters the body state goes straight on to parse_content. */
  lemma NegativeTurn(env: Env, p: Parser)
    requires Valid(p) && NegativeBody(p) && p.startLine == p.checkedIdx
    ensures var q := Run(env, p, LineOk).1;
      q.startLine == p.startLine && NegativeBody(q) && KeptBut(p, q, p.startLine, WrittenAt(env, q))
    ensures Run(env, p, LineOk).0 != NoRequest
  {
    hide Serve, CStrAt;
    var q := p.(startLine := p.checkedIdx);
    var r := ParseContent(env, q, p.startLine).1;
    assert LoopBody(env, p).1 == r && LoopBody(env, p).0.Return?;
  }

  /** A header turn writes nothing before the current line, and enters the body state only for a
      length other than 0. */
  lemma HeaderTurn(env: Env, p: Parser)
    requires Valid(p) && p.state == Header && ParseLine(p).0 == LineOk
    ensures var q := ParseLine(p).1;
      var (turn, r) := LoopBody(env, q);
      && p.startLine <= r.startLine == r.checkedIdx <= |r.buf| == |p.buf| && p.checkedIdx < r.checkedIdx
      && r.buf[..p.startLine] == p.buf[..p.startLine]
      && (turn.Return? ==> r.state == Header)
      && (turn.Again? ==> turn.ls == LineOk && Valid(r) && r.state != RequestLine)
      && (r.state == Content ==> r.contentLength != 0)
  {
    hide ParseHeaders, DoRequest;
    var q := ParseLine(p).1;
    ParseLineKeeps(p);
    ParseLineCuts(p);
    LoopBodyKeeps(env, q);
    LoopBodyFrame(env, q);
    HeadersKeep(q.(startLine := q.checkedIdx), q.startLine);
    assert q.buf[..p.startLine] == p.buf[..p.startLine];
  }

  lemma KeptTo(p: Parser, r: Parser, q: Parser, at: int)
    requires p.startLine <= r.startLine <= |r.buf| && p.startLine <= |p.buf|
    requires r.buf[..p.startLine] == p.buf[..p.startLine] && KeptBut(r, q, r.startLine, at)
    ensures KeptBut(p, q, p.startLine, at)
  {
    assert forall i | 0 <= i < p.startLine :: p.buf[i] == p.buf[..p.startLine][i] == r.buf[i];
  }

  lemma KeptNone(p: Parser, q: Parser)
    requires p.startLine <= |p.buf| && p.startLine <= |q.buf| && q.buf[..p.startLine] == p.buf[..p.startLine]
    ensures KeptBut(p, q, p.startLine, -1)
  {
    assert forall i | 0 <= i < p.startLine :: p.buf[i] == p.buf[..p.startLine][i] == q.buf[i];
  }

  /** A run keeps every byte before the line it starts in, but for the one line 260 writes for a
      negative length, and it ends with NO_REQUEST inside a body only if one was declared. */
  lemma {:induction false} RunKeepsBut(env: Env, p: Parser, ls: LineStatus)
    requires Valid(p) && p.state != RequestLine
    requires NegativeBody(p) ==> ls == LineOk && p.startLine == p.checkedIdx
    requires p.state == Content ==> p.contentLength != 0
    ensures var (v, q) := Run(env, p, ls);
      KeptBut(p, q, p.startLine, WrittenAt(env, q)) && (v == NoRequest ==> Idle(q))
    decreases |p.buf| - p.checkedIdx
  {
    hide ParseLine, LoopBody, CStrAt, KeptBut;
    RunKeeps(env, p, ls);
    var (v, q) := Run(env, p, ls);
    if NegativeBody(p) {
      NegativeTurn(env, p);
    } else if p.state == Header && ParseLine(p).0 == LineOk {
      HeaderTurn(env, p);
      var (turn, r) := LoopBody(env, ParseLine(p).1);
      if turn.Again? {
        RunKeepsBut(env, r, LineOk);
        KeptTo(p, r, q, WrittenAt(env, q));
      } else {
        KeptNone(p, q);
      }
    } else {
      if p.state == Header { ParseLineCuts(p); }
      KeptNone(p, q);
    }
  }

  lemma {:induction false} ReceiveKeepsBut(env: Env, p: Parser, pieces: seq<string>)
    requires Idle(p) && p.state != RequestLine
    ensures var q := Receive(env, p, pieces).1; KeptBut(p, q, p.startLine, WrittenAt(env, q))
    decreases |pieces|
  {
    hide Run, KeptBut, Kept;
    if pieces == [] {
      KeptNone(p, p);
    } else {
      var p' := Feed(p, pieces[0]);
      ValidFeed(p, pieces[0]);
      RunKeepsBut(env, p', LineOk);
      RunStays(env, p');
      var (v, r) := ProcessRead(env, p');
      var q := Receive(env, p, pieces).1;
      assert p'.buf[..p.startLine] == p.buf[..p.startLine];
      if v == NoRequest {
        StillHeader(env, p', r);
        ReceiveKeepsBut(env, r, pieces[1..]);
        IdleWrites(env, r);
        KeptBoth(p', r, q, WrittenAt(env, q));
        KeptTo(p, p', q, WrittenAt(env, q));
      } else {
        KeptTo(p, p', r, WrittenAt(env, r));
      }
    }
  }

  lemma StillHeader(env: Env, p: Parser, r: Parser)
    requires Kept(p, r) && p.state != RequestLine
    ensures r.state != RequestLine && p.startLine <= r.startLine
  {
  }

  lemma IdleWrites(env: Env, r: Parser)
    requires Idle(r)
    ensures WrittenAt(env, r) == -1
  {
  }

  lemma KeptBoth(p: Parser, r: Parser, q: Parser, at: int)
    requires KeptBut(p, r, p.startLine, -1) && KeptBut(r, q, r.startLine, at) && p.startLine <= r.startLine
    ensures KeptBut(p, q, p.startLine, at)
  {
  }

  /** Later parsing and earlier results: once the request line is accepted, whatever arrives and in
      whatever reads, m_url keeps its place, and its string is what it was, cut where line 260 writes
      if a negative length was declared. So it changes if and only if that byte falls inside it. The
      string at m_host fares the same until another Host header moves the pointer. */
  lemma UrlSurvives(env: Env, p: Parser, pieces: seq<string>)
    requires Idle(p) && p.state != RequestLine
    ensures var q := Receive(env, p, pieces).1;
      var at, url := WrittenAt(env, q), CStrAt(p.buf, p.url.off);
      && q.url == p.url && EndsBefore(p.buf, p.url.off, p.startLine)
      && CStrAt(q.buf, q.url.off) == CutAt(url, p.url.off, at)
      && (CStrAt(q.buf, q.url.off) != url <==> p.url.off <= at < p.url.off + |url|)
      && (q.host.At? && q.host == p.host ==>
            CStrAt(q.buf, q.host.off) == CutAt(CStrAt(p.buf, p.host.off), p.host.off, at))
  {
    ReceiveKeeps(env, p, pieces);
    ReceiveKeepsBut(env, p, pieces);
    var q := Receive(env, p, pieces).1;
    NulCuts(p.buf, q.buf, p.url.off, p.startLine, WrittenAt(env, q));
    if p.host.At? {
      NulCuts(p.buf, q.buf, p.host.off, p.startLine, WrittenAt(env, q));
    }
  }

  /** Every state between two reads of a fresh connection is one of those. */
  lemma {:induction false} IdleBetween(env: Env, p: Parser, pieces: seq<string>)
    requires Idle(p) && Receive(env, p, pieces).0 == NoRequest
    ensures Idle(Receive(env, p, pieces).1)
    decreases |pieces|
  {
    hide Run;
    if pieces != [] {
      ValidFeed(p, pieces[0]);
      RunIdle(env, Feed(p, pieces[0]));
      IdleBetween(env, ProcessRead(env, Feed(p, pieces[0])).1, pieces[1..]);
    }
  }

  lemma RunIdle(env: Env, p: Parser)
    requires Idle(p) && ProcessRead(env, p).0 == NoRequest
    ensures Idle(ProcessRead(env, p).1)
  {
    hide ParseLine, LoopBody, ParseRequestLine;
    if p.state != RequestLine {
      RunKeepsBut(env, p, LineOk);
    } else {
      RunKeeps(env, p, LineOk);
      RunTurn(env, p);
      if ParseLine(p).0 == LineOk {
        RequestTurn(env, p);
        var r := LoopBody(env, ParseLine(p).1).1;
        RunKeepsBut(env, r, LineOk);
      } else {
        ParseLineCuts(p);
      }
    }
  }

  lemma RequestTurn(env: Env, p: Parser)
    requires Valid(p) && p.state == RequestLine && ParseLine(p).0 == LineOk
    ensures var (turn, r) := LoopBody(env, ParseLine(p).1);
      turn.Again? ==> Valid(r) && r.state == Header
  {
    hide ParseRequestLine;
    var q := ParseLine(p).1;
    ParseLineKeeps(p);
    LoopBodyKeeps(env, q);
    RequestLineKeeps(q.(startLine := q.checkedIdx), q.startLine);
  }
}
