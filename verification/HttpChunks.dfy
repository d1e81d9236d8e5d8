/** How the bytes are cut into reads does not matter, and what the parser makes of them. */
module HttpChunks {
  import opened CStrings
  import opened HttpParser
  import opened HttpFeed
  import opened HttpReference

  lemma RepresentsStable(p: Parser, q: Parser, url: string, headers: seq<string>)
    requires Pointers(p) && p.state != RequestLine && Represents(p, url, headers) && p.startLine <= |p.buf|
    requires p.startLine <= |q.buf| && q.buf[..p.startLine] == p.buf[..p.startLine]
    requires q.url == p.url && q.host == p.host && q.linger == p.linger && q.contentLength == p.contentLength
    ensures Represents(q, url, headers)
  {
    hide CStrAt, KeepsAlive, LastValue;
    CStrAtStable(p.buf, q.buf, p.url.off, p.startLine);
    if p.host.At? {
      CStrAtStable(p.buf, q.buf, p.host.off, p.startLine);
    }
  }

  lemma RepresentsMoved(p: Parser, q: Parser, url: string, headers: seq<string>)
    requires Represents(p, url, headers) && q.buf == p.buf
    requires q.url == p.url && q.host == p.host && q.linger == p.linger && q.contentLength == p.contentLength
    ensures Represents(q, url, headers)
  {
  }

  lemma HeaderGoesOn(p: Parser, text: nat)
    requires text <= |p.buf| && CStrAt(p.buf, text) != ""
    ensures ParseHeaders(p, text).0 == NoRequest && ParseHeaders(p, text).1.state == p.state
  {
    hide CStrAt, EqNoCase, SkipBlanks, AtolInt;
  }

  /** The blank line serves the request when no body is declared. */
  lemma BlankLine(env: Env, p: Parser, text: nat, url: string, headers: seq<string>)
    requires text <= |p.buf| && CStrAt(p.buf, text) == "" && p.verb == GET && Represents(p, url, headers)
    ensures var (ret, q) := ParseHeaders(p, text);
      if DeclaredLength(headers) == 0 then ret == GetRequest && q == p && DoRequest(env, q) == Serve(env, url)
      else ret == NoRequest && q == p.(state := Content) && Represents(q, url, headers)
  {
    hide CStrAt, KeepsAlive, LastValue, DeclaredLength, Serve;
  }

  /** One header line: the blank line ends the head, any other line is folded into the fields. */
  lemma HeaderStep(env: Env, p: Parser, url: string, headers: seq<string>)
    requires Valid(p) && p.state == Header && Represents(p, url, headers) && ParseLine(p).0 == LineOk
    ensures var q := ParseLine(p).1;
      var line := CStrAt(q.buf, p.startLine);
      var (turn, r) := LoopBody(env, q);
      && r.buf == q.buf && r.startLine == r.checkedIdx == q.checkedIdx && Valid(r) && r.url == p.url
      && (if line != "" then
            turn == Again(LineOk) && r.state == Header && Represents(r, url, headers + [line])
          else if DeclaredLength(headers) == 0 then
            turn == Return(Serve(env, url)) && r.state == Header && Represents(r, url, headers)
          else turn == Again(LineOk) && r.state == Content && Represents(r, url, headers))
  {
    hide ParseLine, CStrAt, KeepsAlive, LastValue, DeclaredLength, Serve, ParseHeaders, Represents, Pointers;
    var q := ParseLine(p).1;
    Positions(p);
    PointersSay(p);
    ParseLineKeeps(p);
    ParseLineFrame(p);
    RepresentsStable(p, q, url, headers);
    var q' := q.(startLine := q.checkedIdx);
    EndsInside(q'.buf, p.startLine, q'.startLine);
    HeadersKeep(q', p.startLine);
    LoopBodyKeeps(env, q);
    RepresentsMoved(q, q', url, headers);
    if CStrAt(q'.buf, p.startLine) != "" {
      HeaderMatches(q', p.startLine, url, headers);
      HeaderGoesOn(q', p.startLine);
    } else {
      BlankLine(env, q', p.startLine, url, headers);
      PointersStable(q, q');
    }
  }

  // ---- one cut ----

  /** `w` is `q` with further bytes received and nothing that was received before changed. */
  ghost predicate Extends(w: Parser, q: Parser, more: string) {
    w == q.(buf := w.buf) && |w.buf| == |q.buf| + |more| && q.buf <= w.buf
  }

  /** Running on what `p` holds and again once `more` arrives, or once with `more` from the start:
      the same verdict and the same fields. */
  ghost predicate Resumes(env: Env, p: Parser, more: string)
    requires p.startLine <= p.checkedIdx <= |p.buf|
  {
    var (v, q) := ProcessRead(env, p);
    var whole := ProcessRead(env, Feed(p, more));
    if v == NoRequest then ProcessRead(env, Feed(q, more)) == whole
    else whole.0 == v && Extends(whole.1, q, more)
  }

  /** The bytes received end strictly inside the body of a complete head. */
  predicate CutsBody(head: Head, received: nat) {
    head.Ready? && head.body < received < head.body + DeclaredLength(head.headers)
  }

  predicate InsideBody(input: string) {
    CutsBody(ReadHead(input), |input|)
  }

  /** The terminator written with and without more bytes behind it. */
  lemma WrittenAlike(p: Parser, r: string, w: string, at: nat, more: string)
    requires Pointers(p) && p.state != RequestLine && p.startLine <= |p.buf|
    requires r == (if at < |p.buf| then p.buf[at := '\0'] else p.buf)
    requires w == (if at < |p.buf + more| then (p.buf + more)[at := '\0'] else p.buf + more)
    requires at <= |p.buf|
    ensures r <= w && w[..p.startLine] == r[..p.startLine] && EndsBefore(r, p.url.off, p.startLine)
  {
    assert r[Find(p.buf, p.url.off, Nul)] == '\0';
  }

  lemma SameLookup(env: Env, p: Parser, r: Parser, w: Parser)
    requires p.url.At? && p.startLine <= |r.buf| && p.startLine <= |w.buf| && w.url == r.url == p.url
    requires EndsBefore(r.buf, p.url.off, p.startLine) && w.buf[..p.startLine] == r.buf[..p.startLine]
    ensures DoRequest(env, w) == DoRequest(env, r)
  {
    hide Serve;
    CStrAtStable(r.buf, w.buf, p.url.off, p.startLine);
  }

  /** A complete body: the verdict does not depend on what follows it. */
  lemma ContentDone(env: Env, p: Parser, more: string)
    requires Valid(p) && p.state == Content
    requires p.contentLength + p.checkedIdx <= |p.buf| || p.contentLength + p.checkedIdx > INT_MAX
    ensures ProcessRead(env, p).0 != NoRequest && Resumes(env, p, more)
  {
    hide DoRequest, Pointers, Scanned;
    Positions(p);
    PointersSay(p);
    var q := p.(startLine := p.checkedIdx);
    var at := p.startLine + p.contentLength;
    if p.contentLength + p.checkedIdx <= INT_MAX && 0 <= at < env.readSize {
      var r := ParseContent(env, q, p.startLine).1;
      var w := ParseContent(env, Feed(q, more), p.startLine).1;
      assert LoopBody(env, p) == (Return(DoRequest(env, r)), r);
      assert LoopBody(env, Feed(p, more)) == (Return(DoRequest(env, w)), w);
      WrittenAlike(p, r.buf, w.buf, at, more);
      SameLookup(env, p, r, w);
    }
  }

  lemma ContentResumes(env: Env, p: Parser, more: string)
    requires Valid(p) && p.state == Content && p.startLine == p.checkedIdx && p.contentLength != 0
    requires !(p.checkedIdx < |p.buf| < p.checkedIdx + p.contentLength)
    ensures Resumes(env, p, more)
  {
    if p.checkedIdx + p.contentLength <= |p.buf| || p.checkedIdx + p.contentLength > INT_MAX {
      ContentDone(env, p, more);
    } else {
      assert LoopBody(env, p) == (Again(LineOpen), p);
      assert ParseLine(p) == (LineOpen, p);
      assert Run(env, p, LineOpen) == (NoRequest, p);
    }
  }

  /** The loop turns once: unfolding of Run outside the body. */
  lemma RunTurn(env: Env, p: Parser)
    requires Scanned(p) && p.state != Content
    ensures var (ls, q) := ParseLine(p);
      ls != LineOk ==> ProcessRead(env, p) == (NoRequest, q)
    ensures var (ls, q) := ParseLine(p);
      ls == LineOk ==>
        var (turn, r) := LoopBody(env, q);
        ProcessRead(env, p) == if turn.Return? then (turn.v, r) else ProcessRead(env, r)
  {
    hide LoopBody;
  }

  lemma ScannedFeed(p: Parser, more: string)
    requires Scanned(p)
    ensures Scanned(Feed(p, more)) && Feed(p, more).startLine <= Feed(p, more).checkedIdx <= |Feed(p, more).buf|
  {
  }

  lemma ResumesTurn(env: Env, p: Parser, more: string)
    requires Valid(p) && p.state != Content
    requires ParseLine(p).0 == LineOk ==>
      var q := ParseLine(p).1;
      var (turn, r) := LoopBody(env, q);
      turn.Again? ==> Resumes(env, r, more)
    ensures Resumes(env, p, more)
  {
    hide ParseLine, LoopBody, ProcessRead, Scanned, Pointers;
    Positions(p);
    ParseLineFeed(p, more);
    ParseLineKeeps(p);
    ParseLineFrame(p);
    RunTurn(env, p);
    var (ls, q) := ParseLine(p);
    ScannedFeed(p, more);
    RunTurn(env, Feed(p, more));
    if ls == LineOk {
      LoopBodyFeed(env, q, more);
      assert LoopBody(env, q).1.buf <= LoopBody(env, q).1.buf + more;
    } else {
      if ls == LineBad { BadLineStays(p, more); }
      ScannedFeed(q, more);
      RunTurn(env, Feed(q, more));
    }
  }

  lemma ReadHeadersStep(p: Parser, url: string, headers: seq<string>)
    requires Scanned(p)
    ensures var head := ReadHeaders(p.buf[p.startLine..], p.startLine, url, headers);
      var (ls, q) := ParseLine(p);
      match ls
      case LineOpen => head == Waiting
      case LineBad => head == Jammed
      case LineOk =>
        var line := CStrAt(q.buf, p.startLine);
        head == if line == "" then Ready(url, headers, q.checkedIdx)
                else ReadHeaders(q.buf[q.checkedIdx..], q.checkedIdx, url, headers + [line])
  {
    hide ParseLine, CStrAt, CStr, FirstLine;
    LineStatusMatches(p);
    if ParseLine(p).0 == LineOk {
      LineMatches(p);
    }
  }

  lemma HeadersResume(env: Env, p: Parser, url: string, headers: seq<string>, more: string)
    requires Valid(p) && p.state == Header && Represents(p, url, headers)
    requires !CutsBody(ReadHeaders(p.buf[p.startLine..], p.startLine, url, headers), |p.buf|)
    ensures Resumes(env, p, more)
    decreases |p.buf| - p.startLine
  {
    hide ParseLine, LoopBody, CStrAt, KeepsAlive, LastValue, Serve, Resumes, ReadHeaders;
    var (ls, q) := ParseLine(p);
    if ls == LineOk {
      ParseLineKeeps(p);
      ReadHeadersStep(p, url, headers);
      HeaderStep(env, p, url, headers);
      var (turn, r) := LoopBody(env, q);
      var line := CStrAt(q.buf, p.startLine);
      if line != "" {
        HeadersResume(env, r, url, headers + [line], more);
      } else if turn.Again? {
        ContentResumes(env, r, more);
      }
    }
    ResumesTurn(env, p, more);
  }

  /** The first line of a fresh connection. */
  lemma FirstStep(env: Env, p: Parser)
    requires Valid(p) && p.state == RequestLine && ParseLine(p).0 == LineOk
    requires p.host.Null? && p.contentLength == 0 && !p.linger
    ensures var q := ParseLine(p).1;
      var (turn, r) := LoopBody(env, q);
      && r.startLine == r.checkedIdx == q.checkedIdx && |r.buf| == |q.buf|
      && match RequestTarget(CStrAt(q.buf, p.startLine))
         case None => turn == Return(BadRequest)
         case Some(url) =>
           && turn == Again(LineOk) && Valid(r) && r.state == Header && Represents(r, url, [])
           && r.buf[r.startLine..] == q.buf[q.checkedIdx..]
           && r.url == At(p.startLine + TargetStart(CStrAt(q.buf, p.startLine)))
  {
    hide ParseLine, CStrAt, ParseRequestLine, RequestTarget, TargetStart;
    var q := ParseLine(p).1;
    ParseLineKeeps(p);
    ParseLineCuts(p);
    var q' := q.(startLine := q.checkedIdx);
    EndsInside(q'.buf, p.startLine, q'.startLine);
    RequestLineMatches(q', p.startLine);
    RequestLineKeeps(q', p.startLine);
    LoopBodyKeeps(env, q);
  }

  lemma FreshValid(input: string)
    ensures Valid(Feed(INIT, input))
  {
  }

  lemma ReadHeadStep(p: Parser)
    requires Scanned(p) && p.startLine == 0
    ensures match ParseLine(p).0
      case LineOpen => ReadHead(p.buf) == Waiting
      case LineBad => ReadHead(p.buf) == Jammed
      case LineOk =>
        var q := ParseLine(p).1;
        match RequestTarget(CStrAt(q.buf, 0))
        case None => ReadHead(p.buf) == Rejected
        case Some(url) =>
          && ReadHead(p.buf) == ReadHeaders(q.buf[q.checkedIdx..], q.checkedIdx, url, [])
          && UrlStart(p.buf) == TargetStart(CStrAt(q.buf, 0))
  {
    hide ParseLine, CStrAt, CStr, RequestTarget, TargetStart, ReadHeaders, FirstLine;
    assert p.buf[0..] == p.buf;
    LineStatusMatches(p);
    if ParseLine(p).0 == LineOk {
      LineMatches(p);
    }
  }

  /** A cut anywhere but strictly inside the body can be undone. */
  lemma CutResumes(env: Env, input: string, more: string)
    requires !InsideBody(input)
    ensures Resumes(env, Feed(INIT, input), more)
  {
    hide ParseLine, LoopBody, Resumes, ReadHead, ReadHeaders, RequestTarget, CStrAt;
    hide DeclaredLength, CutsBody, Represents;
    var p := Feed(INIT, input);
    assert p.buf == input;
    FreshValid(input);
    ReadHeadStep(p);
    if ParseLine(p).0 == LineOk {
      var q := ParseLine(p).1;
      FirstStep(env, p);
      match RequestTarget(CStrAt(q.buf, 0))
      case None =>
      case Some(url) => HeadersResume(env, LoopBody(env, q).1, url, [], more);
    }
    ResumesTurn(env, p, more);
  }

  // ---- any number of cuts ----

  function Concat(pieces: seq<string>): string {
    if pieces == [] then "" else pieces[0] + Concat(pieces[1..])
  }

  /** A connection that receives `pieces` one read at a time and runs process_read after each,
      up to the first verdict other than NO_REQUEST. */
  function Receive(env: Env, p: Parser, pieces: seq<string>): (r: (Verdict, Parser))
    requires p.startLine <= p.checkedIdx <= |p.buf|
    ensures r.1.startLine <= r.1.checkedIdx <= |r.1.buf|
    decreases |pieces|
  {
    if pieces == [] then (NoRequest, p)
    else
      var (v, q) := ProcessRead(env, Feed(p, pieces[0]));
      if v != NoRequest then (v, q) else Receive(env, q, pieces[1..])
  }

  /** No read but the last ends strictly inside the body. */
  ghost predicate CleanCuts(pieces: seq<string>) {
    forall k | 1 <= k < |pieces| :: !InsideBody(Concat(pieces[..k]))
  }

  lemma {:induction false} ConcatMerge(a: string, b: string, rest: seq<string>, k: nat)
    requires 1 <= k <= |rest| + 1
    ensures Concat(([a + b] + rest)[..k]) == Concat(([a, b] + rest)[..k + 1])
  {
    var few := rest[..k - 1];
    assert ([a + b] + rest)[..k] == [a + b] + few;
    assert ([a, b] + rest)[..k + 1] == [a] + ([b] + few);
    ConcatCons(a + b, few);
    ConcatCons(a, [b] + few);
    ConcatCons(b, few);
    assert (a + b) + Concat(few) == a + (b + Concat(few));
  }

  lemma ConcatCons(a: string, rest: seq<string>)
    ensures Concat([a] + rest) == a + Concat(rest)
  {
    assert ([a] + rest)[1..] == rest;
  }

  /** Chunk independence: however the input is cut into reads, if no cut falls strictly inside the
      body the connection reaches the verdict and the fields of one run on all the input. */
  lemma {:induction false} ChunkIndependence(env: Env, pieces: seq<string>)
    requires pieces != [] && CleanCuts(pieces)
    ensures var (v, q) := Receive(env, INIT, pieces);
      var (v', w) := ProcessRead(env, Feed(INIT, Concat(pieces)));
      v == v' && exists more :: Extends(w, q, more)
    decreases |pieces|
  {
    hide ProcessRead, InsideBody;
    var a := pieces[0];
    var p := Feed(INIT, a);
    var (v, q) := ProcessRead(env, p);
    if |pieces| == 1 {
      assert pieces[1..] == [];
      assert Concat(pieces) == a;
      assert Extends(q, q, "");
    } else {
      var b, rest := pieces[1], pieces[2..];
      assert pieces == [a, b] + rest && pieces[1..] == [b] + rest;
      assert pieces[..1] == [a] && Concat([a]) == a;
      if v == NoRequest {
        CutResumes(env, a, b);
        assert Feed(p, b) == Feed(INIT, a + b);
        var merged := [a + b] + rest;
        assert pieces[1..][0] == b && pieces[1..][1..] == rest == merged[1..];
        forall k | 1 <= k < |merged| ensures !InsideBody(Concat(merged[..k])) {
          ConcatMerge(a, b, rest, k);
        }
        ConcatMerge(a, b, rest, |merged|);
        assert merged[..|merged|] == merged && ([a, b] + rest)[..|merged| + 1] == pieces;
        ChunkIndependence(env, merged);
      } else {
        var more := Concat(pieces[1..]);
        CutResumes(env, a, more);
        assert Feed(p, more) == Feed(INIT, Concat(pieces));
        assert Extends(ProcessRead(env, Feed(p, more)).1, q, more);
      }
    }
  }

  lemma RunStays(env: Env, p: Parser)
    requires Valid(p)
    ensures Kept(p, ProcessRead(env, p).1)
    ensures ProcessRead(env, p).0 == NoRequest ==> Valid(ProcessRead(env, p).1)
  {
    RunKeeps(env, p, LineOk);
  }

  lemma KeptRefl(p: Parser, more: string)
    requires p.startLine <= |p.buf|
    ensures Kept(p, p) && Kept(p, Feed(p, more))
  {
  }

  lemma ValidFeed(p: Parser, more: string)
    requires Valid(p)
    ensures Valid(Feed(p, more))
  {
    var q := Feed(p, more);
    assert q.buf[..p.startLine] == p.buf[..p.startLine];
    PointersStable(p, q);
  }
}
