/** process_read decides exactly what the reference reading of the input says. */
module HttpRefinement {
  import opened CStrings
  import opened HttpParser
  import opened HttpFeed
  import opened HttpReference
  import opened HttpChunks

  /** Where a run stands once the head is complete: at the first body byte, with the fields the
      reference reads; either the request is served at once or the rest of the run starts at `r`. */
  ghost predicate AtBody(env: Env, p: Parser, r: Parser, url: string, headers: seq<string>, body: nat)
    requires p.startLine <= p.checkedIdx <= |p.buf|
  {
    && Valid(r) && r.startLine == r.checkedIdx == body && |r.buf| == |p.buf|
    && r.state != RequestLine && Represents(r, url, headers) && r.buf[body..] == p.buf[body..]
    && if DeclaredLength(headers) == 0 then ProcessRead(env, p) == (Serve(env, url), r)
       else r.state == Content && ProcessRead(env, p) == ProcessRead(env, r)
  }

  /** One turn before the head is complete leaves the rest of the run to its successor. */
  lemma AtBodyFrom(env: Env, p: Parser, next: Parser, r: Parser, url: string, headers: seq<string>, body: nat)
    requires p.startLine <= p.checkedIdx <= |p.buf| == |next.buf|
    requires next.startLine <= next.checkedIdx <= body <= |next.buf|
    requires ProcessRead(env, p) == ProcessRead(env, next)
    requires next.buf[next.checkedIdx..] == p.buf[next.checkedIdx..]
    requires AtBody(env, next, r, url, headers, body)
    ensures AtBody(env, p, r, url, headers, body)
  {
    hide ProcessRead, Represents, Valid, DeclaredLength, Serve;
    SameTail(p.buf, next.buf, next.checkedIdx, body);
  }

  lemma HeadersRun(env: Env, p: Parser, url: string, headers: seq<string>) returns (r: Parser)
    requires Valid(p) && p.state == Header && Represents(p, url, headers)
    ensures match ReadHeaders(p.buf[p.startLine..], p.startLine, url, headers)
            case Waiting => ProcessRead(env, p).0 == NoRequest
            case Jammed => ProcessRead(env, p).0 == NoRequest
            case Rejected => false
            case Ready(u, hs, body) => u == url && AtBody(env, p, r, url, hs, body) && r.url == p.url
    decreases |p.buf| - p.startLine
  {
    hide ParseLine, LoopBody, CStrAt, CStr, KeepsAlive, LastValue, DeclaredLength, Serve, AtBody;
    hide ProcessRead, Represents, ReadHeaders, FirstLine, Scanned, Pointers;
    r := p;
    Positions(p);
    RunTurn(env, p);
    ReadHeadersStep(p, url, headers);
    var (ls, q) := ParseLine(p);
    if ls == LineOk {
      ParseLineFrame(p);
      HeaderStep(env, p, url, headers);
      var next := LoopBody(env, q).1;
      Positions(next);
      var line := CStrAt(q.buf, p.startLine);
      if line != "" {
        r := HeadersRun(env, next, url, headers + [line]);
        match ReadHeaders(next.buf[next.startLine..], next.startLine, url, headers + [line])
        case Ready(_, hs, body) => AtBodyFrom(env, p, next, r, url, hs, body);
        case _ =>
      } else {
        r := next;
        AtBodyHere(env, p, r, url, headers);
      }
    }
  }

  /** The head ends at the blank line: with length 0 the request was served there, otherwise the run
      goes on from the body. */
  lemma AtBodyHere(env: Env, p: Parser, r: Parser, url: string, headers: seq<string>)
    requires p.startLine <= p.checkedIdx <= |p.buf| == |r.buf| && Valid(r)
    requires r.startLine == r.checkedIdx && r.state != RequestLine && Represents(r, url, headers)
    requires r.buf[r.startLine..] == p.buf[r.startLine..]
    requires if DeclaredLength(headers) == 0 then ProcessRead(env, p) == (Serve(env, url), r)
             else r.state == Content && ProcessRead(env, p) == ProcessRead(env, r)
    ensures AtBody(env, p, r, url, headers, r.startLine)
  {
    hide ProcessRead, Represents, Serve, DeclaredLength;
  }

  lemma SameTail(a: string, b: string, i: nat, j: nat)
    requires |a| == |b| && i <= j <= |a| && a[i..] == b[i..]
    ensures a[j..] == b[j..]
  {
    assert a[j..] == a[i..][j - i..];
  }

  /** A fresh connection that has received `input`. */
  lemma HeadRun(env: Env, input: string) returns (r: Parser)
    ensures var p := Feed(INIT, input);
      match ReadHead(input)
      case Waiting => ProcessRead(env, p).0 == NoRequest
      case Jammed => ProcessRead(env, p).0 == NoRequest
      case Rejected => ProcessRead(env, p).0 == BadRequest
      case Ready(url, headers, body) => AtBody(env, p, r, url, headers, body) && r.url == At(UrlStart(input))
  {
    hide ParseLine, LoopBody, ReadHead, ReadHeaders, RequestTarget, CStrAt, DeclaredLength, Represents, ProcessRead;
    hide AtBody, Serve, UrlStart, TargetStart, Scanned, Pointers;
    var p := Feed(INIT, input);
    r := p;
    assert p.buf == input;
    FreshValid(input);
    ReadHeadStep(p);
    RunTurn(env, p);
    if ParseLine(p).0 == LineOk {
      var q := ParseLine(p).1;
      ParseLineFrame(p);
      FirstStep(env, p);
      match RequestTarget(CStrAt(q.buf, 0))
      case None =>
      case Some(url) =>
        var next := LoopBody(env, q).1;
        Positions(next);
        r := HeadersRun(env, next, url, []);
        match ReadHead(input)
        case Ready(_, headers, body) => AtBodyFrom(env, p, next, r, url, headers, body);
        case _ =>
    }
  }

  /** The parse fields hold what the reference reads, but for a NUL written at `at`. */
  ghost predicate Holds(p: Parser, url: string, headers: seq<string>, at: int) {
    && p.url.At? && CStrAt(p.buf, p.url.off) == CutAt(url, p.url.off, at)
    && p.linger == KeepsAlive(headers)
    && p.contentLength == DeclaredLength(headers)
    && match LastValue(headers, "Host:")
       case None => p.host.Null?
       case Some(h) => p.host.At? && CStrAt(p.buf, p.host.off) == CutAt(h, p.host.off, at)
  }

  lemma HoldsPlain(p: Parser, url: string, headers: seq<string>)
    ensures Holds(p, url, headers, -1) <==> Represents(p, url, headers)
  {
  }

  lemma HoldsCut(p: Parser, q: Parser, url: string, headers: seq<string>, at: int)
    requires Pointers(p) && p.state != RequestLine && Represents(p, url, headers) && p.startLine <= |p.buf|
    requires p.startLine <= |q.buf| && forall i | 0 <= i < p.startLine :: q.buf[i] == if i == at then '\0' else p.buf[i]
    requires q == p.(buf := q.buf, startLine := q.startLine) && p.startLine <= q.startLine <= |q.buf|
    ensures Holds(q, url, headers, at) && Pointers(q)
  {
    hide CStrAt, KeepsAlive, LastValue, Find;
    NulCuts(p.buf, q.buf, p.url.off, p.startLine, at);
    EndsLater(q.buf, p.url.off, p.startLine, q.startLine);
    if p.host.At? {
      NulCuts(p.buf, q.buf, p.host.off, p.startLine, at);
      EndsLater(q.buf, p.host.off, p.startLine, q.startLine);
    }
  }

  lemma EndsLater(buf: string, i: nat, bound: nat, later: nat)
    requires EndsBefore(buf, i, bound) && bound <= later <= |buf|
    ensures EndsBefore(buf, i, later)
  {
  }

  /** The end of a body: the NUL of line 260 is written, and the URL is looked up as that leaves it. */
  lemma BodyEnds(env: Env, p: Parser, url: string, headers: seq<string>)
    requires Valid(p) && p.state == Content && Represents(p, url, headers)
    requires p.contentLength + p.checkedIdx <= |p.buf| < env.readSize <= INT_MAX
    ensures var (v, q) := ProcessRead(env, p);
      var at := p.startLine + p.contentLength;
      && v == (if at < 0 then Undefined else Serve(env, CutAt(url, p.url.off, at)))
      && Holds(q, url, headers, at) && Pointers(q) && q.url == p.url && q.state == Content
    ensures p.contentLength >= 0 ==>
      ProcessRead(env, p).0 == Serve(env, url) && Represents(ProcessRead(env, p).1, url, headers)
  {
    hide Serve, CStrAt, Represents, Holds, KeepsAlive, LastValue;
    var q := p.(startLine := p.checkedIdx);
    var at := p.startLine + p.contentLength;
    var r := ParseContent(env, q, p.startLine).1;
    HoldsCut(p, r, url, headers, at);
    if at >= 0 {
      assert LoopBody(env, p) == (Return(DoRequest(env, r)), r);
      HoldsUrl(env, r, url, headers, at);
    } else {
      assert LoopBody(env, p) == (Return(Undefined), r);
    }
    if p.contentLength >= 0 { PastPointers(p, r, url, headers, at); }
  }

  lemma HoldsUrl(env: Env, r: Parser, url: string, headers: seq<string>, at: int)
    requires Holds(r, url, headers, at)
    ensures DoRequest(env, r) == Serve(env, CutAt(url, r.url.off, at))
  {
  }

  /** A NUL behind the strings leaves them alone. */
  lemma PastPointers(p: Parser, r: Parser, url: string, headers: seq<string>, at: int)
    requires Pointers(p) && p.state != RequestLine && p.startLine <= at && Represents(p, url, headers)
    requires Holds(r, url, headers, at) && r.url == p.url && r.host == p.host
    ensures Represents(r, url, headers) && CutAt(url, p.url.off, at) == url
  {
    assert p.url.off + |url| < p.startLine;
  }

  // ---- a body that is not all there ----

  /** How far repeated calls of parse_line move over the bytes of a body: over every whole line, then
      to the next CR or LF or to the end. */
  function ScanLength(bytes: string): (n: nat)
    ensures n <= |bytes|
    decreases |bytes|
  {
    match FirstLine(bytes)
    case Whole(_, next) => next + ScanLength(bytes[next..])
    case _ => Find(bytes, 0, Eol)
  }

  /** The whole lines at the front of the bytes. */
  function WholeLines(bytes: string): (n: nat)
    ensures n <= |bytes|
    decreases |bytes|
  {
    match FirstLine(bytes)
    case Whole(_, next) => next + WholeLines(bytes[next..])
    case _ => 0
  }

  /** What becomes of a body of `length` bytes that is counted from `pos`: it is complete; or the sum
      in line 258 overflows, at `pos` or once parse_line has moved over more whole lines; or it is
      waited for. */
  datatype Fate = Complete | Overflow | Pending

  function BodyFate(received: string, pos: nat, length: int): Fate
    requires pos <= |received|
  {
    if |received| >= pos + length then Complete
    else if pos + length + WholeLines(received[pos..]) > INT_MAX then Overflow
    else Pending
  }

  lemma WaitTurn(env: Env, p: Parser)
    requires Scanned(p) && p.state == Content && |p.buf| < p.checkedIdx + p.contentLength
    ensures var q := p.(startLine := p.checkedIdx);
      if p.checkedIdx + p.contentLength > INT_MAX then LoopBody(env, p) == (Return(Undefined), q)
      else LoopBody(env, p) == (Again(LineOpen), q) && ProcessRead(env, p) == Run(env, q, LineOpen)
    ensures p.checkedIdx + p.contentLength > INT_MAX ==>
      ProcessRead(env, p) == (Undefined, p.(startLine := p.checkedIdx))
  {
  }

  /** The connection goes on waiting in `q`, from `pos` on. */
  ghost predicate Waits(p: Parser, q: Parser, url: string, headers: seq<string>, pos: nat) {
    && Valid(q) && q.state == Content && q.contentLength == p.contentLength && q.url == p.url
    && Represents(q, url, headers)
    && q.checkedIdx == pos <= |q.buf| == |p.buf| && q.buf[pos..] == p.buf[pos..]
  }

  /** The run ended in `q` with the fields as they were. */
  ghost predicate Stands(p: Parser, q: Parser, url: string, headers: seq<string>) {
    Pointers(q) && q.state == Content && q.url == p.url && Represents(q, url, headers)
  }

  lemma ParseLineStops(p: Parser)
    requires Scanned(p) && p.startLine == p.checkedIdx && ParseLine(p).0 != LineOk
    ensures ParseLine(p).1.checkedIdx == p.checkedIdx + Find(p.buf[p.checkedIdx..], 0, Eol)
  {
    ParseLineCuts(p);
    LineEndMatches(p);
  }

  /** What one call of parse_line does to a body that is waited for: a whole line brings parse_content
      back behind it, and anything else ends the run. */
  lemma BodyLine(env: Env, p: Parser, url: string, headers: seq<string>) returns (r: Parser)
    requires Valid(p) && p.state == Content && p.startLine == p.checkedIdx && Represents(p, url, headers)
    requires |p.buf| < p.checkedIdx + p.contentLength
    ensures var bytes := p.buf[p.checkedIdx..];
      match FirstLine(bytes)
      case Whole(_, next) =>
        && Waits(p, r, url, headers, p.checkedIdx + next) && r.startLine == r.checkedIdx
        && r.buf[r.checkedIdx..] == bytes[next..]
        && Run(env, p, LineOpen)
           == if r.checkedIdx + r.contentLength > INT_MAX then (Undefined, r) else Run(env, r, LineOpen)
      case _ => Run(env, p, LineOpen) == (NoRequest, r) && Waits(p, r, url, headers, p.checkedIdx + Find(bytes, 0, Eol))
  {
    hide LoopBody, ParseLine, Represents, FirstLine, Find, Pointers;
    Positions(p);
    ParseLineKeeps(p);
    ParseLineFrame(p);
    LineStatusMatches(p);
    if ParseLine(p).0 != LineOk { ParseLineStops(p); }
    var (ls, q) := ParseLine(p);
    RepresentsStable(p, q, url, headers);
    r := q;
    if ls == LineOk {
      LineMatches(p);
      WaitTurn(env, q);
      r := q.(startLine := q.checkedIdx);
      RepresentsStable(q, r, url, headers);
      PointersStable(q, r);
    }
  }

  lemma ValidPositions(p: Parser)
    requires Valid(p)
    ensures p.startLine <= p.checkedIdx <= |p.buf|
  {
  }

  lemma ScanUnfolds(bytes: string)
    ensures FirstLine(bytes).Whole? ==>
      ScanLength(bytes) == FirstLine(bytes).next + ScanLength(bytes[FirstLine(bytes).next..])
    ensures FirstLine(bytes).Whole? ==>
      WholeLines(bytes) == FirstLine(bytes).next + WholeLines(bytes[FirstLine(bytes).next..])
    ensures !FirstLine(bytes).Whole? ==> ScanLength(bytes) == Find(bytes, 0, Eol) && WholeLines(bytes) == 0
  {
    hide FirstLine, Find;
  }

  lemma WaitsSay(p: Parser, q: Parser, url: string, headers: seq<string>, pos: nat)
    requires Waits(p, q, url, headers, pos)
    ensures Valid(q) && q.state == Content && q.contentLength == p.contentLength && Represents(q, url, headers)
    ensures q.startLine <= q.checkedIdx == pos <= |q.buf| == |p.buf| && Stands(p, q, url, headers)
  {
    hide Represents;
  }

  lemma WaitsThen(p: Parser, r: Parser, q: Parser, url: string, headers: seq<string>, pos: nat, later: nat)
    requires Waits(p, r, url, headers, pos) && Waits(r, q, url, headers, later) && pos <= later
    ensures Waits(p, q, url, headers, later)
  {
    hide Represents, Valid;
    SameTail(p.buf, r.buf, pos, later);
  }

  lemma StandsThen(p: Parser, r: Parser, q: Parser, url: string, headers: seq<string>, pos: nat)
    requires Waits(p, r, url, headers, pos) && Stands(r, q, url, headers)
    ensures Stands(p, q, url, headers)
  {
    hide Represents, Valid, Pointers;
  }

  /** After parse_content has found bytes missing, parse_line moves m_checked_idx over body bytes, and
      each whole line it finds brings parse_content back, where the sum may overflow. */
  lemma {:induction false} BodyWaits(env: Env, p: Parser, url: string, headers: seq<string>)
    requires Valid(p) && p.state == Content && p.startLine == p.checkedIdx && Represents(p, url, headers)
    requires |p.buf| < p.checkedIdx + p.contentLength <= INT_MAX
    ensures var (v, q) := Run(env, p, LineOpen);
      var bytes := p.buf[p.checkedIdx..];
      if p.checkedIdx + p.contentLength + WholeLines(bytes) > INT_MAX then
        v == Undefined && Stands(p, q, url, headers)
      else v == NoRequest && Waits(p, q, url, headers, p.checkedIdx + ScanLength(bytes))
    decreases |p.buf| - p.checkedIdx
  {
    hide Run, Represents, FirstLine, Valid, Waits, Stands, ScanLength, WholeLines, Find;
    ValidPositions(p);
    var bytes, at := p.buf[p.checkedIdx..], p.checkedIdx;
    ScanUnfolds(bytes);
    var r := BodyLine(env, p, url, headers);
    if FirstLine(bytes).Whole? {
      var next := at + FirstLine(bytes).next;
      WaitsSay(p, r, url, headers, next);
      if next + p.contentLength <= INT_MAX {
        BodyWaits(env, r, url, headers);
        var (v, q) := Run(env, r, LineOpen);
        if v == Undefined {
          StandsThen(p, r, q, url, headers, next);
        } else {
          WaitsThen(p, r, q, url, headers, next, at + ScanLength(bytes));
        }
      }
    }
  }

  /** A run that starts inside the body does what the fate of the body says. */
  lemma BodyRun(env: Env, p: Parser, url: string, headers: seq<string>)
    requires Valid(p) && p.state == Content && Represents(p, url, headers)
    requires 0 <= p.contentLength && |p.buf| < env.readSize <= INT_MAX
    ensures var (v, q) := ProcessRead(env, p);
      match BodyFate(p.buf, p.checkedIdx, p.contentLength)
      case Complete => v == Serve(env, url) && Stands(p, q, url, headers)
      case Overflow => v == Undefined && Stands(p, q, url, headers)
      case Pending => v == NoRequest && Waits(p, q, url, headers, p.checkedIdx + ScanLength(p.buf[p.checkedIdx..]))
  {
    hide Run, LoopBody, ParseLine, Represents, Holds, Serve, WholeLines, ScanLength;
    if |p.buf| >= p.checkedIdx + p.contentLength {
      BodyEnds(env, p, url, headers);
    } else {
      var r := p.(startLine := p.checkedIdx);
      WaitTurn(env, p);
      RepresentsStable(p, r, url, headers);
      PointersStable(p, r);
      if p.checkedIdx + p.contentLength <= INT_MAX {
        BodyWaits(env, r, url, headers);
      }
    }
  }

  // ---- the decision ----

  function Outcome(env: Env, url: string, fate: Fate): Verdict {
    match fate
    case Complete => Serve(env, url)
    case Overflow => Undefined
    case Pending => NoRequest
  }

  /** What the reference reading says a connection that has received `input` must have decided:
      nothing yet while the head is unfinished or blocked by a stray CR or LF, and a refusal for a bad
      request line. For a complete head the fields are as read, and the declared length decides: a
      negative one puts a NUL that many bytes before the body, and what that leaves of the URL is
      looked up, unless there is no such byte; with any other the body has its fate. */
  ghost predicate Decides(env: Env, input: string, v: Verdict, q: Parser) {
    match ReadHead(input)
    case Waiting => v == NoRequest
    case Jammed => v == NoRequest
    case Rejected => v == BadRequest
    case Ready(url, headers, body) =>
      var length, start := DeclaredLength(headers), UrlStart(input);
      && q.url == At(start)
      && if length < 0 then
           && Holds(q, url, headers, body + length)
           && v == if body + length < 0 then Undefined else Serve(env, CutAt(url, start, body + length))
         else
           && Represents(q, url, headers)
           && body <= |input| && v == Outcome(env, url, BodyFate(input, body, length))
  }

  /** One run of process_read over everything received decides what the reference reading says. */
  lemma RunRefinesReference(env: Env, input: string)
    requires |input| < env.readSize <= INT_MAX
    ensures var (v, q) := ProcessRead(env, Feed(INIT, input));
      && Decides(env, input, v, q)
      && (ReadHead(input).Ready? ==> Pointers(q) && q.state != RequestLine)
  {
    hide ReadHead, DeclaredLength, Represents, Holds, UrlStart, Serve, ProcessRead, BodyFate, Outcome, CutAt;
    assert Feed(INIT, input).buf == input;
    var r := HeadRun(env, input);
    if ReadHead(input).Ready? {
      var Ready(url, headers, body) := ReadHead(input);
      BodyDecides(env, Feed(INIT, input), r, url, headers, body);
    }
  }

  /** The part of the decision that is left once the head is complete. */
  lemma BodyDecides(env: Env, p: Parser, r: Parser, url: string, headers: seq<string>, body: nat)
    requires p.startLine <= p.checkedIdx <= |p.buf| < env.readSize <= INT_MAX
    requires AtBody(env, p, r, url, headers, body) && r.url.At?
    ensures var (v, q) := ProcessRead(env, p);
      var length := DeclaredLength(headers);
      && q.url == r.url && Pointers(q) && q.state != RequestLine
      && if length < 0 then
           && Holds(q, url, headers, body + length)
           && v == if body + length < 0 then Undefined else Serve(env, CutAt(url, r.url.off, body + length))
         else Represents(q, url, headers) && v == Outcome(env, url, BodyFate(p.buf, body, length))
  {
    hide DeclaredLength, Represents, Holds, Serve, ProcessRead, WholeLines, CutAt;
    RepresentsLength(r, url, headers);
    if r.contentLength < 0 {
      BodyEnds(env, r, url, headers);
    } else if r.contentLength > 0 {
      BodyRun(env, r, url, headers);
    }
  }

  lemma RepresentsLength(p: Parser, url: string, headers: seq<string>)
    requires Represents(p, url, headers)
    ensures p.contentLength == DeclaredLength(headers)
  {
  }

  /** The same decision however the input was cut into reads outside the body. */
  lemma ReceiveRefinesReference(env: Env, pieces: seq<string>)
    requires pieces != [] && CleanCuts(pieces) && |Concat(pieces)| < env.readSize <= INT_MAX
    ensures Decides(env, Concat(pieces), Receive(env, INIT, pieces).0, Receive(env, INIT, pieces).1)
  {
    hide ProcessRead, ReadHead, DeclaredLength, Represents, Holds, UrlStart, BodyFate, Outcome;
    var input := Concat(pieces);
    ChunkIndependence(env, pieces);
    RunRefinesReference(env, input);
    var q := Receive(env, INIT, pieces).1;
    var w := ProcessRead(env, Feed(INIT, input)).1;
    if ReadHead(input).Ready? {
      var Ready(url, headers, body) := ReadHead(input);
      HoldsPlain(q, url, headers);
      HoldsPlain(w, url, headers);
      HoldsBack(w, q, url, headers, if DeclaredLength(headers) < 0 then body + DeclaredLength(headers) else -1);
    }
  }

  lemma HoldsBack(w: Parser, q: Parser, url: string, headers: seq<string>, at: int)
    requires Holds(w, url, headers, at) && Pointers(w) && w.state != RequestLine
    requires q == w.(buf := q.buf) && q.buf <= w.buf && w.startLine <= |q.buf|
    ensures Holds(q, url, headers, at)
  {
    hide CStrAt, KeepsAlive, LastValue, Find;
    assert q.buf[..w.startLine] == w.buf[..w.startLine];
    CStrAtStable(w.buf, q.buf, w.url.off, w.startLine);
    if w.host.At? { CStrAtStable(w.buf, q.buf, w.host.off, w.startLine); }
  }
}
