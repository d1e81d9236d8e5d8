/** The request side of http_conn as functions on a value: what each member function does to
    the bytes received so far and to the parse fields. The class in HttpConn.dfy runs the same
    steps in place on its arrays and is proved equal to these functions. */
module HttpParser {
  import opened CStrings

  datatype CheckState = RequestLine | Header | Content
  datatype LineStatus = LineOk | LineBad | LineOpen
  datatype Verb = GET | HEAD | OtherVerb

  /** HTTP_CODE, plus `Undefined` for the inputs on which the C++ code has no defined result:
      a null URL, an int overflow in the length test, or a terminator written outside m_read_buf. */
  datatype Verdict =
    | NoRequest | GetRequest | BadRequest | NoResource | ForbiddenRequest | FileRequest | InternalError
    | Undefined

  /** A char* into m_read_buf. */
  datatype Ptr = Null | At(off: nat)

  /** What stat() reports about a path. */
  datatype FileStat = Missing | Present(othersRead: bool, directory: bool, size: nat)

  /** The file system and the two buffer sizes: READ_BUFFER_SIZE, and the bytes of m_real_file
      left for the URL after doc_root and the final NUL. */
  datatype Env = Env(stat: string -> FileStat, readSize: nat, urlRoom: nat)

  /** The parse fields; `buf` is the received part of m_read_buf, so m_read_idx is `|buf|`. */
  datatype Parser = Parser(
    buf: string, checkedIdx: nat, startLine: nat, state: CheckState, verb: Verb,
    url: Ptr, version: Ptr, host: Ptr, contentLength: int, linger: bool)

  const DOC_ROOT: string := "/var/www/html"

  const INIT: Parser := Parser("", 0, 0, RequestLine, GET, Null, Null, Null, 0, false)

  /** The effect of a read that appends `bytes`. */
  function Feed(p: Parser, bytes: string): Parser {
    p.(buf := p.buf + bytes)
  }

  /** The parse functions leave the scan position where it is. */
  predicate SameScan(q: Parser, p: Parser) {
    |q.buf| == |p.buf| && q.checkedIdx == p.checkedIdx && q.startLine == p.startLine
  }

  function ParseLine(p: Parser): (r: (LineStatus, Parser))
    requires p.checkedIdx <= |p.buf|
    ensures |r.1.buf| == |p.buf| && p.checkedIdx <= r.1.checkedIdx <= |p.buf| && r.1.startLine == p.startLine
    ensures r.0 == LineOk ==> p.checkedIdx < r.1.checkedIdx
  {
    var j := Find(p.buf, p.checkedIdx, Eol);
    if j == |p.buf| then (LineOpen, p.(checkedIdx := j))
    else if p.buf[j] == '\r' then
      if j + 1 == |p.buf| then (LineOpen, p.(checkedIdx := j))
      else if p.buf[j + 1] == '\n' then
        (LineOk, p.(buf := p.buf[j := '\0'][j + 1 := '\0'], checkedIdx := j + 2))
      else (LineBad, p.(checkedIdx := j))
    else if j > 1 && p.buf[j - 1] == '\r' then
      (LineOk, p.(buf := p.buf[j - 1 := '\0'][j := '\0'], checkedIdx := j + 1))
    else (LineBad, p.(checkedIdx := j))
  }

  /** Lines 181-206: the part of the request line after the method; `u` is the offset after it. */
  function ParseTarget(p: Parser, u: nat): (r: (Verdict, Parser))
    requires u <= |p.buf|
    ensures SameScan(r.1, p)
  {
    var u' := u + Find(CStrAt(p.buf, u), 0, NonBlank);
    var target := CStrAt(p.buf, u');
    var k := Find(target, 0, Blank);
    if k == |target| then (BadRequest, p.(url := At(u'), version := Null))
    else
      var b := p.buf[u' + k := '\0'];
      var v := u' + k + 1 + Find(CStrAt(b, u' + k + 1), 0, NonBlank);
      CheckTarget(p.(buf := b, url := At(u'), version := At(v)), u', v)
  }

  /** Lines 189-206, with the URL at `u` and the version at `v`. */
  function CheckTarget(p: Parser, u: nat, v: nat): (r: (Verdict, Parser))
    ensures SameScan(r.1, p)
  {
    if !EqNoCase(CStrAt(p.buf, v), "HTTP/1.1") then (BadRequest, p)
    else
      var ptr := AbsPathPtr(p.buf, u);
      if ptr.Null? || CStrAt(p.buf, ptr.off) == "" || CStrAt(p.buf, ptr.off)[0] != '/' then
        (BadRequest, p.(url := ptr))
      else (NoRequest, p.(url := ptr, state := Header))
  }

  /** Lines 194-198: m_url after dropping an "http://authority" prefix. */
  function AbsPathPtr(buf: string, u: nat): Ptr {
    if StartsNoCase(CStrAt(buf, u), "http://") then
      var rest := CStrAt(buf, u + 7);
      if Find(rest, 0, Slash) == |rest| then Null else At(u + 7 + Find(rest, 0, Slash))
    else At(u)
  }

  function ParseRequestLine(p: Parser, text: nat): (r: (Verdict, Parser))
    requires text <= |p.buf|
    ensures SameScan(r.1, p)
  {
    var line := CStrAt(p.buf, text);
    var i := Find(line, 0, Blank);
    if i == |line| then (BadRequest, p.(url := Null))
    else
      var q := p.(buf := p.buf[text + i := '\0'], url := At(text + i + 1));
      if !EqNoCase(CStrAt(q.buf, text), "GET") then (BadRequest, q)
      else ParseTarget(q.(verb := GET), text + i + 1)
  }

  function ParseHeaders(p: Parser, text: nat): (r: (Verdict, Parser))
    requires text <= |p.buf|
    ensures SameScan(r.1, p)
  {
    var line := CStrAt(p.buf, text);
    if line == "" then
      if p.verb == HEAD then (GetRequest, p)
      else if p.contentLength != 0 then (NoRequest, p.(state := Content))
      else (GetRequest, p)
    else if StartsNoCase(line, "Connection:") then
      (NoRequest, if EqNoCase(SkipBlanks(line[11..]), "keep-alive") then p.(linger := true) else p)
    else if StartsNoCase(line, "Content-Length:") then
      (NoRequest, p.(contentLength := AtolInt(SkipBlanks(line[15..]))))
    else if StartsNoCase(line, "Host:") then
      (NoRequest, p.(host := At(text + 5 + Find(line[5..], 0, NonBlank))))
    else (NoRequest, p)
  }

  function ParseContent(env: Env, p: Parser, text: nat): (r: (Verdict, Parser))
    ensures SameScan(r.1, p)
  {
    if p.contentLength + p.checkedIdx > INT_MAX then (Undefined, p)
    else if |p.buf| >= p.contentLength + p.checkedIdx then
      var at := text + p.contentLength;
      if at < 0 || at >= env.readSize then (Undefined, p)
      else (GetRequest, if at < |p.buf| then p.(buf := p.buf[at := '\0']) else p)
    else (NoRequest, p)
  }

  /** The path do_request builds: doc_root and as much of the URL as m_real_file holds. */
  function RealFile(env: Env, url: string): string {
    DOC_ROOT + if |url| <= env.urlRoom then url else url[..env.urlRoom]
  }

  function Serve(env: Env, url: string): (v: Verdict)
    ensures v in {NoResource, ForbiddenRequest, BadRequest, FileRequest}
  {
    match env.stat(RealFile(env, url))
    case Missing => NoResource
    case Present(othersRead, directory, _) =>
      if !othersRead then ForbiddenRequest else if directory then BadRequest else FileRequest
  }

  function DoRequest(env: Env, p: Parser): (v: Verdict)
    ensures v != NoRequest
  {
    if p.url.Null? then Undefined else Serve(env, CStrAt(p.buf, p.url.off))
  }

  /** How one turn of process_read's loop ends. */
  datatype Turn = Return(v: Verdict) | Again(ls: LineStatus)

  /** The loop body, lines 276-318. */
  function LoopBody(env: Env, p: Parser): (r: (Turn, Parser))
    requires p.startLine <= p.checkedIdx <= |p.buf|
    ensures |r.1.buf| == |p.buf| && r.1.checkedIdx == r.1.startLine == p.checkedIdx
    ensures r.0.Again? ==> r.0.ls == if p.state == Content then LineOpen else LineOk
    ensures r.0.Return? ==> r.0.v != NoRequest
  {
    var text := p.startLine;
    var q := p.(startLine := p.checkedIdx);
    match q.state
    case RequestLine =>
      var (ret, q') := ParseRequestLine(q, text);
      (if ret == BadRequest then Return(BadRequest) else Again(LineOk), q')
    case Header =>
      var (ret, q') := ParseHeaders(q, text);
      (if ret == BadRequest then Return(BadRequest)
       else if ret == GetRequest then Return(DoRequest(env, q')) else Again(LineOk), q')
    case Content =>
      var (ret, q') := ParseContent(env, q, text);
      (if ret == Undefined then Return(Undefined)
       else if ret == GetRequest then Return(DoRequest(env, q')) else Again(LineOpen), q')
  }

  /** process_read's loop, entered with line_status `ls`. */
  function Run(env: Env, p: Parser, ls: LineStatus): (r: (Verdict, Parser))
    requires p.startLine <= p.checkedIdx <= |p.buf|
    ensures |r.1.buf| == |p.buf| && r.1.startLine <= r.1.checkedIdx <= |p.buf| && p.checkedIdx <= r.1.checkedIdx
    decreases |p.buf| - p.checkedIdx, if p.state == Content && ls == LineOk then 1 else 0
  {
    var (ls', q) := if p.state == Content && ls == LineOk then (LineOk, p) else ParseLine(p);
    if ls' != LineOk then (NoRequest, q)
    else
      var (turn, q') := LoopBody(env, q);
      match turn
      case Return(v) => (v, q')
      case Again(ls'') => Run(env, q', ls'')
  }

  /** One call of process_read. */
  function ProcessRead(env: Env, p: Parser): (r: (Verdict, Parser))
    requires p.startLine <= p.checkedIdx <= |p.buf|
    ensures |r.1.buf| == |p.buf| && r.1.startLine <= r.1.checkedIdx <= |p.buf| && p.checkedIdx <= r.1.checkedIdx
  {
    Run(env, p, LineOk)
  }

  // ---- what every step keeps ----

  /** The scan position: the part of the current line already looked at holds no line end. */
  ghost predicate Scanned(p: Parser) {
    && p.startLine <= p.checkedIdx <= |p.buf|
    && (forall i | p.startLine <= i < p.checkedIdx :: !Has(Eol, p.buf[i]))
    && (p.checkedIdx > 0 ==> p.buf[p.checkedIdx - 1] != '\r')
  }

  /** m_url and m_host point at C strings that end before the current line. */
  ghost predicate Pointers(p: Parser) {
    && p.verb == GET
    && (p.state != RequestLine ==> p.url.At? && EndsBefore(p.buf, p.url.off, p.startLine))
    && (p.host.At? ==> EndsBefore(p.buf, p.host.off, p.startLine))
  }

  /** The invariant of a connection between reads. */
  ghost predicate Valid(p: Parser) {
    Scanned(p) && Pointers(p)
  }

  /** parse_line has just cut a line out of [m_start_line, m_checked_idx). */
  ghost predicate LineReady(p: Parser) {
    Scanned(p) && p.startLine < p.checkedIdx && p.buf[p.checkedIdx - 1] == '\0'
  }

  lemma PointersStable(p: Parser, q: Parser)
    requires Pointers(p) && p.startLine <= |p.buf|
    requires p.startLine <= q.startLine <= |q.buf| && q.buf[..p.startLine] == p.buf[..p.startLine]
    requires q.verb == p.verb && q.state == p.state && q.url == p.url && q.host == p.host
    ensures Pointers(q)
  {
    if p.state != RequestLine {
      CStrAtStable(p.buf, q.buf, p.url.off, p.startLine);
    }
    if p.host.At? {
      CStrAtStable(p.buf, q.buf, p.host.off, p.startLine);
    }
  }

  /** parse_line cuts at the first line end, and the LF branch that looks back for a CR
      (lines 120-125) is never taken. */
  lemma ParseLineCuts(p: Parser)
    requires Scanned(p)
    ensures ParseLine(p).0 != LineOk ==> ParseLine(p).1 == p.(checkedIdx := Find(p.buf, p.checkedIdx, Eol))
    ensures ParseLine(p).0 == LineOk ==>
      var j := Find(p.buf, p.checkedIdx, Eol);
      && j + 1 < |p.buf| && p.buf[j] == '\r' && p.buf[j + 1] == '\n'
      && ParseLine(p).1 == p.(buf := p.buf[j := '\0'][j + 1 := '\0'], checkedIdx := j + 2)
  {
  }

  /** What parse_line leaves alone: the bytes before and behind the ones it cuts, and all fields but
      the scan position. */
  lemma ParseLineFrame(p: Parser)
    requires Scanned(p)
    ensures var q := ParseLine(p).1;
      && q == p.(buf := q.buf, checkedIdx := q.checkedIdx) && |q.buf| == |p.buf|
      && p.startLine <= p.checkedIdx <= q.checkedIdx <= |q.buf|
      && q.buf[..p.startLine] == p.buf[..p.startLine] && q.buf[..p.checkedIdx] == p.buf[..p.checkedIdx]
      && q.buf[q.checkedIdx..] == p.buf[q.checkedIdx..]
  {
    hide Find;
    ParseLineCuts(p);
  }

  lemma PointersSay(p: Parser)
    requires Pointers(p)
    ensures p.verb == GET && (p.state != RequestLine ==> p.url.At?)
  {
  }

  lemma Positions(p: Parser)
    requires Scanned(p)
    ensures p.startLine <= p.checkedIdx <= |p.buf|
  {
  }

  lemma ParseLineKeeps(p: Parser)
    requires Valid(p)
    ensures Pointers(ParseLine(p).1) && Scanned(ParseLine(p).1)
    ensures ParseLine(p).0 == LineOk ==> LineReady(ParseLine(p).1)
    ensures ParseLine(p).1.buf[..p.checkedIdx] == p.buf[..p.checkedIdx]
  {
    ParseLineFrame(p);
    ParseLineScans(p);
    hide ParseLine, Find;
    PointersStable(p, ParseLine(p).1);
  }

  lemma ParseLineScans(p: Parser)
    requires Scanned(p)
    ensures Scanned(ParseLine(p).1) && (ParseLine(p).0 == LineOk ==> LineReady(ParseLine(p).1))
  {
    ParseLineCuts(p);
  }

  /** `b` is `a` with NULs written over some positions of [lo, hi). */
  ghost predicate NulsWritten(a: string, b: string, lo: nat, hi: nat) {
    |b| == |a| && forall i | 0 <= i < |a| :: b[i] == a[i] || (lo <= i < hi && b[i] == '\0')
  }

  /** Every offset inside a cut line starts a C string that ends inside it. */
  lemma EndsInside(buf: string, i: nat, bound: nat)
    requires i < bound <= |buf| && buf[bound - 1] == '\0'
    ensures EndsBefore(buf, i, bound)
    ensures i + |CStrAt(buf, i)| < bound
    ensures |CStrAt(buf, i)| + i < |buf| && buf[i + |CStrAt(buf, i)|] == '\0'
  {
  }

  lemma AbsPathInside(buf: string, u: nat, bound: nat)
    requires u < bound <= |buf| && buf[bound - 1] == '\0'
    ensures AbsPathPtr(buf, u).At? ==> u <= AbsPathPtr(buf, u).off < bound
  {
    EndsInside(buf, u, bound);
    if u + 7 < bound { EndsInside(buf, u + 7, bound); }
  }

  lemma CheckTargetKeeps(p: Parser, u: nat, v: nat)
    requires u < p.startLine <= |p.buf| && p.buf[p.startLine - 1] == '\0'
    ensures var (ret, q) := CheckTarget(p, u, v);
      && q == p.(url := q.url, state := q.state)
      && (ret != BadRequest ==>
            ret == NoRequest && q.state == Header && q.url.At? && u <= q.url.off < p.startLine)
  {
    AbsPathInside(p.buf, u, p.startLine);
  }

  lemma TargetKeeps(p: Parser, u: nat)
    requires u < p.startLine <= |p.buf| && p.buf[p.startLine - 1] == '\0'
    ensures var (ret, q) := ParseTarget(p, u);
      && NulsWritten(p.buf, q.buf, u, p.startLine)
      && q == p.(buf := q.buf, url := q.url, version := q.version, state := q.state)
      && (ret != BadRequest ==>
            ret == NoRequest && q.state == Header && q.url.At? && u <= q.url.off < p.startLine)
  {
    hide CheckTarget, AbsPathPtr, EqNoCase, CStrAt;
    EndsInside(p.buf, u, p.startLine);
    var u' := u + Find(CStrAt(p.buf, u), 0, NonBlank);
    EndsInside(p.buf, u', p.startLine);
    var k := Find(CStrAt(p.buf, u'), 0, Blank);
    if k < |CStrAt(p.buf, u')| {
      var b := p.buf[u' + k := '\0'];
      var v := u' + k + 1 + Find(CStrAt(b, u' + k + 1), 0, NonBlank);
      CheckTargetKeeps(p.(buf := b, url := At(u'), version := At(v)), u', v);
    }
  }

  lemma RequestLineKeeps(p: Parser, text: nat)
    requires text < p.startLine <= |p.buf| && p.buf[p.startLine - 1] == '\0'
    ensures var (ret, q) := ParseRequestLine(p, text);
      && NulsWritten(p.buf, q.buf, text, p.startLine)
      && q == p.(buf := q.buf, verb := q.verb, url := q.url, version := q.version, state := q.state)
      && (p.verb == GET ==> q.verb == GET)
      && (ret != BadRequest ==>
            ret == NoRequest && q.state == Header && q.url.At? && text < q.url.off < p.startLine)
  {
    hide ParseTarget, EqNoCase, CStrAt;
    EndsInside(p.buf, text, p.startLine);
    var i := Find(CStrAt(p.buf, text), 0, Blank);
    if i < |CStrAt(p.buf, text)| {
      var b := p.buf[text + i := '\0'];
      TargetKeeps(p.(buf := b, url := At(text + i + 1), verb := GET), text + i + 1);
    }
  }

  lemma HeadersKeep(p: Parser, text: nat)
    requires text < p.startLine <= |p.buf| && p.buf[p.startLine - 1] == '\0' && p.verb == GET
    ensures var (ret, q) := ParseHeaders(p, text);
      && q == p.(state := q.state, host := q.host, linger := q.linger, contentLength := q.contentLength)
      && (q.host != p.host ==> q.host.At? && text < q.host.off < p.startLine)
      && (ret == NoRequest || ret == GetRequest)
      && (ret == GetRequest ==> CStrAt(p.buf, text) == "" && q == p && p.contentLength == 0)
      && (q.state != p.state ==> CStrAt(p.buf, text) == "" && q == p.(state := Content) && p.contentLength != 0)
  {
    EndsInside(p.buf, text, p.startLine);
  }

  /** One turn of the loop keeps the invariant. */
  lemma LoopBodyKeeps(env: Env, p: Parser)
    requires Pointers(p) && Scanned(p)
    requires p.state != Content ==> LineReady(p)
    ensures LoopBody(env, p).0.Again? ==> Valid(LoopBody(env, p).1)
  {
    hide ParseRequestLine, ParseHeaders, DoRequest, Find;
    var q := p.(startLine := p.checkedIdx);
    PointersStable(p, q);
    if p.state == RequestLine {
      RequestLineKeeps(q, p.startLine);
      var (ret, r) := ParseRequestLine(q, p.startLine);
      if ret != BadRequest {
        EndsInside(r.buf, r.url.off, q.startLine);
        assert r.buf[..p.startLine] == q.buf[..p.startLine];
        if q.host.At? { CStrAtStable(q.buf, r.buf, q.host.off, p.startLine); }
      }
    } else if p.state == Header {
      HeadersKeep(q, p.startLine);
      var r := ParseHeaders(q, p.startLine).1;
      if r.host != q.host { EndsInside(r.buf, r.host.off, q.startLine); }
    }
  }

  /** A body with a negative declared length makes parse_content write before the current line. */
  predicate NegativeBody(p: Parser) {
    p.state == Content && p.contentLength < 0
  }

  /** What steps from `p` to `q` leave alone: once the request line is accepted the URL pointer
      stays, and without a negative body length no byte before the current line is written. */
  ghost predicate Kept(p: Parser, q: Parser) {
    && |p.buf| <= |q.buf| && p.startLine <= q.startLine <= |q.buf| && p.startLine <= |p.buf|
    && (p.state != RequestLine ==> q.url == p.url && q.state != RequestLine)
    && (p.state == Content ==> q.state == Content && q.contentLength == p.contentLength)
    && (p.state != RequestLine && !NegativeBody(q) ==> q.buf[..p.startLine] == p.buf[..p.startLine])
  }

  lemma KeptTrans(p: Parser, q: Parser, r: Parser)
    requires Kept(p, q) && Kept(q, r)
    ensures Kept(p, r)
  {
    if p.state != RequestLine && !NegativeBody(r) {
      assert r.buf[..p.startLine] == r.buf[..q.startLine][..p.startLine];
      assert q.buf[..p.startLine] == q.buf[..q.startLine][..p.startLine];
    }
  }

  lemma KeptSame(p: Parser, q: Parser)
    requires p.startLine <= |p.buf| <= |q.buf| && q.buf[..p.startLine] == p.buf[..p.startLine]
    requires q == p.(buf := q.buf, checkedIdx := q.checkedIdx)
    ensures Kept(p, q)
  {
  }

  lemma LoopBodyFrame(env: Env, p: Parser)
    requires Scanned(p)
    requires p.state != Content ==> LineReady(p) && p.verb == GET
    ensures Kept(p, LoopBody(env, p).1)
  {
    hide ParseRequestLine, ParseHeaders, DoRequest;
    var q := p.(startLine := p.checkedIdx);
    if p.state == RequestLine {
      RequestLineKeeps(q, p.startLine);
    } else if p.state == Header {
      HeadersKeep(q, p.startLine);
    }
  }

  /** Whole runs of process_read keep the invariant, and what was parsed before the run survives it. */
  lemma {:induction false} RunKeeps(env: Env, p: Parser, ls: LineStatus)
    requires Valid(p)
    ensures Run(env, p, ls).0 == NoRequest ==> Valid(Run(env, p, ls).1)
    ensures Kept(p, Run(env, p, ls).1)
    decreases |p.buf| - p.checkedIdx, if p.state == Content && ls == LineOk then 1 else 0
  {
    hide ParseLine, LoopBody, Kept, LineReady;
    var (ls', q) := if p.state == Content && ls == LineOk then (LineOk, p) else ParseLine(p);
    Positions(p);
    KeptSame(p, p);
    if !(p.state == Content && ls == LineOk) {
      ParseLineKeeps(p);
      ParseLineFrame(p);
      KeptSame(p, q);
    }
    if ls' == LineOk {
      LoopBodyKeeps(env, q);
      LoopBodyFrame(env, q);
      var (turn, q') := LoopBody(env, q);
      KeptTrans(p, q, q');
      if turn.Again? {
        RunKeeps(env, q', turn.ls);
        KeptTrans(p, q', Run(env, q', turn.ls).1);
      }
    }
  }
}
