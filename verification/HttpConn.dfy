/** The http_conn object: its buffers and indices, updated in place by its member functions. */
module HttpConn {
  import opened CStrings
  import opened HttpParser
  import HttpChunks
  import A = HttpAnswers
  import R = HttpResponse

  /** How a run of recv calls ends once every pending byte has been read. */
  datatype RecvEnd = WouldBlock | PeerClosed | Failed

  class Conn {
    const env: Env
    const pages: R.Pages
    var readBuf: array<char>
    var readIdx: nat
    var checkedIdx: nat
    var startLine: nat
    var writeBuf: array<char>
    var writeIdx: nat
    var checkState: CheckState
    var verb: Verb
    var realFile: array<char>
    var url: Ptr
    var version: Ptr
    var host: Ptr
    var contentLength: int
    var linger: bool
    var fileStat: FileStat
    var ivCount: nat
    var iv0Len: nat
    var iv1Len: nat

    /** The buffers are apart and have their sizes, the indices lie inside them, and the last byte
        of m_real_file is NUL. */
    ghost predicate Shape()
      reads this, realFile
    {
      && readBuf != writeBuf && readBuf != realFile && writeBuf != realFile
      && readBuf.Length == env.readSize && startLine <= checkedIdx <= readIdx <= readBuf.Length
      && writeIdx + 2 <= writeBuf.Length
      && realFile.Length == |DOC_ROOT| + env.urlRoom + 1 && realFile[realFile.Length - 1] == '\0'
    }

    /** The parse state this object holds. */
    function State(): Parser
      requires readIdx <= readBuf.Length
      reads this, readBuf
    {
      Parser(readBuf[..readIdx], checkedIdx, startLine, checkState, verb, url, version, host, contentLength, linger)
    }

    /** The response bytes accepted so far. */
    function Written(): string
      requires writeIdx <= writeBuf.Length
      reads this, writeBuf
    {
      writeBuf[..writeIdx]
    }

    constructor (env: Env, writeSize: nat)
      requires writeSize >= 2
      ensures Shape() && State() == INIT && Written() == "" && writeBuf.Length == writeSize
      ensures this.env == env && pages == R.SourcePages()
      ensures fresh(readBuf) && fresh(writeBuf) && fresh(realFile)
    {
      hide R.SourcePages;
      this.env := env;
      pages := R.SourcePages();
      readBuf := new char[env.readSize](_ => '\0');
      writeBuf := new char[writeSize](_ => '\0');
      realFile := new char[|DOC_ROOT| + env.urlRoom + 1](_ => '\0');
      checkState, linger, verb := RequestLine, false, GET;
      url, version, contentLength, host := Null, Null, 0, Null;
      startLine, checkedIdx, readIdx, writeIdx := 0, 0, 0, 0;
      fileStat, ivCount, iv0Len, iv1Len := Missing, 0, 0, 0;
    }

    static method Clear(a: array<char>)
      modifies a
      ensures forall i | 0 <= i < a.Length :: a[i] == '\0'
    {
      for i := 0 to a.Length
        invariant forall j | 0 <= j < i :: a[j] == '\0'
      {
        a[i] := '\0';
      }
    }

    /** memcpy of `s` to offset `at`. */
    static method Copy(a: array<char>, at: nat, s: string)
      requires at + |s| <= a.Length
      modifies a
      ensures a[..at + |s|] == old(a[..at]) + s
      ensures forall i | at + |s| <= i < a.Length :: a[i] == old(a[i])
    {
      for k := 0 to |s|
        invariant forall i | 0 <= i < at :: a[i] == old(a[i])
        invariant forall i | 0 <= i < k :: a[at + i] == s[i]
        invariant forall i | at + k <= i < a.Length :: a[i] == old(a[i])
      {
        a[at + k] := s[k];
      }
    }

    /** The memset calls of init(). */
    method Wipe()
      requires Shape()
      modifies readBuf, writeBuf, realFile
      ensures Shape()
    {
      Clear(readBuf);
      Clear(writeBuf);
      Clear(realFile);
    }

    /** init(): back to a fresh request, whatever the last one left behind. */
    method Reset()
      requires Shape()
      modifies this, readBuf, writeBuf, realFile
      ensures Shape() && State() == INIT && Written() == ""
      ensures readBuf == old(readBuf) && writeBuf == old(writeBuf) && realFile == old(realFile)
    {
      Wipe();
      Restart();
    }

    /** The assignments of init(). */
    method Restart()
      requires Shape()
      modifies this
      ensures Shape() && State() == INIT && Written() == ""
      ensures readBuf == old(readBuf) && writeBuf == old(writeBuf) && realFile == old(realFile)
    {
      Forget();
      Rewind();
      assert State().buf == "" && Written() == "";
    }

    /** The parse fields among them. */
    method Forget()
      requires Shape()
      modifies this`checkState, this`linger, this`verb, this`url, this`version, this`contentLength, this`host
      ensures Shape() && checkState == RequestLine && !linger && verb == GET
      ensures url == version == host == Null && contentLength == 0
    {
      checkState := RequestLine;
      linger := false;
      verb := GET;
      url := Null;
      version := Null;
      contentLength := 0;
      host := Null;
    }

    /** The indices among them. */
    method Rewind()
      requires Shape()
      modifies this`startLine, this`checkedIdx, this`readIdx, this`writeIdx
      ensures Shape() && startLine == checkedIdx == readIdx == writeIdx == 0
    {
      startLine, checkedIdx, readIdx, writeIdx := 0, 0, 0, 0;
    }

    /** read(): recv until it would block, each call taking as many of the `arriving` bytes as it
        likes; `zeroAtFull` says what a call with no room left reports when nothing is pending: 0,
        which read() takes for a closed peer, or that it would block. The bytes that fit are appended
        in order, and only a read that leaves nothing pending succeeds. */
    method Read(arriving: string, end: RecvEnd, zeroAtFull: bool) returns (ok: bool)
      requires Shape()
      modifies this`readIdx, readBuf
      ensures Shape()
      ensures var room := readBuf.Length - old(readIdx);
        && State() == Feed(old(State()), if |arriving| <= room then arriving else arriving[..room])
        && (ok <==> room > 0 && end == WouldBlock && (|arriving| < room || (|arriving| == room && !zeroAtFull)))
    {
      ghost var was := State();
      Taken(was, arriving, 0, 0);
      if readIdx >= readBuf.Length {
        return false;
      }
      var got := 0;
      while true
        invariant 0 <= got <= |arriving| && readIdx == old(readIdx) + got <= readBuf.Length && Shape()
        invariant State() == Feed(was, arriving[..got])
        decreases |arriving| - got
      {
        var room := readBuf.Length - readIdx;
        assert arriving[..|arriving|] == arriving;
        if room == 0 && (got < |arriving| || zeroAtFull) {
          return false;
        }
        if got == |arriving| {
          return end == WouldBlock;
        }
        var n: nat :| 1 <= n <= room && n <= |arriving| - got;
        Taken(was, arriving, got, n);
        Recv(arriving[got..got + n]);
        got := got + n;
      }
    }

    static lemma Taken(p: Parser, arriving: string, got: nat, n: nat)
      requires got + n <= |arriving|
      ensures Feed(Feed(p, arriving[..got]), arriving[got..got + n]) == Feed(p, arriving[..got + n])
      ensures Feed(p, arriving[..0]) == p
    {
      assert p.buf + arriving[..0] == p.buf;
      assert p.buf + arriving[..got] + arriving[got..got + n] == p.buf + arriving[..got + n];
    }

    /** One recv call that takes these bytes. */
    method Recv(bytes: string)
      requires Shape() && readIdx + |bytes| <= readBuf.Length
      modifies this`readIdx, readBuf
      ensures Shape() && State() == Feed(old(State()), bytes) && readIdx == old(readIdx) + |bytes|
    {
      Copy(readBuf, readIdx, bytes);
      readIdx := readIdx + |bytes|;
    }

    /** The C string at offset `i` of m_read_buf. */
    function CString(i: nat): string
      requires readIdx <= readBuf.Length
      reads this, readBuf
    {
      CStrAt(readBuf[..readIdx], i)
    }

    /** `*p = 0` for a pointer into the received bytes. */
    method Cut(i: nat)
      requires Shape() && i < readIdx
      modifies readBuf
      ensures Shape()
      ensures State() == old(State()).(buf := old(State()).buf[i := '\0'])
    {
      readBuf[i] := '\0';
      assert readBuf[..readIdx] == old(readBuf[..readIdx])[i := '\0'];
    }

    /** No line end before `j`. */
    static ghost predicate NoEnd(p: Parser, j: nat) {
      p.checkedIdx <= j <= |p.buf| && forall i | p.checkedIdx <= i < j :: !Has(Eol, p.buf[i])
    }

    static lemma NoLineEnd(p: Parser)
      requires NoEnd(p, |p.buf|)
      ensures HttpParser.ParseLine(p) == (LineOpen, p.(checkedIdx := |p.buf|))
    {
      FindIs(p.buf, p.checkedIdx, Eol, |p.buf|);
    }

    /** What parse_line makes of a CR at `j`. */
    static lemma AtCr(p: Parser, j: nat)
      requires NoEnd(p, j) && j < |p.buf| && p.buf[j] == '\r'
      ensures HttpParser.ParseLine(p)
           == if j + 1 == |p.buf| then (LineOpen, p.(checkedIdx := j))
              else if p.buf[j + 1] == '\n' then
                (LineOk, p.(buf := p.buf[j := '\0'][j + 1 := '\0'], checkedIdx := j + 2))
              else (LineBad, p.(checkedIdx := j))
    {
      FindIs(p.buf, p.checkedIdx, Eol, j);
    }

    /** What parse_line makes of an LF at `j`. */
    static lemma AtLf(p: Parser, j: nat)
      requires NoEnd(p, j) && j < |p.buf| && p.buf[j] == '\n'
      ensures HttpParser.ParseLine(p)
           == if j > 1 && p.buf[j - 1] == '\r' then
                (LineOk, p.(buf := p.buf[j - 1 := '\0'][j := '\0'], checkedIdx := j + 1))
              else (LineBad, p.(checkedIdx := j))
    {
      FindIs(p.buf, p.checkedIdx, Eol, j);
    }

    /** Lines 103-117: a CR ends the line if an LF follows, and leaves it open if nothing does yet. */
    method OnCr() returns (ls: LineStatus)
      requires Shape() && checkedIdx < readIdx && readBuf[checkedIdx] == '\r'
      modifies this`checkedIdx, readBuf
      ensures Shape()
      ensures var p, j := old(State()), old(checkedIdx);
        (ls, State())
        == if j + 1 == |p.buf| then (LineOpen, p)
           else if p.buf[j + 1] == '\n' then
             (LineOk, p.(buf := p.buf[j := '\0'][j + 1 := '\0'], checkedIdx := j + 2))
           else (LineBad, p)
    {
      if checkedIdx + 1 == readIdx {
        return LineOpen;
      } else if readBuf[checkedIdx + 1] == '\n' {
        CutEnd(checkedIdx);
        checkedIdx := checkedIdx + 2;
        return LineOk;
      }
      return LineBad;
    }

    /** Lines 118-127: an LF ends the line only behind a CR. */
    method OnLf() returns (ls: LineStatus)
      requires Shape() && checkedIdx < readIdx && readBuf[checkedIdx] == '\n'
      modifies this`checkedIdx, readBuf
      ensures Shape()
      ensures var p, j := old(State()), old(checkedIdx);
        (ls, State())
        == if j > 1 && p.buf[j - 1] == '\r' then
             (LineOk, p.(buf := p.buf[j - 1 := '\0'][j := '\0'], checkedIdx := j + 1))
           else (LineBad, p)
    {
      if checkedIdx > 1 && readBuf[checkedIdx - 1] == '\r' {
        CutEnd(checkedIdx - 1);
        checkedIdx := checkedIdx + 1;
        return LineOk;
      }
      return LineBad;
    }

    /** parse_line(): scan on from m_checked_idx for a line end and cut the line there. */
    method ParseLine() returns (ls: LineStatus)
      requires Shape()
      modifies this`checkedIdx, readBuf
      ensures Shape()
      ensures (ls, State()) == HttpParser.ParseLine(old(State()))
    {
      hide HttpParser.ParseLine;
      ghost var was := State();
      while checkedIdx < readIdx
        invariant Shape() && State() == was.(checkedIdx := checkedIdx) && NoEnd(was, checkedIdx)
      {
        var temp := readBuf[checkedIdx];
        assert temp == was.buf[checkedIdx];
        if temp == '\r' {
          AtCr(was, checkedIdx);
          ls := OnCr();
          return;
        } else if temp == '\n' {
          AtLf(was, checkedIdx);
          ls := OnLf();
          return;
        }
        checkedIdx := checkedIdx + 1;
      }
      NoLineEnd(was);
      return LineOpen;
    }

    /** The two bytes of a line end become NULs. */
    method CutEnd(i: nat)
      requires Shape() && i + 1 < readIdx
      modifies readBuf
      ensures Shape()
      ensures State() == old(State()).(buf := old(State()).buf[i := '\0'][i + 1 := '\0'])
    {
      Cut(i);
      Cut(i + 1);
    }

    /** parse_request_line(text) */
    method ParseRequestLine(text: nat) returns (ret: Verdict)
      requires Shape() && text <= readIdx
      modifies this`url, this`version, this`verb, this`checkState, readBuf
      ensures Shape()
      ensures (ret, State()) == HttpParser.ParseRequestLine(old(State()), text)
    {
      hide HttpParser.ParseTarget, EqNoCase, CStrAt;
      ghost var p := State();
      var i := Find(CString(text), 0, Blank);
      if i == |CString(text)| {
        url := Null;
        return BadRequest;
      }
      CStrBound(p.buf, text);
      Cut(text + i);
      url := At(text + i + 1);
      if !EqNoCase(CString(text), "GET") {
        return BadRequest;
      }
      verb := GET;
      ret := ParseTarget(text + i + 1);
    }

    /** Lines 181-206 of parse_request_line, from offset `u`. */
    method ParseTarget(u: nat) returns (ret: Verdict)
      requires Shape() && u <= readIdx
      modifies this`url, this`version, this`checkState, readBuf
      ensures Shape()
      ensures (ret, State()) == HttpParser.ParseTarget(old(State()), u)
    {
      hide HttpParser.CheckTarget, CStrAt, Find;
      ghost var p := State();
      var u' := u + Find(CString(u), 0, NonBlank);
      url := At(u');
      var target := CString(u');
      var k := Find(target, 0, Blank);
      if k == |target| {
        version := Null;
        return BadRequest;
      }
      assert target == CStrAt(p.buf, u');
      CStrBound(p.buf, u');
      Cut(u' + k);
      var v := u' + k + 1 + Find(CString(u' + k + 1), 0, NonBlank);
      version := At(v);
      assert State() == p.(buf := p.buf[u' + k := '\0'], url := At(u'), version := At(v));
      ret := CheckTarget(u', v);
    }

    static lemma CStrBound(buf: string, i: nat)
      ensures CStrAt(buf, i) != "" ==> i + |CStrAt(buf, i)| <= |buf|
    {
    }

    /** Lines 189-206: the version, and the URL without an "http://authority" prefix. */
    method CheckTarget(u: nat, v: nat) returns (ret: Verdict)
      requires Shape()
      modifies this`url, this`checkState
      ensures Shape()
      ensures (ret, State()) == HttpParser.CheckTarget(old(State()), u, v)
    {
      hide EqNoCase;
      if !EqNoCase(CString(v), "HTTP/1.1") {
        return BadRequest;
      }
      url := AbsPathPtr(readBuf[..readIdx], u);
      if url.Null? || CString(url.off) == "" || CString(url.off)[0] != '/' {
        return BadRequest;
      }
      checkState := Header;
      return NoRequest;
    }

    /** parse_headers(text) */
    method ParseHeaders(text: nat) returns (ret: Verdict)
      requires Shape() && text <= readIdx
      modifies this`checkState, this`linger, this`contentLength, this`host
      ensures Shape()
      ensures (ret, State()) == HttpParser.ParseHeaders(old(State()), text)
    {
      hide EqNoCase, AtolInt;
      var line := CString(text);
      if line == "" {
        if verb == HEAD {
          return GetRequest;
        }
        if contentLength != 0 {
          checkState := Content;
          return NoRequest;
        }
        return GetRequest;
      } else if StartsNoCase(line, "Connection:") {
        if EqNoCase(SkipBlanks(line[11..]), "keep-alive") {
          linger := true;
        }
      } else if StartsNoCase(line, "Content-Length:") {
        contentLength := AtolInt(SkipBlanks(line[15..]));
      } else if StartsNoCase(line, "Host:") {
        host := At(text + 5 + Find(line[5..], 0, NonBlank));
      }
      return NoRequest;
    }

    /** parse_content(text) */
    method ParseContent(text: nat) returns (ret: Verdict)
      requires Shape()
      modifies readBuf
      ensures Shape()
      ensures (ret, State()) == HttpParser.ParseContent(env, old(State()), text)
    {
      if contentLength + checkedIdx > INT_MAX {
        return Undefined;
      }
      if readIdx >= contentLength + checkedIdx {
        var at := text + contentLength;
        if at < 0 || at >= readBuf.Length {
          return Undefined;
        }
        readBuf[at] := '\0';
        assert readBuf[..readIdx]
            == if at < readIdx then old(readBuf[..readIdx])[at := '\0'] else old(readBuf[..readIdx]);
        return GetRequest;
      }
      return NoRequest;
    }

    /** m_real_file holds doc_root and the URL, cut to its room, and m_file_stat is of that path. */
    ghost predicate PathBuilt()
      requires Shape()
      reads this, readBuf, realFile
    {
      && url.At? && CStrAt(realFile[..], 0) == RealFile(env, CString(url.off))
      && fileStat == env.stat(CStrAt(realFile[..], 0))
    }

    /** Lines 326-328: strcpy of doc_root, then strncpy of as much of the URL as there is room for,
        padded with NULs. */
    method BuildPath(target: string)
      requires Shape() && forall i | 0 <= i < |target| :: target[i] != '\0'
      modifies realFile
      ensures Shape() && CStrAt(realFile[..], 0) == RealFile(env, target)
    {
      var kept := if |target| <= env.urlRoom then target else target[..env.urlRoom];
      Copy(realFile, 0, DOC_ROOT + kept);
      var i := |DOC_ROOT| + |kept|;
      Pad(i);
      PathIs(realFile[..], target, kept);
    }

    /** The NULs strncpy pads with. */
    method Pad(from: nat)
      requires Shape() && from <= |DOC_ROOT| + env.urlRoom
      modifies realFile
      ensures Shape() && realFile[..from] == old(realFile[..from]) && realFile[from] == '\0'
    {
      var i := from;
      while i < |DOC_ROOT| + env.urlRoom
        invariant from <= i <= |DOC_ROOT| + env.urlRoom
        invariant forall j | 0 <= j < from :: realFile[j] == old(realFile[j])
        invariant forall j | from <= j < i :: realFile[j] == '\0'
        invariant realFile[realFile.Length - 1] == '\0'
      {
        realFile[i] := '\0';
        i := i + 1;
      }
    }

    /** do_request(): build m_real_file and look it up. */
    method DoRequest() returns (v: Verdict)
      requires Shape()
      modifies this`fileStat, realFile
      ensures Shape()
      ensures v == HttpParser.DoRequest(env, State())
      ensures v != Undefined ==> PathBuilt() && A.LookedUp(env, CString(url.off), v)
    {
      if url.Null? {
        return Undefined;
      }
      A.ServeLooksUp(env, CString(url.off));
      BuildPath(CString(url.off));
      fileStat := env.stat(CStrAt(realFile[..], 0));
      if fileStat.Missing? {
        return NoResource;
      }
      if !fileStat.othersRead {
        return ForbiddenRequest;
      }
      if fileStat.directory {
        return BadRequest;
      }
      return FileRequest;
    }

    /** Lines 291-303: a header line, with m_start_line already behind it. */
    method OnHeader(text: nat) returns (turn: Turn)
      requires Shape() && checkState == Header && text <= readIdx
      modifies this`checkState, this`linger, this`contentLength, this`host, this`fileStat, realFile
      ensures Shape()
      ensures var (ret, q) := HttpParser.ParseHeaders(old(State()), text);
        && State() == q
        && turn == if ret == BadRequest then Return(BadRequest)
                   else if ret == GetRequest then Return(HttpParser.DoRequest(env, q)) else Again(LineOk)
      ensures turn.Return? && turn.v in {NoResource, ForbiddenRequest, FileRequest} ==> PathBuilt()
    {
      hide HttpParser.ParseHeaders, HttpParser.DoRequest, PathBuilt;
      var ret := ParseHeaders(text);
      if ret == BadRequest {
        return Return(BadRequest);
      } else if ret == GetRequest {
        var v := DoRequest();
        return Return(v);
      }
      return Again(LineOk);
    }

    /** Lines 304-313: the body. */
    method OnContent(text: nat) returns (turn: Turn)
      requires Shape() && checkState == Content
      modifies this`fileStat, readBuf, realFile
      ensures Shape()
      ensures var (ret, q) := HttpParser.ParseContent(env, old(State()), text);
        && State() == q
        && turn == if ret == Undefined then Return(Undefined)
                   else if ret == GetRequest then Return(HttpParser.DoRequest(env, q)) else Again(LineOpen)
      ensures turn.Return? && turn.v in {NoResource, ForbiddenRequest, FileRequest} ==> PathBuilt()
    {
      hide HttpParser.ParseContent, HttpParser.DoRequest, PathBuilt;
      var ret := ParseContent(text);
      if ret == Undefined {
        return Return(Undefined);
      } else if ret == GetRequest {
        var v := DoRequest();
        return Return(v);
      }
      return Again(LineOpen);
    }

    /** The loop body of process_read, lines 276-318. */
    method LoopBody() returns (turn: Turn)
      requires Shape()
      modifies this`startLine, this`url, this`version, this`verb, this`checkState, this`linger
      modifies this`contentLength, this`host, this`fileStat, readBuf, realFile
      ensures Shape()
      ensures (turn, State()) == HttpParser.LoopBody(env, old(State()))
      ensures turn.Return? && turn.v in {NoResource, ForbiddenRequest, FileRequest} ==> PathBuilt()
    {
      hide HttpParser.ParseRequestLine, HttpParser.ParseHeaders, HttpParser.ParseContent, HttpParser.DoRequest;
      hide PathBuilt;
      var text := startLine;
      startLine := checkedIdx;
      match checkState {
        case RequestLine =>
          var ret := ParseRequestLine(text);
          return if ret == BadRequest then Return(BadRequest) else Again(LineOk);
        case Header =>
          turn := OnHeader(text);
        case Content =>
          turn := OnContent(text);
      }
    }

    /** process_read(): cut lines and act on them until a verdict is due or bytes run out. */
    method ProcessRead() returns (v: Verdict)
      requires Shape()
      modifies this`checkedIdx, this`startLine, this`url, this`version, this`verb, this`checkState, this`linger
      modifies this`contentLength, this`host, this`fileStat, readBuf, realFile
      ensures Shape()
      ensures (v, State()) == HttpParser.ProcessRead(env, old(State()))
      ensures v in {NoResource, ForbiddenRequest, FileRequest} ==> PathBuilt()
    {
      hide HttpParser.ParseLine, HttpParser.LoopBody;
      ghost var was := State();
      var ls := LineOk;
      while true
        invariant Shape()
        invariant Run(env, State(), ls) == Run(env, was, LineOk)
        decreases readIdx - checkedIdx, if checkState == Content && ls == LineOk then 1 else 0
      {
        if !(checkState == Content && ls == LineOk) {
          ls := ParseLine();
          if ls != LineOk {
            return NoRequest;
          }
        }
        var turn := LoopBody();
        match turn {
          case Return(verdict) => return verdict;
          case Again(next) => ls := next;
        }
      }
    }

    /** add_response with its formatted text: vsnprintf writes what fits and a NUL, and the text
        counts only when all of it fitted. */
    method AddResponse(piece: string) returns (ok: bool)
      requires Shape()
      modifies this`writeIdx, writeBuf
      ensures Shape()
      ensures ok <==> R.Accepts(writeBuf.Length, old(Written()), piece)
      ensures Written() == R.Append(writeBuf.Length, old(Written()), piece)
    {
      if writeIdx >= writeBuf.Length {
        return false;
      }
      var room := writeBuf.Length - 1 - writeIdx;
      var kept := if |piece| <= room - 1 then piece else piece[..room - 1];
      Copy(writeBuf, writeIdx, kept + "\0");
      if |piece| >= room {
        assert writeBuf[..writeIdx] == (old(writeBuf[..writeIdx]) + (kept + "\0"))[..writeIdx];
        return false;
      }
      writeIdx := writeIdx + |piece|;
      assert writeBuf[..writeIdx] == (old(Written()) + (kept + "\0"))[..writeIdx];
      return true;
    }

    /** add_status_line and add_headers */
    method AddHead(status: nat, title: string, contentLen: int)
      requires Shape()
      modifies this`writeIdx, writeBuf
      ensures Shape()
      ensures Written() == R.AppendAll(writeBuf.Length, old(Written()), R.HeadPieces(status, title, contentLen, linger))
    {
      hide R.Append, FormatInt, ToInt32;
      ghost var pieces := R.HeadPieces(status, title, contentLen, linger);
      R.AppendFour(writeBuf.Length, Written(), pieces[0], pieces[1], pieces[2], pieces[3]);
      var _ := AddResponse(R.StatusLine(status, title) + "\r\n");
      var _ := AddResponse("Content-Length: " + FormatInt(ToInt32(contentLen)) + "\r\n");
      var _ := AddResponse("Connection: " + R.ConnectionOption(linger) + "\r\n");
      var _ := AddResponse("\r\n");
    }

    /** A status line, the headers for `form`, and `form` itself. */
    method AddPage(status: nat, title: string, form: string) returns (ok: bool)
      requires Shape()
      modifies this`writeIdx, writeBuf
      ensures Shape()
      ensures var head := R.HeadPieces(status, title, |form|, linger);
        && Written() == R.AppendAll(writeBuf.Length, old(Written()), head + [form])
        && ok == R.Accepts(writeBuf.Length, R.AppendAll(writeBuf.Length, old(Written()), head), form)
    {
      hide R.HeadPieces, R.AppendAll, R.Append;
      AppendedLast(Written(), R.HeadPieces(status, title, |form|, linger), form);
      AddHead(status, title, |form|);
      ok := AddResponse(form);
    }

    /** process_write(v): fill m_write_buf and the two iovecs. */
    method ProcessWrite(v: Verdict) returns (ok: bool)
      requires Shape()
      modifies this`writeIdx, this`ivCount, this`iv0Len, this`iv1Len, writeBuf
      ensures Shape()
      ensures ok ==> iv0Len == writeIdx
      ensures ok ==> if v == FileRequest then ivCount == 2 && iv1Len == FileSize() else ivCount == 1
      ensures R.Filled(pages, writeBuf.Length, old(Written()), v, linger, FileSize(), Written(), ok)
    {
      hide R.HeadPieces, R.AppendAll, R.ErrorPage, R.Accepts;
      R.FileHasNoErrorPage(pages);
      var page := R.ErrorPage(pages, v);
      if page.Some? {
        ok := AddPage(page.value.status, page.value.title, page.value.form);
        if !ok {
          return false;
        }
      } else if v == FileRequest && FileSize() != 0 {
        AddHead(200, "OK", FileSize());
        iv0Len, iv1Len, ivCount := writeIdx, FileSize(), 2;
        return true;
      } else {
        if v == FileRequest {
          var _ := AddPage(200, "OK", pages.emptyForm);
        } else {
          AppendedNone(Written());
        }
        return false;
      }
      iv0Len, ivCount := writeIdx, 1;
      return true;
    }

    /** m_file_stat.st_size */
    function FileSize(): nat
      reads this`fileStat
    {
      if fileStat.Present? then fileStat.size else 0
    }

    lemma AppendedLast(was: string, head: seq<string>, last: string)
      ensures R.AppendAll(writeBuf.Length, was, head + [last])
        == var w := R.AppendAll(writeBuf.Length, was, head);
           R.Append(writeBuf.Length, w, last)
    {
      R.AppendAllSplit(writeBuf.Length, was, head, [last]);
      assert [last][1..] == [];
    }

    lemma AppendedNone(was: string)
      ensures R.AppendAll(writeBuf.Length, was, []) == was
    {
    }

    /** The answer to verdict `v` is in place: the bytes written, the iovecs over them and the file, and
        m_file_stat of the path that was looked up. */
    ghost predicate Replied(v: Verdict, was: string, end: R.Processing)
      requires Shape()
      reads this, readBuf, realFile, writeBuf
    {
      && end in {R.Answered, R.Closed}
      && (end == R.Answered ==> iv0Len == writeIdx && ivCount == if v == FileRequest then 2 else 1)
      && (v == FileRequest && end == R.Answered ==> iv1Len == FileSize())
      && (v in {NoResource, ForbiddenRequest, FileRequest} ==> PathBuilt())
      && R.Filled(pages, writeBuf.Length, was, v, linger, FileSize(), Written(), end == R.Answered)
    }

    /** process(): parse what has arrived and, when that gives a verdict, prepare the answer in
        m_write_buf and the iovecs. The result says how the connection is handed back to epoll. */
    method Process() returns (end: R.Processing, ghost v: Verdict)
      requires Shape()
      modifies this, readBuf, writeBuf, realFile
      ensures Shape() && readBuf == old(readBuf) && writeBuf == old(writeBuf) && realFile == old(realFile)
      ensures end == R.WantInput <==> v == NoRequest
      ensures if v == NoRequest then Written() == old(Written()) else Replied(v, old(Written()), end)
      ensures (v, State()) == HttpParser.ProcessRead(env, old(State()))
    {
      hide HttpParser.ProcessRead, R.Filled, CStrAt;
      var verdict := ProcessRead();
      v := verdict;
      if verdict == NoRequest {
        return R.WantInput, v;
      }
      var ok := ProcessWrite(verdict);
      return if ok then R.Answered else R.Closed, v;
    }

    /** What main and a worker do to the object, turn about, while input arrives in `arrivals`: read,
        then process, until an answer is ready or the connection is closed. The verdict behind it is
        the one the reads lead to, and `end` is how the last process() left the connection. */
    method Converse(arrivals: seq<string>) returns (end: R.Processing, ghost v: Verdict)
      requires Shape() && readIdx + |HttpChunks.Concat(arrivals)| < readBuf.Length
      modifies this, readBuf, writeBuf, realFile
      ensures Shape() && readBuf == old(readBuf) && writeBuf == old(writeBuf) && realFile == old(realFile)
      ensures v == NoRequest ==> end == R.WantInput && Written() == old(Written())
      ensures v != NoRequest ==> Replied(v, old(Written()), end)
      ensures (v, State()) == HttpChunks.Receive(env, old(State()), arrivals)
    {
      hide HttpParser.ProcessRead, R.Filled, PathBuilt;
      end, v := R.WantInput, NoRequest;
      ghost var was, before := State(), Written();
      var i := 0;
      assert arrivals[0..] == arrivals;
      while i < |arrivals| && end == R.WantInput
        invariant 0 <= i <= |arrivals| && Shape()
        invariant readBuf == old(readBuf) && writeBuf == old(writeBuf) && realFile == old(realFile)
        invariant end == R.WantInput <==> v == NoRequest
        invariant v == NoRequest ==>
          && HttpChunks.Receive(env, State(), arrivals[i..]) == HttpChunks.Receive(env, was, arrivals)
          && Written() == before && readIdx + |HttpChunks.Concat(arrivals[i..])| < readBuf.Length
        invariant v != NoRequest ==>
          (v, State()) == HttpChunks.Receive(env, was, arrivals) && Replied(v, before, end)
      {
        assert arrivals[i..][0] == arrivals[i] && arrivals[i..][1..] == arrivals[i + 1..];
        v, end := Turn(arrivals[i]);
        i := i + 1;
      }
      assert arrivals[|arrivals|..] == [];
    }

    /** One read and one process(). */
    method Turn(arriving: string) returns (ghost v: Verdict, end: R.Processing)
      requires Shape() && readIdx + |arriving| < readBuf.Length
      modifies this, readBuf, writeBuf, realFile
      ensures Shape() && readBuf == old(readBuf) && writeBuf == old(writeBuf) && realFile == old(realFile)
      ensures end == R.WantInput <==> v == NoRequest
      ensures readIdx == old(readIdx) + |arriving|
      ensures if v == NoRequest then Written() == old(Written()) else Replied(v, old(Written()), end)
      ensures (v, State()) == HttpParser.ProcessRead(env, Feed(old(State()), arriving))
    {
      hide HttpParser.ProcessRead, R.Filled, PathBuilt;
      var ok := Read(arriving, WouldBlock, true);
      assert ok;
      end, v := Process();
      assert |State().buf| == readIdx;
    }

    /** What write() does once an answer has gone out, lines 389-400: init() for a connection that is to
        be kept, whose next request may then arrive. */
    method Finish() returns (kept: bool)
      requires Shape()
      modifies this, readBuf, writeBuf, realFile
      ensures Shape() && readBuf == old(readBuf) && writeBuf == old(writeBuf) && realFile == old(realFile)
      ensures kept == old(linger) && (kept ==> State() == INIT && Written() == "")
    {
      if linger {
        Reset();
        return true;
      }
      return false;
    }

    static lemma PathIs(file: string, target: string, kept: string)
      requires kept <= target && (forall i | 0 <= i < |target| :: target[i] != '\0')
      requires |DOC_ROOT| + |kept| < |file| && file[..|DOC_ROOT| + |kept|] == DOC_ROOT + kept
      requires file[|DOC_ROOT| + |kept|] == '\0'
      ensures CStrAt(file, 0) == DOC_ROOT + kept
    {
      var path := DOC_ROOT + kept;
      assert forall i | 0 <= i < |path| :: file[i] == path[i] && !Has(Nul, path[i]);
      FindIs(file, 0, Nul, |path|);
    }
  }
}
