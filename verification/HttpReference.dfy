/** A pure reading of an HTTP request head, and the proof that the in-place parser follows it. */
module HttpReference {
  import opened CStrings
  import opened HttpParser
  import opened HttpFeed

  datatype Option<+T> = None | Some(value: T)

  // ---- the reference ----

  /** The line at the front of the input: its text without CRLF, and where the next line starts. */
  datatype Line = Partial | Broken | Whole(text: string, next: nat)

  /** Lines end at CRLF; a CR or LF on its own breaks the input. */
  function FirstLine(s: string): (l: Line)
    ensures l.Whole? ==> 0 < l.next <= |s|
  {
    var j := Find(s, 0, Eol);
    if j == |s| || (s[j] == '\r' && j + 1 == |s|) then Partial
    else if s[j] == '\r' && s[j + 1] == '\n' then Whole(s[..j], j + 2)
    else Broken
  }

  /** Where the path of a request target starts, behind an "http://authority" prefix. */
  function PathStart(target: string): (i: nat)
    ensures i <= |target|
  {
    if StartsNoCase(target, "http://") then 7 + Find(target[7..], 0, Slash) else 0
  }

  /** The absolute path in a request target. */
  function AbsPath(target: string): Option<string> {
    var path := target[PathStart(target)..];
    if path != "" && path[0] == '/' then Some(path) else None
  }

  /** METHOD blanks TARGET blanks VERSION, accepting only GET and HTTP/1.1 in any case. */
  function RequestTarget(line: string): Option<string> {
    var i := Find(line, 0, Blank);
    if i == |line| || !EqNoCase(line[..i], "GET") then None
    else
      var rest := SkipBlanks(line[i + 1..]);
      var k := Find(rest, 0, Blank);
      if k == |rest| || !EqNoCase(SkipBlanks(rest[k + 1..]), "HTTP/1.1") then None
      else AbsPath(rest[..k])
  }

  /** Where the path RequestTarget finds starts in the line. */
  function TargetStart(line: string): nat {
    var i := Find(line, 0, Blank);
    if i == |line| then 0
    else
      var rest := SkipBlanks(line[i + 1..]);
      i + 1 + Find(line[i + 1..], 0, NonBlank) + PathStart(rest[..Find(rest, 0, Blank)])
  }

  /** The path does stand there. */
  lemma TargetStands(line: string)
    requires RequestTarget(line).Some?
    ensures var url, i := RequestTarget(line).value, TargetStart(line);
      i + |url| <= |line| && line[i..i + |url|] == url
  {
    hide EqNoCase, PathStart;
    var i := Find(line, 0, Blank);
    var after := line[i + 1..];
    var f := Find(after, 0, NonBlank);
    var rest := after[f..];
    var k := Find(rest, 0, Blank);
    var m := PathStart(rest[..k]);
    assert rest == line[i + 1 + f..];
    assert rest[..k][m..] == line[i + 1 + f + m..i + 1 + f + k];
  }

  /** Where the accepted URL stands in the input. */
  function UrlStart(input: string): nat {
    match FirstLine(input)
    case Whole(text, _) => TargetStart(CStr(text))
    case _ => 0
  }

  /** What the input says so far: more is needed, a stray CR or LF blocks it, the request line is
      refused, or the head is complete and the body starts at offset `body`. */
  datatype Head = Waiting | Jammed | Rejected | Ready(url: string, headers: seq<string>, body: nat)

  function ReadHead(s: string): Head {
    match FirstLine(s)
    case Partial => Waiting
    case Broken => Jammed
    case Whole(text, next) =>
      match RequestTarget(CStr(text))
      case None => Rejected
      case Some(url) => ReadHeaders(s[next..], next, url, [])
  }

  /** Header lines up to the blank one; `rest` is the input from offset `off` on. */
  function ReadHeaders(rest: string, off: nat, url: string, headers: seq<string>): (h: Head)
    ensures h.Ready? ==> off < h.body <= off + |rest|
    ensures !h.Rejected?
    decreases |rest|
  {
    match FirstLine(rest)
    case Partial => Waiting
    case Broken => Jammed
    case Whole(text, next) =>
      if CStr(text) == "" then Ready(url, headers, off + next)
      else ReadHeaders(rest[next..], off + next, url, headers + [CStr(text)])
  }

  /** The value of the last header with this name. */
  function LastValue(headers: seq<string>, name: string): Option<string> {
    if headers == [] then None
    else
      var h := headers[|headers| - 1];
      if StartsNoCase(h, name) then Some(SkipBlanks(h[|name|..]))
      else LastValue(headers[..|headers| - 1], name)
  }

  predicate IsKeepAlive(header: string) {
    StartsNoCase(header, "Connection:") && EqNoCase(SkipBlanks(header[11..]), "keep-alive")
  }

  /** Some header asks for a persistent connection. */
  predicate KeepsAlive(headers: seq<string>) {
    exists i | 0 <= i < |headers| :: IsKeepAlive(headers[i])
  }

  function DeclaredLength(headers: seq<string>): int {
    match LastValue(headers, "Content-Length:")
    case None => 0
    case Some(v) => AtolInt(v)
  }

  // ---- a complete head stays what it is ----

  lemma FirstLineGrows(s: string, more: string)
    requires FirstLine(s).Whole?
    ensures FirstLine(s + more) == FirstLine(s)
  {
    FindFeed(s, more, 0, Eol);
    var j := Find(s, 0, Eol);
    assert (s + more)[..j] == s[..j];
  }

  lemma {:induction false} ReadHeadersGrows(rest: string, more: string, off: nat, url: string, headers: seq<string>)
    requires ReadHeaders(rest, off, url, headers).Ready?
    ensures ReadHeaders(rest + more, off, url, headers) == ReadHeaders(rest, off, url, headers)
    decreases |rest|
  {
    hide FirstLine, CStr;
    FirstLineGrows(rest, more);
    var Whole(text, next) := FirstLine(rest);
    if CStr(text) != "" {
      ReadHeadersGrows(rest[next..], more, off + next, url, headers + [CStr(text)]);
      assert (rest + more)[next..] == rest[next..] + more;
    }
  }

  /** Bytes after a complete head do not change the reading of the head. */
  lemma ReadHeadGrows(input: string, more: string)
    requires ReadHead(input).Ready?
    ensures ReadHead(input + more) == ReadHead(input)
  {
    hide FirstLine, CStr, RequestTarget;
    FirstLineGrows(input, more);
    var Whole(text, next) := FirstLine(input);
    var Some(url) := RequestTarget(CStr(text));
    ReadHeadersGrows(input[next..], more, next, url, []);
    assert (input + more)[next..] == input[next..] + more;
  }

  // ---- the in-place parser follows it ----

  /** The parse fields hold what the reference reads off the same lines. */
  ghost predicate Represents(p: Parser, url: string, headers: seq<string>) {
    && p.url.At? && CStrAt(p.buf, p.url.off) == url
    && p.linger == KeepsAlive(headers)
    && p.contentLength == DeclaredLength(headers)
    && match LastValue(headers, "Host:")
       case None => p.host.Null?
       case Some(h) => p.host.At? && CStrAt(p.buf, p.host.off) == h
  }

  /** `text` cut at its first NUL is the C string the parser sees once the line end is overwritten. */
  lemma CutText(buf: string, start: nat, text: string)
    requires start + |text| < |buf| && buf[start..start + |text|] == text && buf[start + |text|] == '\0'
    ensures CStrAt(buf, start) == CStr(text)
  {
    var n := Find(text, 0, Nul);
    assert forall i | 0 <= i < |text| :: buf[start + i] == text[i];
    FindIs(buf, start, Nul, start + n);
    assert buf[start..start + n] == text[..n];
  }

  lemma LineEndMatches(p: Parser)
    requires Scanned(p)
    ensures p.startLine + Find(p.buf[p.startLine..], 0, Eol) == Find(p.buf, p.checkedIdx, Eol)
  {
    var s := p.buf[p.startLine..];
    var j := Find(p.buf, p.checkedIdx, Eol);
    assert forall i | 0 <= i < |s| :: s[i] == p.buf[p.startLine + i];
    FindIs(s, 0, Eol, j - p.startLine);
  }

  /** parse_line, resumed at m_checked_idx, finds the line end the reference finds from m_start_line. */
  lemma LineStatusMatches(p: Parser)
    requires Scanned(p)
    ensures match FirstLine(p.buf[p.startLine..])
            case Partial => ParseLine(p).0 == LineOpen
            case Broken => ParseLine(p).0 == LineBad
            case Whole(_, next) => ParseLine(p).0 == LineOk && ParseLine(p).1.checkedIdx == p.startLine + next
  {
    LineEndMatches(p);
  }

  /** The line parse_line cuts is the reference's line, and the bytes after it are untouched. */
  lemma LineMatches(p: Parser)
    requires Scanned(p) && ParseLine(p).0 == LineOk
    ensures var q := ParseLine(p).1;
      && FirstLine(p.buf[p.startLine..]).Whole?
      && CStrAt(q.buf, p.startLine) == CStr(FirstLine(p.buf[p.startLine..]).text)
      && q.buf[q.checkedIdx..] == p.buf[p.startLine..][FirstLine(p.buf[p.startLine..]).next..]
  {
    hide CStrAt, CStr;
    LineStatusMatches(p);
    LineEndMatches(p);
    ParseLineCuts(p);
    var q := ParseLine(p).1;
    var j := q.checkedIdx - 2;
    assert p.buf[p.startLine..][..j - p.startLine] == q.buf[p.startLine..j];
    CutText(q.buf, p.startLine, q.buf[p.startLine..j]);
  }

  lemma CStrDrop(buf: string, t: nat, m: nat)
    requires t + |CStrAt(buf, t)| < |buf| && m <= |CStrAt(buf, t)|
    ensures CStrAt(buf, t + m) == CStrAt(buf, t)[m..]
  {
    var j := Find(buf, t, Nul);
    FindIs(buf, t + m, Nul, j);
  }

  /** Writing a NUL into a C string splits it in two. */
  lemma CStrCut(buf: string, t: nat, i: nat)
    requires t + |CStrAt(buf, t)| < |buf| && i < |CStrAt(buf, t)|
    ensures CStrAt(buf[t + i := '\0'], t) == CStrAt(buf, t)[..i]
    ensures CStrAt(buf[t + i := '\0'], t + i + 1) == CStrAt(buf, t)[i + 1..]
    ensures t + i + 1 + |CStrAt(buf[t + i := '\0'], t + i + 1)| < |buf|
  {
    var j := Find(buf, t, Nul);
    var b := buf[t + i := '\0'];
    FindIs(b, t, Nul, t + i);
    FindIs(b, t + i + 1, Nul, j);
    assert b[t..t + i] == buf[t..j][..i];
    assert b[t + i + 1..j] == buf[t..j][i + 1..];
  }

  lemma AbsPathMatches(buf: string, u: nat)
    requires u + |CStrAt(buf, u)| < |buf|
    ensures var ptr := AbsPathPtr(buf, u);
      match AbsPath(CStrAt(buf, u))
      case None => ptr.Null? || CStrAt(buf, ptr.off) == "" || CStrAt(buf, ptr.off)[0] != '/'
      case Some(path) =>
        ptr == At(u + PathStart(CStrAt(buf, u))) && CStrAt(buf, ptr.off) == path && path != "" && path[0] == '/'
  {
    hide CStrAt;
    var target := CStrAt(buf, u);
    if StartsNoCase(target, "http://") {
      CStrDrop(buf, u, 7);
      CStrDrop(buf, u, 7 + Find(target[7..], 0, Slash));
    }
  }

  lemma CheckTargetMatches(p: Parser, u: nat, v: nat)
    requires u + |CStrAt(p.buf, u)| < |p.buf|
    ensures var (ret, q) := CheckTarget(p, u, v);
      if !EqNoCase(CStrAt(p.buf, v), "HTTP/1.1") then ret == BadRequest
      else match AbsPath(CStrAt(p.buf, u))
           case None => ret == BadRequest
           case Some(url) =>
             && ret == NoRequest && q == p.(url := At(u + PathStart(CStrAt(p.buf, u))), state := Header)
             && CStrAt(q.buf, q.url.off) == url
  {
    hide CStrAt, AbsPath, AbsPathPtr, EqNoCase, PathStart;
    AbsPathMatches(p.buf, u);
  }

  /** What is left to CheckTarget once the target is cut out: `c` is the state, and the target and the
      version are the reference's. */
  lemma TargetCut(p: Parser, u: nat) returns (c: Parser, t: nat, v: nat)
    requires u + |CStrAt(p.buf, u)| < |p.buf|
    ensures var rest := SkipBlanks(CStrAt(p.buf, u));
      var k := Find(rest, 0, Blank);
      if k == |rest| then ParseTarget(p, u).0 == BadRequest
      else
        && ParseTarget(p, u) == CheckTarget(c, t, v) && c == p.(buf := c.buf, url := At(t), version := At(v))
        && t == u + Find(CStrAt(p.buf, u), 0, NonBlank) && t + |CStrAt(c.buf, t)| < |c.buf|
        && CStrAt(c.buf, t) == rest[..k] && CStrAt(c.buf, v) == SkipBlanks(rest[k + 1..])
  {
    hide CStrAt, CheckTarget, Find;
    var f := Find(CStrAt(p.buf, u), 0, NonBlank);
    CStrDrop(p.buf, u, f);
    c, t, v := p, u + f, 0;
    var k := Find(CStrAt(p.buf, t), 0, Blank);
    if k < |CStrAt(p.buf, t)| {
      var buf := p.buf[t + k := '\0'];
      v := VersionCut(p.buf, t, k);
      c := p.(buf := buf, url := At(t), version := At(v));
    }
  }

  /** The NUL behind the target leaves the version to be read. */
  lemma VersionCut(buf: string, t: nat, k: nat) returns (v: nat)
    requires t + |CStrAt(buf, t)| < |buf| && k < |CStrAt(buf, t)|
    ensures var b := buf[t + k := '\0'];
      && v == t + k + 1 + Find(CStrAt(b, t + k + 1), 0, NonBlank)
      && CStrAt(b, t) == CStrAt(buf, t)[..k] && t + k < |b|
      && CStrAt(b, v) == SkipBlanks(CStrAt(buf, t)[k + 1..])
  {
    hide CStrAt, Find, SkipBlanks;
    CStrCut(buf, t, k);
    var b := buf[t + k := '\0'];
    v := CStrSkip(b, t + k + 1);
  }

  lemma CStrSkip(buf: string, t: nat) returns (v: nat)
    requires t + |CStrAt(buf, t)| < |buf|
    ensures v == t + Find(CStrAt(buf, t), 0, NonBlank) && CStrAt(buf, v) == SkipBlanks(CStrAt(buf, t))
  {
    v := t + Find(CStrAt(buf, t), 0, NonBlank);
    CStrDrop(buf, t, Find(CStrAt(buf, t), 0, NonBlank));
  }

  lemma TargetMatches(p: Parser, u: nat)
    requires u + |CStrAt(p.buf, u)| < |p.buf|
    ensures var rest := SkipBlanks(CStrAt(p.buf, u));
      var k := Find(rest, 0, Blank);
      var (ret, q) := ParseTarget(p, u);
      if k == |rest| || !EqNoCase(SkipBlanks(rest[k + 1..]), "HTTP/1.1") then ret == BadRequest
      else match AbsPath(rest[..k])
           case None => ret == BadRequest
           case Some(url) =>
             && ret == NoRequest && q.state == Header && q.verb == p.verb
             && q.url == At(u + Find(CStrAt(p.buf, u), 0, NonBlank) + PathStart(rest[..k]))
             && CStrAt(q.buf, q.url.off) == url
             && q.version.At? && EqNoCase(CStrAt(q.buf, q.version.off), "HTTP/1.1")
  {
    hide CStrAt, AbsPath, CheckTarget, EqNoCase, PathStart, ParseTarget, SkipBlanks, Find;
    var c, t, v := TargetCut(p, u);
    if Find(SkipBlanks(CStrAt(p.buf, u)), 0, Blank) < |SkipBlanks(CStrAt(p.buf, u))| {
      CheckTargetMatches(c, t, v);
    }
  }

  /** parse_request_line accepts exactly the lines the reference accepts, and finds the same URL and
      a version that reads HTTP/1.1. */
  lemma RequestLineMatches(p: Parser, text: nat)
    requires text + |CStrAt(p.buf, text)| < |p.buf|
    ensures var (ret, q) := ParseRequestLine(p, text);
      match RequestTarget(CStrAt(p.buf, text))
      case None => ret == BadRequest
      case Some(url) =>
        && ret == NoRequest && q.state == Header && q.verb == GET
        && q.url == At(text + TargetStart(CStrAt(p.buf, text))) && CStrAt(q.buf, q.url.off) == url
        && q.version.At? && EqNoCase(CStrAt(q.buf, q.version.off), "HTTP/1.1")
  {
    hide CStrAt, AbsPath, ParseTarget, EqNoCase, SkipBlanks;
    var line := CStrAt(p.buf, text);
    var i := Find(line, 0, Blank);
    if i < |line| {
      CStrCut(p.buf, text, i);
      var q := p.(buf := p.buf[text + i := '\0'], url := At(text + i + 1), verb := GET);
      TargetMatches(q, text + i + 1);
    }
  }

  // ---- headers ----

  lemma NameChar(line: string, name: string, i: nat)
    requires StartsNoCase(line, name) && i < |name|
    ensures Lower(line[i]) == Lower(name[i])
  {
    assert line[..|name|][i] == line[i];
  }

  lemma DistinctNames(line: string)
    ensures !(StartsNoCase(line, "Connection:") && StartsNoCase(line, "Content-Length:"))
    ensures !(StartsNoCase(line, "Connection:") && StartsNoCase(line, "Host:"))
    ensures !(StartsNoCase(line, "Content-Length:") && StartsNoCase(line, "Host:"))
  {
    if StartsNoCase(line, "Connection:") {
      NameChar(line, "Connection:", 0);
      NameChar(line, "Connection:", 3);
    }
    if StartsNoCase(line, "Content-Length:") {
      NameChar(line, "Content-Length:", 0);
      NameChar(line, "Content-Length:", 3);
    }
    if StartsNoCase(line, "Host:") {
      NameChar(line, "Host:", 0);
    }
  }

  lemma AppendHeader(headers: seq<string>, line: string)
    ensures KeepsAlive(headers + [line]) == (KeepsAlive(headers) || IsKeepAlive(line))
    ensures forall name :: LastValue(headers + [line], name)
              == if StartsNoCase(line, name) then Some(SkipBlanks(line[|name|..])) else LastValue(headers, name)
  {
    hide IsKeepAlive, StartsNoCase, SkipBlanks;
    var hs := headers + [line];
    assert hs[..|hs| - 1] == headers;
    assert forall i | 0 <= i < |headers| :: hs[i] == headers[i];
    assert hs[|headers|] == line;
  }

  /** parse_headers folds one more line into the fields exactly as the reference reads it. */
  lemma HeaderMatches(p: Parser, text: nat, url: string, headers: seq<string>)
    requires text + |CStrAt(p.buf, text)| < |p.buf| && CStrAt(p.buf, text) != ""
    requires Represents(p, url, headers)
    ensures Represents(ParseHeaders(p, text).1, url, headers + [CStrAt(p.buf, text)])
  {
    hide CStrAt, EqNoCase, AtolInt, LastValue, KeepsAlive, StartsNoCase, SkipBlanks;
    var line := CStrAt(p.buf, text);
    AppendHeader(headers, line);
    DistinctNames(line);
    if StartsNoCase(line, "Host:") {
      HostValue(p, text);
    }
  }

  /** m_host points at the header's value. */
  lemma HostValue(p: Parser, text: nat)
    requires text + |CStrAt(p.buf, text)| < |p.buf| && StartsNoCase(CStrAt(p.buf, text), "Host:")
    ensures var line := CStrAt(p.buf, text);
      CStrAt(p.buf, text + 5 + Find(line[5..], 0, NonBlank)) == SkipBlanks(line[5..])
  {
    hide CStrAt, EqNoCase;
    var line := CStrAt(p.buf, text);
    var f := Find(line[5..], 0, NonBlank);
    CStrDrop(p.buf, text, 5 + f);
    assert line[5 + f..] == line[5..][f..];
  }
}
