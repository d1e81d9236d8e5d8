/** Printing a request and parsing it back. */
module HttpRoundTrip {
  import opened CStrings
  import opened HttpParser
  import opened HttpReference
  import opened HttpChunks
  import opened HttpRefinement
  import opened HttpGrammar

  function Lines(headers: seq<string>): string {
    if headers == [] then "" else headers[0] + "\r\n" + Lines(headers[1..])
  }

  function PrintHead(url: string, headers: seq<string>): string {
    "GET " + url + " HTTP/1.1" + "\r\n" + (Lines(headers) + "\r\n")
  }

  /** Text that may stand on one line: no CR, LF or NUL. */
  predicate Plain(s: string) {
    forall i | 0 <= i < |s| :: !Has(Eol, s[i]) && !Has(Nul, s[i])
  }

  predicate PlainUrl(url: string) {
    url != "" && url[0] == '/' && Plain(url) && forall i | 0 <= i < |url| :: !Has(Blank, url[i])
  }

  lemma FirstLineOf(line: string, rest: string)
    requires Plain(line)
    ensures FirstLine(line + "\r\n" + rest) == Whole(line, |line| + 2)
    ensures CStr(line) == line
    ensures (line + "\r\n" + rest)[|line| + 2..] == rest
  {
    var s := line + "\r\n" + rest;
    assert s[|line|] == '\r' && s[|line| + 1] == '\n';
    FindIs(s, 0, Eol, |line|);
    FindIs(line, 0, Nul, |line|);
    assert s[..|line|] == line;
  }

  lemma AbsPathOf(url: string)
    requires url != "" && url[0] == '/'
    ensures AbsPath(url) == Some(url) && PathStart(url) == 0
  {
    if StartsNoCase(url, "http://") {
      NameChar(url, "http://", 0);
    }
  }

  lemma VersionOf(url: string)
    requires PlainUrl(url)
    ensures var rest := url + " HTTP/1.1";
      && SkipBlanks(rest) == rest && Find(rest, 0, Blank) == |url|
      && rest[..|url|] == url && SkipBlanks(rest[|url| + 1..]) == "HTTP/1.1"
  {
    var rest, version := url + " HTTP/1.1", "HTTP/1.1";
    FindIs(rest, 0, NonBlank, 0);
    FindIs(rest, 0, Blank, |url|);
    assert rest[|url| + 1..] == version;
    FindIs(version, 0, NonBlank, 0);
  }

  lemma TargetOf(url: string)
    requires PlainUrl(url)
    ensures RequestTarget("GET " + url + " HTTP/1.1") == Some(url)
    ensures TargetStart("GET " + url + " HTTP/1.1") == 4
  {
    hide SkipBlanks, AbsPath, PathStart, Find;
    var line, rest := "GET " + url + " HTTP/1.1", url + " HTTP/1.1";
    FindIs(rest, 0, NonBlank, 0);
    FindIs(line, 0, Blank, 3);
    assert line[..3] == "GET" && line[4..] == rest;
    VersionOf(url);
    AbsPathOf(url);
  }

  lemma PrintedTail(headers: seq<string>, body: string)
    requires headers != []
    ensures Lines(headers) + "\r\n" + body == headers[0] + "\r\n" + (Lines(headers[1..]) + "\r\n" + body)
    ensures |Lines(headers)| == |headers[0]| + 2 + |Lines(headers[1..])|
  {
  }

  lemma {:induction false} HeadersOf(headers: seq<string>, body: string, off: nat, url: string, before: seq<string>)
    requires forall i | 0 <= i < |headers| :: headers[i] != "" && Plain(headers[i])
    ensures ReadHeaders(Lines(headers) + "\r\n" + body, off, url, before)
         == Ready(url, before + headers, off + |Lines(headers)| + 2)
    decreases |headers|
  {
    hide FirstLine, CStr, Plain, ReadHeaders;
    if headers == [] {
      PlainEmpty();
      FirstLineOf("", body);
      assert Lines(headers) + "\r\n" + body == "" + "\r\n" + body;
      assert before + headers == before;
      HeadersEnd("" + "\r\n" + body, off, url, before);
    } else {
      var h, rest := headers[0], headers[1..];
      var tail := Lines(rest) + "\r\n" + body;
      FirstLineOf(h, tail);
      PrintedTail(headers, body);
      HeadersOf(rest, body, off + |h| + 2, url, before + [h]);
      HeadersLine(h + "\r\n" + tail, off, url, before, h);
      assert before + [h] + rest == before + headers;
    }
  }

  lemma HeadersEnd(s: string, off: nat, url: string, before: seq<string>)
    requires FirstLine(s) == Whole("", 2)
    ensures ReadHeaders(s, off, url, before) == Ready(url, before, off + 2)
  {
    hide FirstLine;
    assert CStr("") == "";
  }

  lemma HeadersLine(s: string, off: nat, url: string, before: seq<string>, h: string)
    requires FirstLine(s) == Whole(h, |h| + 2) && CStr(h) == h != "" && |h| + 2 <= |s|
    ensures ReadHeaders(s, off, url, before) == ReadHeaders(s[|h| + 2..], off + |h| + 2, url, before + [h])
  {
    hide FirstLine, CStr;
  }

  lemma PlainEmpty()
    ensures Plain("")
  {
  }

  /** Reading a printed head gives back the URL and every header line, for any URL that starts
      with '/' and any header lines. */
  lemma HeadRoundTrip(url: string, headers: seq<string>, body: string)
    requires PlainUrl(url)
    requires forall i | 0 <= i < |headers| :: headers[i] != "" && Plain(headers[i])
    ensures ReadHead(PrintHead(url, headers) + body) == Ready(url, headers, |PrintHead(url, headers)|)
    ensures UrlStart(PrintHead(url, headers) + body) == 4
  {
    hide FirstLine, CStr, RequestTarget, TargetStart;
    var line := "GET " + url + " HTTP/1.1";
    var tail := Lines(headers) + "\r\n" + body;
    assert Plain(line);
    FirstLineOf(line, tail);
    assert PrintHead(url, headers) + body == line + "\r\n" + tail;
    TargetOf(url);
    HeadersOf(headers, body, |line| + 2, url, []);
    assert [] + headers == headers;
  }

  function StandardHeaders(host: string, keepAlive: bool, length: nat): seq<string> {
    ["Host: " + host, "Connection: " + if keepAlive then "keep-alive" else "close",
     "Content-Length: " + Decimal(length)]
  }

  lemma ValueOf(name: string, value: string)
    requires value != "" ==> !Has(Blank, value[0])
    ensures StartsNoCase(name + " " + value, name)
    ensures SkipBlanks((name + " " + value)[|name|..]) == value
  {
    var s := name + " " + value;
    assert s[..|name|] == name;
    assert s[|name|..] == " " + value;
    FindIs(" " + value, 0, NonBlank, 1);
  }

  lemma PlainParts(name: string, value: string)
    requires Plain(name) && Plain(value)
    ensures Plain(name + value)
  {
  }

  lemma ReadingOfThree(h: string, c: string, l: string, name: string)
    ensures LastValue([h, c, l], name)
      == if StartsNoCase(l, name) then Some(SkipBlanks(l[|name|..]))
         else if StartsNoCase(c, name) then Some(SkipBlanks(c[|name|..]))
         else if StartsNoCase(h, name) then Some(SkipBlanks(h[|name|..]))
         else None
    ensures KeepsAlive([h, c, l]) == (IsKeepAlive(h) || IsKeepAlive(c) || IsKeepAlive(l))
  {
    hide IsKeepAlive, StartsNoCase, SkipBlanks;
    AppendHeader([], h);
    AppendHeader([h], c);
    AppendHeader([h, c], l);
    assert [] + [h] == [h] && [h] + [c] == [h, c] && [h, c] + [l] == [h, c, l];
  }

  lemma StandardPlain(host: string, keepAlive: bool, length: nat)
    requires Plain(host)
    ensures forall h | h in StandardHeaders(host, keepAlive, length) :: h != "" && Plain(h)
  {
    hide Plain;
    PlainLiterals(length);
    PlainParts("Host: ", host);
    PlainParts("Content-Length: ", Decimal(length));
    assert "Connection: " + "keep-alive" == "Connection: keep-alive";
    assert "Connection: " + "close" == "Connection: close";
  }

  /** What the reference reads off the standard headers. */
  lemma StandardMeaning(host: string, keepAlive: bool, length: nat)
    requires host != "" ==> !Has(Blank, host[0])
    requires length <= INT_MAX
    ensures var headers := StandardHeaders(host, keepAlive, length);
      && KeepsAlive(headers) == keepAlive
      && DeclaredLength(headers) == length
      && LastValue(headers, "Host:") == Some(host)
  {
    hide StartsNoCase, EqNoCase, SkipBlanks, AtolInt, KeepsAlive, LastValue;
    var option := if keepAlive then "keep-alive" else "close";
    var h, c, l := "Host: " + host, "Connection: " + option, "Content-Length: " + Decimal(length);
    assert h == "Host:" + " " + host && c == "Connection:" + " " + option;
    assert l == "Content-Length:" + " " + Decimal(length);
    ValueOf("Host:", host);
    ValueOf("Connection:", option);
    ValueOf("Content-Length:", Decimal(length));
    DistinctNames(h);
    DistinctNames(c);
    DistinctNames(l);
    ReadingOfThree(h, c, l, "Host:");
    ReadingOfThree(h, c, l, "Content-Length:");
    AtolInvertsFormat(length);
    Options(option);
  }

  lemma Options(option: string)
    ensures EqNoCase("keep-alive", "keep-alive") && !EqNoCase("close", "keep-alive")
  {
  }

  lemma {:induction false} PlainLiterals(length: nat)
    ensures Plain("Host: ") && Plain("Content-Length: ") && Plain(Decimal(length))
    ensures Plain("Connection: keep-alive") && Plain("Connection: close")
  {
    hide Plain;
    PlainNames();
    PlainOptions();
    PlainDigits(length);
  }

  lemma PlainNames()
    ensures Plain("Host: ") && Plain("Content-Length: ")
  {
  }

  lemma PlainOptions()
    ensures Plain("Connection: keep-alive") && Plain("Connection: close")
  {
  }

  lemma {:induction false} PlainDigits(length: nat)
    ensures Plain(Decimal(length))
  {
    hide Decimal;
  }

  /** A request for this URL and host, with this connection option and this body, in any spelling the
      grammar allows and with a Content-Length of the body's size. */
  ghost predicate AsksFor(input: string, url: string, host: Option<string>, keepAlive: bool, body: string,
                          headers: seq<string>, n: nat)
  {
    && HeadOf(input, url, headers, n) && n <= |input| && input[n..] == body
    && (AsksToStay(headers) <==> keepAlive) && LastField(headers, "Host:", host) && Declares(headers, |body|)
  }

  ghost predicate Asks(input: string, url: string, host: Option<string>, keepAlive: bool, body: string) {
    exists headers, n :: AsksFor(input, url, host, keepAlive, body, headers, n)
  }

  /** Such a request arrives in reads that do not end inside the body and fits the buffer. */
  ghost predicate Arrives(env: Env, url: string, host: Option<string>, keepAlive: bool, body: string,
                          pieces: seq<string>)
  {
    && pieces != [] && CleanCuts(pieces)
    && Asks(Concat(pieces), url, host, keepAlive, body)
    && |Concat(pieces)| < env.readSize <= INT_MAX
  }

  ghost predicate PartOfBody(input: string, url: string, headers: seq<string>, n: nat, length: int) {
    HeadOf(input, url, headers, n) && Declares(headers, length) && n < |input| < n + length
  }

  /** A read ends inside the body exactly if the head is complete, some of the body has come and not all. */
  lemma InsideGrammar(input: string)
    ensures InsideBody(input) <==> exists url, headers, n, length :: PartOfBody(input, url, headers, n, length)
  {
    hide ReadHead, HeadOf, Declares, DeclaredLength;
    if InsideBody(input) {
      var Ready(url, headers, n) := ReadHead(input);
      HeadGrammar(input, url, headers, n);
      LengthGrammar(headers, DeclaredLength(headers));
      assert PartOfBody(input, url, headers, n, DeclaredLength(headers));
    }
    if url, headers, n, length :| PartOfBody(input, url, headers, n, length) {
      HeadGrammar(input, url, headers, n);
      LengthGrammar(headers, length);
    }
  }

  /** The parse fields hold the URL, the host, the connection option and the length. */
  ghost predicate HoldsFields(q: Parser, url: string, host: Option<string>, keepAlive: bool, length: int) {
    && q.url.At? && CStrAt(q.buf, q.url.off) == url
    && (match host
        case None => q.host.Null?
        case Some(h) => q.host.At? && CStrAt(q.buf, q.host.off) == h)
    && q.linger == keepAlive && q.contentLength == length
  }

  /** The request round trip: whatever way a GET request is spelled within the grammar, with any URL that
      starts with '/', any host, connection option and body of the declared length, and in any reads that
      do not end inside the body, the parser serves exactly that URL and holds exactly those fields. */
  lemma RequestRoundTrip(env: Env, url: string, host: Option<string>, keepAlive: bool, body: string,
                         pieces: seq<string>)
    requires Arrives(env, url, host, keepAlive, body, pieces)
    ensures Receive(env, INIT, pieces).0 == Serve(env, url)
    ensures HoldsFields(Receive(env, INIT, pieces).1, url, host, keepAlive, |body|)
  {
    hide Receive, CleanCuts, Concat, ReadHead, KeepsAlive, LastValue, DeclaredLength, UrlStart, WholeLines;
    hide HeadOf, AsksToStay, LastField, Declares, Serve;
    var input := Concat(pieces);
    var headers, n :| AsksFor(input, url, host, keepAlive, body, headers, n);
    HeadGrammar(input, url, headers, n);
    StayGrammar(headers);
    LastGrammar(headers, "Host:", host);
    LengthGrammar(headers, |body|);
    ReceiveRefinesReference(env, pieces);
  }

  /** What a connection decides on any input at all, cut anywhere but inside the body, by the grammar: for a
      complete head the fields are those of its lines, and the URL is looked up once the declared bytes are
      there; a complete first line that is no request line is refused; and nothing is decided before. */
  lemma MeaningOfInput(env: Env, pieces: seq<string>, url: string, headers: seq<string>, n: nat,
                       host: Option<string>, length: int)
    requires pieces != [] && CleanCuts(pieces) && |Concat(pieces)| < env.readSize <= INT_MAX
    ensures var input, (v, q) := Concat(pieces), Receive(env, INIT, pieces);
      && (HeadOf(input, url, headers, n) && LastField(headers, "Host:", host) && Declares(headers, length)
          && 0 <= length && n + length + |input| <= INT_MAX ==>
            && HoldsFields(q, url, host, AsksToStay(headers), length)
            && v == if |input| >= n + length then Serve(env, url) else NoRequest)
      && (RefusedHead(input) ==> v == BadRequest)
      && (!RefusedHead(input) && (forall u, hs, k :: !HeadOf(input, u, hs, k)) ==> v == NoRequest)
  {
    hide Receive, CleanCuts, Concat, ReadHead, KeepsAlive, LastValue, DeclaredLength, UrlStart, WholeLines;
    hide HeadOf, RefusedHead, AsksToStay, LastField, Declares, Serve;
    var input := Concat(pieces);
    ReceiveRefinesReference(env, pieces);
    HeadGrammar(input, url, headers, n);
    StayGrammar(headers);
    LastGrammar(headers, "Host:", host);
    LengthGrammar(headers, length);
    RefusedGrammar(input);
    if ReadHead(input).Ready? {
      var Ready(u, hs, k) := ReadHead(input);
      HeadGrammar(input, u, hs, k);
    }
    if n <= |input| { LinesAreBytes(input, n); }
  }

  lemma LinesAreBytes(input: string, n: nat)
    requires n <= |input|
    ensures WholeLines(input[n..]) <= |input|
  {
  }

  /** The printed request is one of them. */
  lemma PrintedAsks(url: string, host: string, keepAlive: bool, body: string)
    requires PlainUrl(url) && Plain(host) && (host != "" ==> !Has(Blank, host[0])) && |body| <= INT_MAX
    ensures Asks(PrintHead(url, StandardHeaders(host, keepAlive, |body|)) + body, url, Some(host), keepAlive, body)
  {
    hide ReadHead, PrintHead, StandardHeaders, KeepsAlive, LastValue, DeclaredLength, UrlStart, Plain;
    hide HeadOf, AsksToStay, LastField, Declares;
    var headers := StandardHeaders(host, keepAlive, |body|);
    var head := PrintHead(url, headers);
    StandardPlain(host, keepAlive, |body|);
    StandardMeaning(host, keepAlive, |body|);
    HeadRoundTrip(url, headers, body);
    HeadGrammar(head + body, url, headers, |head|);
    StayGrammar(headers);
    LastGrammar(headers, "Host:", Some(host));
    LengthGrammar(headers, |body|);
    assert (head + body)[|head|..] == body;
    assert AsksFor(head + body, url, Some(host), keepAlive, body, headers, |head|);
  }

  /** So is every request of those three header lines, however they and the request line are spelled: the
      connection is asked to stay exactly if the option spells keep-alive. */
  lemma AnySpelling(line: string, url: string, h: string, host: string, c: string, option: string, l: string,
                    number: string, body: string)
    requires RequestLineOf(line, url) && Printable(line)
    requires Field(h, "Host:", host) && Field(c, "Connection:", option) && Field(l, "Content-Length:", number)
    requires Number(number, |body|) && Printable(h) && Printable(c) && Printable(l)
    ensures Asks(line + "\r\n" + (Lines([h, c, l]) + "\r\n" + body), url, Some(host),
                 Spells(option, "keep-alive"), body)
  {
    hide RequestLineOf, Number, Field, Printable, FieldLines, LineOf, Lines, Spells;
    var headers, next := [h, c, l], |line| + 2;
    NamedLines(h, c, l, host, option, number);
    ReadsBackAs(h, c, l, host, option, number);
    LengthGrammar(headers, |body|);
    NumberGrammar(number, |body|);
    LastGrammar(headers, "Content-Length:", Some(number));
    var tail := Lines(headers) + "\r\n" + body;
    PrintedLine(line, tail);
    PrintedLines(headers, body);
    var s, n := line + "\r\n" + tail, next + |Lines(headers)| + 2;
    assert s[next..] == tail;
    assert HeadParts(s, url, headers, n, line, next);
    assert s[n..] == body;
    assert AsksFor(s, url, Some(host), Spells(option, "keep-alive"), body, headers, n);
  }

  lemma PrintedLine(line: string, rest: string)
    requires Printable(line)
    ensures LineOf(line + "\r\n" + rest, line, |line| + 2)
  {
    assert line + "\r\n" <= line + "\r\n" + rest;
    assert LineAt(line + "\r\n" + rest, line, line);
  }

  lemma {:induction false} PrintedLines(headers: seq<string>, body: string)
    requires forall i | 0 <= i < |headers| :: headers[i] != "" && Printable(headers[i])
    ensures FieldLines(Lines(headers) + "\r\n" + body, headers, |Lines(headers)| + 2)
    decreases |headers|
  {
    hide LineOf, Printable, FieldLines;
    if headers == [] {
      EmptyPrintable();
      PrintedLine("", body);
      assert Lines(headers) + "\r\n" + body == "" + "\r\n" + body;
      FieldLinesEnd("" + "\r\n" + body);
    } else {
      var h, tail := headers[0], Lines(headers[1..]) + "\r\n" + body;
      PrintedLines(headers[1..], body);
      PrintedLine(h, tail);
      PrintedTail(headers, body);
      FieldLinesMore(h, tail, headers, |Lines(headers[1..])| + 2);
    }
  }

  lemma FieldLinesEnd(s: string)
    requires LineOf(s, "", 2)
    ensures FieldLines(s, [], 2)
  {
  }

  lemma FieldLinesMore(h: string, tail: string, headers: seq<string>, n: nat)
    requires headers != [] && headers[0] == h != "" && FieldLines(tail, headers[1..], n)
    requires LineOf(h + "\r\n" + tail, h, |h| + 2)
    ensures FieldLines(h + "\r\n" + tail, headers, |h| + 2 + n)
  {
    hide LineOf;
    var s := h + "\r\n" + tail;
    assert s[|h| + 2..] == tail;
  }

  lemma EmptyPrintable()
    ensures Printable("")
  {
  }

  lemma NamedLines(h: string, c: string, l: string, host: string, option: string, number: string)
    requires Field(h, "Host:", host) && Field(c, "Connection:", option) && Field(l, "Content-Length:", number)
    ensures h != "" && c != "" && l != ""
    ensures forall v :: !Field(h, "Connection:", v) && !Field(h, "Content-Length:", v)
    ensures forall v :: !Field(c, "Host:", v) && !Field(c, "Content-Length:", v)
    ensures forall v :: !Field(l, "Host:", v) && !Field(l, "Connection:", v)
  {
    hide StartsNoCase, SkipBlanks, Field;
    OneName(h, "Host:", host);
    OneName(c, "Connection:", option);
    OneName(l, "Content-Length:", number);
  }

  lemma OneName(line: string, name: string, value: string)
    requires Field(line, name, value) && name in {"Host:", "Connection:", "Content-Length:"}
    ensures line != ""
    ensures forall other, v | other in {"Host:", "Connection:", "Content-Length:"} && Field(line, other, v) ::
              other == name && v == value
  {
    hide SkipBlanks, Field, EqNoCase;
    FieldGrammar(line, name, value);
    DistinctNames(line);
    forall other, v | other in {"Host:", "Connection:", "Content-Length:"} && Field(line, other, v)
      ensures other == name && v == value
    {
      FieldGrammar(line, other, v);
    }
  }

  lemma ReadsBackAs(h: string, c: string, l: string, host: string, option: string, number: string)
    requires Field(h, "Host:", host) && Field(c, "Connection:", option) && Field(l, "Content-Length:", number)
    ensures LastField([h, c, l], "Host:", Some(host)) && LastField([h, c, l], "Content-Length:", Some(number))
    ensures AsksToStay([h, c, l]) <==> Spells(option, "keep-alive")
  {
    hide Field, Spells;
    NamedLines(h, c, l, host, option, number);
    OneName(c, "Connection:", option);
    var headers := [h, c, l];
    assert Field(headers[0], "Host:", host) && NoField(headers, "Host:", 1);
    assert Field(headers[2], "Content-Length:", number) && NoField(headers, "Content-Length:", 3);
    assert Field(headers[1], "Connection:", option);
  }

  // ---- a negative length ----

  function NegativeHead(url: string, n: int): string {
    PrintHead(url, ["Content-Length: " + FormatInt(n)])
  }

  /** What a request with a negative Content-Length looks up, for any URL and length: the URL cut where
      the NUL of line 260 falls into it, the URL itself when it falls elsewhere in the head, and
      nothing when it falls before the buffer. */
  lemma NegativeLength(env: Env, url: string, n: int)
    requires PlainUrl(url) && -INT_MAX - 1 <= n < 0 && |NegativeHead(url, n)| < env.readSize <= INT_MAX
    ensures var at := |NegativeHead(url, n)| + n;
      ProcessRead(env, Feed(INIT, NegativeHead(url, n))).0
      == if at < 0 then Undefined else Serve(env, CutAt(url, 4, at))
  {
    hide ReadHead, ProcessRead, Represents, Holds, DeclaredLength, Serve, UrlStart, PrintHead, FormatInt;
    var h := "Content-Length: " + FormatInt(n);
    NegativeHeader(n);
    HeadRoundTrip(url, [h], "");
    assert PrintHead(url, [h]) + "" == PrintHead(url, [h]);
    RunRefinesReference(env, NegativeHead(url, n));
  }

  lemma NegativeHeader(n: int)
    requires -INT_MAX - 1 <= n < 0
    ensures var h := "Content-Length: " + FormatInt(n); Plain(h) && DeclaredLength([h]) == n
  {
    hide FormatInt, SkipBlanks, StartsNoCase, AtolInt;
    var v := FormatInt(n);
    FormatPlain(n);
    PlainLiterals(0);
    PlainParts("Content-Length: ", v);
    assert "Content-Length: " + v == "Content-Length:" + " " + v;
    ValueOf("Content-Length:", v);
    AtolInvertsFormat(n);
    AppendHeader([], "Content-Length: " + v);
    assert [] + ["Content-Length: " + v] == ["Content-Length: " + v];
  }

  lemma FormatPlain(n: int)
    ensures Plain(FormatInt(n)) && FormatInt(n) != "" && !Has(Blank, FormatInt(n)[0])
  {
  }

  lemma LengthText()
    ensures "Content-Length: " + FormatInt(-39) == "Content-Length: -39"
  {
    assert Decimal(39) == "39";
  }

  lemma LineOnly(h: string)
    ensures Lines([h]) + "\r\n" == h + "\r\n\r\n"
  {
    assert [h][1..] == [];
    assert Lines([h]) == h + "\r\n" + Lines([]);
  }

  lemma IndexHead()
    ensures NegativeHead("/index.html", -39) == "GET /index.html HTTP/1.1\r\nContent-Length: -39\r\n\r\n"
  {
    IndexLine();
    LengthText();
    IndexLines();
    hide FormatInt, Lines;
    assert PrintHead("/index.html", ["Content-Length: -39"]) == "GET /index.html HTTP/1.1\r\n"
        + (Lines(["Content-Length: -39"]) + "\r\n");
  }

  lemma IndexLine()
    ensures "GET " + "/index.html" + " HTTP/1.1" + "\r\n" == "GET /index.html HTTP/1.1\r\n"
  {
  }

  lemma IndexLines()
    ensures "GET /index.html HTTP/1.1\r\n" + (Lines(["Content-Length: -39"]) + "\r\n")
         == "GET /index.html HTTP/1.1\r\nContent-Length: -39\r\n\r\n"
  {
    var h := "Content-Length: -39";
    LineOnly(h);
    hide Lines;
    assert h + "\r\n\r\n" == "Content-Length: -39\r\n\r\n";
  }

  /** So it can change what is served: this request for /index.html is a request for /index. */
  lemma IndexCut(env: Env)
    requires 49 < env.readSize <= INT_MAX
    ensures ProcessRead(env, Feed(INIT, "GET /index.html HTTP/1.1\r\nContent-Length: -39\r\n\r\n")).0
         == Serve(env, "/index")
  {
    hide ProcessRead, Serve, NegativeHead;
    IndexHead();
    NegativeLength(env, "/index.html", -39);
    assert "/index.html"[..6] == "/index";
  }
}
