/** The answer to a request as text, by what stat reports, with the page texts of the code: nothing here
    goes through the verdicts and page tables of the parser and the response side. */
module HttpAnswers {
  import opened CStrings
  import opened HttpParser
  import opened HttpReference
  import opened HttpChunks
  import opened HttpRefinement
  import opened HttpGrammar
  import opened HttpRoundTrip
  import opened HttpResponse

  // ---- what is sent ----

  function NotFoundText(): string {
    "The requested file was not found on this server.\n"
  }

  function ForbiddenText(): string {
    "You do not have permission to get file from this server.\n"
  }

  function BadRequestText(): string {
    "Your request has bad syntax or is inherently impossible to satisfy.\n"
  }

  function InternalErrorText(): string {
    "There was an unusual problem serving the requested file.\n"
  }

  /** The file a URL names: under /var/www/html, and cut to the room m_real_file has for it. */
  function FilePath(env: Env, url: string): string {
    "/var/www/html" + if |url| <= env.urlRoom then url else url[..env.urlRoom]
  }

  /** The decimal numeral of a number, without leading zeros. */
  predicate Numeral(digits: string, n: nat) {
    && digits != "" && Digits(digits) && Worth(digits) == n
    && (digits[0] == '0' ==> |digits| == 1)
  }

  predicate Prints(text: string, n: int) {
    if n < 0 then text != "" && text[0] == '-' && Numeral(text[1..], -n) else Numeral(text, n)
  }

  /** A response as it stands in the buffer: status line, length, connection option, blank line, text. */
  predicate ResponseText(response: string, status: string, number: string, keepAlive: bool, text: string) {
    response == "HTTP/1.1 " + status + "\r\n"
              + "Content-Length: " + number + "\r\n"
              + "Connection: " + (if keepAlive then "keep-alive" else "close") + "\r\n"
              + "\r\n" + text
  }

  /** An error page is complete: its length is that of its text. */
  ghost predicate PageSent(response: string, status: string, keepAlive: bool, text: string) {
    exists number :: Prints(number, |text|) && ResponseText(response, status, number, keepAlive, text)
  }

  /** The head of a file has the low 32 bits of its size as the length. */
  ghost predicate FileSent(response: string, keepAlive: bool, size: nat) {
    exists number, n :: LowBits(size, n) && Prints(number, n) && ResponseText(response, "200 OK", number, keepAlive, "")
  }

  /** The answer to a request for a URL, by what stat reports of its file: missing, not readable by others,
      a directory, or a file, whose bytes follow from the second iovec. An empty file is not answered. */
  ghost predicate AnswerTo(env: Env, url: string, keepAlive: bool, response: string, answered: bool) {
    match env.stat(FilePath(env, url))
    case Missing =>
      answered && PageSent(response, "404 Not Found", keepAlive, NotFoundText())
    case Present(othersRead, directory, size) =>
      if !othersRead then
        answered && PageSent(response, "403 Forbidden", keepAlive, ForbiddenText())
      else if directory then Rejection(keepAlive, response, answered)
      else if size == 0 then !answered
      else answered && FileSent(response, keepAlive, size)
  }

  /** The answer to a request that is refused. */
  ghost predicate Rejection(keepAlive: bool, response: string, answered: bool) {
    answered && PageSent(response, "400 Bad Request", keepAlive, BadRequestText())
  }

  /** What the lookup of a URL says: missing, forbidden, bad for a directory, or a file. */
  ghost predicate LookedUp(env: Env, url: string, v: Verdict) {
    match env.stat(FilePath(env, url))
    case Missing => v == NoResource
    case Present(othersRead, directory, _) =>
      v == if !othersRead then ForbiddenRequest else if directory then BadRequest else FileRequest
  }

  /** What process_write makes of a verdict in an empty buffer, with the page texts of the code. */
  ghost predicate TextFor(v: Verdict, keepAlive: bool, size: nat, response: string, answered: bool) {
    match v
    case InternalError =>
      answered && PageSent(response, "500 Internal Error", keepAlive, InternalErrorText())
    case BadRequest => Rejection(keepAlive, response, answered)
    case NoResource =>
      answered && PageSent(response, "404 Not Found", keepAlive, NotFoundText())
    case ForbiddenRequest =>
      answered && PageSent(response, "403 Forbidden", keepAlive, ForbiddenText())
    case FileRequest => if size == 0 then !answered else answered && FileSent(response, keepAlive, size)
    case _ => !answered
  }

  // ---- numbers and texts ----

  lemma {:induction false} DecimalIsNumeral(n: nat)
    ensures Numeral(Decimal(n), n)
  {
    var d := Decimal(n);
    DecValueOfDecimal(n);
    WorthIs(d);
    DecimalStart(n);
  }

  lemma {:induction false} DecimalStart(n: nat)
    ensures Decimal(n)[0] == '0' ==> |Decimal(n)| == 1
    ensures n > 0 ==> Decimal(n)[0] != '0'
  {
    if n >= 10 {
      DecimalStart(n / 10);
    }
  }

  lemma FormatPrints(n: int)
    ensures Prints(FormatInt(n), n)
  {
    DecimalIsNumeral(if n < 0 then -n else n);
    hide Decimal, Numeral;
    assert n < 0 ==> FormatInt(n)[1..] == Decimal(-n);
  }

  /** A head and its text, as the pieces of add_response put it together. */
  lemma PiecesText(status: nat, title: string, contentLen: int, linger: bool, text: string)
    ensures ResponseText(Concat(HeadPieces(status, title, contentLen, linger)) + text, Decimal(status) + " " + title,
                         FormatInt(ToInt32(contentLen)), linger, text)
  {
    hide Decimal, FormatInt, ToInt32, Concat;
    var p := HeadPieces(status, title, contentLen, linger);
    ConcatFour(p[0], p[1], p[2], p[3]);
    StatusText(Decimal(status), title);
    hide HeadPieces;
    Regroup(p[0], "Content-Length: " + FormatInt(ToInt32(contentLen)) + "\r\n",
            "Connection: " + (if linger then "keep-alive" else "close") + "\r\n", text);
    Regroup3("HTTP/1.1 " + (Decimal(status) + " " + title) + "\r\n", FormatInt(ToInt32(contentLen)),
             if linger then "keep-alive" else "close");
  }

  lemma StatusText(status: string, title: string)
    ensures "HTTP/1.1 " + status + " " + title + "\r\n" == "HTTP/1.1 " + (status + " " + title) + "\r\n"
  {
  }

  lemma Regroup(a: string, b: string, c: string, text: string)
    ensures a + (b + (c + "\r\n")) + text == a + b + c + "\r\n" + text
  {
  }

  lemma Regroup3(a: string, number: string, option: string)
    ensures a + ("Content-Length: " + number + "\r\n") + ("Connection: " + option + "\r\n")
         == a + "Content-Length: " + number + "\r\n" + "Connection: " + option + "\r\n"
  {
  }

  lemma StatusNumbers()
    ensures Decimal(200) == "200" && Decimal(400) == "400" && Decimal(403) == "403" && Decimal(404) == "404"
    ensures Decimal(500) == "500"
  {
    assert Decimal(2) == "2" && Decimal(20) == "20" && Decimal(4) == "4" && Decimal(40) == "40";
    assert Decimal(5) == "5" && Decimal(50) == "50";
  }

  lemma StatusLines()
    ensures Decimal(200) + " " + "OK" == "200 OK" && Decimal(400) + " " + "Bad Request" == "400 Bad Request"
    ensures Decimal(403) + " " + "Forbidden" == "403 Forbidden" && Decimal(404) + " " + "Not Found" == "404 Not Found"
    ensures Decimal(500) + " " + "Internal Error" == "500 Internal Error"
  {
    hide Decimal;
    StatusNumbers();
  }

  // ---- the pages ----

  /** A page that is filled in is sent as its text. */
  lemma PageFilled(bufSize: nat, v: Verdict, linger: bool, size: nat, response: string, ok: bool)
    requires WRITE_BUFFER_SIZE <= bufSize && ErrorPage(SourcePages(), v).Some?
    requires Filled(SourcePages(), bufSize, "", v, linger, size, response, ok)
    ensures var page := ErrorPage(SourcePages(), v).value;
      ok && PageSent(response, Decimal(page.status) + " " + page.title, linger, page.form)
  {
    hide Framed, Answers, AppendAll, Decimal, FormatInt, SourcePages, ShortPages, ErrorPage, HeadPieces, Concat;
    hide ResponseText, Prints, StatusLine;
    SourcePagesShort();
    var page := ErrorPage(SourcePages(), v).value;
    ErrorFraming(SourcePages(), bufSize, v, linger, size);
    PageShort(v);
    PieceTotal(page.status, page.title, |page.form|, linger, page.form);
    PiecesText(page.status, page.title, |page.form|, linger, page.form);
    FormatPrints(|page.form|);
    assert Prints(FormatInt(ToInt32(|page.form|)), |page.form|);
  }

  lemma PageShort(v: Verdict)
    requires ErrorPage(SourcePages(), v).Some?
    ensures |ErrorPage(SourcePages(), v).value.form| <= 100
  {
    SourcePagesShort();
    hide SourcePages;
  }

  lemma FileFilled(bufSize: nat, linger: bool, size: nat, response: string, ok: bool)
    requires WRITE_BUFFER_SIZE <= bufSize
    requires Filled(SourcePages(), bufSize, "", FileRequest, linger, size, response, ok)
    ensures ok <==> size != 0
    ensures ok ==> FileSent(response, linger, size)
  {
    hide AppendAll, Decimal, FormatInt, SourcePages, HeadPieces, Concat;
    FileAnswered(SourcePages(), bufSize, linger, size);
    if size != 0 {
      var file := seq(size, _ => ' ');
      FileFraming(SourcePages(), bufSize, linger, file);
      FileHasNoErrorPage(SourcePages());
      PiecesText(200, "OK", size, linger, "");
      StatusLines();
      FormatPrints(ToInt32(size));
      LowBitsIs(size, ToInt32(size));
      assert response + "" == response;
    }
  }

  /** What is filled in for a verdict is its text. */
  lemma FilledText(bufSize: nat, v: Verdict, linger: bool, size: nat, response: string, ok: bool)
    requires WRITE_BUFFER_SIZE <= bufSize && Filled(SourcePages(), bufSize, "", v, linger, size, response, ok)
    ensures TextFor(v, linger, size, response, ok)
  {
    hide Filled, PageSent, FileSent, Decimal, SourcePages;
    hide NotFoundText, ForbiddenText, BadRequestText, InternalErrorText;
    if v == FileRequest {
      FileFilled(bufSize, linger, size, response, ok);
    } else if ErrorPage(SourcePages(), v).Some? {
      StatusLines();
      PageTable();
      PageFilled(bufSize, v, linger, size, response, ok);
    } else {
      NothingFilled(bufSize, v, linger, size, response, ok);
    }
  }

  lemma NothingFilled(bufSize: nat, v: Verdict, linger: bool, size: nat, response: string, ok: bool)
    requires ErrorPage(SourcePages(), v).None? && v != FileRequest
    requires Filled(SourcePages(), bufSize, "", v, linger, size, response, ok)
    ensures !ok
  {
    hide SourcePages, AppendAll, HeadPieces;
  }

  lemma PageTable()
    ensures var p := SourcePages();
      && p.internalError == Page(500, "Internal Error", InternalErrorText())
      && p.badRequest == Page(400, "Bad Request", BadRequestText())
      && p.notFound == Page(404, "Not Found", NotFoundText())
      && p.forbidden == Page(403, "Forbidden", ForbiddenText())
  {
  }

  lemma FilledRejects(bufSize: nat, linger: bool, size: nat, response: string, ok: bool)
    requires WRITE_BUFFER_SIZE <= bufSize
    requires Filled(SourcePages(), bufSize, "", BadRequest, linger, size, response, ok)
    ensures Rejection(linger, response, ok)
  {
    hide Filled, PageSent, SourcePages, NotFoundText, ForbiddenText, BadRequestText, InternalErrorText;
    FilledText(bufSize, BadRequest, linger, size, response, ok);
  }

  lemma ServeLooksUp(env: Env, url: string)
    ensures LookedUp(env, url, Serve(env, url))
  {
  }

  /** What is filled in for the lookup of a URL is the answer stat calls for. */
  lemma FilledAnswers(env: Env, bufSize: nat, url: string, keepAlive: bool, response: string, ok: bool)
    requires WRITE_BUFFER_SIZE <= bufSize
    requires Filled(SourcePages(), bufSize, "", Serve(env, url), keepAlive, StatSize(env, url), response, ok)
    ensures AnswerTo(env, url, keepAlive, response, ok)
  {
    hide Filled, PageSent, FileSent, Serve, SourcePages, NotFoundText, ForbiddenText, BadRequestText;
    hide InternalErrorText;
    ServeLooksUp(env, url);
    FilledText(bufSize, Serve(env, url), keepAlive, StatSize(env, url), response, ok);
  }

  // ---- the exchange ----

  /** What process_write makes of the lookup of a URL is a reply to it, and with the page texts of the code
      it is the answer to the letter. */
  lemma WrittenReplies(pages: Pages, env: Env, bufSize: nat, url: string, keepAlive: bool, written: string, ok: bool)
    requires ShortPages(pages) && WRITE_BUFFER_SIZE <= bufSize
    requires Filled(pages, bufSize, "", Serve(env, url), keepAlive, StatSize(env, url), written, ok)
    ensures Replies(pages, env, url, keepAlive, Serve(env, url), written, ok)
    ensures pages == SourcePages() ==> AnswerTo(env, url, keepAlive, written, ok)
  {
    hide AnswerTo, SourcePages, Filled;
    if pages == SourcePages() { FilledAnswers(env, bufSize, url, keepAlive, written, ok); }
    FilledReplies(pages, env, bufSize, url, keepAlive, written, ok);
  }

  lemma FilledReplies(pages: Pages, env: Env, bufSize: nat, url: string, keepAlive: bool, written: string, ok: bool)
    requires ShortPages(pages) && WRITE_BUFFER_SIZE <= bufSize
    requires Filled(pages, bufSize, "", Serve(env, url), keepAlive, StatSize(env, url), written, ok)
    ensures Replies(pages, env, url, keepAlive, Serve(env, url), written, ok)
  {
    hide Framed, Pieces, AppendAll, StatusLine, RealFile, HeadPieces, Answers;
    hide ShortPage;
    var size, v := StatSize(env, url), Serve(env, url);
    FileAnswered(pages, bufSize, keepAlive, size);
    if v != FileRequest {
      ErrorFraming(pages, bufSize, v, keepAlive, size);
    } else if size != 0 {
      forall file: string | |file| == size
        ensures Framed(written + file, StatusLine(200, "OK"), keepAlive, file) <==> |file| <= INT_MAX
      {
        FileFraming(pages, bufSize, keepAlive, file);
      }
    }
  }

  /** The reads lead to the lookup of this URL, with its linger flag. */
  ghost predicate LeadsTo(env: Env, pieces: seq<string>, url: string, keepAlive: bool) {
    var (v, q) := Receive(env, INIT, pieces);
    v == Serve(env, url) && q.linger == keepAlive && q.url.At? && CStrAt(q.buf, q.url.off) == url
  }

  /** A whole exchange on a fresh connection: a request in any spelling, delivered in any reads that do not
      end inside the body, leads to the lookup of its URL, and whatever process_write makes of that is
      a reply to it and the answer to the letter, whose Connection header answers what the request asked for. */
  lemma Exchange(pages: Pages, env: Env, bufSize: nat, url: string, host: Option<string>, keepAlive: bool,
                 body: string, pieces: seq<string>)
    requires Arrives(env, url, host, keepAlive, body, pieces)
    requires ShortPages(pages) && WRITE_BUFFER_SIZE <= bufSize
    ensures LeadsTo(env, pieces, url, keepAlive)
    ensures forall written, ok ::
      Filled(pages, bufSize, "", Serve(env, url), keepAlive, StatSize(env, url), written, ok)
      ==> && Replies(pages, env, url, keepAlive, Serve(env, url), written, ok)
          && (pages == SourcePages() ==> AnswerTo(env, url, keepAlive, written, ok))
  {
    hide AnswerTo, SourcePages;
    hide Receive, Arrives, Replies, StatSize, Serve, CStrAt, Filled;
    RequestRoundTrip(env, url, host, keepAlive, body, pieces);
    forall written, ok | Filled(pages, bufSize, "", Serve(env, url), keepAlive, StatSize(env, url), written, ok)
      ensures Replies(pages, env, url, keepAlive, Serve(env, url), written, ok)
      ensures pages == SourcePages() ==> AnswerTo(env, url, keepAlive, written, ok)
    {
      WrittenReplies(pages, env, bufSize, url, keepAlive, written, ok);
    }
  }

  // ---- a request that is refused ----

  lemma RequestLineLinger(env: Env, p: Parser)
    requires p.startLine <= p.checkedIdx <= |p.buf| && p.state == RequestLine
    ensures LoopBody(env, p).1.linger == p.linger
  {
    hide CStrAt, EqNoCase, AbsPathPtr, Find;
  }

  lemma RefusedRun(env: Env, input: string)
    requires ReadHead(input) == Rejected
    ensures ProcessRead(env, Feed(INIT, input)).0 == BadRequest && !ProcessRead(env, Feed(INIT, input)).1.linger
  {
    hide ParseLine, LoopBody, ReadHead, RequestTarget, CStrAt, ProcessRead, Scanned, Pointers, TargetStart;
    var p := Feed(INIT, input);
    assert p.buf == input;
    FreshValid(input);
    ReadHeadStep(p);
    RunTurn(env, p);
    var _ := HeadRun(env, input);
    if ParseLine(p).0 == LineOk {
      ParseLineFrame(p);
      FirstStep(env, p);
      RequestLineLinger(env, ParseLine(p).1);
    }
  }

  /** A first line that is no request line is refused, in any reads, before any header could ask for the
      connection to stay. */
  lemma RefusedReads(env: Env, pieces: seq<string>)
    requires pieces != [] && CleanCuts(pieces) && RefusedHead(Concat(pieces))
    ensures Receive(env, INIT, pieces).0 == BadRequest && !Receive(env, INIT, pieces).1.linger
  {
    hide ProcessRead, CleanCuts, Receive, ReadHead, RefusedHead;
    RefusedGrammar(Concat(pieces));
    RefusedRun(env, Concat(pieces));
    ChunkIndependence(env, pieces);
  }
}
