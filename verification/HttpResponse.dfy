/** The response side of http_conn: the bounded append buffer and the pages it is filled with. */
module HttpResponse {
  import opened CStrings
  import opened HttpParser
  import opened HttpReference
  import opened HttpChunks
  import opened HttpRoundTrip

  // ---- the bounded buffer ----

  /** add_response keeps the piece only when it and vsnprintf's NUL leave a byte to spare. */
  predicate Accepts(size: nat, written: string, piece: string) {
    |written| + |piece| + 2 <= size
  }

  /** The buffer after one add_response call; a refused piece leaves no trace. */
  function Append(size: nat, written: string, piece: string): string {
    if Accepts(size, written, piece) then written + piece else written
  }

  /** The buffer after a sequence of add_response calls. */
  function AppendAll(size: nat, written: string, pieces: seq<string>): (r: string)
    ensures written <= r
    ensures |written| + 2 <= size ==> |r| + 2 <= size
    decreases |pieces|
  {
    if pieces == [] then written
    else AppendAll(size, Append(size, written, pieces[0]), pieces[1..])
  }

  /** What each of the calls returns. */
  function Results(size: nat, written: string, pieces: seq<string>): (oks: seq<bool>)
    ensures |oks| == |pieces|
    decreases |pieces|
  {
    if pieces == [] then []
    else [Accepts(size, written, pieces[0])] + Results(size, Append(size, written, pieces[0]), pieces[1..])
  }

  /** The pieces whose calls returned true. */
  function Selected(pieces: seq<string>, oks: seq<bool>): seq<string>
    requires |oks| == |pieces|
    decreases |pieces|
  {
    if pieces == [] then []
    else (if oks[0] then [pieces[0]] else []) + Selected(pieces[1..], oks[1..])
  }

  /** What the calls add is exactly the pieces whose calls returned true, whole and in order. */
  lemma {:induction false} AppendedExactly(size: nat, written: string, pieces: seq<string>)
    ensures AppendAll(size, written, pieces)
         == written + Concat(Selected(pieces, Results(size, written, pieces)))
    decreases |pieces|
  {
    if pieces != [] {
      SelectedFirst(size, written, pieces);
      hide Results, Selected, Concat;
      var after := Append(size, written, pieces[0]);
      AppendedExactly(size, after, pieces[1..]);
      var ok := Accepts(size, written, pieces[0]);
      hide Accepts;
      ConcatFirst(written, pieces[0], ok, Selected(pieces[1..], Results(size, after, pieces[1..])));
    }
  }

  lemma SelectedFirst(size: nat, written: string, pieces: seq<string>)
    requires pieces != []
    ensures Selected(pieces, Results(size, written, pieces))
         == (if Accepts(size, written, pieces[0]) then [pieces[0]] else [])
            + Selected(pieces[1..], Results(size, Append(size, written, pieces[0]), pieces[1..]))
  {
    var oks := Results(size, written, pieces);
    assert oks[1..] == Results(size, Append(size, written, pieces[0]), pieces[1..]);
  }

  lemma ConcatFirst(written: string, piece: string, ok: bool, rest: seq<string>)
    ensures written + Concat((if ok then [piece] else []) + rest)
         == (if ok then written + piece else written) + Concat(rest)
  {
    if ok {
      assert ([piece] + rest)[1..] == rest;
    } else {
      assert [] + rest == rest;
    }
  }

  /** A call returns true exactly when its piece still fits behind what the calls before it added. */
  lemma {:induction false} ResultAt(size: nat, written: string, pieces: seq<string>, i: nat)
    requires i < |pieces|
    ensures Results(size, written, pieces)[i]
         <==> |AppendAll(size, written, pieces[..i])| + |pieces[i]| + 2 <= size
    decreases i
  {
    if i > 0 {
      ResultAt(size, Append(size, written, pieces[0]), pieces[1..], i - 1);
      assert pieces[..i][1..] == pieces[1..][..i - 1];
    }
  }

  /** Pieces that fit together are all kept, in order and whole. */
  lemma {:induction false} AllFit(size: nat, written: string, pieces: seq<string>)
    requires |written| + |Concat(pieces)| + 2 <= size
    ensures AppendAll(size, written, pieces) == written + Concat(pieces)
    decreases |pieces|
  {
    if pieces != [] {
      AllFit(size, written + pieces[0], pieces[1..]);
    }
  }

  lemma {:induction false} AppendAllSplit(size: nat, written: string, a: seq<string>, b: seq<string>)
    ensures AppendAll(size, written, a + b) == AppendAll(size, AppendAll(size, written, a), b)
    decreases |a|
  {
    if a == [] {
      assert a + b == b;
    } else {
      assert (a + b)[1..] == a[1..] + b;
      AppendAllSplit(size, Append(size, written, a[0]), a[1..], b);
    }
  }

  lemma AppendFour(size: nat, written: string, a: string, b: string, c: string, d: string)
    ensures AppendAll(size, written, [a, b, c, d])
         == Append(size, Append(size, Append(size, Append(size, written, a), b), c), d)
  {
    hide Append;
    assert [a, b, c, d][1..] == [b, c, d] && [b, c, d][1..] == [c, d] && [c, d][1..] == [d] && [d][1..] == [];
    var w := Append(size, written, a);
    assert AppendAll(size, written, [a, b, c, d]) == AppendAll(size, w, [b, c, d]);
    var w' := Append(size, w, b);
    assert AppendAll(size, w, [b, c, d]) == AppendAll(size, w', [c, d]);
    var w'' := Append(size, w', c);
    assert AppendAll(size, w', [c, d]) == AppendAll(size, w'', [d]) == Append(size, w'', d);
  }

  // ---- the pages ----

  datatype Page = Page(status: nat, title: string, form: string)

  /** The texts of lines 3-11 and 514, which the code reads from global variables. */
  datatype Pages = Pages(internalError: Page, badRequest: Page, notFound: Page, forbidden: Page, emptyForm: string)

  function InternalErrorPage(): Page {
    Page(500, "Internal Error", "There was an unusual problem serving the requested file.\n")
  }

  function BadRequestPage(): Page {
    Page(400, "Bad Request", "Your request has bad syntax or is inherently impossible to satisfy.\n")
  }

  function NotFoundPage(): Page {
    Page(404, "Not Found", "The requested file was not found on this server.\n")
  }

  function ForbiddenPage(): Page {
    Page(403, "Forbidden", "You do not have permission to get file from this server.\n")
  }

  function SourcePages(): Pages {
    Pages(InternalErrorPage(), BadRequestPage(), NotFoundPage(), ForbiddenPage(), "<html><body></body></html>")
  }

  function ErrorPage(pages: Pages, v: Verdict): Option<Page> {
    match v
    case InternalError => Some(pages.internalError)
    case BadRequest => Some(pages.badRequest)
    case NoResource => Some(pages.notFound)
    case ForbiddenRequest => Some(pages.forbidden)
    case _ => None
  }

  lemma FileHasNoErrorPage(pages: Pages)
    ensures ErrorPage(pages, FileRequest).None?
  {
  }

  function StatusLine(status: nat, title: string): string {
    "HTTP/1.1 " + Decimal(status) + " " + title
  }

  function ConnectionOption(linger: bool): string {
    if linger then "keep-alive" else "close"
  }

  /** add_status_line and add_headers; the int parameter truncates the length. */
  function HeadPieces(status: nat, title: string, contentLen: int, linger: bool): seq<string> {
    [StatusLine(status, title) + "\r\n",
     "Content-Length: " + FormatInt(ToInt32(contentLen)) + "\r\n",
     "Connection: " + ConnectionOption(linger) + "\r\n",
     "\r\n"]
  }

  /** The add_response calls process_write makes for a verdict; `size` is m_file_stat.st_size. */
  function Pieces(pages: Pages, v: Verdict, linger: bool, size: nat): seq<string> {
    match ErrorPage(pages, v)
    case Some(page) => HeadPieces(page.status, page.title, |page.form|, linger) + [page.form]
    case None =>
      if v != FileRequest then []
      else if size != 0 then HeadPieces(200, "OK", size, linger)
      else HeadPieces(200, "OK", |pages.emptyForm|, linger) + [pages.emptyForm]
  }

  /** process_write's result: an error page needs its content accepted, a non-empty file always
      goes out, and an empty file falls through to `return false`. */
  predicate Answers(pages: Pages, bufSize: nat, written: string, v: Verdict, linger: bool, size: nat) {
    match ErrorPage(pages, v)
    case Some(page) =>
      Accepts(bufSize, AppendAll(bufSize, written, HeadPieces(page.status, page.title, |page.form|, linger)), page.form)
    case None => v == FileRequest && size != 0
  }

  /** process_write(v) has put `written` into a buffer that held `was`, and returned `ok`. */
  predicate Filled(pages: Pages, bufSize: nat, was: string, v: Verdict, linger: bool, size: nat,
                   written: string, ok: bool)
  {
    && written == AppendAll(bufSize, was, Pieces(pages, v, linger, size))
    && ok == Answers(pages, bufSize, was, v, linger, size)
  }

  /** How process() ends: more input wanted, an answer ready, or the connection closed. */
  datatype Processing = WantInput | Answered | Closed

  // ---- framing ----

  /** A response as a client reads it: a status line, headers to a blank line, and a body whose
      length is the declared one. */
  ghost predicate Framed(response: string, status: string, linger: bool, body: string) {
    && FirstLine(response) == Whole(status, |status| + 2)
    && var head := ReadHeaders(response[|status| + 2..], |status| + 2, "", []);
       && head.Ready?
       && response[head.body..] == body
       && DeclaredLength(head.headers) == |body|
       && KeepsAlive(head.headers) == linger
  }

  function ResponseHeaders(contentLen: int, linger: bool): seq<string> {
    ["Content-Length: " + FormatInt(ToInt32(contentLen)), "Connection: " + ConnectionOption(linger)]
  }

  lemma ResponseMeaning(contentLen: int, linger: bool)
    ensures KeepsAlive(ResponseHeaders(contentLen, linger)) == linger
    ensures DeclaredLength(ResponseHeaders(contentLen, linger)) == ToInt32(contentLen)
  {
    hide StartsNoCase, EqNoCase, SkipBlanks, AtolInt, KeepsAlive, LastValue, ToInt32, FormatInt;
    var option, number := ConnectionOption(linger), FormatInt(ToInt32(contentLen));
    var l, c := "Content-Length: " + number, "Connection: " + option;
    assert l == "Content-Length:" + " " + number && c == "Connection:" + " " + option;
    FormatPlain(ToInt32(contentLen));
    ValueOf("Content-Length:", number);
    ValueOf("Connection:", option);
    DistinctNames(l);
    DistinctNames(c);
    ReadingOfTwo(l, c, "Content-Length:");
    AtolInvertsFormat(ToInt32(contentLen));
    Options(option);
  }

  lemma ReadingOfTwo(a: string, b: string, name: string)
    ensures LastValue([a, b], name)
      == if StartsNoCase(b, name) then Some(SkipBlanks(b[|name|..]))
         else if StartsNoCase(a, name) then Some(SkipBlanks(a[|name|..]))
         else None
    ensures KeepsAlive([a, b]) == (IsKeepAlive(a) || IsKeepAlive(b))
  {
    hide IsKeepAlive, StartsNoCase, SkipBlanks;
    AppendHeader([], a);
    AppendHeader([a], b);
    assert [] + [a] == [a] && [a] + [b] == [a, b];
  }

  /** The head of a response reads back as its status line and its two headers. */
  lemma HeadReadsBack(status: nat, title: string, contentLen: int, linger: bool, body: string)
    requires Plain(title)
    ensures var line, headers := StatusLine(status, title), ResponseHeaders(contentLen, linger);
      var response := Concat(HeadPieces(status, title, contentLen, linger)) + body;
      && FirstLine(response) == Whole(line, |line| + 2)
      && ReadHeaders(response[|line| + 2..], |line| + 2, "", []) == Ready("", headers, |response| - |body|)
  {
    hide FirstLine, ReadHeaders, CStr, FormatInt, ToInt32, StatusLine, HeadPieces, Concat, Lines, Plain;
    var line, headers := StatusLine(status, title), ResponseHeaders(contentLen, linger);
    var rest := Lines(headers) + "\r\n" + body;
    PlainLiterals(0);
    FormatPlain(ToInt32(contentLen));
    StatusPlain(status, title);
    PlainParts("Content-Length: ", FormatInt(ToInt32(contentLen)));
    OptionPlain(linger);
    HeadText(status, title, contentLen, linger);
    assert Concat(HeadPieces(status, title, contentLen, linger)) + body == line + "\r\n" + rest;
    FirstLineOf(line, rest);
    HeadersOf(headers, body, |line| + 2, "", []);
    assert [] + headers == headers;
  }

  lemma HeadText(status: nat, title: string, contentLen: int, linger: bool)
    ensures Concat(HeadPieces(status, title, contentLen, linger))
         == StatusLine(status, title) + "\r\n" + (Lines(ResponseHeaders(contentLen, linger)) + "\r\n")
  {
    hide StatusLine, FormatInt, ToInt32, Concat, Lines;
    var pieces := HeadPieces(status, title, contentLen, linger);
    var headers := ResponseHeaders(contentLen, linger);
    ConcatFour(pieces[0], pieces[1], pieces[2], pieces[3]);
    LinesTwo(headers[0], headers[1]);
  }

  lemma OptionPlain(linger: bool)
    ensures Plain("Connection: " + ConnectionOption(linger))
  {
    PlainLiterals(0);
    assert "Connection: " + "keep-alive" == "Connection: keep-alive";
    assert "Connection: " + "close" == "Connection: close";
  }

  lemma StatusPlain(status: nat, title: string)
    requires Plain(title)
    ensures Plain(StatusLine(status, title))
  {
    PlainLiterals(status);
    PlainParts("HTTP/1.1 ", Decimal(status));
    PlainParts("HTTP/1.1 " + Decimal(status), " ");
    PlainParts("HTTP/1.1 " + Decimal(status) + " ", title);
  }

  lemma ConcatFour(a: string, b: string, c: string, d: string)
    ensures Concat([a, b, c, d]) == a + (b + (c + d))
    ensures forall e :: Concat([a, b, c, d] + [e]) == a + (b + (c + d)) + e
  {
    ConcatFrom(a, b, c, d, []);
    assert [a, b, c, d] + [] == [a, b, c, d];
    forall e ensures Concat([a, b, c, d] + [e]) == a + (b + (c + d)) + e {
      ConcatFrom(a, b, c, d, [e]);
      ConcatCons(e, []);
      assert [e] + [] == [e];
    }
  }

  lemma ConcatFrom(a: string, b: string, c: string, d: string, rest: seq<string>)
    ensures Concat([a, b, c, d] + rest) == a + (b + (c + d)) + Concat(rest)
  {
    hide Concat;
    ConcatCons(d, rest);
    ConcatCons(c, [d] + rest);
    ConcatCons(b, [c] + ([d] + rest));
    ConcatCons(a, [b] + ([c] + ([d] + rest)));
    assert [a] + ([b] + ([c] + ([d] + rest))) == [a, b, c, d] + rest;
  }

  lemma LinesTwo(a: string, b: string)
    ensures Lines([a, b]) == a + "\r\n" + (b + "\r\n")
  {
    assert [a, b][1..] == [b] && [b][1..] == [];
    assert Lines([b]) == b + "\r\n";
  }

  function Pow10(k: nat): nat {
    if k == 0 then 1 else 10 * Pow10(k - 1)
  }

  lemma {:induction false} DecimalLength(n: nat, k: nat)
    requires 1 <= k && n < Pow10(k)
    ensures |Decimal(n)| <= k
  {
    if n >= 10 {
      DecimalLength(n / 10, k - 1);
    }
  }

  const WRITE_BUFFER_SIZE: nat := 1024

  /** Every head fits in a small part of the buffer. */
  lemma HeadIsShort(status: nat, title: string, contentLen: int, linger: bool)
    requires status < 1000 && |title| <= 20
    ensures |Concat(HeadPieces(status, title, contentLen, linger))| <= 120
  {
    hide ToInt32, FormatInt;
    var pieces := HeadPieces(status, title, contentLen, linger);
    var n := ToInt32(contentLen);
    assert Pow10(3) == 1000;
    DecimalLength(status, 3);
    NumberIsShort(n);
    ConcatFour(pieces[0], pieces[1], pieces[2], pieces[3]);
    assert |pieces[0]| <= 9 + 3 + 1 + 20 + 2 && |pieces[1]| <= 16 + 11 + 2 && |pieces[2]| <= 12 + 10 + 2;
  }

  lemma NumberIsShort(n: int)
    requires -INT_MAX - 1 <= n <= INT_MAX
    ensures |FormatInt(n)| <= 11
  {
    assert Pow10(5) == 100000;
    assert Pow10(10) == 10000000000 by {
      assert Pow10(7) == 10000000;
      assert Pow10(9) == 1000000000;
    }
    DecimalLength(if n < 0 then -n else n, 10);
  }

  /** A page whose title may stand on a line and whose parts are short. */
  predicate ShortPage(page: Page) {
    Plain(page.title) && |page.title| <= 20 && page.status < 1000 && |page.form| <= 100
  }

  lemma InternalErrorShort()
    ensures ShortPage(InternalErrorPage())
  {
  }

  lemma BadRequestShort()
    ensures ShortPage(BadRequestPage())
  {
  }

  lemma NotFoundShort()
    ensures ShortPage(NotFoundPage())
  {
  }

  lemma ForbiddenShort()
    ensures ShortPage(ForbiddenPage())
  {
  }

  /** Pages that fit: the code's do. */
  predicate ShortPages(pages: Pages) {
    && ShortPage(pages.internalError) && ShortPage(pages.badRequest)
    && ShortPage(pages.notFound) && ShortPage(pages.forbidden)
  }

  lemma SourcePagesShort()
    ensures ShortPages(SourcePages())
  {
    hide ShortPage, InternalErrorPage, BadRequestPage, NotFoundPage, ForbiddenPage;
    InternalErrorShort();
    BadRequestShort();
    NotFoundShort();
    ForbiddenShort();
  }

  lemma PieceTotal(status: nat, title: string, contentLen: int, linger: bool, body: string)
    ensures Concat(HeadPieces(status, title, contentLen, linger) + [body])
         == Concat(HeadPieces(status, title, contentLen, linger)) + body
  {
    var p := HeadPieces(status, title, contentLen, linger);
    ConcatFour(p[0], p[1], p[2], p[3]);
  }

  /** A head and a body are framed if and only if the length in the head, once truncated to an int, is
      that of the body. */
  lemma FramedExactly(status: nat, title: string, contentLen: int, linger: bool, body: string)
    requires Plain(title)
    ensures var head := Concat(HeadPieces(status, title, contentLen, linger));
      Framed(head + body, StatusLine(status, title), linger, body) <==> ToInt32(contentLen) == |body|
  {
    hide FirstLine, ReadHeaders, DeclaredLength, KeepsAlive, StatusLine, ResponseHeaders, HeadPieces, Concat;
    hide Plain, ToInt32;
    var head := Concat(HeadPieces(status, title, contentLen, linger));
    HeadReadsBack(status, title, contentLen, linger, body);
    ResponseMeaning(contentLen, linger);
    assert (head + body)[|head|..] == body;
  }

  /** Every error verdict yields a complete page: nothing is truncated, and a client reads back the
      status line, the connection option and a body of exactly the declared length. */
  lemma ErrorFraming(pages: Pages, bufSize: nat, v: Verdict, linger: bool, size: nat)
    requires ShortPages(pages) && WRITE_BUFFER_SIZE <= bufSize && ErrorPage(pages, v).Some?
    ensures var page := ErrorPage(pages, v).value;
      var response := AppendAll(bufSize, "", Pieces(pages, v, linger, size));
      && Answers(pages, bufSize, "", v, linger, size)
      && response == Concat(Pieces(pages, v, linger, size))
      && Framed(response, StatusLine(page.status, page.title), linger, page.form)
  {
    assert ShortPage(ErrorPage(pages, v).value) by { hide ShortPage; }
    hide Framed, StatusLine, ErrorPage, HeadPieces;
    var page := ErrorPage(pages, v).value;
    var head := HeadPieces(page.status, page.title, |page.form|, linger);
    HeadIsShort(page.status, page.title, |page.form|, linger);
    PieceTotal(page.status, page.title, |page.form|, linger, page.form);
    AllFit(bufSize, "", head);
    AllFit(bufSize, "", head + [page.form]);
    FramedExactly(page.status, page.title, |page.form|, linger, page.form);
  }

  /** A non-empty file goes out behind its head over the two iovecs, and the two together are
      framed if and only if the size fits the int that add_headers takes. */
  lemma FileFraming(pages: Pages, bufSize: nat, linger: bool, file: string)
    requires WRITE_BUFFER_SIZE <= bufSize && file != ""
    ensures var head := AppendAll(bufSize, "", Pieces(pages, FileRequest, linger, |file|));
      && Answers(pages, bufSize, "", FileRequest, linger, |file|)
      && head == Concat(Pieces(pages, FileRequest, linger, |file|))
      && (Framed(head + file, StatusLine(200, "OK"), linger, file) <==> |file| <= INT_MAX)
  {
    hide Framed, StatusLine, HeadPieces, Concat, ErrorPage;
    FileHasNoErrorPage(pages);
    HeadIsShort(200, "OK", |file|, linger);
    AllFit(bufSize, "", HeadPieces(200, "OK", |file|, linger));
    FramedExactly(200, "OK", |file|, linger, file);
  }

  /** An empty file is answered with nothing: process_write falls through to `return false`. */
  lemma EmptyFileRefused(pages: Pages, bufSize: nat, written: string, v: Verdict, linger: bool, size: nat)
    requires !Answers(pages, bufSize, written, v, linger, size)
    requires |written| + |Concat(Pieces(pages, v, linger, size))| + 2 <= bufSize
    ensures ErrorPage(pages, v).None? && (v == FileRequest ==> size == 0)
  {
    match ErrorPage(pages, v)
    case Some(page) =>
      var head := HeadPieces(page.status, page.title, |page.form|, linger);
      PieceTotal(page.status, page.title, |page.form|, linger, page.form);
      AllFit(bufSize, written, head);
    case None =>
  }

  /** What m_file_stat.st_size holds after a lookup of the URL. */
  function StatSize(env: Env, url: string): nat {
    match env.stat(RealFile(env, url))
    case Missing => 0
    case Present(_, _, size) => size
  }

  /** A reply to a request for `url`: the verdict of its lookup, answered with a complete error page, or
      with the file stat reports behind a head that frames it if and only if its size fits an int; only
      an empty file is not answered. */
  ghost predicate Replies(pages: Pages, env: Env, url: string, keepAlive: bool, v: Verdict,
                          written: string, answered: bool)
  {
    && v == Serve(env, url)
    && (answered <==> v != FileRequest || StatSize(env, url) != 0)
    && if v == FileRequest then
         StatSize(env, url) != 0 ==>
           forall file: string | |file| == StatSize(env, url) ::
             Framed(written + file, StatusLine(200, "OK"), keepAlive, file) <==> |file| <= INT_MAX
       else
         ErrorPage(pages, v).Some?
         && var page := ErrorPage(pages, v).value;
            Framed(written, StatusLine(page.status, page.title), keepAlive, page.form)
  }

  lemma FileAnswered(pages: Pages, bufSize: nat, linger: bool, size: nat)
    ensures Answers(pages, bufSize, "", FileRequest, linger, size) <==> size != 0
  {
    hide ErrorPage;
    FileHasNoErrorPage(pages);
  }
}
