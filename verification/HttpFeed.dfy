/** Bytes that arrive later do not change what the parser made of the bytes before them. */
module HttpFeed {
  import opened CStrings
  import opened HttpParser

  lemma {:induction false} FindFeed(s: string, b: string, from: nat, k: CharClass)
    requires from <= |s|
    ensures Find(s, from, k) < |s| ==> Find(s + b, from, k) == Find(s, from, k)
    ensures Find(s, from, k) == |s| ==> Find(s + b, |s|, k) == Find(s + b, from, k)
  {
    var j := Find(s, from, k);
    assert forall i | from <= i < j :: (s + b)[i] == s[i];
    if j < |s| {
      FindIs(s + b, from, k, j);
    } else {
      FindIs(s + b, from, k, Find(s + b, |s|, k));
    }
  }

  lemma UpdateFeed(s: string, b: string, i: nat, c: char)
    requires i < |s|
    ensures (s + b)[i := c] == s[i := c] + b
  {
  }

  lemma CStrFeed(buf: string, b: string, i: nat, bound: nat)
    requires i < bound <= |buf| && buf[bound - 1] == '\0'
    ensures CStrAt(buf + b, i) == CStrAt(buf, i)
  {
    FindFeed(buf, b, i, Nul);
    var j := Find(buf, i, Nul);
    assert (buf + b)[i..j] == buf[i..j];
  }

  lemma ParseLineFeedClosed(p: Parser, b: string)
    requires Scanned(p) && ParseLine(p).0 != LineOpen
    ensures ParseLine(Feed(p, b)) == (ParseLine(p).0, Feed(ParseLine(p).1, b))
  {
    var j := Find(p.buf, p.checkedIdx, Eol);
    FindFeed(p.buf, b, p.checkedIdx, Eol);
    assert (p.buf + b)[j] == p.buf[j];
    if j + 1 < |p.buf| {
      assert (p.buf + b)[j + 1] == p.buf[j + 1];
      UpdateFeed(p.buf, b, j, '\0');
      UpdateFeed(p.buf[j := '\0'], b, j + 1, '\0');
    }
    assert j > 0 ==> (p.buf + b)[j - 1] == p.buf[j - 1] != '\r';
  }

  /** Where the scan stops with more bytes, started from where it stopped without them. */
  lemma ScanFeed(s: string, b: string, from: nat)
    requires from <= |s|
    ensures var j := Find(s, from, Eol); Find(s + b, j, Eol) == Find(s + b, from, Eol)
  {
    FindFeed(s, b, from, Eol);
    var j := Find(s, from, Eol);
    if j < |s| { FindIs(s + b, j, Eol, j); }
  }

  lemma ParseLineFeedOpen(p: Parser, b: string)
    requires Scanned(p) && ParseLine(p).0 == LineOpen
    ensures ParseLine(Feed(ParseLine(p).1, b)) == ParseLine(Feed(p, b))
  {
    ParseLineCuts(p);
    ScanFeed(p.buf, b, p.checkedIdx);
    var j := Find(p.buf, p.checkedIdx, Eol);
    SameScanSameLine(Feed(p, b), j);
    hide Find, ParseLine;
  }

  /** parse_line does the same from any position up to the line end it finds. */
  lemma SameScanSameLine(p: Parser, j: nat)
    requires p.checkedIdx <= j <= |p.buf| && Find(p.buf, j, Eol) == Find(p.buf, p.checkedIdx, Eol)
    ensures ParseLine(p.(checkedIdx := j)) == ParseLine(p)
  {
    hide Find;
  }

  /** parse_line on more bytes: the same cut or the same rejection; an unfinished line is resumed
      exactly where a scan of all the bytes would be. */
  lemma ParseLineFeed(p: Parser, b: string)
    requires Scanned(p)
    ensures ParseLine(p).0 != LineOpen ==> ParseLine(Feed(p, b)) == (ParseLine(p).0, Feed(ParseLine(p).1, b))
    ensures ParseLine(p).0 == LineOpen ==> ParseLine(Feed(ParseLine(p).1, b)) == ParseLine(Feed(p, b))
  {
    if ParseLine(p).0 == LineOpen {
      ParseLineFeedOpen(p, b);
    } else {
      ParseLineFeedClosed(p, b);
    }
  }

  /** LINE_BAD is absorbing: the scan stays at the offending byte. */
  lemma BadLineStays(p: Parser, b: string)
    requires Scanned(p) && ParseLine(p).0 == LineBad
    ensures ParseLine(Feed(ParseLine(p).1, b)) == (LineBad, Feed(ParseLine(p).1, b))
  {
    var j := Find(p.buf, p.checkedIdx, Eol);
    ParseLineCuts(p);
    assert forall i | 0 <= i < |p.buf| :: (p.buf + b)[i] == p.buf[i];
    FindIs(p.buf + b, j, Eol, j);
  }

  lemma CheckTargetFeed(p: Parser, u: nat, v: nat, b: string)
    requires u < p.startLine <= |p.buf| && v < p.startLine && p.buf[p.startLine - 1] == '\0'
    ensures CheckTarget(Feed(p, b), u, v) == (CheckTarget(p, u, v).0, Feed(CheckTarget(p, u, v).1, b))
  {
    hide EqNoCase, CStrAt;
    CStrFeed(p.buf, b, u, p.startLine);
    CStrFeed(p.buf, b, v, p.startLine);
    EndsInside(p.buf, u, p.startLine);
    if u + 7 < p.startLine {
      CStrFeed(p.buf, b, u + 7, p.startLine);
    }
    AbsPathInside(p.buf, u, p.startLine);
    if AbsPathPtr(p.buf, u).At? {
      CStrFeed(p.buf, b, AbsPathPtr(p.buf, u).off, p.startLine);
    }
  }

  /** The string behind leading blanks, with more bytes behind the line. */
  lemma BlanksFeed(buf: string, b: string, u: nat, bound: nat)
    requires u < bound <= |buf| && buf[bound - 1] == '\0'
    ensures CStrAt(buf + b, u) == CStrAt(buf, u)
    ensures var v := u + Find(CStrAt(buf, u), 0, NonBlank);
      && v < bound && CStrAt(buf + b, v) == CStrAt(buf, v)
      && v + |CStrAt(buf, v)| < bound
  {
    hide CStrAt;
    CStrFeed(buf, b, u, bound);
    EndsInside(buf, u, bound);
    var v := u + Find(CStrAt(buf, u), 0, NonBlank);
    CStrFeed(buf, b, v, bound);
    EndsInside(buf, v, bound);
  }

  lemma TargetFeed(p: Parser, u: nat, b: string)
    requires u < p.startLine <= |p.buf| && p.buf[p.startLine - 1] == '\0'
    ensures ParseTarget(Feed(p, b), u) == (ParseTarget(p, u).0, Feed(ParseTarget(p, u).1, b))
  {
    hide CheckTarget, CStrAt, Find;
    BlanksFeed(p.buf, b, u, p.startLine);
    var u' := u + Find(CStrAt(p.buf, u), 0, NonBlank);
    var k := Find(CStrAt(p.buf, u'), 0, Blank);
    if k < |CStrAt(p.buf, u')| {
      var c := p.buf[u' + k := '\0'];
      UpdateFeed(p.buf, b, u' + k, '\0');
      BlanksFeed(c, b, u' + k + 1, p.startLine);
      var v := u' + k + 1 + Find(CStrAt(c, u' + k + 1), 0, NonBlank);
      CheckTargetFeed(p.(buf := c, url := At(u'), version := At(v)), u', v, b);
    }
  }

  lemma RequestLineFeed(p: Parser, text: nat, b: string)
    requires text < p.startLine <= |p.buf| && p.buf[p.startLine - 1] == '\0'
    ensures ParseRequestLine(Feed(p, b), text)
         == (ParseRequestLine(p, text).0, Feed(ParseRequestLine(p, text).1, b))
  {
    hide ParseTarget, CStrAt, EqNoCase;
    CStrFeed(p.buf, b, text, p.startLine);
    EndsInside(p.buf, text, p.startLine);
    var i := Find(CStrAt(p.buf, text), 0, Blank);
    if i < |CStrAt(p.buf, text)| {
      var c := p.buf[text + i := '\0'];
      UpdateFeed(p.buf, b, text + i, '\0');
      CStrFeed(c, b, text, p.startLine);
      TargetFeed(p.(buf := c, url := At(text + i + 1), verb := GET), text + i + 1, b);
    }
  }

  lemma HeadersFeed(p: Parser, text: nat, b: string)
    requires text < p.startLine <= |p.buf| && p.buf[p.startLine - 1] == '\0'
    ensures ParseHeaders(Feed(p, b), text) == (ParseHeaders(p, text).0, Feed(ParseHeaders(p, text).1, b))
  {
    hide CStrAt, EqNoCase;
    CStrFeed(p.buf, b, text, p.startLine);
  }

  lemma DoRequestFeed(env: Env, p: Parser, b: string)
    requires p.url.At? ==> EndsBefore(p.buf, p.url.off, p.startLine)
    ensures DoRequest(env, Feed(p, b)) == DoRequest(env, p)
  {
    if p.url.At? {
      assert (p.buf + b)[..p.startLine] == p.buf[..p.startLine];
      CStrAtStable(p.buf, p.buf + b, p.url.off, p.startLine);
    }
  }

  /** A turn of the loop on a cut line does the same whatever follows the line. */
  lemma LoopBodyFeed(env: Env, p: Parser, b: string)
    requires Pointers(p) && LineReady(p) && p.state != Content
    ensures LoopBody(env, Feed(p, b)) == (LoopBody(env, p).0, Feed(LoopBody(env, p).1, b))
  {
    hide ParseRequestLine, ParseHeaders;
    var q := p.(startLine := p.checkedIdx);
    if p.state == RequestLine {
      RequestLineFeed(q, p.startLine, b);
    } else {
      HeadersFeed(q, p.startLine, b);
      HeadersKeep(q, p.startLine);
      PointersStable(p, q);
      DoRequestFeed(env, q, b);
    }
  }
}
