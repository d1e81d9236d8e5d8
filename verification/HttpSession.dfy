/** A persistent connection from its first request to its last. */
module HttpSession {
  import opened CStrings
  import opened HttpParser
  import opened HttpChunks
  import opened HttpReference
  import opened HttpGrammar
  import opened HttpRoundTrip
  import opened HttpAnswers
  import R = HttpResponse
  import HttpConn

  /** What a client asks for, and the reads in which the request arrives. */
  datatype Request = Request(url: string, host: Option<string>, keepAlive: bool, body: string, arrivals: seq<string>)

  /** How the server left the connection after a request, and the bytes it wrote. */
  datatype Reply = Reply(end: R.Processing, written: string)

  /** The request arrives, in any spelling. */
  ghost predicate Sent(env: Env, r: Request) {
    Arrives(env, r.url, r.host, r.keepAlive, r.body, r.arrivals)
  }

  /** The reply is the one to this request; with the page texts of the code, to the letter. */
  ghost predicate Meets(pages: R.Pages, env: Env, r: Request, reply: Reply) {
    && reply.end != R.WantInput
    && R.Replies(pages, env, r.url, r.keepAlive, Serve(env, r.url), reply.written, reply.end == R.Answered)
    && (pages == R.SourcePages() ==> AnswerTo(env, r.url, r.keepAlive, reply.written, reply.end == R.Answered))
  }

  /** The connection is kept after this reply. */
  predicate Stays(r: Request, reply: Reply) {
    reply.end == R.Answered && r.keepAlive
  }

  /** The connection is back where a first request may arrive. */
  ghost predicate Fresh(conn: HttpConn.Conn)
    reads conn, conn.readBuf, conn.writeBuf, conn.realFile
  {
    conn.Shape() && conn.State() == INIT && conn.Written() == "" && R.WRITE_BUFFER_SIZE <= conn.writeBuf.Length
    && R.ShortPages(conn.pages)
  }

  /** Only a file's answer depends on its size. */
  lemma SizeOfFile(pages: R.Pages, bufSize: nat, v: Verdict, linger: bool, a: nat, b: nat, written: string, ok: bool)
    requires (v != FileRequest || a == b) && R.Filled(pages, bufSize, "", v, linger, a, written, ok)
    ensures R.Filled(pages, bufSize, "", v, linger, b, written, ok)
  {
    hide R.HeadPieces, R.AppendAll;
  }

  /** One request: its reads and its processing, and the bytes and lengths left for writev. */
  method Answer(conn: HttpConn.Conn, r: Request) returns (reply: Reply)
    requires Fresh(conn) && Sent(conn.env, r)
    modifies conn, conn.readBuf, conn.writeBuf, conn.realFile
    ensures conn.Shape() && conn.readBuf == old(conn.readBuf)
    ensures conn.writeBuf == old(conn.writeBuf) && conn.realFile == old(conn.realFile)
    ensures Meets(conn.pages, conn.env, r, reply) && conn.linger == r.keepAlive && reply.written == conn.Written()
    ensures reply.end == R.Answered ==> conn.iv0Len == |reply.written|
    ensures reply.end == R.Answered && Serve(conn.env, r.url) == FileRequest ==>
      conn.iv1Len == R.StatSize(conn.env, r.url)
  {
    hide Receive, Arrives, R.Filled, R.Replies, Serve, RealFile, CStrAt, AnswerTo, R.SourcePages;
    Exchange(conn.pages, conn.env, conn.writeBuf.Length, r.url, r.host, r.keepAlive, r.body, r.arrivals);
    Fits(conn.env, r);
    var end;
    ghost var v;
    end, v := conn.Converse(r.arrivals);
    ServeDecides(conn.env, r.url);
    var written := conn.Written();
    SizeOfFile(conn.pages, conn.writeBuf.Length, v, conn.linger, conn.FileSize(), R.StatSize(conn.env, r.url),
               written, end == R.Answered);
    reply := Reply(end, written);
  }

  /** Input whose first line is no request line is answered, in any reads, with the page that says so, and
      the connection is not kept. */
  method Refuse(conn: HttpConn.Conn, arrivals: seq<string>) returns (reply: Reply)
    requires Fresh(conn) && arrivals != [] && CleanCuts(arrivals)
    requires RefusedHead(Concat(arrivals)) && |Concat(arrivals)| < conn.env.readSize
    modifies conn, conn.readBuf, conn.writeBuf, conn.realFile
    ensures conn.Shape() && !conn.linger && reply.written == conn.Written() && reply.end != R.WantInput
    ensures conn.pages == R.SourcePages() ==> Rejection(false, reply.written, reply.end == R.Answered)
  {
    hide Receive, CleanCuts, R.Filled, RefusedHead, R.SourcePages, Rejection;
    RefusedReads(conn.env, arrivals);
    var end;
    ghost var v;
    end, v := conn.Converse(arrivals);
    assert conn.State().linger == false;
    reply := Reply(end, conn.Written());
    if conn.pages == R.SourcePages() {
      FilledRejects(conn.writeBuf.Length, false, conn.FileSize(), reply.written, end == R.Answered);
    }
  }

  lemma Fits(env: Env, r: Request)
    requires Sent(env, r)
    ensures |Concat(r.arrivals)| < env.readSize
  {
    hide CleanCuts, Asks;
  }

  lemma ServeDecides(env: Env, url: string)
    ensures Serve(env, url) in {NoResource, ForbiddenRequest, BadRequest, FileRequest}
  {
    hide RealFile;
  }

  ghost predicate AllSent(env: Env, requests: seq<Request>) {
    forall i | 0 <= i < |requests| :: Sent(env, requests[i])
  }

  /** The connection is kept after every reply but the last, and given up early exactly after one that
      does not keep it. */
  ghost predicate KeptWhile(requests: seq<Request>, replies: seq<Reply>) {
    && |replies| <= |requests|
    && (forall i | 0 <= i < |replies| - 1 :: Stays(requests[i], replies[i]))
    && (|replies| < |requests| ==> replies != [] && !Stays(requests[|replies| - 1], replies[|replies| - 1]))
  }

  ghost predicate AllMeet(pages: R.Pages, env: Env, requests: seq<Request>, replies: seq<Reply>) {
    |replies| <= |requests| && forall i | 0 <= i < |replies| :: Meets(pages, env, requests[i], replies[i])
  }

  /** The requests of one connection, the next one after each reply that keeps it: every reply is the
      one to its own request, nothing is left over from the request before, and the connection is given
      up exactly after the first reply that does not keep it. */
  method Session(conn: HttpConn.Conn, requests: seq<Request>) returns (replies: seq<Reply>)
    requires Fresh(conn) && AllSent(conn.env, requests)
    modifies conn, conn.readBuf, conn.writeBuf, conn.realFile
    ensures KeptWhile(requests, replies) && AllMeet(conn.pages, conn.env, requests, replies)
  {
    hide Sent, Meets;
    replies := [];
    var open := true;
    while open && |replies| < |requests|
      invariant |replies| <= |requests| && (open ==> Fresh(conn))
      invariant conn.readBuf == old(conn.readBuf) && conn.writeBuf == old(conn.writeBuf)
      invariant conn.realFile == old(conn.realFile)
      invariant forall i | 0 <= i < |replies| :: Meets(conn.pages, conn.env, requests[i], replies[i])
      invariant forall i | 0 <= i < |replies| - 1 :: Stays(requests[i], replies[i])
      invariant open ==> forall i | 0 <= i < |replies| :: Stays(requests[i], replies[i])
      invariant !open ==> replies != [] && !Stays(requests[|replies| - 1], replies[|replies| - 1])
      decreases open, |requests| - |replies|
    {
      var r := requests[|replies|];
      var reply := Answer(conn, r);
      replies := replies + [reply];
      open := false;
      if reply.end == R.Answered {
        open := conn.Finish();
      }
    }
  }
}
