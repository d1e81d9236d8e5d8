# Verified model of the socket servers

This project models the stateful cores of a collection of C and C++ network programs and proves what
they keep on every input and every interleaving.

**The HTTP server's connection object** (`httpserver/http_conn.cpp`). `HttpConn.dfy` is the object
itself: its arrays and indices, its loops, its writes in place. Each method is proved equal to a
function on values in `HttpParser.dfy` or `HttpResponse.dfy`, and the theorems are about those
functions. `HttpReference.dfy` is an independent pure reading of a request head (lines end at CRLF,
a request line, header lines up to the blank one; a lenient subset of sections 3.1.1, 3.2, 3.3.2 and
6.1 of RFC 7230), and `HttpGrammar.dfy` a grammar in plain characters, sharing no function with the
parser, that the reference is proved to accept exactly. `HttpFeed.dfy` and `HttpChunks.dfy` prove that the cutting of the input into reads
does not matter outside the body, and `HttpBodyCuts.dfy` says exactly when it matters inside it.
`HttpSurvival.dfy` says what becomes of the URL while the rest arrives, `HttpRefinement.dfy` that the
parser decides what the pure reading says for every declared length, `HttpRoundTrip.dfy` that a request in
any spelling of the grammar parses back, and `HttpResponse.dfy` that responses are framed.
`HttpAnswers.dfy` gives the answers as text by what `stat` reports. `HttpSession.dfy` serves the
successive requests of a persistent connection on the object. `CStrings.dfy` holds the C library calls.

**The pthread pool** (`threadpool.c`). `PoolSections.dfy` has the critical sections as functions on
the shared structure, `ThreadPool.dfy` the same code on the real array and fields. `PoolSystem.dfy`
interleaves any number of producers and workers and one manager in steps between mutex operations,
with the two wait sets, spurious wakeups, the unlocked shutdown flag, and a history of accepted,
dropped and removed tasks. `PoolSafety.dfy` proves the invariant and its consequences;
`PoolStuck.dfy` says exactly which pools can leave a task queued with every worker parked, and
`PoolDrops.dfy` which can drop one. `PoolHistory.dfy` holds a record of the run against the state: the
calls and what became of them, the tasks begun, the manager's readings, and what shutdown stops.

**The HTTP server's hand-off** (`httpserver/main.cpp`, `httpserver/threadpool.h`,
`httpserver/locker.h`). `ServerSystem.dfy` interleaves main and the workers around the armed set, the
delivered batch, the request list, the semaphore and the unlocked `m_user_count`. `ServerSafety.dfy`
proves single ownership, the account of the counter and that of the semaphore; `ServerRuns.dfy` has the
runs in which overlapping threads lose an update or share a connection, and exactly which limits and
numbers of workers allow them. `ServerHistory.dfy` says, from the events of a run alone, which
connections are lost, which are armed again and in which order requests are served. `EventLoop.dfy` is the list and main's loop as objects.

**Three loops**: `RoundRobin.dfy` (`processpool.h`), `SelectServer.dfy` (`select.c`) and
`TalkServer.dfy` (`talk_server.cpp`).

## Conventions and assumptions

- Buffer sizes, MAX_FD, FD_SETSIZE, USER_LIMIT and the thread and queue limits are parameters. Bytes
  are `char`. Text is the C string: a NUL ends a line, as it does for the calls the code makes.
- The texts of the error pages and of the page for an empty file (`http_conn.cpp` lines 3-11 and 514)
  are a parameter too; `SourcePages` are the ones of the code, and `SourcePagesShort` shows that they
  meet what the theorems ask of pages.
- A char pointer into `m_read_buf` is an offset. `m_content_length` is an int: `atol` saturates at the
  range of long and the result is truncated to 32 bits, and likewise the `int` parameter of
  `add_headers`.
- The verdict `Undefined` stands for the inputs on which the code has no defined result: int overflow
  in the sum of line 258 and a terminator written outside `m_read_buf` at line 260. A null URL would be
  a third, and the invariant excludes it. The input is shorter than READ_BUFFER_SIZE, which is within
  int, since `read()` fails on a full buffer.
- A read that ends strictly inside the body makes lines 273-274 call `parse_line` on body bytes. So
  chunk independence is false for such cuts in general. `CutsMatterExactly` gives the exact condition
  over all cuttings and `SplitBody` an input on which it fails.
- LINE_BAD ends `process_read` with NO_REQUEST, not with an error, and is absorbing.
- An empty file builds a page and then falls through to `return false`; the model follows the code.
- `recv`, `accept`, `stat`, `epoll_wait`, `select`, `poll`, `waitpid` and `pthread_kill` are
  parameters: any result the code can meet. `stat` is a function of the path. `pthread_create` may
  fail unnoticed, so counted threads may be more than the running ones.
- `pthread_cond_signal` wakes one parked thread; that it may wake more is covered by spurious wakeups.
- Closing is split where another thread can come between: `removefd`, `m_sockfd = -1`, the load and the
  store of `m_user_count--`, and the `modfd` that follows in `process` (lines 52-61 and 544-549). The
  race on the counter is read as interleaved loads and stores. In main, where nobody else accepts, a
  close is one step up to the counter, and so is an accept. `recv`, `writev` and `epoll_ctl` on the
  descriptor -1 fail. `sem_post` is assumed to succeed; `sem_wait` may fail.
- `select` counts the descriptors it leaves in the set. In `talk_server.cpp` the listening socket,
  which is not registered for POLLRDHUP, never reports a hangup, and `accept` returns a descriptor
  not in the table.

## Model

| member | source | states |
|---|---|---|
| HttpParser.ParseLineCuts | httpserver/http_conn.cpp:97-131 | from a scan position that holds no CR or LF, parse_line cuts exactly at the first CRLF or stops at the first line end; the LF branch of lines 120-125 that looks back for a CR is never taken |
| HttpParser.ParseLineKeeps | httpserver/http_conn.cpp:97-131 | parse_line keeps the connection invariant (ordered indices, no unconsumed CR or LF, m_url and m_host before the current line) and writes nothing before the scan position |
| HttpParser.RequestLineKeeps | httpserver/http_conn.cpp:162-207 | parse_request_line writes only NULs and only inside the cut line; when it accepts, m_url points into that line |
| HttpParser.HeadersKeep | httpserver/http_conn.cpp:209-254 | parse_headers never writes the buffer, never rejects, finishes only on a blank line with length 0 and enters the body state only on a blank line with another length |
| HttpParser.LoopBodyKeeps | httpserver/http_conn.cpp:276-318 | a turn of the loop that does not return keeps the connection invariant |
| HttpParser.RunKeeps | httpserver/http_conn.cpp:267-322 | process_read terminates; a run that ends with NO_REQUEST keeps the invariant, an accepted URL pointer stays, and no byte before the current line changes unless a negative body length was declared |
| HttpFeed.ParseLineFeed | httpserver/http_conn.cpp:97-131 | more bytes change neither a cut nor a rejection, and an open line is resumed exactly where a scan of all the bytes would be |
| HttpFeed.BadLineStays | httpserver/http_conn.cpp:116-126 | LINE_BAD is absorbing: whatever arrives later, the scan stays at the offending byte |
| HttpFeed.RequestLineFeed | httpserver/http_conn.cpp:162-207 | parsing the request line in place gives the same result whatever bytes follow it |
| HttpFeed.HeadersFeed | httpserver/http_conn.cpp:209-254 | the same for a header line |
| HttpFeed.LoopBodyFeed | httpserver/http_conn.cpp:276-318 | so does a whole turn of the loop, the lookup of the file included |
| HttpReference.LineMatches | httpserver/http_conn.cpp:97-131 | the line parse_line cuts, resumed anywhere, is the CRLF line a pure reader takes off the front, and the bytes behind it are untouched |
| HttpReference.RequestLineMatches | httpserver/http_conn.cpp:162-207 | parse_request_line accepts exactly the lines the pure reading of METHOD TARGET VERSION accepts, with the same absolute path, a version that reads HTTP/1.1, and BAD_REQUEST otherwise; which lines those are is HttpGrammar.RequestLineGrammar |
| HttpReference.TargetStands | httpserver/http_conn.cpp:180-206 | the path the pure reading finds stands in the line where it says |
| HttpReference.HeaderMatches | httpserver/http_conn.cpp:226-252 | one more header line changes linger, the length and the host exactly as the pure reading does: some Connection: keep-alive, the last Content-Length, the last Host; HttpGrammar says which texts these are |
| HttpReference.ReadHeadGrows | httpserver/http_conn.cpp:267-322 | bytes after a complete head do not change the pure reading of it |
| HttpGrammar.RequestLineGrammar | httpserver/http_conn.cpp:162-207 | a request line is accepted, with this URL, if and only if it is GET, a target and HTTP/1.1 in any letter case (an offset of 32 between A-Z and a-z and nothing else), with runs of blanks and tabs between them, the target being the absolute path or that path behind http:// in any case and an authority |
| HttpGrammar.FieldGrammar | httpserver/http_conn.cpp:226-246 | a header line has a name and a value if and only if it is the name in any letter case, a run of blanks and tabs, and the value |
| HttpGrammar.StayGrammar | httpserver/http_conn.cpp:226-233 | linger is set if and only if some Connection header has a value that spells keep-alive in any letter case |
| HttpGrammar.LastGrammar | httpserver/http_conn.cpp:234-246 | of several headers of one name, in whatever case, the last counts |
| HttpGrammar.NumberGrammar | httpserver/http_conn.cpp:239 | atol into an int reads an optional sign and digits behind white space as the sum of the digits by place, clipped to a long and cut to its low 32 bits |
| HttpGrammar.LengthGrammar | httpserver/http_conn.cpp:234-240 | the declared length is that number for the last Content-Length header, or 0 |
| HttpGrammar.HeadGrammar | httpserver/http_conn.cpp:267-322 | a head is complete, with this URL, these header lines and this size, if and only if the input starts with lines of those texts, each up to its first NUL and ended by CRLF, up to an empty one |
| HttpGrammar.RefusedGrammar | httpserver/http_conn.cpp:267-322 | the first line is refused if and only if it is complete and no request line of the grammar |
| HttpChunks.CutResumes | httpserver/http_conn.cpp:267-322 | a read boundary that is not strictly inside the body can be undone: run, receive more and run again equals one run |
| HttpChunks.ChunkIndependence | httpserver/http_conn.cpp:267-322 | for every input and every cutting into reads with no cut strictly inside the body, running process_read after each read up to the first verdict gives the verdict and every parse field of one run on the whole input |
| HttpSurvival.ReceiveKeeps | httpserver/http_conn.cpp:267-322 | over any number of reads, cut anywhere, an accepted URL pointer stays and the bytes before the line current then are not written, barring a negative body length |
| HttpSurvival.RunKeepsBut | httpserver/http_conn.cpp:256-322 | with a negative length the one byte written before the current line is the one line 260 names, and a run that waits for a body waits for a positive length |
| HttpSurvival.IdleBetween | httpserver/http_conn.cpp:267-322 | so between reads a connection in the body state always has a positive length |
| HttpSurvival.UrlSurvives | httpserver/http_conn.cpp:267-322 | once the request line is accepted, whatever arrives and however it is cut, m_url keeps its place, and its string changes if and only if line 260 writes inside it for a negative length, which then cuts it there; the same for m_host until another Host header |
| HttpRefinement.BodyWaits | httpserver/http_conn.cpp:273-274 | a run that finds body bytes missing ends with NO_REQUEST after parse_line has moved m_checked_idx over exactly the whole lines and line-end-free bytes received, or overflows the sum of line 258 on the way |
| HttpRefinement.BodyRun | httpserver/http_conn.cpp:256-322 | a run that starts inside the body serves the request, overflows or waits as the byte counts and the whole lines among the body bytes say |
| HttpRefinement.BodyEnds | httpserver/http_conn.cpp:256-265 | once the body is there the URL is looked up as the terminator leaves it: untouched for a length from 0 on, cut for a negative one that reaches into it, undefined for one that reaches before the buffer |
| HttpRefinement.RunRefinesReference | httpserver/http_conn.cpp:267-322 | for every input and declared length one run decides what the pure reading says: nothing while the head is unfinished or blocked by a stray CR or LF, BAD_REQUEST for a bad request line, and for a complete head the lookup of its URL when the declared body is there, the cut URL for a negative length, no defined result for an overflow, and with fields as read |
| HttpRefinement.ReceiveRefinesReference | httpserver/http_conn.cpp:267-322 | the same decision for every cutting without a cut inside the body |
| HttpBodyCuts.BodyReads | httpserver/http_conn.cpp:256-274 | what a connection inside the body decides over any later reads: complete, overflowing or waiting, counted from where parse_line has moved to |
| HttpBodyCuts.DirtyCut | httpserver/http_conn.cpp:256-274 | what a connection decides when some read ends strictly inside the body, for every declared length |
| HttpBodyCuts.CutsMatterExactly | httpserver/http_conn.cpp:256-274 | for every input, every declared length and every cutting at all: the verdict equals that of one run if and only if the cutting is harmless, a condition on the bytes and the cuts alone |
| HttpBodyCuts.FateFrom | httpserver/http_conn.cpp:256-274 | what later reads make of a body is settled by the first read at which the bytes received, counted from behind the part of the body scanned before it, complete or overflow it |
| HttpBodyCuts.SettlesOnce | httpserver/http_conn.cpp:256-274 | there is only one such outcome |
| HttpBodyCuts.SameFateIs | httpserver/http_conn.cpp:256-274 | harmless, said through that outcome, is that the later reads decide what one run decides |
| HttpBodyCuts.ScanAdds | httpserver/http_conn.cpp:97-131 | calling parse_line over body bytes in two goes moves as far as calling it over all of them |
| HttpBodyCuts.HarmlessIfShort | httpserver/http_conn.cpp:256-274 | for lengths that cannot overflow, harmless means that the input is shorter than declared or that for some later read the bytes received by then make up for what parse_line scanned of the body bytes before it; no run of the parser appears in the condition |
| HttpBodyCuts.SplitBody | httpserver/http_conn.cpp:273-274 | chunk independence does fail: a body of two bytes received one by one is never served, received together it is |
| HttpRoundTrip.HeadRoundTrip | httpserver/http_conn.cpp:162-254 | reading a printed head gives back any URL that starts with / and all header lines |
| HttpRoundTrip.StandardMeaning | httpserver/http_conn.cpp:226-246 | Host, Connection and Content-Length headers read back as the host, option and length they were printed from |
| HttpRoundTrip.RequestRoundTrip | httpserver/http_conn.cpp:162-265 | a GET request in any spelling of the grammar, with any URL from / on, host or none, connection option and body of the declared length, in any reads not ending inside the body, reaches the file lookup with exactly that URL, host, linger flag and length |
| HttpRoundTrip.AnySpelling | httpserver/http_conn.cpp:162-254 | a request line and Host, Connection and Content-Length lines, each spelled in any way, make such a request, and the connection is to be kept if and only if the option spells keep-alive |
| HttpRoundTrip.PrintedAsks | httpserver/http_conn.cpp:162-254 | the plainly printed request is one of them |
| HttpRoundTrip.InsideGrammar | httpserver/http_conn.cpp:256-265 | a read ends inside the body if and only if the head is complete by the grammar and some but not all of the declared bytes have come |
| HttpRoundTrip.MeaningOfInput | httpserver/http_conn.cpp:267-322 | for every input, in any reads not ending inside the body: the fields are those of the head the grammar finds and its URL is looked up once the declared bytes are there, a complete first line that is no request line gives BAD_REQUEST, and nothing is decided otherwise |
| HttpRoundTrip.NegativeLength | httpserver/http_conn.cpp:256-265 | what a request with a negative Content-Length looks up, for any URL and length |
| HttpRoundTrip.IndexCut | httpserver/http_conn.cpp:260 | one such input: a request for /index.html is answered as one for /index |
| CStrings.AtolInvertsFormat | httpserver/http_conn.cpp:239 | atol reads back what printf("%d") wrote, over the whole range of int |
| HttpResponse.AppendAll | httpserver/http_conn.cpp:405-421 | over any sequence of add_response calls what was written stays, and m_write_idx stays two below the buffer size |
| HttpResponse.AppendedExactly | httpserver/http_conn.cpp:405-421 | what the calls add is exactly the concatenation of the pieces whose calls returned true, in order |
| HttpResponse.ResultAt | httpserver/http_conn.cpp:407-417 | a call returns true exactly when its piece still fits behind what the calls before it added |
| HttpResponse.AllFit | httpserver/http_conn.cpp:405-421 | pieces that fit together are all kept, whole and in order |
| HttpResponse.HeadReadsBack | httpserver/http_conn.cpp:423-448 | the head of a response reads back as its status line and its Content-Length and Connection headers, and ends where the body starts |
| HttpResponse.ResponseMeaning | httpserver/http_conn.cpp:435-443 | the two response headers read back as the truncated length and the linger flag |
| HttpResponse.FramedExactly | httpserver/http_conn.cpp:423-448 | a head and a body are framed if and only if the length in the head, truncated to int, is that of the body |
| HttpResponse.ErrorFraming | httpserver/http_conn.cpp:457-498 | every error verdict yields its page complete, nothing truncated, with a Content-Length that is the number of bytes after the blank line and a Connection header that is the linger flag; which page it is, in text, is HttpAnswers.FilledText |
| HttpResponse.FileFraming | httpserver/http_conn.cpp:499-511 | head and non-empty file over the two iovecs are framed in the same sense if and only if the size fits the int parameter of add_headers |
| HttpResponse.EmptyFileRefused | httpserver/http_conn.cpp:512-525 | with room in the buffer, the only verdicts of a request that go unanswered are those without a page, an empty file among them |
| HttpAnswers.WrittenReplies | httpserver/http_conn.cpp:455-532 | what process_write makes of the lookup of a URL is a framed reply to it, with the file size that stat reports, and with the page texts of the code the answer to the letter |
| HttpResponse.SourcePagesShort | httpserver/http_conn.cpp:3-11 | the page texts of the code fit the write buffer behind any head |
| HttpAnswers.ServeLooksUp | httpserver/http_conn.cpp:324-348 | the lookup by cases on stat of /var/www/html and the URL, cut to its room: missing gives NO_RESOURCE, not readable by others FORBIDDEN_REQUEST, a directory BAD_REQUEST, anything else FILE_REQUEST |
| HttpAnswers.FilledText | httpserver/http_conn.cpp:455-532 | for each verdict the response to the letter, with the texts of the code: HTTP/1.1 500 Internal Error, 400 Bad Request, 404 Not Found or 403 Forbidden with its page, 200 OK with the low 32 bits of the size, the connection option, and nothing for an empty file |
| HttpAnswers.FilledAnswers | httpserver/http_conn.cpp:324-532 | from stat to the text: a missing file is answered 404, one others may not read 403, a directory 400, a file 200, an empty one not at all |
| HttpAnswers.RefusedReads | httpserver/http_conn.cpp:162-207 | input whose first line is no request line is refused in any reads, before a header can set linger |
| HttpAnswers.Exchange | httpserver/http_conn.cpp:534-550 | end to end: a request in any spelling, in any reads not ending inside the body, leads to the lookup of its URL, and whatever process_write makes of that, with the size stat reports for that URL, is a framed error page or a head for the file, framed if and only if its size fits an int, and with the page texts of the code it is the answer stat calls for to the letter; only an empty file goes unanswered |
| HttpConn.Conn.constructor | httpserver/http_conn.h:71-95 | a connection with its three buffers, empty and in the initial parse state |
| HttpConn.Conn.Reset | httpserver/http_conn.cpp:78-95 | init() returns any connection to the initial parse state with nothing written |
| HttpConn.Conn.Read | httpserver/http_conn.cpp:133-160 | read() appends the arriving bytes that fit, in order and in whatever pieces recv returns, and succeeds exactly when nothing is left pending and recv reports that it would block |
| HttpConn.Conn.ParseLine | httpserver/http_conn.cpp:97-131 | the in-place loop equals the specification function on status and state |
| HttpConn.Conn.OnCr | httpserver/http_conn.cpp:103-116 | at a CR: a cut, a rejection or more input, by the byte behind it |
| HttpConn.Conn.OnLf | httpserver/http_conn.cpp:117-126 | at an LF: a cut or a rejection, by the byte before it |
| HttpConn.Conn.ParseRequestLine | httpserver/http_conn.cpp:162-207 | the same for parse_request_line |
| HttpConn.Conn.ParseTarget | httpserver/http_conn.cpp:181-206 | its second half, from the target on |
| HttpConn.Conn.CheckTarget | httpserver/http_conn.cpp:189-206 | its last steps: the version, and the URL without an http:// authority |
| HttpConn.Conn.ParseHeaders | httpserver/http_conn.cpp:209-254 | the same for parse_headers |
| HttpConn.Conn.ParseContent | httpserver/http_conn.cpp:256-265 | the same for parse_content, the terminator written in place |
| HttpConn.Conn.BuildPath | httpserver/http_conn.cpp:324-328 | m_real_file is NUL-terminated and holds doc_root and as much of the URL as there is room for |
| HttpConn.Conn.DoRequest | httpserver/http_conn.cpp:324-348 | the verdict follows, case by case, from what stat reports about /var/www/html and the URL cut to its room, and that path is left in m_real_file |
| HttpConn.Conn.OnHeader | httpserver/http_conn.cpp:291-303 | the header case of the loop equals its part of the specification |
| HttpConn.Conn.OnContent | httpserver/http_conn.cpp:304-313 | the same for the body case |
| HttpConn.Conn.LoopBody | httpserver/http_conn.cpp:276-318 | a turn of the loop equals the specification function; a verdict about a file comes with its path built |
| HttpConn.Conn.ProcessRead | httpserver/http_conn.cpp:267-322 | the whole loop equals the specification function and terminates |
| HttpConn.Conn.AddResponse | httpserver/http_conn.cpp:405-421 | a piece is accepted whole or leaves the accepted bytes as they were, although the failed call has written past them |
| HttpConn.Conn.AddHead | httpserver/http_conn.cpp:423-448 | the status line and the three headers, each accepted or refused on its own |
| HttpConn.Conn.AddPage | httpserver/http_conn.cpp:459-467 | a head and its page; the result is whether the page was accepted |
| HttpConn.Conn.ProcessWrite | httpserver/http_conn.cpp:455-532 | the bytes accepted for each verdict, the result, and the iovec lengths |
| HttpConn.Conn.Process | httpserver/http_conn.cpp:534-550 | parse, answer and the way the connection goes back to epoll; a verdict about a file comes with its path built, m_file_stat from that path and the iovec lengths |
| HttpConn.Conn.Turn | httpserver/http_conn.cpp:534-550 | one read and its processing |
| HttpConn.Conn.Converse | httpserver/http_conn.cpp:133-160 | reading and processing turn about on the object leads to the verdict and the state that the theorems about reads are about, with the answer to that verdict written, m_file_stat that of the built path, and the iovec lengths head and file |
| HttpConn.Conn.Finish | httpserver/http_conn.cpp:389-400 | after the answer is sent the connection is kept if and only if keep-alive was asked for, and is then back in its initial state |
| HttpSession.Answer | httpserver/http_conn.cpp:534-550 | on the object, in any reads not ending inside the body, a request in any spelling gets the reply to its URL and connection option, with the page texts of the code to the letter by what stat reports, the iovecs holding the written head and the size stat reports |
| HttpSession.Refuse | httpserver/http_conn.cpp:455-498 | on the object, input whose first line is no request line is answered with the 400 page to the letter and Connection: close |
| HttpSession.Session | httpserver/http_conn.cpp:389-400 | over any sequence of requests on one connection every reply is that of its own request, to the letter with the page texts of the code, nothing of an earlier request remaining, and the connection is given up exactly after the first reply that does not keep it |
| PoolSections.AddOutcome | threadpool.c:137-148 | with a free slot, the task is dropped exactly when one slot is left and the front has moved off 0, otherwise appended; clearing the rear slot touches no queued task |
| PoolSections.TakeOutcome | threadpool.c:193-198 | taking removes exactly the oldest task |
| PoolSections.RearIsModular | threadpool.c:146 | rear is (front + size) mod max size |
| ThreadPool.ThreadPool.constructor | threadpool.c:72-96 | the structure threadpool_create fills in: an empty ring, live equal to min |
| ThreadPool.ThreadPool.Add | threadpool.c:131-148 | the code under the mutex, on the array, equals the section and appends or drops as stated |
| ThreadPool.ThreadPool.Take | threadpool.c:193-198 | the code under the mutex equals the section and returns the oldest task |
| ThreadPool.ThreadPool.AfterWait | threadpool.c:171-182 | the shrink branch equals the section |
| ThreadPool.ThreadPool.Grow | threadpool.c:247-255 | the growth loop adds as many threads as it finds eligible slots, bounded by 1024 and by max_thread_num, overwrites exactly those handles, and changes nothing else of the pool state |
| PoolSafety.StepInv | threadpool.c:122-271 | every step of every thread keeps the invariant of queue, mutex, guards, counters and wakeups |
| PoolSafety.Fifo | threadpool.c:122-204 | on every interleaving: accepted tasks are the removed ones in order followed by the live ring, rear is (front + size) mod max, and a full ring has its front at slot 0; who runs the removed ones is PoolHistory.TasksAccounted |
| PoolSafety.DropsExactly | threadpool.c:126-148 | in every reachable state a call past its shutdown check finds the ring not full, and drops exactly when one slot is left and the front has moved, otherwise appends; a ring it fills has its front at slot 0 |
| PoolHistory.CallsAccounted | threadpool.c:122-148 | on every interleaving: every call of threadpool_add ends once with its own task kept, lost at line 143 or turned away after shutdown, each producer's calls in the order it made them, and what the pool accepted is what was kept, in the order of the calls under the mutex |
| PoolHistory.TasksAccounted | threadpool.c:193-216 | on every interleaving: every accepted task is in the ring or was taken by one worker, and the tasks a worker took are those it has begun to run, in that order, and the one it is about to run |
| PoolHistory.RunsWhatItTook | threadpool.c:193-214 | a worker about to run or running a task has that task as the last it took |
| PoolDrops.DropRun | threadpool.c:137-148 | for every pool with two slots and at least one thread allowed, a run in which line 143 drops a task |
| PoolDrops.DropsSomeExactly | threadpool.c:137-148 | so a pool can drop a task if and only if threadpool_create was given at least two slots and max_thread_num at least 1 |
| PoolSafety.NeverTakesFromEmpty | threadpool.c:166-198 | no worker takes at size 0 or without the mutex, although shutdown is written unlocked |
| PoolSafety.NoLostWakeup | threadpool.c:151-183 | before shutdown, while some worker is parked the queue is no longer than the workers awake or heading for the mutex plus the exits through the shrink branch since the ring was last empty |
| PoolSafety.ThreadCounts | threadpool.c:201-265 | on every interleaving: min <= live <= max, wait_exit >= 0, busy is the number of workers counted in, unexited workers <= live, and a producer waits only while the ring is full |
| PoolHistory.LiveAccount | threadpool.c:171-190 | live_thread_num is the number of threads there are, plus those counted that never started, plus those that quit at line 186 without being counted off |
| PoolHistory.ManagerDecides | threadpool.c:231-265 | the manager asks for 1024 exits, with as many signals, if and only if what it read last satisfies line 261, and adds threads only if it satisfies line 243 |
| PoolHistory.ExitsExactly | threadpool.c:171-190 | a thread exits if and only if it finds the pool shut down or is woken with exits asked for and more threads than the minimum; every woken thread uses up one of the exits asked for |
| PoolHistory.ShutdownStops | threadpool.c:126-190 | from the moment shutdown is set, on any continuation, no task is added, dropped or taken and no worker or producer parks |
| PoolHistory.TurnedAwayWakesAll | threadpool.c:131-135 | a call turned away after shutdown wakes every parked worker, and none is parked again |
| PoolStuck.StuckNeeds | threadpool.c:166-255 | a pool that leaves a task queued with every worker parked and no signal owed has min below max, a ring longer than min, and max at least 2 |
| PoolStuck.StuckRun | threadpool.c:143-270 | every such pool has a run to such a state, with all its threads started, as many more as one growth adds, the manager back in its loop, nobody holding the mutex and no call under way |
| PoolStuck.StuckExactly | threadpool.c:151-183 | so exactly those parameters of threadpool_create allow it |
| ServerSafety.StepInv | httpserver/main.cpp:94-149 | every step of main and of the workers keeps ownership, the accounts of the counter and the semaphore, and the set of descriptors reused too early |
| ServerSafety.OwnerStep | httpserver/main.cpp:94-149 | every step leaves each open connection with one owner and each closed one with none and with one thread closing it at most, whatever happens to descriptors reused too early; a connection gets stranded in a step if and only if append refuses its request or no branch takes its event |
| ServerSafety.CounterStep | httpserver/http_conn.cpp:52-76 | every step keeps the counter equal to the updates it has kept, which are all of them as long as none was stored over another |
| ServerSafety.OpenStep | httpserver/http_conn.cpp:52-76 | every step keeps the number of open connections equal to the updates stored and owed |
| ServerSafety.TokenStep | httpserver/threadpool.h:71-113 | every step keeps the account of the semaphore |
| ServerHistory.StrandedExactly | httpserver/main.cpp:94-149 | a connection is stranded in a reachable state if and only if some event of the run lost it: a request that was read and that append refused, or an event no branch of the loop takes |
| ServerHistory.SingleOwner | httpserver/main.cpp:94-149 | in every reachable state an open connection is in exactly one of armed, delivered, queued, served, or lost by such an event, and a closed one in none, for every descriptor that accept has not handed out while a worker was still closing it; without such a descriptor queue and batch hold no duplicates |
| ServerHistory.EventOutcome | httpserver/main.cpp:124-147 | in every reachable state an event closes its connection on a hangup, a failed read or a finished answer, queues it last after a read unless the list is too long, arms it again after a half-sent answer, and touches no other |
| ServerHistory.ProcessOutcome | httpserver/http_conn.cpp:534-550 | in every reachable state process() leaves its connection closed if it closes it, and otherwise open and armed, and touches no other |
| ServerHistory.ServedInOrder | httpserver/threadpool.h:71-113 | the requests served are those append took, in that order and each once, and the rest are queued |
| ServerSafety.UserCount | httpserver/http_conn.cpp:52-76 | m_user_count is off by the updates still owed and by those lost to overlaps: with none owed it is the number of open connections if and only if as many decrements as increments are lost, none is lost if and only if no update was stored over another, and then MAX_FD is kept |
| ServerRuns.LostUpdate | httpserver/http_conn.cpp:59 | a run in which a decrement in a worker undoes an increment in main: one connection is open and the counter is 0 |
| ServerRuns.MiscountExactly | httpserver/http_conn.cpp:52-76 | a run without early reuse can end with nothing owed and a wrong counter if and only if the limit is two or more |
| ServerRuns.LimitExactly | httpserver/main.cpp:116-122 | the limits that lost updates let main exceed are exactly those from two up |
| ServerSafety.SharesExactly | httpserver/http_conn.cpp:52-61 | two threads work on one connection in some state of a run if and only if accept handed out its descriptor between removefd and the end of process() in a worker closing it |
| ServerRuns.SharingExactly | httpserver/http_conn.cpp:52-61 | two threads can come to work on one connection if and only if there is at least one worker and the limit is at least 1 |
| ServerRuns.ReuseAfterCount | httpserver/http_conn.cpp:544-549 | the run that shows it: the descriptor comes back after the counter has gone down and before the modfd of process() |
| ServerRuns.NeverReused | httpserver/main.cpp:110-122 | without a worker, or with a limit of 0, no descriptor is ever reused too early |
| ServerSafety.ReuseShares | httpserver/main.cpp:110-122 | the step that does it is that accept |
| ServerRuns.ServedTwice | httpserver/http_conn.cpp:544-549 | a run in which it ends with two workers in process() on one object |
| ServerSafety.SemaphoreAccount | httpserver/threadpool.h:71-113 | queue length is the semaphore value plus workers between wait and pop plus a producer between push and post, so the empty branch is never taken; with failing waits it is at most that |
| ServerSafety.NoSleepingQueue | httpserver/threadpool.h:93-112 | no request is queued while all workers sleep in the semaphore and no post is owed, even with failing waits |
| ServerSafety.StrandedForever | httpserver/main.cpp:132 | a stranded connection stays open, unarmed and unqueued on any continuation |
| ServerSafety.RefusedForever | httpserver/main.cpp:130-133 | when append refuses a request that was read, its connection stays open from then on, is never armed or queued again, and no thread works on it, on any continuation |
| EventLoop.RequestPool.Append | httpserver/threadpool.h:71-83 | append refuses only a list longer than the limit, so it grows one past it; otherwise it pushes and posts |
| EventLoop.RequestPool.Take | httpserver/threadpool.h:99-107 | run pops the oldest request |
| EventLoop.Loop.constructor | httpserver/main.cpp:56-92 | no connection open, nothing armed, an empty list |
| EventLoop.Loop.CloseConn | httpserver/http_conn.cpp:52-61 | the counter follows the number of open connections, and closing an object without a descriptor, a second time for instance, changes neither |
| EventLoop.Loop.Welcome | httpserver/main.cpp:108-122 | accepting on the objects is what the accept step and the counter steps do |
| EventLoop.Loop.Attend | httpserver/main.cpp:124-147 | one event on a connection is what the event step, the post and the counter steps do |
| EventLoop.Loop.HandleOne | httpserver/main.cpp:105-147 | one item of the batch does to main, epoll and the pool what the interleaving steps do |
| EventLoop.Loop.HandleBatch | httpserver/main.cpp:103-148 | the loop over a batch does the steps in order |
| EventLoop.BatchIsRun | httpserver/main.cpp:103-148 | a batch handled without interruption is one of the interleavings |
| RoundRobin.PickIsLive | processpool.h:265-276 | the cyclic search ends on a live child if and only if there is one, and otherwise where it started |
| RoundRobin.ReapedSkipped | processpool.h:265-301 | a reaped child gets no connection while another is there |
| RoundRobin.DispatchesInOrder | processpool.h:265-279 | consecutive dispatches visit the live children in cyclic order |
| RoundRobin.RoundRobinFair | processpool.h:264-279 | with a fixed set of k live children any k dispatches in a row send to each exactly once and to no other |
| RoundRobin.ProcessPool.constructor | processpool.h:250 | a parent with its forked children, starting at the first |
| RoundRobin.ProcessPool.Dispatch | processpool.h:264-279 | the do-while search terminates, picks that child, and sets m_stop if and only if no child is live |
| RoundRobin.ProcessPool.Reap | processpool.h:295-301 | exactly the slots of the reaped pid become -1 |
| SelectServer.ReadyCount | select.c:54 | the ready clients in the table are as many as the ready set holds |
| SelectServer.CountIsReady | select.c:54-59 | the count select returns, less the listening socket, is the number of ready clients |
| SelectServer.Server.constructor | select.c:38-48 | an empty table, allset just the listening socket |
| SelectServer.Server.Enter | select.c:65-86 | the new client takes the first free entry; allset, maxi and maxFd go on covering the table; a full table ends the program |
| SelectServer.Server.ServeOne | select.c:98-117 | a closed client leaves table and allset; only EINTR does not use up the count |
| SelectServer.Server.Sweep | select.c:93-124 | the sweep with its early exit reads exactly the ready clients in table order and leaves the table a full sweep would |
| SelectServer.Server.Round | select.c:53-124 | the same for a whole round with a possible accept: no ready client is skipped, and the table properties hold again |
| TalkServer.SwapRemoves | talk_server.cpp:125-127 | overwriting an entry by the last and dropping the last removes exactly that entry and leaves the ones before it |
| TalkServer.PassEnd | talk_server.cpp:81-178 | an unfinished pass that reaches the end has examined every client once and removed exactly the departing ones, who are those TalkServer.RemainMeans says |
| TalkServer.RemainMeans | talk_server.cpp:109-145 | of the clients met, those with a hangup and no error are gone, and of those with neither the readable ones whose read fails; every other, all with an error included, is there exactly once, and nobody else |
| TalkServer.Server.constructor | talk_server.cpp:60-70 | an empty table with the listening socket at 0 |
| TalkServer.Server.Enter | talk_server.cpp:93-106 | a new client goes behind the last unless the table is full |
| TalkServer.Server.Greet | talk_server.cpp:84-106 | the listener's turn: the client accept returns enters unless there is none or the table is full |
| TalkServer.Server.AtListener | talk_server.cpp:81-108 | the pass bookkeeping after it: the clients met are the old ones and the one that entered, none of them examined yet |
| TalkServer.Server.Remove | talk_server.cpp:123-127 | the departing client is replaced by the last one |
| TalkServer.Server.Examine | talk_server.cpp:109-178 | one client leaves if and only if it shows no error and has hung up or is readable with a read that fails, and otherwise stays, and the bookkeeping of the pass goes on |
| TalkServer.Server.AtClient | talk_server.cpp:109-178 | a client's turn keeps the bookkeeping of the pass, whether i is stepped back or not |
| TalkServer.Server.Pass | talk_server.cpp:81-178 | for any mix of accepts and departures the pass ends, examines each client exactly once despite i--, removes those that hung up or fail to be read and show no error, keeps every other and the one just accepted, each once, and the table is again the distinct open clients within its limit |

## Left out

- HttpChunks.ChunkIndependence: assumes no cut strictly inside the body, where the code does not have the property; HttpBodyCuts.CutsMatterExactly covers those cuts.
- HttpBodyCuts.CutsMatterExactly: compares verdicts; after a cut inside the body the index fields differ even where the verdicts agree.
- HttpRoundTrip.PrintedAsks: the host starts with no blank, since the parser skips leading blanks.
- HttpRoundTrip.MeaningOfInput: for a complete head, lengths from 0 on that cannot overflow; HttpRefinement.RunRefinesReference has the others.
- HttpAnswers.Exchange: starts from a fresh connection; HttpSession.Session covers the later requests.
- HttpSession.Session: sends each request after the reply before it, since bytes behind a request are cleared by `init()`.
- HttpConn.Conn.Finish: only what follows a completed `writev`; the sending loop is left out.
- PoolSafety.NoLostWakeup: says nothing after shutdown; PoolStuck.StuckExactly says which pools need the term for the shrink branch.
- PoolStuck.StuckExactly: a stuck task may move on later, when the manager grows the pool or signals, or when the wakeup of another task reaches a worker that does not exit; whether it does is not claimed.
- ServerHistory.SingleOwner: says nothing of a descriptor accept has handed out while a worker was still closing it, since ServerRuns.ServedTwice shows that ownership is lost then.
- ServerSafety.UserCount: assumes no descriptor was reused that early, after which one connection may be counted off twice.
- ThreadPool.ThreadPool.Add: starts past the wait loop of lines 126-128, which is a step of the interleaving.
- EventLoop.Loop.HandleBatch: no worker step between two events of the batch; the interleavings with workers are those of ServerSystem.
- `http_conn::write`: it ignores the file length and does not advance the iovecs, so no delivery claim holds; main either re-arms or closes.
- The body: `process_read` does not use it, and bytes after it (a second request in the same read) are cleared by `init()`.
- `mmap` and `unmap` of the file; whether the file changes after `stat`.
- Thread handles, joining and detaching, `threadpool_free` and the destructors: teardown is not synchronised with the workers. No claim that producers wake at shutdown.
- The task a worker runs, and time: the manager may act at any moment.
- The signal pipes of `processpool.h` and the stop decision after reaping (lines 303-308), whose loop bound and test are not what they mean to be.
- The event masks and `write_buf` of `talk_server.cpp` (lines 160-162 and 174-176), and the `users` array beside the table.
- The upper-casing echo of `select.c`.
- `reactor.c`, the other echo servers and clients, the libevent samples and the UDP, UNIX-socket and multi-process programs: input and output without a hard property.
- printf, addresses, socket options, clocks.
