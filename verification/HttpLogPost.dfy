/**
 * The plain-HTTP side: a browser posts one line of log, in any number of pieces, and the server
 * appends it to its log once. Two reading phases, each a receive loop over what the socket has.
 */
module HttpLogPost {
  import opened Bytes
  import opened Decimal
  import opened StreamParser
  import opened UpgradeRequest
  import opened RequestHead

  const MAX_REQUEST: nat := 16384
  const MAX_BODY: nat := 4096

  datatype Phase = ReadingHeaders | ReadingPostBody | WritingResponse | Gone

  datatype Response = BadRequest | NoContent | Preflight | Unavailable | Page(path: seq<byte>)

  /** One connection, and the lines appended to the log so far. */
  datatype Http = Http(phase: Phase, readBuf: seq<byte>, body: seq<byte>, length: nat, response: Option<Response>, log: seq<seq<byte>>)

  function Fresh(log: seq<seq<byte>>): Http {
    Http(ReadingHeaders, [], [], 0, None, log)
  }

  function Answer(h: Http, r: Response): Http {
    h.(phase := WritingResponse, response := Some(r))
  }

  /** The whole body is there: one append, one answer. */
  function Logged(h: Http, line: seq<byte>): Http {
    Answer(h.(readBuf := [], body := [], log := h.log + [line]), NoContent)
  }

  /** A POST to the log whose head ends at `e` in `buf`. */
  function TakePost(logging: bool, h: Http, buf: seq<byte>, e: nat, length: Option<nat>): Http
    requires e <= |buf|
  {
    if !logging then Answer(h.(readBuf := []), Unavailable)
    else if length.None? || length.value == 0 || length.value > MAX_BODY then Answer(h.(readBuf := buf), BadRequest)
    else if |buf| - e >= length.value then Logged(h, buf[e..e + length.value])
    else h.(phase := ReadingPostBody, length := length.value, body := buf[e..], readBuf := [])
  }

  function TakeHead(logging: bool, h: Http, buf: seq<byte>): Http {
    if |buf| > MAX_REQUEST then Answer(h.(readBuf := buf), BadRequest)
    else
      var e := HeaderEnd(buf);
      if e.None? then h.(readBuf := buf)
      else
        BlankStable(buf, [], 0);
        BlankFromMeans(buf, 0);
        Serve(logging, h, buf, e.value, JudgeHead(buf[..e.value - 4]))
  }

  /** A head that has been understood, or not. */
  function Serve(logging: bool, h: Http, buf: seq<byte>, e: nat, verdict: Verdict): Http
    requires e <= |buf|
  {
    match verdict
    case Malformed => Answer(h.(readBuf := buf), BadRequest)
    case Options => Answer(h.(readBuf := []), Preflight)
    case LogPost(length) => TakePost(logging, h, buf, e, length)
    case Get(path) => Answer(h.(readBuf := buf), Page(path))
  }

  function TakeBody(logging: bool, h: Http, body: seq<byte>): Http {
    if |body| > MAX_BODY then Answer(h.(body := body), BadRequest)
    else if |body| >= h.length then
      if logging then Logged(h, body[..h.length]) else Answer(h.(readBuf := [], body := []), NoContent)
    else h.(body := body)
  }

  /** What one successful receive does. */
  function Receive(logging: bool, h: Http, data: seq<byte>): Http {
    match h.phase
    case ReadingHeaders => TakeHead(logging, h, h.readBuf + data)
    case ReadingPostBody => TakeBody(logging, h, h.body + data)
    case _ => h
  }

  function ReceiveAll(logging: bool, h: Http, chunks: seq<seq<byte>>): Http
    decreases |chunks|
  {
    if chunks == [] then h else ReceiveAll(logging, Receive(logging, h, chunks[0]), chunks[1..])
  }

  // ---------------------------------------------------------------- the receive loops

  /** The results of `recv`: some bytes, or the reasons to stop. */
  datatype Recv = Received(data: seq<byte>) | WouldBlock | Ended

  /** One readable event: the connection after it, and how many receive results it used up. */
  function Drive(logging: bool, h: Http, input: seq<Recv>): (r: (Http, nat))
    ensures r.1 <= |input|
    decreases |input|
  {
    if input == [] then (h, 0)
    else
      match input[0]
      case WouldBlock => (h, 1)
      case Ended => (h.(phase := Gone), 1)
      case Received(data) =>
        var h' := Receive(logging, h, data);
        if h'.phase != h.phase then (h', 1)
        else
          var (last, used) := Drive(logging, h', input[1..]);
          (last, used + 1)
  }

  class HttpConnection {
    var phase: Phase
    var readBuf: seq<byte>
    var postBodyAccum: seq<byte>
    var postContentLength: nat
    var response: Option<Response>
    var log: seq<seq<byte>>

    ghost function View(): Http
      reads this
    {
      Http(phase, readBuf, postBodyAccum, postContentLength, response, log)
    }

    constructor (log: seq<seq<byte>>)
      ensures View() == Fresh(log)
    {
      phase, readBuf, postBodyAccum, postContentLength, response := ReadingHeaders, [], [], 0, None;
      this.log := log;
    }

    method Respond(r: Response)
      modifies this`phase, this`response
      ensures View() == Answer(old(View()), r)
    {
      response := Some(r);
      phase := WritingResponse;
    }

    /** The body loop and the head loop, whichever the phase calls for. */
    method DriveHttpRead(logging: bool, input: seq<Recv>) returns (used: nat)
      requires phase == ReadingHeaders || phase == ReadingPostBody
      modifies this
      ensures (View(), used) == Drive(logging, old(View()), input)
    {
      used := 0;
      var start := phase;
      while used < |input|
        invariant used <= |input| && phase == start
        invariant Drive(logging, old(View()), input)
               == (Drive(logging, View(), input[used..]).0, used + Drive(logging, View(), input[used..]).1)
        decreases |input| - used
      {
        assert input[used..][0] == input[used] && input[used..][1..] == input[used + 1..];
        var n := input[used];
        used := used + 1;
        match n
        case WouldBlock => return;
        case Ended =>
          phase := Gone;
          return;
        case Received(data) =>
          if start == ReadingPostBody {
            MoreBody(logging, data);
          } else {
            MoreHead(logging, data);
          }
          if phase != start {
            return;
          }
      }
    }

    method MoreBody(logging: bool, data: seq<byte>)
      requires phase == ReadingPostBody
      modifies this
      ensures View() == Receive(logging, old(View()), data)
    {
      postBodyAccum := postBodyAccum + data;
      if |postBodyAccum| > MAX_BODY {
        Respond(BadRequest);
        return;
      }
      if |postBodyAccum| >= postContentLength {
        if logging {
          log := log + [postBodyAccum[..postContentLength]];
        }
        Respond(NoContent);
        readBuf, postBodyAccum := [], [];
      }
    }

    method MoreHead(logging: bool, data: seq<byte>)
      requires phase == ReadingHeaders
      modifies this
      ensures View() == Receive(logging, old(View()), data)
    {
      readBuf := readBuf + data;
      if |readBuf| > MAX_REQUEST {
        Respond(BadRequest);
        return;
      }
      var e := FindHeaderEnd(readBuf);
      if e.None? {
        return;
      }
      BlankStable(readBuf, [], 0);
      BlankFromMeans(readBuf, 0);
      hide HeaderEnd, JudgeHead, Serve, BlankFrom, BlankAt;
      ServeRequest(logging, e.value, JudgeHead(readBuf[..e.value - 4]));
    }

    method ServeRequest(logging: bool, bodyOff: nat, verdict: Verdict)
      requires phase == ReadingHeaders && bodyOff <= |readBuf|
      modifies this
      ensures View() == Serve(logging, old(View()).(readBuf := []), old(readBuf), bodyOff, verdict)
    {
      match verdict
      case Malformed => Respond(BadRequest);
      case Options =>
        Respond(Preflight);
        readBuf := [];
      case Get(path) => Respond(Page(path));
      case LogPost(length) => StartPost(logging, bodyOff, length);
    }

    method StartPost(logging: bool, bodyOff: nat, length: Option<nat>)
      requires bodyOff <= |readBuf|
      modifies this
      ensures View() == TakePost(logging, old(View()).(readBuf := []), old(readBuf), bodyOff, length)
    {
      if !logging {
        Respond(Unavailable);
        readBuf := [];
        return;
      }
      if length.None? || length.value == 0 || length.value > MAX_BODY {
        Respond(BadRequest);
        return;
      }
      var have := |readBuf| - bodyOff;
      if have >= length.value {
        log := log + [readBuf[bodyOff..bodyOff + length.value]];
        Respond(NoContent);
        readBuf := [];
        postBodyAccum := [];
        return;
      }
      postContentLength := length.value;
      postBodyAccum := readBuf[bodyOff..];
      readBuf := [];
      phase := ReadingPostBody;
    }
  }

  // ---------------------------------------------------------------- one line, logged once

  /** A complete POST: a head that asks for the log, an empty line, and a body of the announced length. */
  ghost predicate CompletePost(logging: bool, request: seq<byte>, body: seq<byte>) {
    && logging && |request| <= MAX_REQUEST && 1 <= |body| <= MAX_BODY
    && HeaderEnd(request).Some?
    && 4 <= HeaderEnd(request).value <= |request| && request[HeaderEnd(request).value..] == body
    && JudgeHead(request[..HeaderEnd(request).value - 4]) == LogPost(Some(|body|))
  }

  /** The connection after the first `n` bytes of the request. */
  ghost predicate At(logging: bool, request: seq<byte>, body: seq<byte>, log: seq<seq<byte>>, h: Http, n: nat)
    requires CompletePost(logging, request, body) && n <= |request|
  {
    var e := HeaderEnd(request).value;
    if n == |request| then h.phase == WritingResponse && h.response == Some(NoContent) && h.log == log + [body]
    else
      && h.log == log && h.response.None?
      && if n < e then h.phase == ReadingHeaders && h.readBuf == request[..n]
         else h.phase == ReadingPostBody && h.length == |body| && h.body == request[e..n]
  }

  lemma HeadInPrefix(request: seq<byte>, n: nat)
    requires HeaderEnd(request).Some? && n <= |request|
    ensures HeaderEnd(request).value <= |request|
    ensures HeaderEnd(request[..n]) == if n < HeaderEnd(request).value then None else HeaderEnd(request)
  {
    var p, e := request[..n], HeaderEnd(request).value;
    BlankStable(request, [], 0);
    BlankFromMeans(request, 0);
    BlankFromMeans(p, 0);
    if HeaderEnd(p).Some? {
      BlankStable(p, request[n..], 0);
      assert p + request[n..] == request;
    } else if n >= e {
      assert BlankAt(p, e - 4);
    }
  }

  lemma HeadSlices(request: seq<byte>, body: seq<byte>, e: nat, m: nat)
    requires 4 <= e <= m <= |request| && request[e..] == body
    ensures request[..m][..e - 4] == request[..e - 4] && request[..m][e..] == request[e..m]
    ensures |request| == e + |body|
    ensures m == |request| ==> request[..m][e..e + |body|] == body
  {
  }

  /** A buffer whose head asks for the log. */
  lemma HeadTaken(logging: bool, h: Http, buf: seq<byte>, e: nat, length: nat)
    requires |buf| <= MAX_REQUEST && HeaderEnd(buf) == Some(e) && 4 <= e <= |buf|
    requires JudgeHead(buf[..e - 4]) == LogPost(Some(length))
    ensures TakeHead(logging, h, buf) == TakePost(logging, h, buf, e, Some(length))
  {
    hide HeaderEnd, JudgeHead, TakePost;
  }

  /** With the head complete, the body is taken as far as it is there. */
  lemma PostTaken(logging: bool, request: seq<byte>, body: seq<byte>, log: seq<seq<byte>>, h: Http, m: nat)
    requires CompletePost(logging, request, body) && HeaderEnd(request).value <= m <= |request|
    requires h.log == log && h.response.None?
    ensures At(logging, request, body, log, TakePost(logging, h, request[..m], HeaderEnd(request).value, Some(|body|)), m)
  {
    hide HeaderEnd, JudgeHead;
    HeadSlices(request, body, HeaderEnd(request).value, m);
  }

  lemma HeadGrows(logging: bool, request: seq<byte>, body: seq<byte>, log: seq<seq<byte>>, h: Http, m: nat)
    requires CompletePost(logging, request, body) && m < HeaderEnd(request).value && HeaderEnd(request[..m]).None?
    requires h.phase.ReadingHeaders? && h.log == log && h.response.None?
    ensures At(logging, request, body, log, TakeHead(logging, h, request[..m]), m)
  {
    hide HeaderEnd, JudgeHead;
  }

  lemma MoreOfHead(logging: bool, request: seq<byte>, body: seq<byte>, log: seq<seq<byte>>, h: Http, n: nat, data: seq<byte>)
    requires CompletePost(logging, request, body) && n + |data| <= |request| && n < HeaderEnd(request).value && data != []
    requires At(logging, request, body, log, h, n) && data == request[n..n + |data|]
    ensures At(logging, request, body, log, Receive(logging, h, data), n + |data|)
  {
    var e, m := HeaderEnd(request).value, n + |data|;
    HeadInPrefix(request, m);
    assert h.readBuf + data == request[..m];
    hide HeaderEnd, JudgeHead, TakeHead, TakePost;
    if m >= e {
      HeadSlices(request, body, e, m);
      HeadTaken(logging, h, request[..m], e, |body|);
      hide At;
      PostTaken(logging, request, body, log, h, m);
    } else {
      HeadGrows(logging, request, body, log, h, m);
    }
  }

  lemma MoreOfBody(logging: bool, request: seq<byte>, body: seq<byte>, log: seq<seq<byte>>, h: Http, n: nat, data: seq<byte>)
    requires CompletePost(logging, request, body) && HeaderEnd(request).value <= n < n + |data| <= |request|
    requires At(logging, request, body, log, h, n) && data == request[n..n + |data|]
    ensures At(logging, request, body, log, Receive(logging, h, data), n + |data|)
  {
    hide HeaderEnd, JudgeHead;
    var e, m := HeaderEnd(request).value, n + |data|;
    assert h.body + data == request[e..m];
    assert |request| == e + |body|;
    if m == |request| {
      assert request[e..m] == body && body[..|body|] == body;
    }
  }

  lemma MoreBytes(logging: bool, request: seq<byte>, body: seq<byte>, log: seq<seq<byte>>, h: Http, n: nat, data: seq<byte>)
    requires CompletePost(logging, request, body) && n + |data| <= |request| && n < |request| && data != []
    requires At(logging, request, body, log, h, n) && data == request[n..n + |data|]
    ensures At(logging, request, body, log, Receive(logging, h, data), n + |data|)
  {
    hide At, Receive, JudgeHead;
    if n < HeaderEnd(request).value {
      MoreOfHead(logging, request, body, log, h, n, data);
    } else {
      MoreOfBody(logging, request, body, log, h, n, data);
    }
  }

  lemma {:induction false} RestOfRequest(logging: bool, request: seq<byte>, body: seq<byte>, log: seq<seq<byte>>, h: Http, n: nat, chunks: seq<seq<byte>>)
    requires CompletePost(logging, request, body) && n <= |request| && At(logging, request, body, log, h, n)
    requires (forall c :: c in chunks ==> c != []) && Concat(chunks) == request[n..]
    ensures At(logging, request, body, log, ReceiveAll(logging, h, chunks), |request|)
    decreases |chunks|
  {
    if chunks == [] {
      assert |request[n..]| == |request| - n;
    } else {
      hide At, Receive, CompletePost;
      assert chunks[0] in chunks;
      var m := n + |chunks[0]|;
      assert chunks[0] == request[n..][..|chunks[0]|] == request[n..m];
      MoreBytes(logging, request, body, log, h, n, chunks[0]);
      assert Concat(chunks[1..]) == request[n..][|chunks[0]|..] == request[m..];
      assert forall c :: c in chunks[1..] ==> c in chunks;
      RestOfRequest(logging, request, body, log, Receive(logging, h, chunks[0]), m, chunks[1..]);
    }
  }

  /** However a complete request is split over receives: exactly one append, of exactly the body, and one 204. */
  lemma LoggedOnce(logging: bool, request: seq<byte>, body: seq<byte>, log: seq<seq<byte>>, chunks: seq<seq<byte>>)
    requires CompletePost(logging, request, body)
    requires (forall c :: c in chunks ==> c != []) && Concat(chunks) == request
    ensures
      var h := ReceiveAll(logging, Fresh(log), chunks);
      h.phase == WritingResponse && h.response == Some(NoContent) && h.log == log + [body]
  {
    assert request[0..] == request && request[..0] == [];
    RestOfRequest(logging, request, body, log, Fresh(log), 0, chunks);
  }

  lemma NotYet(logging: bool, request: seq<byte>, body: seq<byte>, log: seq<seq<byte>>, h: Http, n: nat)
    requires CompletePost(logging, request, body) && n < |request| && At(logging, request, body, log, h, n)
    ensures h.log == log && h.response.None?
  {
  }

  /** The first of the pieces still to come, and the others. */
  lemma FirstPiece(chunks: seq<seq<byte>>, request: seq<byte>, n: nat)
    requires chunks != [] && n + |Concat(chunks)| <= |request| && Concat(chunks) == request[n..n + |Concat(chunks)|]
    ensures
      var m := n + |chunks[0]|;
      && |Concat(chunks)| == |chunks[0]| + |Concat(chunks[1..])|
      && chunks[0] == request[n..m] && Concat(chunks[1..]) == request[m..m + |Concat(chunks[1..])|]
  {
    var s := Concat(chunks);
    assert s == chunks[0] + Concat(chunks[1..]);
    assert chunks[0] == s[..|chunks[0]|] && Concat(chunks[1..]) == s[|chunks[0]|..];
  }

  /** Before the last byte nothing is appended and nothing is answered. */
  lemma {:induction false} NothingBeforeTheEnd(logging: bool, request: seq<byte>, body: seq<byte>, log: seq<seq<byte>>, h: Http, n: nat, chunks: seq<seq<byte>>)
    requires CompletePost(logging, request, body) && n < |request| && At(logging, request, body, log, h, n)
    requires (forall c :: c in chunks ==> c != []) && n + |Concat(chunks)| < |request|
    requires Concat(chunks) == request[n..n + |Concat(chunks)|]
    ensures ReceiveAll(logging, h, chunks).log == log && ReceiveAll(logging, h, chunks).response.None?
    decreases |chunks|
  {
    hide At, Receive, CompletePost, Concat;
    if chunks == [] {
      NotYet(logging, request, body, log, h, n);
    } else {
      FirstPiece(chunks, request, n);
      assert chunks[0] in chunks;
      assert forall c :: c in chunks[1..] ==> c in chunks;
      MoreBytes(logging, request, body, log, h, n, chunks[0]);
      NothingBeforeTheEnd(logging, request, body, log, Receive(logging, h, chunks[0]), n + |chunks[0]|, chunks[1..]);
    }
  }

  // ---------------------------------------------------------------- whatever arrives

  /** How much a connection ever holds, and what it may have logged. */
  ghost predicate Bounded(logging: bool, log: seq<seq<byte>>, h: Http) {
    && (h.phase.ReadingHeaders? ==> |h.readBuf| <= 16384 && HeaderEnd(h.readBuf).None?)
    && (h.phase.ReadingPostBody? ==> logging && |h.body| < h.length <= 4096 && h.readBuf == [])
    && (h.phase.ReadingHeaders? || h.phase.ReadingPostBody? ==> h.response.None?)
    && (h.response.Some? ==> h.phase.WritingResponse?)
    && (h.log == log || OneLine(logging, log, h))
  }

  /** One line was appended: not empty, at most 4096 bytes, and answered by a 204. */
  ghost predicate OneLine(logging: bool, log: seq<seq<byte>>, h: Http) {
    && |h.log| == |log| + 1 && h.log[..|log|] == log && 1 <= |h.log[|log|]| <= 4096
    && logging && h.response == Some(NoContent) && h.phase.WritingResponse?
  }

  lemma LineAdded(logging: bool, log: seq<seq<byte>>, h: Http, line: seq<byte>)
    requires h.log == log && logging && 1 <= |line| <= 4096
    ensures OneLine(logging, log, Logged(h, line))
  {
    assert (log + [line])[..|log|] == log;
  }

  lemma PostBounded(logging: bool, log: seq<seq<byte>>, h: Http, buf: seq<byte>, e: nat, length: Option<nat>)
    requires h.log == log && h.response.None? && h.phase.ReadingHeaders? && e <= |buf|
    ensures Bounded(logging, log, TakePost(logging, h, buf, e, length))
  {
    hide HeaderEnd;
    if logging && length.Some? && 1 <= length.value <= MAX_BODY && |buf| - e >= length.value {
      LineAdded(logging, log, h, buf[e..e + length.value]);
    }
  }

  lemma EndWithin(buf: seq<byte>)
    requires HeaderEnd(buf).Some?
    ensures HeaderEnd(buf).value <= |buf|
  {
    BlankStable(buf, [], 0);
  }

  lemma HeadBounded(logging: bool, log: seq<seq<byte>>, h: Http, buf: seq<byte>)
    requires h.log == log && h.response.None? && h.phase.ReadingHeaders?
    ensures Bounded(logging, log, TakeHead(logging, h, buf))
  {
    hide JudgeHead, HeaderEnd, TakePost, Bounded;
    if |buf| <= MAX_REQUEST && HeaderEnd(buf).Some? {
      EndWithin(buf);
      HeadCases(logging, log, h, buf, HeaderEnd(buf).value);
    } else {
      HeadWaits(logging, log, h, buf);
    }
  }

  lemma HeadWaits(logging: bool, log: seq<seq<byte>>, h: Http, buf: seq<byte>)
    requires h.log == log && h.response.None? && h.phase.ReadingHeaders? && (|buf| > MAX_REQUEST || HeaderEnd(buf).None?)
    ensures Bounded(logging, log, TakeHead(logging, h, buf))
  {
    hide JudgeHead, HeaderEnd, TakePost;
  }

  lemma HeadCases(logging: bool, log: seq<seq<byte>>, h: Http, buf: seq<byte>, e: nat)
    requires h.log == log && h.response.None? && h.phase.ReadingHeaders? && |buf| <= MAX_REQUEST && HeaderEnd(buf) == Some(e) && e <= |buf|
    ensures Bounded(logging, log, TakeHead(logging, h, buf))
  {
    BlankFromMeans(buf, 0);
    var verdict := JudgeHead(buf[..e - 4]);
    hide JudgeHead, HeaderEnd, TakePost;
    if verdict.LogPost? {
      hide Bounded;
      PostBounded(logging, log, h, buf, e, verdict.length);
    }
  }

  lemma BodyBounded(logging: bool, log: seq<seq<byte>>, h: Http, data: seq<byte>)
    requires Bounded(logging, log, h) && h.phase.ReadingPostBody?
    ensures Bounded(logging, log, TakeBody(logging, h, h.body + data))
  {
    hide HeaderEnd;
    var body := h.body + data;
    if |body| <= MAX_BODY && |body| >= h.length {
      LineAdded(logging, log, h, body[..h.length]);
    }
  }

  lemma ReceiveBounded(logging: bool, log: seq<seq<byte>>, h: Http, data: seq<byte>)
    requires Bounded(logging, log, h)
    ensures Bounded(logging, log, Receive(logging, h, data))
  {
    hide HeaderEnd, TakeHead, TakeBody;
    if h.phase.ReadingHeaders? {
      HeadBounded(logging, log, h, h.readBuf + data);
    } else if h.phase.ReadingPostBody? {
      BodyBounded(logging, log, h, data);
    }
  }

  lemma {:induction false} AllBounded(logging: bool, log: seq<seq<byte>>, h: Http, chunks: seq<seq<byte>>)
    requires Bounded(logging, log, h)
    ensures Bounded(logging, log, ReceiveAll(logging, h, chunks))
    decreases |chunks|
  {
    hide Bounded, Receive;
    if chunks != [] {
      ReceiveBounded(logging, log, h, chunks[0]);
      AllBounded(logging, log, Receive(logging, h, chunks[0]), chunks[1..]);
    }
  }

  /**
   * Any bytes at all, in any pieces: at most one line is logged, only if logging is on, never an empty one nor one of
   * more than 4096 bytes, and then the answer is 204. Before the answer at most 16384 bytes of head or 4096 bytes of
   * body are held.
   */
  lemma AtMostOneLine(logging: bool, log: seq<seq<byte>>, chunks: seq<seq<byte>>)
    ensures
      var h := ReceiveAll(logging, Fresh(log), chunks);
      && (h.log != log ==> OneLine(logging, log, h))
      && (h.phase.ReadingHeaders? ==> |h.readBuf| <= 16384) && (h.phase.ReadingPostBody? ==> |h.body| < h.length <= 4096)
  {
    AllBounded(logging, log, Fresh(log), chunks);
  }

  /** The answers to `size` bytes whose head ends `extra` bytes before their end and was judged so: each if and only if why. */
  ghost predicate AnsweredFor(logging: bool, size: nat, extra: nat, verdict: Verdict, after: Http) {
    var small := verdict.LogPost? && verdict.length.Some? && 1 <= verdict.length.value <= 4096;
    && (after.response == Some(BadRequest) <==> size > 16384 || verdict.Malformed? || (verdict.LogPost? && logging && !small))
    && (after.response == Some(Preflight) <==> size <= 16384 && verdict.Options?)
    && (after.response == Some(Unavailable) <==> size <= 16384 && verdict.LogPost? && !logging)
    && (forall p :: after.response == Some(Page(p)) <==> size <= 16384 && verdict == Get(p))
    && (after.response == Some(NoContent) <==> size <= 16384 && logging && small && extra >= verdict.length.value)
    && (after.phase.ReadingPostBody? <==> size <= 16384 && logging && small && extra < verdict.length.value)
    && (after.response.None? <==> after.phase.ReadingPostBody?)
  }

  lemma ServeAnswered(logging: bool, h: Http, buf: seq<byte>, e: nat, verdict: Verdict)
    requires h.phase.ReadingHeaders? && h.response.None? && e <= |buf| <= 16384
    ensures AnsweredFor(logging, |buf|, |buf| - e, verdict, Serve(logging, h, buf, e, verdict))
  {
  }

  /** What a receive that ends the head is answered with. */
  lemma HeadAnswered(logging: bool, h: Http, data: seq<byte>)
    requires h.phase.ReadingHeaders? && h.response.None?
    ensures
      var buf := h.readBuf + data;
      HeaderEnd(buf).Some? ==>
        4 <= HeaderEnd(buf).value <= |buf| &&
        var e := HeaderEnd(buf).value;
        AnsweredFor(logging, |buf|, |buf| - e, JudgeHead(buf[..e - 4]), Receive(logging, h, data))
  {
    var buf := h.readBuf + data;
    if HeaderEnd(buf).Some? {
      BlankStable(buf, [], 0);
      BlankFromMeans(buf, 0);
      hide HeaderEnd, JudgeHead, Serve;
      if |buf| <= 16384 {
        hide AnsweredFor;
        ServeAnswered(logging, h, buf, HeaderEnd(buf).value, JudgeHead(buf[..HeaderEnd(buf).value - 4]));
      }
    }
  }

  /** Without an empty line yet, the only answer is to a head that is too long. */
  lemma HeadNotEnded(logging: bool, h: Http, data: seq<byte>)
    requires h.phase.ReadingHeaders? && h.response.None? && HeaderEnd(h.readBuf + data).None?
    ensures
      var h' := Receive(logging, h, data);
      if |h.readBuf + data| > 16384 then h'.response == Some(BadRequest) && h'.phase.WritingResponse?
      else h'.response.None? && h'.phase.ReadingHeaders? && h'.readBuf == h.readBuf + data
  {
    hide HeaderEnd, JudgeHead;
  }

  /** A receive of body bytes: too much, enough, or to be continued. Bytes behind the announced length are dropped. */
  lemma BodyAnswered(logging: bool, h: Http, data: seq<byte>)
    requires h.phase.ReadingPostBody? && h.response.None?
    ensures
      var body := h.body + data;
      var h' := Receive(logging, h, data);
      && (h'.response == Some(BadRequest) <==> |body| > 4096)
      && (h'.response == Some(NoContent) <==> h.length <= |body| <= 4096)
      && (h'.response.None? <==> |body| < h.length && |body| <= 4096)
      && h'.log == (if h.length <= |body| <= 4096 && logging then h.log + [body[..h.length]] else h.log)
      && (h'.response.None? ==> h'.phase.ReadingPostBody? && h'.body == body && h'.length == h.length)
  {
  }

  // ---------------------------------------------------------------- over any number of events

  function Pieces(input: seq<Recv>): seq<seq<byte>> {
    if input == [] then []
    else if input[0].Received? then [input[0].data] + Pieces(input[1..])
    else Pieces(input[1..])
  }

  /**
   * Where a readable event stops: when the socket has no more, when the peer has gone, or when the phase changes; and
   * the connection is gone behind it exactly if the peer is.
   */
  lemma {:induction false} DriveStops(logging: bool, h: Http, input: seq<Recv>)
    requires !h.phase.Gone?
    ensures
      var (h', used) := Drive(logging, h, input);
      && (input != [] ==> used > 0)
      && (used < |input| ==> !input[used - 1].Received? || h'.phase != h.phase)
      && (forall i :: 0 <= i < used - 1 ==> input[i].Received?)
      && (h'.phase.Gone? <==> used > 0 && input[used - 1].Ended?)
    decreases |input|
  {
    if input != [] && input[0].Received? {
      var h' := Receive(logging, h, input[0].data);
      NeverGone(logging, h, input[0].data);
      hide Receive;
      if h'.phase == h.phase {
        DriveStops(logging, h', input[1..]);
        var used := Drive(logging, h', input[1..]).1;
        assert forall i :: 0 <= i < used ==> input[1..][i] == input[i + 1];
      }
    }
  }

  lemma NeverGone(logging: bool, h: Http, data: seq<byte>)
    requires !h.phase.Gone?
    ensures !Receive(logging, h, data).phase.Gone?
  {
    hide HeaderEnd, JudgeHead;
  }

  /** One event processes the pieces it used, one after the other. */
  lemma {:induction false} DriveReceives(logging: bool, h: Http, input: seq<Recv>)
    requires forall r :: r in input ==> !r.Ended?
    ensures Drive(logging, h, input).0 == ReceiveAll(logging, h, Pieces(input[..Drive(logging, h, input).1]))
    decreases |input|
  {
    if input != [] && input[0].Received? {
      var h' := Receive(logging, h, input[0].data);
      if h'.phase == h.phase {
        DriveReceives(logging, h', input[1..]);
        var used := Drive(logging, h, input).1;
        assert input[..used][1..] == input[1..][..used - 1];
      } else {
        assert input[..1][1..] == [];
      }
    } else if input != [] {
      assert input[..1][1..] == [];
    }
  }

  function DriveAll(logging: bool, h: Http, events: seq<seq<Recv>>): Http
    decreases |events|
  {
    if events == [] then h else DriveAll(logging, Drive(logging, h, events[0]).0, events[1..])
  }

  /** Each event comes with the receive results it uses up, and the peer stays. */
  ghost predicate UsedUp(logging: bool, h: Http, events: seq<seq<Recv>>)
    decreases |events|
  {
    events != [] ==>
      && (forall r :: r in events[0] ==> !r.Ended?)
      && Drive(logging, h, events[0]).1 == |events[0]|
      && UsedUp(logging, Drive(logging, h, events[0]).0, events[1..])
  }

  function AllPieces(events: seq<seq<Recv>>): seq<seq<byte>> {
    if events == [] then [] else Pieces(events[0]) + AllPieces(events[1..])
  }

  lemma {:induction false} ReceiveMore(logging: bool, h: Http, a: seq<seq<byte>>, b: seq<seq<byte>>)
    ensures ReceiveAll(logging, h, a + b) == ReceiveAll(logging, ReceiveAll(logging, h, a), b)
    decreases |a|
  {
    if a == [] {
      assert a + b == b;
    } else {
      assert (a + b)[1..] == a[1..] + b;
      ReceiveMore(logging, Receive(logging, h, a[0]), a[1..], b);
    }
  }

  lemma {:induction false} EventsReceive(logging: bool, h: Http, events: seq<seq<Recv>>)
    requires UsedUp(logging, h, events)
    ensures DriveAll(logging, h, events) == ReceiveAll(logging, h, AllPieces(events))
    decreases |events|
  {
    if events != [] {
      var h' := Drive(logging, h, events[0]).0;
      DriveReceives(logging, h, events[0]);
      assert events[0][..|events[0]|] == events[0];
      EventsReceive(logging, h', events[1..]);
      ReceiveMore(logging, h, Pieces(events[0]), AllPieces(events[1..]));
    }
  }

  /** The same over whole events: both reading phases, with any pauses in between. */
  lemma LoggedOnceOverEvents(logging: bool, request: seq<byte>, body: seq<byte>, log: seq<seq<byte>>, events: seq<seq<Recv>>)
    requires CompletePost(logging, request, body) && UsedUp(logging, Fresh(log), events)
    requires (forall c :: c in AllPieces(events) ==> c != []) && Concat(AllPieces(events)) == request
    ensures
      var h := DriveAll(logging, Fresh(log), events);
      h.phase == WritingResponse && h.response == Some(NoContent) && h.log == log + [body]
  {
    EventsReceive(logging, Fresh(log), events);
    LoggedOnce(logging, request, body, log, AllPieces(events));
  }

  // ---------------------------------------------------------------- the requests a browser writes

  /** A request line for the log, headers that announce the body, and the body: that is a complete POST. */
  lemma WrittenPostComplete(hs: seq<Header>, body: seq<byte>)
    requires Announces(hs, |body|) && 1 <= |body| <= MAX_BODY && |Request(POST_LINE, hs) + body| <= MAX_REQUEST
    ensures CompletePost(true, Request(POST_LINE, hs) + body, body)
  {
    hide Request, HeaderEnd, JudgeHead, Announces, Ascii, OneLine, LegalHeader;
    var head := Request(POST_LINE, hs);
    PostLinePlain();
    AnnouncedLegal(hs, |body|);
    RequestEnds(POST_LINE, hs, body);
    PostUnderstood(hs, |body|);
    HeadThenBody(head, body);
  }

  lemma HeadThenBody(head: seq<byte>, body: seq<byte>)
    requires |head| >= 4
    ensures (head + body)[|head|..] == body && (head + body)[..|head| - 4] == head[..|head| - 4]
  {
  }

  lemma AnnouncedLegal(hs: seq<Header>, n: nat)
    requires Announces(hs, n)
    ensures forall h :: h in hs ==> LegalHeader(h)
  {
  }

  /**
   * The bytes themselves: any headers that announce the body, in any order and letter case, cut over any
   * number of events. One line is logged, once, and it is the body.
   */
  lemma WrittenPostLoggedOnce(hs: seq<Header>, body: seq<byte>, log: seq<seq<byte>>, events: seq<seq<Recv>>)
    requires Announces(hs, |body|) && 1 <= |body| <= MAX_BODY && |Request(POST_LINE, hs) + body| <= MAX_REQUEST
    requires UsedUp(true, Fresh(log), events)
    requires (forall c :: c in AllPieces(events) ==> c != []) && Concat(AllPieces(events)) == Request(POST_LINE, hs) + body
    ensures
      var h := DriveAll(true, Fresh(log), events);
      h.phase == WritingResponse && h.response == Some(NoContent) && h.log == log + [body]
  {
    hide Request, Announces, CompletePost;
    WrittenPostComplete(hs, body);
    LoggedOnceOverEvents(true, Request(POST_LINE, hs) + body, body, log, events);
  }
}
