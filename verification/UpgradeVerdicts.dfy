/**
 * Both sides of the opening handshake, exactly: which requests the server takes and why it refuses the
 * others, and what a client reads out of the response.
 */
module UpgradeVerdicts {
  import opened Bytes
  import opened FrameCodec
  import opened StreamParser
  import opened Fragmentation
  import opened UpgradeRequest

  // ---------------------------------------------------------------- lines and values

  /** A line may also end with a bare LF. */
  lemma TakeBareLine(line: seq<byte>, rest: seq<byte>)
    requires LF !in line && (line != [] ==> line[|line| - 1] != CR)
    ensures FirstLine(line + [LF] + rest) == line && OtherLines(line + [LF] + rest) == rest
  {
    var s := line + [LF] + rest;
    forall j | 0 <= j < |line|
      ensures s[j] != LF
    {
      assert s[j] == line[j];
    }
    IndexOfFirst(s, LF, |line|);
    assert s[..|line|] == line && s[|line| + 1..] == rest;
  }

  function Spaces(n: nat): (s: seq<byte>)
    ensures |s| == n
  {
    seq(n, _ => 32)
  }

  /** All the spaces in front of a value are skipped, and nothing else. */
  lemma {:induction false} ValueBehindSpaces(n: nat, value: seq<byte>)
    requires value != [] ==> Val(value[0]) != 32
    ensures SkipSpaces(Spaces(n) + value) == value
  {
    var s := Spaces(n) + value;
    if n > 0 {
      ValueBehindSpaces(n - 1, value);
      assert s[1..] == Spaces(n - 1) + value;
    } else {
      assert s == value;
    }
  }

  // ---------------------------------------------------------------- which requests are taken

  /** What these three header values lead to. */
  ghost predicate Judged(c: Setup, key: Option<seq<byte>>, upgrade: Option<seq<byte>>, nonce: Option<seq<byte>>, tail: seq<byte>, r: Upgrade) {
    var keyed := key.Some? && key.value != [];
    var asked := upgrade.Some? && Lower(upgrade.value) == Ascii("websocket");
    && (r == Refused(MissingKey) <==> key.None?)
    && (r == Refused(EmptyKey) <==> key == Some([]))
    && (r == Refused(InvalidUpgrade) <==> keyed && !asked)
    && (r == Refused(MissingNonce) <==> keyed && asked && c.nonceGate.Some? && nonce.None?)
    && (r == Refused(NonceRefused) <==> keyed && asked && c.nonceGate.Some? && nonce.Some? && !c.nonceGate.value(nonce.value))
    && (r.Accepted? <==> keyed && asked && (c.nonceGate.Some? ==> nonce.Some? && c.nonceGate.value(nonce.value)))
    && (r.Accepted? ==> r == Accepted(Response(c.accept(key.value)), tail))
  }

  lemma JudgedByHeaders(c: Setup, block: seq<byte>)
    ensures Judged(c, FindHeader(block, Ascii("Sec-WebSocket-Key")), FindHeader(block, Ascii("Upgrade")), FindHeader(block, Ascii("X-Nonce")),
                   [], JudgeRequest(c, block))
  {
    hide FindHeader, Response, Ascii, Lower;
  }

  lemma JudgedBehind(c: Setup, key: Option<seq<byte>>, upgrade: Option<seq<byte>>, nonce: Option<seq<byte>>, tail: seq<byte>, r: Upgrade)
    requires Judged(c, key, upgrade, nonce, [], r)
    ensures Judged(c, key, upgrade, nonce, tail, if r.Accepted? then r.(rest := tail) else r)
  {
    hide Response, Ascii, Lower;
  }

  lemma JudgedWhole(c: Setup, request: seq<byte>, tail: seq<byte>)
    requires HeaderEnd(request + tail) == Some(|request|)
    ensures
      var r := JudgeRequest(c, request);
      TryUpgrade(c, request + tail) == if r.Accepted? then r.(rest := tail) else r
  {
    hide HeaderEnd, JudgeRequest;
    assert (request + tail)[..|request|] == request && (request + tail)[|request|..] == tail;
  }

  /** For every request made of header lines, and whatever follows it: taken, or refused for which reason. */
  lemma UpgradeExactly(c: Setup, first: seq<byte>, hs: seq<Header>, tail: seq<byte>)
    requires OneLine(first) && forall h :: h in hs ==> LegalHeader(h)
    requires NotNamed(first, Ascii("Sec-WebSocket-Key")) && NotNamed(first, Ascii("Upgrade")) && NotNamed(first, Ascii("X-Nonce"))
    ensures Judged(c, First(hs, Ascii("Sec-WebSocket-Key")), First(hs, Ascii("Upgrade")), First(hs, Ascii("X-Nonce")),
                   tail, TryUpgrade(c, Request(first, hs) + tail))
  {
    hide *;
    var request := Request(first, hs);
    HeaderRoundTrip(first, hs, Ascii("Sec-WebSocket-Key"));
    HeaderRoundTrip(first, hs, Ascii("Upgrade"));
    HeaderRoundTrip(first, hs, Ascii("X-Nonce"));
    RequestEnds(first, hs, tail);
    JudgedByHeaders(c, request);
    JudgedWhole(c, request, tail);
    JudgedBehind(c, First(hs, Ascii("Sec-WebSocket-Key")), First(hs, Ascii("Upgrade")), First(hs, Ascii("X-Nonce")), tail, JudgeRequest(c, request));
  }

  // ---------------------------------------------------------------- what a client reads

  const STATUS_LINE: seq<byte> := Ascii("HTTP/1.1 101 Switching Protocols")

  function ResponseHeaders(accept: seq<byte>): seq<Header> {
    [Header(Ascii("Upgrade"), Ascii("websocket")), Header(Ascii("Connection"), Ascii("Upgrade")),
     Header(Ascii("Sec-WebSocket-Accept"), accept)]
  }

  lemma LineEnds()
    ensures Ascii("\r\n") == CRLF && Ascii(": ") == [COLON, SPACE]
  {
    AsciiCodes("\r\n");
    AsciiCodes(": ");
    hide Ascii;
    ValInjective(Ascii("\r\n")[0], CR);
    ValInjective(Ascii("\r\n")[1], LF);
    ValInjective(Ascii(": ")[0], COLON);
    ValInjective(Ascii(": ")[1], SPACE);
  }

  lemma AsciiLine(text: string)
    ensures Ascii(text + "\r\n") == Ascii(text) + CRLF
  {
    LineEnds();
    AsciiAppend(text, "\r\n");
    hide Ascii;
  }

  lemma AsciiHeader(name: string, value: string)
    ensures Ascii(name + ": " + value + "\r\n") == HeaderLine(Header(Ascii(name), Ascii(value))) + CRLF
  {
    LineEnds();
    AsciiLine(name + ": " + value);
    AsciiAppend(name + ": ", value);
    AsciiAppend(name, ": ");
    hide Ascii;
  }

  /** The fixed parts of the response. */
  lemma FixedParts()
    ensures Ascii("HTTP/1.1 101 Switching Protocols\r\n") == STATUS_LINE + CRLF
    ensures Ascii("Upgrade: websocket\r\n") == HeaderLine(Header(Ascii("Upgrade"), Ascii("websocket"))) + CRLF
    ensures Ascii("Connection: Upgrade\r\n") == HeaderLine(Header(Ascii("Connection"), Ascii("Upgrade"))) + CRLF
    ensures Ascii("Sec-WebSocket-Accept: ") == Ascii("Sec-WebSocket-Accept") + [COLON, SPACE]
  {
    hide Ascii;
    LineEnds();
    AsciiLine("HTTP/1.1 101 Switching Protocols");
    assert "HTTP/1.1 101 Switching Protocols" + "\r\n" == "HTTP/1.1 101 Switching Protocols\r\n";
    AsciiHeader("Upgrade", "websocket");
    assert "Upgrade" + ": " + "websocket" + "\r\n" == "Upgrade: websocket\r\n";
    AsciiHeader("Connection", "Upgrade");
    assert "Connection" + ": " + "Upgrade" + "\r\n" == "Connection: Upgrade\r\n";
    AsciiAppend("Sec-WebSocket-Accept", ": ");
    assert "Sec-WebSocket-Accept" + ": " == "Sec-WebSocket-Accept: ";
  }

  /** The response is a status line and three headers. */
  lemma ResponseText(accept: seq<byte>)
    ensures Response(accept) == Request(STATUS_LINE, ResponseHeaders(accept))
  {
    FixedParts();
    LineEnds();
    var hs := ResponseHeaders(accept);
    TextOfThree(STATUS_LINE, hs);
    assert HeaderLine(hs[2]) == Ascii("Sec-WebSocket-Accept") + [COLON, SPACE] + accept;
    hide Ascii, HeaderLine, Request;
  }

  lemma TextOfThree(first: seq<byte>, hs: seq<Header>)
    requires |hs| == 3
    ensures Request(first, hs)
         == first + CRLF + (HeaderLine(hs[0]) + CRLF) + (HeaderLine(hs[1]) + CRLF) + HeaderLine(hs[2]) + CRLF + CRLF
  {
    hide HeaderLine;
    var lines := [first] + HeaderLines(hs);
    assert lines[1..] == HeaderLines(hs) && HeaderLines(hs) == [HeaderLine(hs[0]), HeaderLine(hs[1]), HeaderLine(hs[2])];
    assert lines[1..][1..] == [HeaderLine(hs[1]), HeaderLine(hs[2])] && lines[1..][1..][1..] == [HeaderLine(hs[2])];
    assert lines[1..][1..][1..][1..] == [];
    assert Text(lines[1..][1..][1..]) == HeaderLine(hs[2]) + CRLF + CRLF;
    assert Text(lines[1..][1..]) == HeaderLine(hs[1]) + CRLF + Text(lines[1..][1..][1..]);
    assert Text(lines[1..]) == HeaderLine(hs[0]) + CRLF + Text(lines[1..][1..]);
  }

  lemma StatusPlain()
    ensures OneLine(STATUS_LINE) && forall name :: NotNamed(STATUS_LINE, name)
  {
    PlainBytes("HTTP/1.1 101 Switching Protocols");
    hide Ascii;
    assert IndexOf(STATUS_LINE, COLON) == |STATUS_LINE| by {
      assert COLON !in STATUS_LINE;
    }
  }

  lemma ResponseLegal(accept: seq<byte>)
    requires Value(accept)
    ensures forall h :: h in ResponseHeaders(accept) ==> LegalHeader(h)
  {
    ClientValues();
    hide Ascii, LegalHeader, Value;
    PlainHeader("Upgrade", Ascii("websocket"));
    PlainHeader("Connection", Ascii("Upgrade"));
    PlainHeader("Sec-WebSocket-Accept", accept);
  }

  lemma ResponseFields(accept: seq<byte>)
    ensures
      var hs := ResponseHeaders(accept);
      && First(hs, Ascii("Upgrade")) == Some(Ascii("websocket")) && First(hs, Ascii("Connection")) == Some(Ascii("Upgrade"))
      && First(hs, Ascii("Sec-WebSocket-Accept")) == Some(accept)
  {
    hide Ascii, Lower;
    var hs := ResponseHeaders(accept);
    OtherLength(Ascii("Upgrade"), Ascii("Connection"));
    OtherLength(Ascii("Upgrade"), Ascii("Sec-WebSocket-Accept"));
    OtherLength(Ascii("Connection"), Ascii("Sec-WebSocket-Accept"));
    assert hs == hs[..1] + hs[1..] && hs[1..][0] == hs[1] && hs == hs[..2] + hs[2..] && hs[2..][0] == hs[2];
    FirstPast(hs[..1], hs[1..], Ascii("Connection"));
    FirstPast(hs[..2], hs[2..], Ascii("Sec-WebSocket-Accept"));
  }

  /**
   * What a client reads out of the response (section 4.2.2 of RFC 6455), for any accept value of one line and whatever
   * comes behind: where it ends, the status line, and each of the three headers.
   */
  lemma ResponseRead(accept: seq<byte>, tail: seq<byte>)
    requires Value(accept)
    ensures
      var r := Response(accept);
      && HeaderEnd(r + tail) == Some(|r|)
      && FirstLine(r) == Ascii("HTTP/1.1 101 Switching Protocols")
      && FindHeader(r, Ascii("Upgrade")) == Some(Ascii("websocket"))
      && FindHeader(r, Ascii("Connection")) == Some(Ascii("Upgrade"))
      && FindHeader(r, Ascii("Sec-WebSocket-Accept")) == Some(accept)
  {
    var hs := ResponseHeaders(accept);
    ResponseText(accept);
    ResponseLegal(accept);
    StatusPlain();
    ResponseFields(accept);
    hide Ascii, LegalHeader, Response, ResponseHeaders, Lower, Value, FindHeader, First, HeaderEnd;
    RequestEnds(STATUS_LINE, hs, tail);
    HeaderRoundTrip(STATUS_LINE, hs, Ascii("Upgrade"));
    HeaderRoundTrip(STATUS_LINE, hs, Ascii("Connection"));
    HeaderRoundTrip(STATUS_LINE, hs, Ascii("Sec-WebSocket-Accept"));
    StatusFirst(hs);
  }

  lemma StatusFirst(hs: seq<Header>)
    requires OneLine(STATUS_LINE)
    ensures FirstLine(Request(STATUS_LINE, hs)) == STATUS_LINE
  {
    hide Ascii;
    var rest := Text(HeaderLines(hs));
    assert ([STATUS_LINE] + HeaderLines(hs))[1..] == HeaderLines(hs);
    assert Request(STATUS_LINE, hs) == STATUS_LINE + CRLF + rest;
    TakeLine(STATUS_LINE, rest);
  }

  /**
   * The handshake as a client sees it: request and frames cut anywhere get one response, in which the client reads the
   * digest of its own key, and every frame arrives.
   */
  lemma HandshakeRead(c: Setup, first: seq<byte>, hs: seq<Header>, key: seq<byte>, fs: seq<WireFrame>, chunks: seq<seq<byte>>)
    requires GoodRequest(c, first, hs, key) && forall f :: f in fs ==> Whole(c.wire, f)
    requires Concat(chunks) == Request(first, hs) + WriteFrames(fs) && Value(c.accept(key))
    ensures
      var r := FeedAll(c, Awaiting([]), chunks);
      && r.frames == Shown(fs) && r.status.Live? && r.accepted.Some?
      && HeaderEnd(r.accepted.value) == Some(|r.accepted.value|)
      && FirstLine(r.accepted.value) == Ascii("HTTP/1.1 101 Switching Protocols")
      && FindHeader(r.accepted.value, Ascii("Sec-WebSocket-Accept")) == Some(c.accept(key))
  {
    HandshakeAndFrames(c, first, hs, key, fs, chunks);
    ResponseRead(c.accept(key), []);
    assert Response(c.accept(key)) + [] == Response(c.accept(key));
    hide *;
  }

  /** Different keys with different digests get different responses. */
  lemma ResponseTells(a: seq<byte>, b: seq<byte>)
    requires Value(a) && Value(b) && Response(a) == Response(b)
    ensures a == b
  {
    ResponseRead(a, []);
    ResponseRead(b, []);
    hide Response, FindHeader, Ascii;
  }

  // ---------------------------------------------------------------- the client's request, byte for byte

  /** Header lines, each with its line end. */
  function Block(hs: seq<Header>): seq<byte> {
    if hs == [] then [] else Block(hs[..|hs| - 1]) + (HeaderLine(hs[|hs| - 1]) + CRLF)
  }

  lemma OneMoreHeader(hs: seq<Header>, h: Header)
    ensures Block(hs + [h]) == Block(hs) + (HeaderLine(h) + CRLF)
  {
    hide HeaderLine;
    assert (hs + [h])[..|hs|] == hs;
  }

  lemma {:induction false} TextIsBlock(front: seq<Header>, hs: seq<Header>)
    ensures Block(front) + Text(HeaderLines(hs)) == Block(front + hs) + CRLF
    decreases |hs|
  {
    hide HeaderLine;
    if hs == [] {
      assert front + hs == front && HeaderLines(hs) == [];
    } else {
      var line, rest := HeaderLine(hs[0]) + CRLF, Text(HeaderLines(hs[1..]));
      assert HeaderLines(hs)[1..] == HeaderLines(hs[1..]);
      assert Text(HeaderLines(hs)) == line + rest;
      OneMoreHeader(front, hs[0]);
      Associate(Block(front), line, rest);
      TextIsBlock(front + [hs[0]], hs[1..]);
      assert front + [hs[0]] + hs[1..] == front + hs;
    }
  }

  lemma RequestIsBlock(first: seq<byte>, hs: seq<Header>)
    ensures Request(first, hs) == first + CRLF + Block(hs) + CRLF
  {
    hide HeaderLine;
    TextIsBlock([], hs);
    assert [] + hs == hs && Block([]) == [] && [] + Text(HeaderLines(hs)) == Text(HeaderLines(hs));
    assert ([first] + HeaderLines(hs))[1..] == HeaderLines(hs);
    Associate(first + CRLF, Block(hs), CRLF);
  }

  /** A header of the request, as text in front of its value. */
  lemma NamedLine(name: string, value: seq<byte>)
    ensures HeaderLine(Header(Ascii(name), value)) + CRLF == Ascii(name + ": ") + value + Ascii("\r\n")
  {
    LineEnds();
    AsciiAppend(name, ": ");
    hide Ascii;
  }

  /** What the client writes for its headers. */
  function ClientText(host: seq<byte>, key: seq<byte>, nonce: Option<seq<byte>>): seq<byte> {
    (Ascii("Host: ") + host + Ascii("\r\n")) + Ascii("Upgrade: websocket\r\n") + Ascii("Connection: Upgrade\r\n")
    + (Ascii("Sec-WebSocket-Key: ") + key + Ascii("\r\n")) + Ascii("Sec-WebSocket-Version: 13\r\n")
    + (if nonce.Some? then Ascii("X-Nonce: ") + nonce.value + Ascii("\r\n") else [])
  }

  lemma ClientLines(host: seq<byte>, key: seq<byte>)
    ensures HeaderLine(Header(Ascii("Host"), host)) + CRLF == Ascii("Host: ") + host + Ascii("\r\n")
    ensures HeaderLine(Header(Ascii("Sec-WebSocket-Key"), key)) + CRLF == Ascii("Sec-WebSocket-Key: ") + key + Ascii("\r\n")
    ensures HeaderLine(Header(Ascii("Sec-WebSocket-Version"), Ascii("13"))) + CRLF == Ascii("Sec-WebSocket-Version: 13\r\n")
  {
    hide Ascii;
    NamedLine("Host", host);
    assert "Host" + ": " == "Host: ";
    NamedLine("Sec-WebSocket-Key", key);
    assert "Sec-WebSocket-Key" + ": " == "Sec-WebSocket-Key: ";
    AsciiHeader("Sec-WebSocket-Version", "13");
    assert "Sec-WebSocket-Version" + ": " + "13" + "\r\n" == "Sec-WebSocket-Version: 13\r\n";
  }

  lemma NonceLine(nonce: seq<byte>)
    ensures HeaderLine(Header(Ascii("X-Nonce"), nonce)) + CRLF == Ascii("X-Nonce: ") + nonce + Ascii("\r\n")
  {
    hide Ascii;
    NamedLine("X-Nonce", nonce);
    assert "X-Nonce" + ": " == "X-Nonce: ";
  }

  lemma FiveHeaders(h0: Header, h1: Header, h2: Header, h3: Header, h4: Header)
    ensures Block([h0, h1, h2, h3, h4])
         == (HeaderLine(h0) + CRLF) + (HeaderLine(h1) + CRLF) + (HeaderLine(h2) + CRLF) + (HeaderLine(h3) + CRLF) + (HeaderLine(h4) + CRLF)
  {
    hide HeaderLine;
    OneMoreHeader([], h0);
    OneMoreHeader([h0], h1);
    OneMoreHeader([h0, h1], h2);
    OneMoreHeader([h0, h1, h2], h3);
    OneMoreHeader([h0, h1, h2, h3], h4);
    assert [] + [h0] == [h0] && [h0] + [h1] == [h0, h1] && [h0, h1] + [h2] == [h0, h1, h2];
    assert [h0, h1, h2] + [h3] == [h0, h1, h2, h3] && [h0, h1, h2, h3] + [h4] == [h0, h1, h2, h3, h4];
    assert Block([]) == [] && [] + (HeaderLine(h0) + CRLF) == HeaderLine(h0) + CRLF;
  }

  lemma ClientBlock(host: seq<byte>, key: seq<byte>, nonce: Option<seq<byte>>)
    ensures Block(ClientHeaders(host, key, nonce)) == ClientText(host, key, nonce)
  {
    FixedParts();
    ClientLines(host, key);
    hide Ascii, HeaderLine;
    var hs := [Header(Ascii("Host"), host), Header(Ascii("Upgrade"), Ascii("websocket")), Header(Ascii("Connection"), Ascii("Upgrade")),
               Header(Ascii("Sec-WebSocket-Key"), key), Header(Ascii("Sec-WebSocket-Version"), Ascii("13"))];
    FiveHeaders(hs[0], hs[1], hs[2], hs[3], hs[4]);
    if nonce.Some? {
      NonceLine(nonce.value);
      OneMoreHeader(hs, Header(Ascii("X-Nonce"), nonce.value));
    } else {
      assert hs + NonceHeader(nonce) == hs;
    }
  }

  /** The request of the command-line client is exactly this text. */
  lemma ClientRequestText(host: seq<byte>, key: seq<byte>, nonce: Option<seq<byte>>)
    ensures Request(REQUEST_LINE, ClientHeaders(host, key, nonce))
         == Ascii("GET / HTTP/1.1\r\n") + ClientText(host, key, nonce) + Ascii("\r\n")
  {
    RequestIsBlock(REQUEST_LINE, ClientHeaders(host, key, nonce));
    ClientBlock(host, key, nonce);
    LineEnds();
    hide Ascii, ClientText, ClientHeaders, Block, Request;
    AsciiLine("GET / HTTP/1.1");
    assert "GET / HTTP/1.1" + "\r\n" == "GET / HTTP/1.1\r\n";
  }
}
