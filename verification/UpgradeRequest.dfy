/**
 * The opening handshake as a round trip (section 4 of RFC 6455): a request made of header lines is read
 * back header by header, and answered with the 101 response for its key, however it arrives.
 */
module UpgradeRequest {
  import opened Bytes
  import opened FrameCodec
  import opened StreamParser
  import opened Fragmentation

  datatype Header = Header(name: seq<byte>, value: seq<byte>)

  const CRLF: seq<byte> := [CR, LF]

  /** Text that stands on one line and does not look like the end of the head. */
  ghost predicate OneLine(line: seq<byte>) {
    line != [] && CR !in line && LF !in line
  }

  ghost predicate LegalHeader(h: Header) {
    && h.name != [] && COLON !in h.name && CR !in h.name && LF !in h.name
    && CR !in h.value && LF !in h.value
    && (h.value != [] ==> h.value[0] != SPACE)
  }

  function HeaderLine(h: Header): seq<byte> {
    h.name + [COLON, SPACE] + h.value
  }

  function HeaderLines(hs: seq<Header>): (lines: seq<seq<byte>>)
    ensures |lines| == |hs|
  {
    seq(|hs|, i requires 0 <= i < |hs| => HeaderLine(hs[i]))
  }

  /** Each line ended by CR LF, and an empty line behind the last. */
  function Text(lines: seq<seq<byte>>): seq<byte> {
    if lines == [] then CRLF else lines[0] + CRLF + Text(lines[1..])
  }

  /** The request line and the headers. */
  function Request(first: seq<byte>, hs: seq<Header>): seq<byte> {
    Text([first] + HeaderLines(hs))
  }

  // ---------------------------------------------------------------- where the head ends

  lemma {:induction false} SkipTo(s: seq<byte>, i: nat, k: nat)
    requires i <= k <= |s| && forall j :: i <= j < k ==> !BlankAt(s, j)
    requires k + 4 <= |s|
    ensures BlankFrom(s, i) == BlankFrom(s, k)
    decreases k - i
  {
    if i < k {
      SkipTo(s, i + 1, k);
    }
  }

  function Shifted(e: Option<nat>, n: nat): Option<nat> {
    if e.None? then None else Some(e.value + n)
  }

  lemma {:induction false} BlankBehind(a: seq<byte>, s: seq<byte>, i: nat)
    ensures BlankFrom(a + s, |a| + i) == Shifted(BlankFrom(s, i), |a|)
    decreases |s| - i
  {
    if i + 4 <= |s| {
      assert (a + s)[|a| + i] == s[i] && (a + s)[|a| + i + 1] == s[i + 1];
      assert (a + s)[|a| + i + 2] == s[i + 2] && (a + s)[|a| + i + 3] == s[i + 3];
      if !BlankAt(s, i) {
        BlankBehind(a, s, i + 1);
      }
    }
  }

  /** A line with another one behind it hides no empty line. */
  lemma NoBlankInLine(line: seq<byte>, rest: seq<byte>, j: nat)
    requires OneLine(line) && rest != [] && rest[0] != CR && j < |line| + 2
    ensures !BlankAt(line + CRLF + rest, j)
  {
    var s := line + CRLF + rest;
    if j < |line| {
      assert s[j] == line[j];
    } else if j == |line| {
      assert s[|line| + 2] == rest[0];
    } else {
      assert s[|line| + 1] == LF;
    }
  }

  lemma EndOfLast(line: seq<byte>, tail: seq<byte>, j: nat)
    requires OneLine(line) && j <= |line|
    ensures BlankAt(line + CRLF + CRLF + tail, j) <==> j == |line|
  {
    var s := line + CRLF + CRLF + tail;
    if j < |line| {
      assert s[j] == line[j];
    } else {
      assert s[j] == CR && s[j + 1] == LF && s[j + 2] == CR && s[j + 3] == LF;
    }
  }

  lemma LineFirst(line: seq<byte>, rest: seq<byte>)
    requires OneLine(line) && |rest| >= 4 && rest[0] != CR
    ensures BlankFrom(line + CRLF + rest, 0) == Shifted(BlankFrom(rest, 0), |line| + 2)
  {
    hide BlankAt, BlankFrom, OneLine;
    var s := line + CRLF + rest;
    forall j | 0 <= j < |line| + 2
      ensures !BlankAt(s, j)
    {
      NoBlankInLine(line, rest, j);
    }
    SkipTo(s, 0, |line| + 2);
    BlankBehind(line + CRLF, rest, 0);
  }

  lemma TextFront(lines: seq<seq<byte>>)
    requires lines != [] && OneLine(lines[0])
    ensures |Text(lines)| >= 5 && Text(lines)[0] != CR
  {
    assert Text(lines)[0] == lines[0][0];
    assert |Text(lines[1..])| >= 2;
  }

  /** The head ends where the text does, whatever follows. */
  lemma {:induction false} HeadEnds(lines: seq<seq<byte>>, tail: seq<byte>)
    requires lines != [] && forall l :: l in lines ==> OneLine(l)
    ensures HeaderEnd(Text(lines) + tail) == Some(|Text(lines)|)
    decreases |lines|
  {
    var line := lines[0];
    assert line in lines;
    if |lines| == 1 {
      assert lines[1..] == [];
      var s := line + CRLF + CRLF + tail;
      assert Text(lines) + tail == s;
      forall j | 0 <= j <= |line|
        ensures BlankAt(s, j) <==> j == |line|
      {
        EndOfLast(line, tail, j);
      }
      SkipTo(s, 0, |line|);
    } else {
      var rest := Text(lines[1..]);
      assert lines[1] in lines;
      TextFront(lines[1..]);
      HeadEnds(lines[1..], tail);
      assert Text(lines) + tail == line + CRLF + (rest + tail);
      LineFirst(line, rest + tail);
    }
  }

  // ---------------------------------------------------------------- which headers it holds

  /** The value of the first header with that name, letter case aside. */
  function First(hs: seq<Header>, name: seq<byte>): Option<seq<byte>> {
    if hs == [] then None
    else if Lower(hs[0].name) == Lower(name) then Some(hs[0].value)
    else First(hs[1..], name)
  }

  lemma {:induction false} IndexOfFirst(s: seq<byte>, x: byte, i: nat)
    requires i < |s| && s[i] == x && forall j :: 0 <= j < i ==> s[j] != x
    ensures IndexOf(s, x) == i
  {
  }

  lemma TakeLine(line: seq<byte>, rest: seq<byte>)
    requires CR !in line && LF !in line
    ensures FirstLine(line + CRLF + rest) == line && OtherLines(line + CRLF + rest) == rest
  {
    var s := line + CRLF + rest;
    forall j | 0 <= j < |line| + 1
      ensures s[j] != LF
    {
      if j < |line| {
        assert s[j] == line[j];
      }
    }
    IndexOfFirst(s, LF, |line| + 1);
    assert s[..|line| + 1] == line + [CR];
    assert s[|line| + 2..] == rest;
  }

  lemma HeaderLineParts(h: Header)
    requires LegalHeader(h)
    ensures IndexOf(HeaderLine(h), COLON) == |h.name| < |HeaderLine(h)| && HeaderLine(h)[..|h.name|] == h.name
    ensures SkipSpaces(HeaderLine(h)[|h.name| + 1..]) == h.value
    ensures OneLine(HeaderLine(h))
  {
    var line := HeaderLine(h);
    forall j | 0 <= j < |h.name|
      ensures line[j] != COLON
    {
      assert line[j] == h.name[j];
    }
    IndexOfFirst(line, COLON, |h.name|);
    assert line[|h.name| + 1..] == [SPACE] + h.value;
    assert ([SPACE] + h.value)[1..] == h.value;
  }

  lemma {:induction false} FindInHeaders(hs: seq<Header>, name: seq<byte>)
    requires forall h :: h in hs ==> LegalHeader(h)
    ensures FindHeader(Text(HeaderLines(hs)), name) == First(hs, name)
    decreases |hs|
  {
    if hs == [] {
      NoLine(name);
    } else {
      var h := hs[0];
      assert h in hs;
      HeaderLineParts(h);
      var rest := Text(HeaderLines(hs[1..]));
      assert HeaderLines(hs)[1..] == HeaderLines(hs[1..]);
      assert Text(HeaderLines(hs)) == HeaderLine(h) + CRLF + rest;
      TakeLine(HeaderLine(h), rest);
      FindInHeaders(hs[1..], name);
    }
  }

  lemma NoLine(name: seq<byte>)
    ensures FindHeader(CRLF, name) == None
  {
    TakeLine([], []);
    assert [] + CRLF + [] == CRLF;
    assert IndexOf([], COLON) == 0;
  }

  /** A first line that is not itself a header of that name. */
  ghost predicate NotNamed(line: seq<byte>, name: seq<byte>) {
    var p := IndexOf(line, COLON);
    p < |line| ==> Lower(line[..p]) != Lower(name)
  }

  /** What is found in a request is what was written into it. */
  lemma HeaderRoundTrip(first: seq<byte>, hs: seq<Header>, name: seq<byte>)
    requires OneLine(first) && NotNamed(first, name) && forall h :: h in hs ==> LegalHeader(h)
    ensures FindHeader(Request(first, hs), name) == First(hs, name)
  {
    var rest := Text(HeaderLines(hs));
    assert ([first] + HeaderLines(hs))[1..] == HeaderLines(hs);
    assert Request(first, hs) == first + CRLF + rest;
    TakeLine(first, rest);
    FindInHeaders(hs, name);
  }

  lemma RequestEnds(first: seq<byte>, hs: seq<Header>, tail: seq<byte>)
    requires OneLine(first) && forall h :: h in hs ==> LegalHeader(h)
    ensures HeaderEnd(Request(first, hs) + tail) == Some(|Request(first, hs)|)
  {
    var lines := [first] + HeaderLines(hs);
    forall l | l in lines
      ensures OneLine(l)
    {
      if l != first {
        var i :| 0 <= i < |hs| && HeaderLines(hs)[i] == l;
        HeaderLineParts(hs[i]);
      }
    }
    HeadEnds(lines, tail);
  }

  // ---------------------------------------------------------------- the handshake

  /** A request with a key, the right Upgrade header and, if the server asks for one, a nonce it accepts. */
  ghost predicate GoodRequest(c: Setup, first: seq<byte>, hs: seq<Header>, key: seq<byte>) {
    && OneLine(first) && NotNamed(first, Ascii("Sec-WebSocket-Key")) && NotNamed(first, Ascii("Upgrade")) && NotNamed(first, Ascii("X-Nonce"))
    && (forall h :: h in hs ==> LegalHeader(h))
    && key != [] && First(hs, Ascii("Sec-WebSocket-Key")) == Some(key)
    && First(hs, Ascii("Upgrade")).Some? && Lower(First(hs, Ascii("Upgrade")).value) == Ascii("websocket")
    && (c.nonceGate.Some? ==> First(hs, Ascii("X-Nonce")).Some? && c.nonceGate.value(First(hs, Ascii("X-Nonce")).value))
  }

  lemma JudgedGood(c: Setup, first: seq<byte>, hs: seq<Header>, key: seq<byte>)
    requires GoodRequest(c, first, hs, key)
    ensures JudgeRequest(c, Request(first, hs)) == Accepted(Response(c.accept(key)), [])
  {
    hide FindHeader, Response, Ascii, Lower, Request, First;
    HeaderRoundTrip(first, hs, Ascii("Sec-WebSocket-Key"));
    HeaderRoundTrip(first, hs, Ascii("Upgrade"));
    HeaderRoundTrip(first, hs, Ascii("X-Nonce"));
  }

  lemma UpgradeTaken(c: Setup, first: seq<byte>, hs: seq<Header>, key: seq<byte>, tail: seq<byte>)
    requires GoodRequest(c, first, hs, key)
    ensures TryUpgrade(c, Request(first, hs) + tail) == Accepted(Response(c.accept(key)), tail)
  {
    var request := Request(first, hs);
    RequestEnds(first, hs, tail);
    JudgedGood(c, first, hs, key);
    hide HeaderEnd, JudgeRequest, Response, Request;
    assert (request + tail)[..|request|] == request && (request + tail)[|request|..] == tail;
  }

  /**
   * The whole conversation of a client: request and frames, cut anywhere, even with frames in the
   * same piece as the request. One 101 response with the digest of the key, and every frame.
   */
  lemma HandshakeAndFrames(c: Setup, first: seq<byte>, hs: seq<Header>, key: seq<byte>, fs: seq<WireFrame>, chunks: seq<seq<byte>>)
    requires GoodRequest(c, first, hs, key) && forall f :: f in fs ==> Whole(c.wire, f)
    requires Concat(chunks) == Request(first, hs) + WriteFrames(fs)
    ensures FeedAll(c, Awaiting([]), chunks) == Fed(Some(Response(c.accept(key))), Shown(fs), Live(Open([], Idle)))
  {
    FreshParsersSettled(c);
    UpgradeTaken(c, first, hs, key, WriteFrames(fs));
    hide GoodRequest, TryUpgrade, Response, Request, Whole, Settled, WriteFrames, Shown;
    FeedAllIsOneFeed(c, Awaiting([]), chunks);
    assert [] + Concat(chunks) == Concat(chunks);
    AllFrames(c, fs);
  }

  lemma AllFrames(c: Setup, fs: seq<WireFrame>)
    requires forall f :: f in fs ==> Whole(c.wire, f)
    ensures Decode(c.wire, WriteFrames(fs), Idle) == Running(Shown(fs), [], Idle)
  {
    DecodeWhole(c.wire, fs, [], Idle);
    assert WriteFrames(fs) + [] == WriteFrames(fs) && Shown(fs) + [] == Shown(fs);
  }

  // ---------------------------------------------------------------- the request the command-line client sends

  /** With 0-RTT the client adds a nonce. */
  function ClientHeaders(host: seq<byte>, key: seq<byte>, nonce: Option<seq<byte>>): seq<Header> {
    [Header(Ascii("Host"), host), Header(Ascii("Upgrade"), Ascii("websocket")), Header(Ascii("Connection"), Ascii("Upgrade")),
     Header(Ascii("Sec-WebSocket-Key"), key), Header(Ascii("Sec-WebSocket-Version"), Ascii("13"))]
    + NonceHeader(nonce)
  }

  function NonceHeader(nonce: Option<seq<byte>>): seq<Header> {
    if nonce.Some? then [Header(Ascii("X-Nonce"), nonce.value)] else []
  }

  const REQUEST_LINE: seq<byte> := Ascii("GET / HTTP/1.1")

  /** Printable text without a colon. */
  ghost predicate Plain(s: string) {
    s != "" && forall i :: 0 <= i < |s| ==> 32 <= s[i] as int < 127 && s[i] != ':'
  }

  lemma PlainByte(n: nat)
    requires 32 <= n < 127 && n != 58
    ensures Byte(n) != CR && Byte(n) != LF && Byte(n) != COLON
    ensures n > 32 ==> Byte(n) != SPACE
  {
    ValByte(n);
    assert Val(CR) == 13 && Val(LF) == 10 && Val(COLON) == 58 && Val(SPACE) == 32;
  }

  lemma PlainBytes(s: string)
    requires Plain(s)
    ensures Ascii(s) != [] && CR !in Ascii(s) && LF !in Ascii(s) && COLON !in Ascii(s)
    ensures s[0] != ' ' ==> Ascii(s)[0] != SPACE
  {
    forall i | 0 <= i < |s|
      ensures Ascii(s)[i] != CR && Ascii(s)[i] != LF && Ascii(s)[i] != COLON
    {
      PlainByte(s[i] as nat);
    }
    PlainByte(s[0] as nat);
  }

  lemma SmallLetter(n: nat)
    requires 97 <= n <= 122
    ensures !(65 <= Byte(n) <= 90)
  {
    ValByte(n);
    BelowSmall(Byte(n));
  }

  lemma BelowSmall(b: byte)
    requires Val(b) > 90
    ensures !(65 <= b <= 90)
  {
  }

  lemma SmallLetters(s: string)
    requires forall i :: 0 <= i < |s| ==> 97 <= s[i] as int <= 122
    ensures Lower(Ascii(s)) == Ascii(s)
  {
    forall i | 0 <= i < |s|
      ensures Lower(Ascii(s))[i] == Ascii(s)[i]
    {
      SmallLetter(s[i] as nat);
    }
  }

  lemma PlainHeader(name: string, value: seq<byte>)
    requires Plain(name) && Value(value)
    ensures LegalHeader(Header(Ascii(name), value))
  {
    PlainBytes(name);
  }

  /** Same length, but another first letter. */
  lemma NotNonce()
    ensures Lower(Ascii("Upgrade")) != Lower(Ascii("X-Nonce"))
  {
    ValByte(85);
    ValByte(88);
    assert Ascii("Upgrade")[0] == Byte(85) && Ascii("X-Nonce")[0] == Byte(88);
    OtherLetter(Byte(85), Byte(88));
    assert Lower(Ascii("Upgrade"))[0] == Byte(85) + 32 && Lower(Ascii("X-Nonce"))[0] == Byte(88) + 32;
  }

  lemma OtherLetter(a: byte, b: byte)
    requires Val(a) == 85 && Val(b) == 88
    ensures 65 <= a <= 90 && 65 <= b <= 90 && a + 32 != b + 32
  {
    ValInjective(a, 85);
    ValInjective(b, 88);
  }

  lemma {:induction false} FirstPast(a: seq<Header>, b: seq<Header>, name: seq<byte>)
    requires forall h :: h in a ==> Lower(h.name) != Lower(name)
    ensures First(a + b, name) == First(b, name)
    decreases |a|
  {
    if a == [] {
      assert a + b == b;
    } else {
      assert a[0] in a;
      assert (a + b)[0] == a[0] && (a + b)[1..] == a[1..] + b;
      FirstPast(a[1..], b, name);
    }
  }

  lemma OtherLength(a: seq<byte>, b: seq<byte>)
    requires |a| != |b|
    ensures Lower(a) != Lower(b)
  {
    assert |Lower(a)| == |a| && |Lower(b)| == |b|;
  }

  lemma ClientKeyFound(host: seq<byte>, key: seq<byte>, nonce: Option<seq<byte>>)
    ensures First(ClientHeaders(host, key, nonce), Ascii("Sec-WebSocket-Key")) == Some(key)
  {
    hide Ascii, Lower, NonceHeader;
    var hs, name := ClientHeaders(host, key, nonce), Ascii("Sec-WebSocket-Key");
    assert hs == hs[..3] + hs[3..] && hs[3..][0] == Header(name, key);
    OtherLength(Ascii("Host"), name);
    OtherLength(Ascii("Upgrade"), name);
    OtherLength(Ascii("Connection"), name);
    FirstPast(hs[..3], hs[3..], name);
  }

  lemma ClientUpgradeFound(host: seq<byte>, key: seq<byte>, nonce: Option<seq<byte>>)
    ensures First(ClientHeaders(host, key, nonce), Ascii("Upgrade")) == Some(Ascii("websocket"))
  {
    hide Ascii, Lower, NonceHeader;
    var hs, name := ClientHeaders(host, key, nonce), Ascii("Upgrade");
    assert hs == hs[..1] + hs[1..] && hs[1..][0] == Header(name, Ascii("websocket"));
    OtherLength(Ascii("Host"), name);
    FirstPast(hs[..1], hs[1..], name);
  }

  lemma ClientNonceFound(host: seq<byte>, key: seq<byte>, nonce: Option<seq<byte>>)
    ensures First(ClientHeaders(host, key, nonce), Ascii("X-Nonce")) == nonce
  {
    NotNonce();
    hide Ascii, Lower;
    var hs, name := ClientHeaders(host, key, nonce), Ascii("X-Nonce");
    assert hs == hs[..5] + NonceHeader(nonce);
    OtherLength(Ascii("Host"), name);
    OtherLength(Ascii("Connection"), name);
    OtherLength(Ascii("Sec-WebSocket-Key"), name);
    OtherLength(Ascii("Sec-WebSocket-Version"), name);
    FirstPast(hs[..5], NonceHeader(nonce), name);
  }

  /** A header value of one line that does not start with a space. */
  ghost predicate Value(v: seq<byte>) {
    CR !in v && LF !in v && (v != [] ==> v[0] != SPACE)
  }

  lemma ClientValues()
    ensures Value(Ascii("websocket")) && Value(Ascii("Upgrade")) && Value(Ascii("13"))
  {
    PlainBytes("websocket");
    PlainBytes("Upgrade");
    PlainBytes("13");
  }

  lemma ClientHeadersLegal(host: seq<byte>, key: seq<byte>, nonce: Option<seq<byte>>)
    requires Value(host) && Value(key) && (nonce.Some? ==> Value(nonce.value))
    ensures forall h :: h in ClientHeaders(host, key, nonce) ==> LegalHeader(h)
  {
    ClientValues();
    hide Ascii, LegalHeader, Value;
    PlainHeader("Host", host);
    PlainHeader("Upgrade", Ascii("websocket"));
    PlainHeader("Connection", Ascii("Upgrade"));
    PlainHeader("Sec-WebSocket-Key", key);
    PlainHeader("Sec-WebSocket-Version", Ascii("13"));
    if nonce.Some? {
      PlainHeader("X-Nonce", nonce.value);
    }
  }

  lemma RequestLinePlain()
    ensures OneLine(REQUEST_LINE) && forall name :: NotNamed(REQUEST_LINE, name)
  {
    PlainBytes("GET / HTTP/1.1");
    hide Ascii;
    assert IndexOf(REQUEST_LINE, COLON) == |REQUEST_LINE| by {
      assert COLON !in REQUEST_LINE;
    }
  }

  /** The client's own request is a good one, for any host and any key and nonce of one line. */
  lemma ClientRequestGood(c: Setup, host: seq<byte>, key: seq<byte>, nonce: Option<seq<byte>>)
    requires Value(host) && Value(key) && key != [] && (nonce.Some? ==> Value(nonce.value))
    requires c.nonceGate.Some? ==> nonce.Some? && c.nonceGate.value(nonce.value)
    ensures GoodRequest(c, REQUEST_LINE, ClientHeaders(host, key, nonce), key)
  {
    SmallLetters("websocket");
    hide LegalHeader, Ascii, Lower, First, ClientHeaders, OneLine, NotNamed, Value;
    RequestLinePlain();
    ClientKeyFound(host, key, nonce);
    ClientUpgradeFound(host, key, nonce);
    ClientNonceFound(host, key, nonce);
    ClientHeadersLegal(host, key, nonce);
  }
}
