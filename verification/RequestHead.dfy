/**
 * How the plain-HTTP side understands the head of a request: its first line, and for a POST to the log
 * the Content-Length header; and that it understands what a browser writes.
 */
module RequestHead {
  import opened Bytes
  import opened Decimal
  import opened StreamParser
  import opened UpgradeRequest

  /** What the request line and the headers ask for; the value of Content-Length, if it has one. */
  datatype Verdict = Malformed | Options | LogPost(length: Option<nat>) | Get(path: seq<byte>)

  const LOG_PATH: seq<byte> := Ascii("/__wss_browser_log")

  /** The end of the first line. */
  function LineEnd(head: seq<byte>): (n: nat)
    ensures n <= |head|
  {
    if |head| < 2 then |head|
    else if head[0] == CR && head[1] == LF then 0
    else 1 + LineEnd(head[1..])
  }

  /** The value of the first Content-Length header. */
  function ContentLength(head: seq<byte>): Option<nat> {
    var value := FindHeader(head, Ascii("Content-Length"));
    if value.None? then None else ReadUnsigned(value.value)
  }

  function JudgeLine(line: seq<byte>, head: seq<byte>): Verdict {
    var sp := IndexOf(line, SPACE);
    if sp == |line| || sp == 0 then Malformed
    else
      var rest := SkipSpaces(line[sp + 1..]);
      var q := IndexOf(rest, SPACE);
      if q == |rest| then Malformed
      else
        var verb, path := Lower(line[..sp]), rest[..q];
        if path == LOG_PATH && verb == Ascii("options") then Options
        else if path == LOG_PATH && verb == Ascii("post") then LogPost(ContentLength(head))
        else if verb != Ascii("get") || line[..sp] != Ascii("GET") then Malformed
        else Get(path)
  }

  /** `head` is everything before the empty line. */
  function JudgeHead(head: seq<byte>): Verdict {
    JudgeLine(head[..LineEnd(head)], head)
  }

  // ---------------------------------------------------------------- the lines of a head

  /** The lines of a text without the two line ends behind the last. */
  function Joined(lines: seq<seq<byte>>): seq<byte>
    requires lines != []
  {
    if |lines| == 1 then lines[0] else lines[0] + CRLF + Joined(lines[1..])
  }

  lemma {:induction false} JoinedIsHead(lines: seq<seq<byte>>)
    requires lines != []
    ensures Text(lines) == Joined(lines) + CRLF + CRLF
  {
    if |lines| == 1 {
      assert lines[1..] == [];
    } else {
      JoinedIsHead(lines[1..]);
      var rest := Joined(lines[1..]);
      assert lines[0] + CRLF + (rest + CRLF + CRLF) == lines[0] + CRLF + rest + CRLF + CRLF;
    }
  }

  lemma {:induction false} LineEndOf(line: seq<byte>, rest: seq<byte>)
    requires CR !in line && LF !in line
    ensures LineEnd(line + CRLF + rest) == |line| && LineEnd(line) == |line|
  {
    var s := line + CRLF + rest;
    if line != [] {
      assert s[0] == line[0] && s[1..] == line[1..] + CRLF + rest;
      LineEndOf(line[1..], rest);
    }
  }

  lemma TakeLast(line: seq<byte>)
    requires line != [] && CR !in line && LF !in line
    ensures FirstLine(line) == line && OtherLines(line) == []
  {
    assert IndexOf(line, LF) == |line|;
    assert line[..|line|] == line;
  }

  /** Headers are found in the head as they are in the whole request. */
  lemma {:induction false} FindInHead(hs: seq<Header>, name: seq<byte>)
    requires hs != [] && forall h :: h in hs ==> LegalHeader(h)
    ensures FindHeader(Joined(HeaderLines(hs)), name) == First(hs, name)
    decreases |hs|
  {
    var h, line, lines := hs[0], HeaderLine(hs[0]), HeaderLines(hs);
    assert h in hs;
    HeaderLineParts(h);
    hide OneLine, Lower, HeaderLine;
    assert lines[1..] == HeaderLines(hs[1..]);
    if |hs| == 1 {
      NotEmpty(line);
      TakeLast(line);
      assert Joined(lines) == line;
      assert hs[1..] == [];
    } else {
      var rest := Joined(HeaderLines(hs[1..]));
      NotEmpty(line);
      assert Joined(lines) == line + CRLF + rest;
      TakeLine(line, rest);
      FindInHead(hs[1..], name);
    }
  }

  lemma NotEmpty(line: seq<byte>)
    requires OneLine(line)
    ensures line != [] && CR !in line && LF !in line
  {
  }

  // ---------------------------------------------------------------- the request a browser sends

  const POST_LINE: seq<byte> := Ascii("POST") + [SPACE] + LOG_PATH + [SPACE] + Ascii("HTTP/1.1")

  lemma NoSpaces(s: string)
    requires Plain(s) && forall i :: 0 <= i < |s| ==> s[i] != ' '
    ensures SPACE !in Ascii(s)
  {
    forall i | 0 <= i < |s|
      ensures Ascii(s)[i] != SPACE
    {
      PlainByte(s[i] as nat);
    }
  }

  lemma AddCase(b: byte)
    requires Val(b) <= 90
    ensures Val(b + 32) == Val(b) + 32
  {
    assert b <= 90;
  }

  lemma BetweenLetters(b: byte)
    requires 65 <= Val(b) <= 90
    ensures 65 <= b <= 90
  {
  }

  lemma CapitalLetter(n: nat)
    requires 65 <= n <= 90
    ensures 65 <= Byte(n) <= 90 && Byte(n) + 32 == Byte(n + 32)
  {
    ValByte(n);
    ValByte(n + 32);
    BetweenLetters(Byte(n));
    AddCase(Byte(n));
    ValInjective(Byte(n) + 32, Byte(n + 32));
  }

  lemma Capitals(upper: string, lower: string)
    requires |upper| == |lower|
    requires forall i :: 0 <= i < |upper| ==> 65 <= upper[i] as int <= 90 && lower[i] as int == upper[i] as int + 32
    ensures Lower(Ascii(upper)) == Ascii(lower)
  {
    forall i | 0 <= i < |upper|
      ensures Lower(Ascii(upper))[i] == Ascii(lower)[i]
    {
      CapitalLetter(upper[i] as nat);
    }
  }

  lemma SpaceAfter(a: seq<byte>, rest: seq<byte>)
    requires SPACE !in a
    ensures IndexOf(a + [SPACE] + rest, SPACE) == |a|
    ensures (a + [SPACE] + rest)[..|a|] == a && (a + [SPACE] + rest)[|a| + 1..] == rest
  {
    var s := a + [SPACE] + rest;
    forall j | 0 <= j < |a|
      ensures s[j] != SPACE
    {
      assert s[j] == a[j];
    }
    IndexOfFirst(s, SPACE, |a|);
  }

  lemma PostWords()
    ensures SPACE !in Ascii("POST") && SPACE !in LOG_PATH && |LOG_PATH| > 0
    ensures Lower(Ascii("POST")) == Ascii("post") && Ascii("post") != Ascii("options")
  {
    NoSpaces("POST");
    NoSpaces("/__wss_browser_log");
    Capitals("POST", "post");
    assert |Ascii("post")| == 4 && |Ascii("options")| == 7;
  }

  /** The request line of a POST to the log. */
  lemma PostLineJudged(head: seq<byte>)
    ensures JudgeLine(POST_LINE, head) == LogPost(ContentLength(head))
  {
    PostWords();
    var version := Ascii("HTTP/1.1");
    hide Ascii, Lower, ContentLength;
    var rest := LOG_PATH + [SPACE] + version;
    assert POST_LINE == Ascii("POST") + [SPACE] + rest;
    SpaceAfter(Ascii("POST"), rest);
    assert rest[0] == LOG_PATH[0] && LOG_PATH[0] in LOG_PATH;
    assert SkipSpaces(rest) == rest;
    SpaceAfter(LOG_PATH, version);
  }

  lemma PostLinePlain()
    ensures OneLine(POST_LINE) && COLON !in POST_LINE
  {
    PlainBytes("POST");
    PlainBytes("/__wss_browser_log");
    PlainBytes("HTTP/1.1");
    hide Ascii;
  }

  /** A header list that announces `n` bytes. */
  ghost predicate Announces(hs: seq<Header>, n: nat) {
    && hs != [] && (forall h :: h in hs ==> LegalHeader(h))
    && First(hs, Ascii("Content-Length")) == Some(WriteDecimal(n))
  }

  lemma LengthFound(hs: seq<Header>, n: nat)
    requires Announces(hs, n) && n < U64
    ensures ContentLength(POST_LINE + CRLF + Joined(HeaderLines(hs))) == Some(n)
  {
    PostLinePlain();
    hide Ascii, WriteDecimal, ReadUnsigned;
    var rest := Joined(HeaderLines(hs));
    TakeLine(POST_LINE, rest);
    assert IndexOf(POST_LINE, COLON) == |POST_LINE|;
    FindInHead(hs, Ascii("Content-Length"));
    ReadWritten(n);
  }

  /** The head of such a request, and where it ends. */
  lemma PostHead(hs: seq<Header>)
    requires hs != []
    ensures |Request(POST_LINE, hs)| >= 4
    ensures Request(POST_LINE, hs)[..|Request(POST_LINE, hs)| - 4] == POST_LINE + CRLF + Joined(HeaderLines(hs))
  {
    hide Ascii;
    var lines := [POST_LINE] + HeaderLines(hs);
    assert lines[1..] == HeaderLines(hs);
    JoinedIsHead(lines);
    assert Joined(lines) == POST_LINE + CRLF + Joined(HeaderLines(hs));
  }

  /** A POST to the log that announces `n` bytes is understood as one. */
  lemma PostUnderstood(hs: seq<Header>, n: nat)
    requires Announces(hs, n) && n < U64
    ensures |Request(POST_LINE, hs)| >= 4
    ensures JudgeHead(Request(POST_LINE, hs)[..|Request(POST_LINE, hs)| - 4]) == LogPost(Some(n))
  {
    PostHead(hs);
    PostLinePlain();
    LengthFound(hs, n);
    var rest := Joined(HeaderLines(hs));
    var head := POST_LINE + CRLF + rest;
    hide Ascii, Announces, Request, ContentLength, JudgeLine;
    LineEndOf(POST_LINE, rest);
    assert head[..|POST_LINE|] == POST_LINE;
    PostLineJudged(head);
  }

  // ---------------------------------------------------------------- every request line

  lemma GetWord()
    ensures Lower(Ascii("GET")) == Ascii("get") && Ascii("get") != Ascii("options")
  {
    Capitals("GET", "get");
    assert |Ascii("get")| == 3 && |Ascii("options")| == 7;
  }

  /** A request line of three words: what is asked for, if and only if which words. */
  lemma LineExactly(verb: seq<byte>, path: seq<byte>, version: seq<byte>, head: seq<byte>)
    requires verb != [] && SPACE !in verb && path != [] && SPACE !in path
    ensures
      var r := JudgeLine(verb + [SPACE] + path + [SPACE] + version, head);
      var log := path == Ascii("/__wss_browser_log");
      && (r == Options <==> log && Lower(verb) == Ascii("options"))
      && (r.LogPost? <==> log && Lower(verb) == Ascii("post"))
      && (r.LogPost? ==> r.length == ContentLength(head))
      && (r.Get? <==> verb == Ascii("GET"))
      && (r.Get? ==> r.path == path)
  {
    PostWords();
    GetWord();
    assert |Ascii("get")| == 3 && |Ascii("post")| == 4;
    var rest := path + [SPACE] + version;
    assert verb + [SPACE] + path + [SPACE] + version == verb + [SPACE] + rest;
    hide Ascii, Lower, ContentLength;
    SpaceAfter(verb, rest);
    assert rest[0] == path[0] && path[0] in path;
    assert SkipSpaces(rest) == rest;
    SpaceAfter(path, version);
  }

  lemma NoSpace(s: seq<byte>)
    requires SPACE !in s
    ensures IndexOf(s, SPACE) == |s| && SkipSpaces(s) == s
  {
  }

  /** A line that starts with a space or has fewer than three words is refused. */
  lemma LineRefused(a: seq<byte>, b: seq<byte>, head: seq<byte>)
    requires SPACE !in a && SPACE !in b
    ensures JudgeLine(a, head) == Malformed && JudgeLine(a + [SPACE] + b, head) == Malformed && JudgeLine([SPACE] + b, head) == Malformed
  {
    hide Ascii, Lower, ContentLength;
    NoSpace(a);
    SpaceAfter(a, b);
    NoSpace(b);
  }

  /** A head without a Content-Length announces nothing. */
  lemma LengthMissing(hs: seq<Header>)
    requires hs != [] && (forall h :: h in hs ==> LegalHeader(h)) && First(hs, Ascii("Content-Length")).None?
    ensures ContentLength(POST_LINE + CRLF + Joined(HeaderLines(hs))) == None
  {
    PostLinePlain();
    hide Ascii, ReadUnsigned;
    var rest := Joined(HeaderLines(hs));
    TakeLine(POST_LINE, rest);
    assert IndexOf(POST_LINE, COLON) == |POST_LINE|;
    FindInHead(hs, Ascii("Content-Length"));
  }
}
