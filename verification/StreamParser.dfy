/**
 * The incremental parser: HTTP upgrade first (section 4.2 of RFC 6455), then frames.
 * `Feed` is its meaning on values; the class buffers bytes, keeps a parse cursor and
 * compacts, and is proved to compute exactly that.
 */
module StreamParser {
  import opened Bytes
  import opened FrameCodec

  const CR: byte := 13
  const LF: byte := 10
  const COLON: byte := 58
  const SPACE: byte := 32

  /**
   * What does not change while a parser lives. `accept` stands for the digest of the key;
   * `nonceGate`, when present, is the verdict on the X-Nonce header (checked only in 0-RTT mode).
   */
  datatype Setup = Setup(wire: Config, accept: seq<byte> -> seq<byte>, nonceGate: Option<seq<byte> -> bool>)

  // ---------------------------------------------------------------- the upgrade request

  predicate BlankAt(s: seq<byte>, i: nat) {
    i + 4 <= |s| && s[i] == CR && s[i + 1] == LF && s[i + 2] == CR && s[i + 3] == LF
  }

  /** The end of the header block: just behind the first empty line at or after `i`. */
  function BlankFrom(s: seq<byte>, i: nat): Option<nat>
    decreases |s| - i
  {
    if i + 4 > |s| then None
    else if BlankAt(s, i) then Some(i + 4)
    else BlankFrom(s, i + 1)
  }

  function HeaderEnd(s: seq<byte>): Option<nat> {
    BlankFrom(s, 0)
  }

  lemma {:induction false} BlankFromMeans(s: seq<byte>, i: nat)
    ensures BlankFrom(s, i).None? <==> forall j :: i <= j ==> !BlankAt(s, j)
    ensures BlankFrom(s, i).Some? ==>
      var e := BlankFrom(s, i).value;
      e >= i + 4 && BlankAt(s, e - 4) && forall j :: i <= j < e - 4 ==> !BlankAt(s, j)
    decreases |s| - i
  {
    if i + 4 <= |s| && !BlankAt(s, i) {
      BlankFromMeans(s, i + 1);
    }
  }

  lemma {:induction false} BlankStable(a: seq<byte>, b: seq<byte>, i: nat)
    requires BlankFrom(a, i).Some?
    ensures BlankFrom(a + b, i) == BlankFrom(a, i) && BlankFrom(a, i).value <= |a|
    decreases |a| - i
  {
    if !BlankAt(a, i) {
      BlankStable(a, b, i + 1);
    }
  }

  function IndexOf(s: seq<byte>, x: byte): (i: nat)
    ensures i <= |s|
    ensures i < |s| ==> s[i] == x
    ensures forall j :: 0 <= j < i ==> s[j] != x
  {
    if s == [] then 0 else if s[0] == x then 0 else 1 + IndexOf(s[1..], x)
  }

  function Lower(s: seq<byte>): (r: seq<byte>)
    ensures |r| == |s|
  {
    seq(|s|, i requires 0 <= i < |s| => if 65 <= s[i] <= 90 then s[i] + 32 else s[i])
  }

  function StripCR(line: seq<byte>): seq<byte> {
    if line != [] && line[|line| - 1] == CR then line[..|line| - 1] else line
  }

  function SkipSpaces(s: seq<byte>): seq<byte> {
    if s != [] && s[0] == SPACE then SkipSpaces(s[1..]) else s
  }

  function FirstLine(block: seq<byte>): seq<byte> {
    StripCR(block[..IndexOf(block, LF)])
  }

  function OtherLines(block: seq<byte>): (rest: seq<byte>)
    requires block != []
    ensures |rest| < |block|
  {
    var e := IndexOf(block, LF);
    if e < |block| then block[e + 1..] else []
  }

  /** The value of the first header line whose name is `name`, letter case aside. */
  function FindHeader(block: seq<byte>, name: seq<byte>): Option<seq<byte>>
    decreases |block|
  {
    if block == [] then None
    else
      var line := FirstLine(block);
      var p := IndexOf(line, COLON);
      if p < |line| && Lower(line[..p]) == Lower(name) then Some(SkipSpaces(line[p + 1..]))
      else FindHeader(OtherLines(block), name)
  }

  datatype Upgrade =
    | Incomplete
    | Refused(error: ParseError)
    | Accepted(response: seq<byte>, rest: seq<byte>)

  /** The 101 response (section 4.2.2 of RFC 6455). */
  function Response(accept: seq<byte>): (r: seq<byte>)
    ensures |r| > 0
  {
    Ascii("HTTP/1.1 101 Switching Protocols\r\n") + Ascii("Upgrade: websocket\r\n") + Ascii("Connection: Upgrade\r\n")
    + Ascii("Sec-WebSocket-Accept: ") + accept + Ascii("\r\n") + Ascii("\r\n")
  }

  /** The verdict on a complete header block: the error, or the response. */
  function JudgeRequest(c: Setup, block: seq<byte>): Upgrade {
    var key := FindHeader(block, Ascii("Sec-WebSocket-Key"));
    if key.None? then Refused(MissingKey)
    else if key.value == [] then Refused(EmptyKey)
    else
      var upgrade := FindHeader(block, Ascii("Upgrade"));
      if upgrade.None? || Lower(upgrade.value) != Ascii("websocket") then Refused(InvalidUpgrade)
      else
        var nonce := FindHeader(block, Ascii("X-Nonce"));
        if c.nonceGate.Some? && nonce.None? then Refused(MissingNonce)
        else if c.nonceGate.Some? && !c.nonceGate.value(nonce.value) then Refused(NonceRefused)
        else Accepted(Response(c.accept(key.value)), [])
  }

  function TryUpgrade(c: Setup, s: seq<byte>): Upgrade {
    var e := HeaderEnd(s);
    if e.None? then Incomplete
    else
      BlankStable(s, [], 0);
      match JudgeRequest(c, s[..e.value])
      case Accepted(response, _) => Accepted(response, s[e.value..])
      case other => other
  }

  lemma TryUpgradeStable(c: Setup, a: seq<byte>, b: seq<byte>)
    ensures match TryUpgrade(c, a)
      case Incomplete => true
      case Refused(e) => TryUpgrade(c, a + b) == Refused(e)
      case Accepted(response, rest) => TryUpgrade(c, a + b) == Accepted(response, rest + b)
  {
    var e := HeaderEnd(a);
    if e.Some? {
      BlankStable(a, b, 0);
      assert (a + b)[..e.value] == a[..e.value];
      assert (a + b)[e.value..] == a[e.value..] + b;
    }
  }

  // ---------------------------------------------------------------- feeding

  datatype Phase = Awaiting(buffer: seq<byte>) | Open(rest: seq<byte>, assembly: Assembly)

  datatype Status = Live(phase: Phase) | Dead(error: ParseError)

  /** Everything a caller sees of one or more `feed` calls. */
  datatype Fed = Fed(accepted: Option<seq<byte>>, frames: seq<Frame>, status: Status)

  function OpenFeed(c: Setup, accepted: Option<seq<byte>>, s: seq<byte>, g: Assembly): Fed {
    match Decode(c.wire, s, g)
    case Running(frames, rest, g') => Fed(accepted, frames, Live(Open(rest, g')))
    case Failed(frames, e) => Fed(accepted, frames, Dead(e))
  }

  /** One call of `feed`. */
  function Feed(c: Setup, p: Phase, data: seq<byte>): Fed {
    match p
    case Open(rest, g) => OpenFeed(c, None, rest + data, g)
    case Awaiting(buffer) =>
      match TryUpgrade(c, buffer + data)
      case Incomplete => Fed(None, [], Live(Awaiting(buffer + data)))
      case Refused(e) => Fed(None, [], Dead(e))
      case Accepted(response, rest) => OpenFeed(c, Some(response), rest, Idle)
  }

  function Join(a: Fed, b: Fed): Fed {
    Fed(if a.accepted.Some? then a.accepted else b.accepted, a.frames + b.frames, b.status)
  }

  function Then(c: Setup, a: Fed, data: seq<byte>): Fed {
    if a.status.Dead? then a else Join(a, Feed(c, a.status.phase, data))
  }

  /** A run of `feed` calls; after an error nothing more is fed. */
  function FeedAll(c: Setup, p: Phase, chunks: seq<seq<byte>>): Fed
    decreases |chunks|
  {
    if chunks == [] then Fed(None, [], Live(p))
    else
      var r := Feed(c, p, chunks[0]);
      if r.status.Dead? then r else Join(r, FeedAll(c, r.status.phase, chunks[1..]))
  }

  /** Nothing in the buffer can be processed yet: so it is after every call, and at the start. */
  ghost predicate Settled(c: Setup, p: Phase) {
    match p
    case Awaiting(buffer) => HeaderEnd(buffer).None?
    case Open(rest, g) => NextFrame(c.wire, rest).NeedMore?
  }

  lemma FeedSettles(c: Setup, p: Phase, data: seq<byte>)
    ensures Feed(c, p, data).status.Live? ==> Settled(c, Feed(c, p, data).status.phase)
  {
    match p
    case Open(rest, g) =>
      if Decode(c.wire, rest + data, g).Running? {
        DecodeRest(c.wire, rest + data, g);
      }
    case Awaiting(buffer) =>
      match TryUpgrade(c, buffer + data)
      case Incomplete =>
      case Refused(e) =>
      case Accepted(response, rest) =>
        if Decode(c.wire, rest, Idle).Running? {
          DecodeRest(c.wire, rest, Idle);
        }
  }

  lemma FeedNothing(c: Setup, p: Phase)
    requires Settled(c, p)
    ensures Feed(c, p, []) == Fed(None, [], Live(p))
  {
    match p
    case Open(rest, g) => assert rest + [] == rest;
    case Awaiting(buffer) => assert buffer + [] == buffer;
  }

  lemma OpenFeedSplit(c: Setup, accepted: Option<seq<byte>>, s: seq<byte>, b: seq<byte>, g: Assembly)
    ensures OpenFeed(c, accepted, s + b, g) == Then(c, OpenFeed(c, accepted, s, g), b)
  {
    DecodeSplit(c.wire, s, b, g);
  }

  /** Feeding `a + b` at once, or `a` and then `b`. */
  lemma FeedSplit(c: Setup, p: Phase, a: seq<byte>, b: seq<byte>)
    ensures Feed(c, p, a + b) == Then(c, Feed(c, p, a), b)
  {
    match p
    case Open(rest, g) =>
      assert rest + (a + b) == (rest + a) + b;
      OpenFeedSplit(c, None, rest + a, b, g);
    case Awaiting(buffer) =>
      assert buffer + (a + b) == (buffer + a) + b;
      TryUpgradeStable(c, buffer + a, b);
      match TryUpgrade(c, buffer + a)
      case Incomplete =>
        var r := Feed(c, Awaiting(buffer + a), b);
        assert [] + r.frames == r.frames;
      case Refused(e) =>
      case Accepted(response, rest) => OpenFeedSplit(c, Some(response), rest, b, Idle);
  }

  /** However a stream is cut, the parser shows the same as when it arrives in one piece. */
  lemma {:induction false} FeedAllIsOneFeed(c: Setup, p: Phase, chunks: seq<seq<byte>>)
    requires Settled(c, p)
    ensures FeedAll(c, p, chunks) == Feed(c, p, Concat(chunks))
    decreases |chunks|
  {
    if chunks == [] {
      FeedNothing(c, p);
    } else {
      FeedSplit(c, p, chunks[0], Concat(chunks[1..]));
      FeedSettles(c, p, chunks[0]);
      var r := Feed(c, p, chunks[0]);
      if r.status.Live? {
        FeedAllIsOneFeed(c, r.status.phase, chunks[1..]);
      }
    }
  }

  /** Cut independence, from the HTTP request onward. */
  lemma CutIndependence(c: Setup, p: Phase, x: seq<seq<byte>>, y: seq<seq<byte>>)
    requires Settled(c, p) && Concat(x) == Concat(y)
    ensures FeedAll(c, p, x) == FeedAll(c, p, y)
  {
    FeedAllIsOneFeed(c, p, x);
    FeedAllIsOneFeed(c, p, y);
  }

  lemma FreshParsersSettled(c: Setup)
    ensures Settled(c, Awaiting([])) && Settled(c, Open([], Idle))
  {
  }

  // ---------------------------------------------------------------- the parser object

  method FindHeaderValue(block: seq<byte>, name: seq<byte>) returns (value: Option<seq<byte>>)
    ensures value == FindHeader(block, name)
  {
    hide Lower, FirstLine, OtherLines, SkipSpaces, IndexOf;
    var rest := block;
    while rest != []
      invariant FindHeader(rest, name) == FindHeader(block, name)
      decreases |rest|
    {
      var line := FirstLine(rest);
      var p := IndexOf(line, COLON);
      if p < |line| && Lower(line[..p]) == Lower(name) {
        return Some(SkipSpaces(line[p + 1..]));
      }
      rest := OtherLines(rest);
    }
    value := None;
  }

  method FindHeaderEnd(s: seq<byte>) returns (e: Option<nat>)
    ensures e == HeaderEnd(s)
  {
    var i := 0;
    while i + 4 <= |s|
      invariant BlankFrom(s, i) == HeaderEnd(s)
    {
      if s[i] == CR && s[i + 1] == LF && s[i + 2] == CR && s[i + 3] == LF {
        return Some(i + 4);
      }
      i := i + 1;
    }
    e := None;
  }

  method ReadBigEndian(s: seq<byte>) returns (n: nat)
    ensures n == ReadBE(s)
  {
    n := 0;
    for i := 0 to |s|
      invariant n == ReadBE(s[..i])
    {
      assert s[..i + 1][..i] == s[..i];
      n := 256 * n + Val(s[i]);
    }
    assert s[..|s|] == s;
  }

  /** Each byte is combined with one of the four key bytes, in turn. */
  method UnmaskInPlace(payload: array<byte>, key: Mask)
    modifies payload
    ensures forall j :: 0 <= j < payload.Length ==> payload[j] == old(payload[j]) ^ [key.k0, key.k1, key.k2, key.k3][j % 4]
    ensures payload[..] == key.Apply(old(payload[..]))
  {
    MaskRule(key, payload[..]);
    for i := 0 to payload.Length
      invariant forall j :: 0 <= j < i ==> payload[j] == old(payload[j]) ^ key.Key(j)
      invariant forall j :: i <= j < payload.Length ==> payload[j] == old(payload[j])
    {
      payload[i] := payload[i] ^ key.Key(i);
    }
  }

  /** Reads one frame at `offset`, check by check. */
  method ReadFrameAt(c: Config, buffer: seq<byte>, offset: nat) returns (r: Step)
    requires offset <= |buffer|
    ensures r == NextFrame(c, buffer[offset..])
  {
    ghost var s := buffer[offset..];
    if |buffer| - offset < 2 {
      return NeedMore;
    }
    var b0, b1 := buffer[offset], buffer[offset + 1];
    assert s[0] == b0 && s[1] == b1;
    var fin := b0 & 0x80 != 0;
    var opcode := b0 & 0x0F;
    if b0 & 0x70 != 0 {
      return Bad(RsvBitsSet);
    }
    var masked := b1 & 0x80 != 0;
    var n := Val(b1 & 0x7F);
    var idx := offset + 2;
    if opcode >= 0x8 {
      if !fin {
        return Bad(FragmentedControl);
      }
      if n > 125 {
        return Bad(ControlTooLarge);
      }
    }
    var ext := if n == 126 then 2 else if n == 127 then 8 else 0;
    if ext > 0 {
      if |buffer| - idx < ext {
        return NeedMore;
      }
      assert buffer[idx..idx + ext] == s[2..2 + ext];
      n := ReadBigEndian(buffer[idx..idx + ext]);
      idx := idx + ext;
    }
    assert n == PayloadLength(s);
    r := ReadPayloadAt(c, buffer, offset, idx, n);
  }

  method ReadPayloadAt(c: Config, buffer: seq<byte>, offset: nat, at: nat, n: nat) returns (r: Step)
    requires offset + 2 <= at <= |buffer|
    ensures r == ReadPayload(c, buffer[offset..], at - offset, n)
  {
    hide ReadBody;
    ghost var s := buffer[offset..];
    var b1, idx := buffer[offset + 1], at;
    assert s[1] == b1;
    if n > c.maxPayload {
      return Bad(PayloadTooLarge);
    }
    var mask: Option<Mask> := None;
    if b1 & 0x80 != 0 {
      if |buffer| - idx < 4 {
        return NeedMore;
      }
      mask := Some(Mask(buffer[idx], buffer[idx + 1], buffer[idx + 2], buffer[idx + 3]));
      assert mask.value == ReadMask(s, at - offset);
      idx := idx + 4;
    } else if c.requireMask {
      return Bad(MaskMissing);
    }
    r := ReadBodyAt(buffer, offset, idx, n, mask);
  }

  method ReadBodyAt(buffer: seq<byte>, offset: nat, idx: nat, n: nat, mask: Option<Mask>) returns (r: Step)
    requires offset + 2 <= idx <= |buffer|
    ensures r == ReadBody(buffer[offset..], mask, idx - offset, n)
  {
    if |buffer| - idx < n {
      return NeedMore;
    }
    ghost var s := buffer[offset..];
    assert s[0] == buffer[offset];
    assert buffer[idx..idx + n] == s[idx - offset..idx - offset + n];
    var payload := new byte[n](i requires 0 <= i < n => buffer[idx + i]);
    assert payload[..] == buffer[idx..idx + n];
    if mask.Some? {
      UnmaskInPlace(payload, mask.value);
    }
    r := Got(buffer[offset] & 0x80 != 0, buffer[offset] & 0x0F, payload[..], idx + n - offset);
  }

  /** Loop state of the decoder: `frames` are out, `rest` and `g` are still to be decoded. */
  ghost predicate Progress(c: Config, s: seq<byte>, g0: Assembly, frames: seq<Frame>, rest: seq<byte>, g: Assembly) {
    Decode(c, s, g0) == After(frames, Decode(c, rest, g))
  }

  lemma StartProgress(c: Config, s: seq<byte>, g0: Assembly)
    ensures Progress(c, s, g0, [], s[0..], g0)
  {
    assert s[0..] == s;
    assert [] + Decode(c, s, g0).frames == Decode(c, s, g0).frames;
  }

  lemma AfterNothing(frames: seq<Frame>, rest: seq<byte>, g: Assembly)
    ensures After(frames, Running([], rest, g)) == Running(frames, rest, g)
  {
    assert frames + [] == frames;
  }

  lemma AfterError(frames: seq<Frame>, e: ParseError)
    ensures After(frames, Failed([], e)) == Failed(frames, e)
  {
    assert frames + [] == frames;
  }

  lemma ProgressStep(c: Config, s: seq<byte>, g0: Assembly, frames: seq<Frame>, buffer: seq<byte>, p: nat, g: Assembly)
    requires p <= |buffer| && Progress(c, s, g0, frames, buffer[p..], g)
    ensures match NextFrame(c, buffer[p..])
      case NeedMore => Decode(c, s, g0) == Running(frames, buffer[p..], g)
      case Bad(e) => Decode(c, s, g0) == Failed(frames, e)
      case Got(fin, opcode, payload, used) =>
        match Deliver(g, fin, opcode, payload)
        case Rejected(e) => Decode(c, s, g0) == Failed(frames, e)
        case Delivered(out, g') => Progress(c, s, g0, frames + out, buffer[p + used..], g')
  {
    hide NextFrame, Deliver, After;
    AfterNothing(frames, buffer[p..], g);
    match NextFrame(c, buffer[p..])
    case NeedMore =>
    case Bad(e) => AfterError(frames, e);
    case Got(fin, opcode, payload, used) =>
      match Deliver(g, fin, opcode, payload)
      case Rejected(e) => AfterError(frames, e);
      case Delivered(out, g') =>
        assert buffer[p..][used..] == buffer[p + used..];
        AfterAfter(frames, out, Decode(c, buffer[p + used..], g'));
  }

  class WebSocketStreamParser {
    const c: Setup
    var open: bool
    var buffer: seq<byte>
    var parseOffset: nat
    var inFragment: bool
    var fragmentOpcode: byte
    var fragmentPayload: seq<byte>

    ghost predicate Valid()
      reads this
    {
      && parseOffset == 0
      && (!inFragment ==> fragmentOpcode == 0 && fragmentPayload == [])
      && (!open ==> !inFragment)
      && Settled(c, View())
    }

    ghost function Fragment(): Assembly
      reads this
    {
      if inFragment then Assembling(fragmentOpcode, fragmentPayload) else Idle
    }

    ghost function View(): Phase
      reads this
    {
      if open then Open(buffer, Fragment()) else Awaiting(buffer)
    }

    constructor (c: Setup)
      ensures Valid() && View() == Awaiting([]) && this.c == c
    {
      this.c := c;
      open := false;
      buffer, parseOffset := [], 0;
      inFragment, fragmentOpcode, fragmentPayload := false, 0, [];
    }

    method SetOpenMode()
      modifies this
      ensures Valid() && View() == Open([], Idle)
    {
      open := true;
      parseOffset := 0;
      buffer := [];
      inFragment, fragmentOpcode, fragmentPayload := false, 0, [];
    }

    /** Consumes the upgrade request once its header block is complete. */
    method TryConsumeUpgrade() returns (r: Upgrade)
      requires !open && parseOffset == 0
      modifies this`buffer, this`open
      ensures r == TryUpgrade(c, old(buffer))
      ensures open == r.Accepted? && buffer == if r.Accepted? then r.rest else old(buffer)
    {
      hide FindHeader, Lower, Response, Ascii;
      var endPos := FindHeaderEnd(buffer);
      if endPos.None? {
        return Incomplete;
      }
      BlankStable(buffer, [], 0);
      var block := buffer[..endPos.value];
      var key := FindHeaderValue(block, Ascii("Sec-WebSocket-Key"));
      if key.None? {
        return Refused(MissingKey);
      }
      if key.value == [] {
        return Refused(EmptyKey);
      }
      var upgrade := FindHeaderValue(block, Ascii("Upgrade"));
      if upgrade.None? || Lower(upgrade.value) != Ascii("websocket") {
        return Refused(InvalidUpgrade);
      }
      if c.nonceGate.Some? {
        var nonce := FindHeaderValue(block, Ascii("X-Nonce"));
        if nonce.None? {
          return Refused(MissingNonce);
        }
        if !c.nonceGate.value(nonce.value) {
          return Refused(NonceRefused);
        }
      }
      r := Accepted(Response(c.accept(key.value)), buffer[endPos.value..]);
      buffer := buffer[endPos.value..];
      open := true;
    }

    /** Takes one frame into the message being assembled, or out to the caller. */
    method Take(fin: bool, opcode: byte, payload: seq<byte>) returns (d: Delivery)
      requires !inFragment ==> fragmentOpcode == 0 && fragmentPayload == []
      modifies this`inFragment, this`fragmentOpcode, this`fragmentPayload
      ensures d == Deliver(old(Fragment()), fin, opcode, payload)
      ensures d.Delivered? ==> Fragment() == d.assembly
      ensures !inFragment ==> fragmentOpcode == 0 && fragmentPayload == []
    {
      if opcode == OP_CONTINUATION {
        if !inFragment {
          return Rejected(UnexpectedContinuation);
        }
        fragmentPayload := fragmentPayload + payload;
        if fin {
          d := Delivered([Frame(fragmentOpcode, true, fragmentPayload)], Idle);
          inFragment, fragmentOpcode, fragmentPayload := false, 0, [];
        } else {
          d := Delivered([], Assembling(fragmentOpcode, fragmentPayload));
        }
      } else if opcode == OP_TEXT || opcode == OP_BINARY {
        if inFragment {
          return Rejected(NewDataWhileFragmented);
        }
        if fin {
          d := Delivered([Frame(opcode, true, payload)], Idle);
        } else {
          inFragment, fragmentOpcode, fragmentPayload := true, opcode, payload;
          d := Delivered([], Assembling(opcode, payload));
        }
      } else if opcode == OP_CLOSE || opcode == OP_PING || opcode == OP_PONG {
        if opcode == OP_CLOSE && |payload| == 1 {
          return Rejected(InvalidClosePayload);
        }
        d := Delivered([Frame(opcode, true, payload)],
                       if inFragment then Assembling(fragmentOpcode, fragmentPayload) else Idle);
      } else {
        return Rejected(UnknownOpcode);
      }
    }

    /** Decodes as many complete frames as the buffer holds. */
    method DecodeBuffer() returns (frames: seq<Frame>, error: Option<ParseError>)
      requires open && parseOffset == 0
      requires !inFragment ==> fragmentOpcode == 0 && fragmentPayload == []
      modifies this`parseOffset, this`inFragment, this`fragmentOpcode, this`fragmentPayload
      ensures parseOffset <= |buffer|
      ensures !inFragment ==> fragmentOpcode == 0 && fragmentPayload == []
      ensures match Decode(c.wire, buffer, old(Fragment()))
        case Running(fs, rest, g) => frames == fs && error.None? && rest == buffer[parseOffset..] && g == Fragment()
        case Failed(fs, e) => frames == fs && error == Some(e)
    {
      frames, error := [], None;
      ghost var g0 := Fragment();
      StartProgress(c.wire, buffer, g0);
      hide NextFrame, Deliver, Decode, Progress;
      while true
        invariant 0 <= parseOffset <= |buffer|
        invariant !inFragment ==> fragmentOpcode == 0 && fragmentPayload == []
        invariant Progress(c.wire, buffer, g0, frames, buffer[parseOffset..], Fragment())
        invariant error.None?
        decreases |buffer| - parseOffset
      {
        ProgressStep(c.wire, buffer, g0, frames, buffer, parseOffset, Fragment());
        var step := ReadFrameAt(c.wire, buffer, parseOffset);
        match step
        case NeedMore => break;
        case Bad(e) => error := Some(e); return;
        case Got(fin, opcode, payload, used) =>
          parseOffset := parseOffset + used;
          var d := Take(fin, opcode, payload);
          match d {
            case Rejected(e) =>
              error := Some(e);
              return;
            case Delivered(out, g) =>
              frames := frames + out;
          }
      }
    }

    /** The entry point. A thrown error is the third result; the parser is not used after it. */
    method FeedBytes(data: seq<byte>) returns (accepted: Option<seq<byte>>, frames: seq<Frame>, error: Option<ParseError>)
      requires Valid()
      modifies this
      ensures
        var r := Feed(c, old(View()), data);
        && accepted == r.accepted
        && frames == r.frames
        && error == (if r.status.Dead? then Some(r.status.error) else None)
        && (r.status.Live? ==> Valid() && View() == r.status.phase)
    {
      FeedSettles(c, View(), data);
      accepted, frames, error := None, [], None;
      buffer := buffer + data;
      if !open {
        var up := TryConsumeUpgrade();
        match up
        case Incomplete => return;
        case Refused(e) => error := Some(e); return;
        case Accepted(response, _) => accepted := Some(response);
      }
      frames, error := DecodeBuffer();
      if error.None? && parseOffset > 0 {
        buffer := buffer[parseOffset..];
        parseOffset := 0;
      }
    }
  }
}
