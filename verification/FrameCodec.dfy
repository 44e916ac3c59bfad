/**
 * The WebSocket frame format (section 5.2 of RFC 6455) as the codec writes and reads it:
 * what a frame looks like on the wire, what the parser makes of the front of a buffer, and
 * how it decodes a whole buffer, fragments and interleaved control frames included.
 */
module FrameCodec {
  import opened Bytes

  const OP_CONTINUATION: byte := 0x0
  const OP_TEXT: byte := 0x1
  const OP_BINARY: byte := 0x2
  const OP_CLOSE: byte := 0x8
  const OP_PING: byte := 0x9
  const OP_PONG: byte := 0xA

  /** A four-byte masking key. */
  datatype Mask = Mask(k0: byte, k1: byte, k2: byte, k3: byte) {
    function Key(i: nat): byte {
      if i % 4 == 0 then k0 else if i % 4 == 1 then k1 else if i % 4 == 2 then k2 else k3
    }

    function Bytes(): (s: seq<byte>)
      ensures |s| == 4
    {
      [k0, k1, k2, k3]
    }

    /** Masking and unmasking are the same operation. */
    function Apply(p: seq<byte>): (r: seq<byte>)
      ensures |r| == |p|
    {
      seq(|p|, i requires 0 <= i < |p| => p[i] ^ Key(i))
    }
  }

  /** Byte `i` of a payload meets byte `i % 4` of the key as it stands on the wire. */
  lemma MaskRule(m: Mask, p: seq<byte>)
    ensures m.Bytes() == [m.k0, m.k1, m.k2, m.k3]
    ensures forall i :: 0 <= i < |p| ==> m.Apply(p)[i] == p[i] ^ m.Bytes()[i % 4]
  {
    forall i | 0 <= i < |p|
      ensures m.Apply(p)[i] == p[i] ^ m.Bytes()[i % 4]
    {
      KeyAt(m, i);
    }
  }

  lemma KeyAt(m: Mask, i: nat)
    ensures m.Key(i) == m.Bytes()[i % 4]
  {
  }

  lemma ApplyTwice(m: Mask, p: seq<byte>)
    ensures m.Apply(m.Apply(p)) == p
  {
    forall i | 0 <= i < |p|
      ensures m.Apply(m.Apply(p))[i] == p[i]
    {
      assert p[i] ^ m.Key(i) ^ m.Key(i) == p[i];
    }
  }

  function Unmask(mask: Option<Mask>, p: seq<byte>): (r: seq<byte>)
    ensures |r| == |p|
  {
    if mask.Some? then mask.value.Apply(p) else p
  }

  // ---------------------------------------------------------------- writing

  /** One frame before it is written: what `buildFrame` and `buildClientFrame` are asked for. */
  datatype WireFrame = WireFrame(fin: bool, opcode: byte, mask: Option<Mask>, payload: seq<byte>)

  const MAX_LENGTH: nat := 0x1_0000_0000_0000_0000

  ghost predicate Writable(f: WireFrame) {
    f.opcode < 16 && |f.payload| < MAX_LENGTH
  }

  function Length7(n: nat): (r: nat)
    ensures r < 128
  {
    if n <= 125 then n else if n <= 0xFFFF then 126 else 127
  }

  /** How many bytes of extended length follow a seven-bit length. */
  function ExtendedSize(len7: nat): nat {
    if len7 == 126 then 2 else if len7 == 127 then 8 else 0
  }

  function ExtendedBytes(n: nat): (s: seq<byte>)
    ensures |s| == ExtendedSize(Length7(n))
  {
    if n <= 125 then [] else if n <= 0xFFFF then WriteBE(n, 2) else WriteBE(n, 8)
  }

  function MaskBytes(mask: Option<Mask>): seq<byte> {
    if mask.Some? then mask.value.Bytes() else []
  }

  function FirstByte(fin: bool, opcode: byte): byte {
    (if fin then 0x80 else 0x00) | (opcode & 0x0F)
  }

  function SecondByte(masked: bool, len7: nat): byte
    requires len7 < 128
  {
    (if masked then 0x80 else 0x00) | Byte(len7)
  }

  function FrameBytes(f: WireFrame): (s: seq<byte>)
    ensures |s| >= 2
  {
    [FirstByte(f.fin, f.opcode), SecondByte(f.mask.Some?, Length7(|f.payload|))]
    + ExtendedBytes(|f.payload|) + MaskBytes(f.mask) + Unmask(f.mask, f.payload)
  }

  // ---------------------------------------------------------------- reading one frame

  datatype ParseError =
    | RsvBitsSet
    | FragmentedControl
    | ControlTooLarge
    | PayloadTooLarge
    | MaskMissing
    | UnexpectedContinuation
    | NewDataWhileFragmented
    | InvalidClosePayload
    | UnknownOpcode
    | MissingKey
    | EmptyKey
    | InvalidUpgrade
    | MissingNonce
    | NonceRefused

  datatype Config = Config(requireMask: bool, maxPayload: nat)

  /** What the parser makes of the front of its buffer. */
  datatype Step =
    | NeedMore
    | Bad(error: ParseError)
    | Got(fin: bool, opcode: byte, payload: seq<byte>, used: nat)

  function PayloadLength(s: seq<byte>): nat
    requires |s| >= 2 && |s| >= 2 + ExtendedSize(Val(s[1] & 0x7F))
  {
    var len7 := Val(s[1] & 0x7F);
    if ExtendedSize(len7) == 0 then len7 else ReadBE(s[2..2 + ExtendedSize(len7)])
  }

  function ReadBody(s: seq<byte>, mask: Option<Mask>, at: nat, n: nat): (r: Step)
    requires 2 <= at <= |s|
    ensures r.Got? ==> r.used == at + n && r.used <= |s| && |r.payload| == n
  {
    if |s| - at < n then NeedMore
    else Got(s[0] & 0x80 != 0, s[0] & 0x0F, Unmask(mask, s[at..at + n]), at + n)
  }

  function ReadMask(s: seq<byte>, at: nat): Mask
    requires at + 4 <= |s|
  {
    Mask(s[at], s[at + 1], s[at + 2], s[at + 3])
  }

  function ReadPayload(c: Config, s: seq<byte>, at: nat, n: nat): (r: Step)
    requires 2 <= at <= |s|
    ensures r.Got? ==> 2 <= r.used <= |s| && |r.payload| == n <= c.maxPayload
  {
    if n > c.maxPayload then Bad(PayloadTooLarge)
    else if s[1] & 0x80 != 0 then
      if |s| - at < 4 then NeedMore else ReadBody(s, Some(ReadMask(s, at)), at + 4, n)
    else if c.requireMask then Bad(MaskMissing)
    else ReadBody(s, None, at, n)
  }

  /** The frame at the front of `s`, in the order the parser makes its checks. */
  function NextFrame(c: Config, s: seq<byte>): (r: Step)
    ensures r.Got? ==> 2 <= r.used <= |s| && |r.payload| <= c.maxPayload
  {
    if |s| < 2 then NeedMore
    else if s[0] & 0x70 != 0 then Bad(RsvBitsSet)
    else if s[0] & 0x0F >= 0x8 && s[0] & 0x80 == 0 then Bad(FragmentedControl)
    else if s[0] & 0x0F >= 0x8 && Val(s[1] & 0x7F) > 125 then Bad(ControlTooLarge)
    else if |s| - 2 < ExtendedSize(Val(s[1] & 0x7F)) then NeedMore
    else ReadPayload(c, s, 2 + ExtendedSize(Val(s[1] & 0x7F)), PayloadLength(s))
  }

  lemma ReadBodyStable(a: seq<byte>, b: seq<byte>, mask: Option<Mask>, at: nat, n: nat)
    requires 2 <= at <= |a|
    ensures !ReadBody(a, mask, at, n).NeedMore? ==> ReadBody(a + b, mask, at, n) == ReadBody(a, mask, at, n)
  {
    if at + n <= |a| {
      assert (a + b)[at..at + n] == a[at..at + n];
    }
  }

  lemma ReadPayloadStable(c: Config, a: seq<byte>, b: seq<byte>, at: nat, n: nat)
    requires 2 <= at <= |a|
    ensures !ReadPayload(c, a, at, n).NeedMore? ==> ReadPayload(c, a + b, at, n) == ReadPayload(c, a, at, n)
  {
    hide ReadBody;
    ReadBodyStable(a, b, None, at, n);
    if at + 4 <= |a| {
      ReadBodyStable(a, b, Some(ReadMask(a, at)), at + 4, n);
    }
  }

  /** Bytes that arrive later never change what the parser already decided. */
  lemma NextFrameStable(c: Config, a: seq<byte>, b: seq<byte>)
    ensures !NextFrame(c, a).NeedMore? ==> NextFrame(c, a + b) == NextFrame(c, a)
  {
    if |a| >= 2 && |a| - 2 >= ExtendedSize(Val(a[1] & 0x7F)) {
      var at := 2 + ExtendedSize(Val(a[1] & 0x7F));
      assert (a + b)[0] == a[0] && (a + b)[1] == a[1];
      assert (a + b)[2..at] == a[2..at];
      assert PayloadLength(a + b) == PayloadLength(a);
      ReadPayloadStable(c, a, b, at, PayloadLength(a));
    }
  }

  /** What a receiver with configuration `c` lets through: the frames worth a round trip. */
  ghost predicate Acceptable(c: Config, f: WireFrame) {
    && Writable(f)
    && |f.payload| <= c.maxPayload
    && (c.requireMask ==> f.mask.Some?)
    && (f.opcode >= 0x8 ==> f.fin && |f.payload| <= 125)
  }

  lemma FirstByteRead(fin: bool, opcode: byte)
    requires opcode < 16
    ensures FirstByte(fin, opcode) & 0x70 == 0 && FirstByte(fin, opcode) & 0x0F == opcode
    ensures FirstByte(fin, opcode) & 0x80 != 0 <==> fin
  {
  }

  lemma SecondByteRead(masked: bool, len7: nat)
    requires len7 < 128
    ensures Val(SecondByte(masked, len7) & 0x7F) == len7
    ensures SecondByte(masked, len7) & 0x80 != 0 <==> masked
  {
    SevenBits(len7);
    assert 0x00 | Byte(len7) == Byte(len7);
  }

  lemma ExtendedRead(n: nat)
    requires n < MAX_LENGTH
    ensures ExtendedSize(Length7(n)) != 0 ==> ReadBE(ExtendedBytes(n)) == n
  {
    Pow256Values();
    if 125 < n <= 0xFFFF {
      ReadWriteBE(n, 2);
    } else if n > 0xFFFF {
      ReadWriteBE(n, 8);
    }
  }

  lemma SplitHeader(b0: byte, b1: byte, ext: seq<byte>, mask: seq<byte>, body: seq<byte>, tail: seq<byte>)
    ensures
      var s := [b0, b1] + ext + mask + body + tail;
      && |s| >= 2 + |ext| && s[0] == b0 && s[1] == b1
      && s[2..2 + |ext|] == ext && s[2 + |ext|..] == mask + body + tail
  {
  }

  lemma WrittenHeader(f: WireFrame, tail: seq<byte>)
    requires Writable(f)
    ensures
      var s := FrameBytes(f) + tail;
      var at := 2 + ExtendedSize(Length7(|f.payload|));
      && |s| >= at
      && s[0] == FirstByte(f.fin, f.opcode)
      && s[1] == SecondByte(f.mask.Some?, Length7(|f.payload|))
      && s[2..at] == ExtendedBytes(|f.payload|)
      && s[at..] == MaskBytes(f.mask) + Unmask(f.mask, f.payload) + tail
  {
    var n := |f.payload|;
    hide FirstByte, SecondByte, MaskBytes, Unmask, ExtendedBytes;
    SplitHeader(FirstByte(f.fin, f.opcode), SecondByte(f.mask.Some?, Length7(n)), ExtendedBytes(n),
                MaskBytes(f.mask), Unmask(f.mask, f.payload), tail);
  }

  lemma WrittenBody(s: seq<byte>, at: nat, mask: Option<Mask>, payload: seq<byte>, tail: seq<byte>)
    requires 2 <= at <= |s| && s[at..] == Unmask(mask, payload) + tail
    ensures ReadBody(s, mask, at, |payload|) == Got(s[0] & 0x80 != 0, s[0] & 0x0F, payload, at + |payload|)
  {
    assert s[at..at + |payload|] == s[at..][..|payload|] == Unmask(mask, payload);
    if mask.Some? {
      ApplyTwice(mask.value, payload);
    }
  }

  lemma WrittenMask(s: seq<byte>, at: nat, m: Mask, rest: seq<byte>)
    requires at <= |s| && s[at..] == m.Bytes() + rest
    ensures |s| - at >= 4 && ReadMask(s, at) == m && s[at + 4..] == rest
  {
    var r := s[at..];
    assert |r| >= 4;
    assert r[0] == s[at] && r[1] == s[at + 1] && r[2] == s[at + 2] && r[3] == s[at + 3];
    assert s[at + 4..] == r[4..];
  }

  lemma WrittenPayload(c: Config, s: seq<byte>, at: nat, mask: Option<Mask>, payload: seq<byte>, tail: seq<byte>)
    requires 2 <= at <= |s| && s[at..] == MaskBytes(mask) + Unmask(mask, payload) + tail
    requires |payload| <= c.maxPayload && (c.requireMask ==> mask.Some?)
    requires s[1] & 0x80 != 0 <==> mask.Some?
    ensures ReadPayload(c, s, at, |payload|)
         == Got(s[0] & 0x80 != 0, s[0] & 0x0F, payload, at + |MaskBytes(mask)| + |payload|)
  {
    var body := Unmask(mask, payload) + tail;
    assert s[at..] == MaskBytes(mask) + body;
    if mask.Some? {
      WrittenMask(s, at, mask.value, body);
      WrittenBody(s, at + 4, mask, payload, tail);
    } else {
      assert s[at..] == body;
      WrittenBody(s, at, mask, payload, tail);
    }
  }

  lemma NextFramePastHeader(c: Config, s: seq<byte>, n: nat)
    requires |s| >= 2 && s[0] & 0x70 == 0
    requires s[0] & 0x0F >= 0x8 ==> s[0] & 0x80 != 0 && n <= 125
    requires Val(s[1] & 0x7F) == Length7(n) && |s| >= 2 + ExtendedSize(Length7(n)) && PayloadLength(s) == n
    ensures NextFrame(c, s) == ReadPayload(c, s, 2 + ExtendedSize(Length7(n)), n)
  {
  }

  lemma WrittenLength(s: seq<byte>, n: nat)
    requires n < MAX_LENGTH && |s| >= 2 + ExtendedSize(Length7(n))
    requires Val(s[1] & 0x7F) == Length7(n) && s[2..2 + ExtendedSize(Length7(n))] == ExtendedBytes(n)
    ensures PayloadLength(s) == n
  {
    ExtendedRead(n);
  }

  /** The frame at the front of `s`, given what stands in its header and behind it. */
  lemma NextFrameOf(c: Config, s: seq<byte>, f: WireFrame, tail: seq<byte>)
    requires Acceptable(c, f)
    requires |s| >= 2 + ExtendedSize(Length7(|f.payload|))
    requires s[0] == FirstByte(f.fin, f.opcode) && s[1] == SecondByte(f.mask.Some?, Length7(|f.payload|))
    requires s[2..2 + ExtendedSize(Length7(|f.payload|))] == ExtendedBytes(|f.payload|)
    requires s[2 + ExtendedSize(Length7(|f.payload|))..] == MaskBytes(f.mask) + Unmask(f.mask, f.payload) + tail
    ensures NextFrame(c, s)
         == Got(f.fin, f.opcode, f.payload, 2 + ExtendedSize(Length7(|f.payload|)) + |MaskBytes(f.mask)| + |f.payload|)
  {
    var n := |f.payload|;
    hide FirstByte, SecondByte, NextFrame, ReadPayload, ExtendedBytes, PayloadLength;
    FirstByteRead(f.fin, f.opcode);
    SecondByteRead(f.mask.Some?, Length7(n));
    WrittenLength(s, n);
    NextFramePastHeader(c, s, n);
    WrittenPayload(c, s, 2 + ExtendedSize(Length7(n)), f.mask, f.payload, tail);
  }

  /** A written frame, whatever follows it, is read back whole. */
  lemma NextFrameOfWritten(c: Config, f: WireFrame, tail: seq<byte>)
    requires Acceptable(c, f)
    ensures NextFrame(c, FrameBytes(f) + tail) == Got(f.fin, f.opcode, f.payload, |FrameBytes(f)|)
  {
    WrittenHeader(f, tail);
    NextFrameOf(c, FrameBytes(f) + tail, f, tail);
  }

  // ---------------------------------------------------------------- decoding a buffer

  /** A frame handed to the application: control frames and whole messages only. */
  datatype Frame = Frame(opcode: byte, fin: bool, payload: seq<byte>)

  /** The fragmented message being put together, if any. */
  datatype Assembly = Idle | Assembling(opcode: byte, payload: seq<byte>)

  datatype Delivery = Rejected(error: ParseError) | Delivered(out: seq<Frame>, assembly: Assembly)

  function Deliver(g: Assembly, fin: bool, opcode: byte, payload: seq<byte>): Delivery {
    if opcode == OP_CONTINUATION then
      if g.Idle? then Rejected(UnexpectedContinuation)
      else if fin then Delivered([Frame(g.opcode, true, g.payload + payload)], Idle)
      else Delivered([], Assembling(g.opcode, g.payload + payload))
    else if opcode == OP_TEXT || opcode == OP_BINARY then
      if g.Assembling? then Rejected(NewDataWhileFragmented)
      else if fin then Delivered([Frame(opcode, true, payload)], g)
      else Delivered([], Assembling(opcode, payload))
    else if opcode == OP_CLOSE || opcode == OP_PING || opcode == OP_PONG then
      if opcode == OP_CLOSE && |payload| == 1 then Rejected(InvalidClosePayload)
      else Delivered([Frame(opcode, true, payload)], g)
    else Rejected(UnknownOpcode)
  }

  datatype Outcome =
    | Running(frames: seq<Frame>, rest: seq<byte>, assembly: Assembly)
    | Failed(frames: seq<Frame>, error: ParseError)

  function After(out: seq<Frame>, o: Outcome): Outcome {
    o.(frames := out + o.frames)
  }

  /** Decodes every complete frame at the front of `s`. */
  function Decode(c: Config, s: seq<byte>, g: Assembly): Outcome
    decreases |s|
  {
    match NextFrame(c, s)
    case NeedMore => Running([], s, g)
    case Bad(e) => Failed([], e)
    case Got(fin, opcode, payload, used) =>
      match Deliver(g, fin, opcode, payload)
      case Rejected(e) => Failed([], e)
      case Delivered(out, g') => After(out, Decode(c, s[used..], g'))
  }

  /** Goes on from where an earlier decoding stopped; an error is final. */
  function Continue(c: Config, o: Outcome, more: seq<byte>): Outcome {
    match o
    case Running(frames, rest, g) => After(frames, Decode(c, rest + more, g))
    case Failed(_, _) => o
  }

  lemma AfterAfter(a: seq<Frame>, b: seq<Frame>, o: Outcome)
    ensures After(a, After(b, o)) == After(a + b, o)
  {
    assert a + (b + o.frames) == a + b + o.frames;
  }

  /** Decoding a stream in one piece or in two is the same. */
  lemma {:induction false} DecodeSplit(c: Config, a: seq<byte>, b: seq<byte>, g: Assembly)
    ensures Decode(c, a + b, g) == Continue(c, Decode(c, a, g), b)
    decreases |a|
  {
    NextFrameStable(c, a, b);
    hide NextFrame, Deliver;
    match NextFrame(c, a)
    case NeedMore =>
      assert [] + Decode(c, a + b, g).frames == Decode(c, a + b, g).frames;
    case Bad(e) =>
    case Got(fin, opcode, payload, used) =>
      match Deliver(g, fin, opcode, payload)
      case Rejected(e) =>
      case Delivered(out, g') =>
        DecodeSplit(c, a[used..], b, g');
        assert (a + b)[used..] == a[used..] + b;
        var o := Decode(c, a[used..], g');
        if o.Running? {
          AfterAfter(out, o.frames, Decode(c, o.rest + b, o.assembly));
        }
  }

  /** A decoder that ran dry has nothing left to do. */
  lemma {:induction false} DecodeRest(c: Config, s: seq<byte>, g: Assembly)
    requires Decode(c, s, g).Running?
    ensures NextFrame(c, Decode(c, s, g).rest).NeedMore?
    decreases |s|
  {
    match NextFrame(c, s)
    case NeedMore =>
    case Bad(e) =>
    case Got(fin, opcode, payload, used) =>
      match Deliver(g, fin, opcode, payload)
      case Rejected(e) =>
      case Delivered(out, g') => DecodeRest(c, s[used..], g');
  }

  /** Data opcodes only inside a half-assembled message. */
  ghost predicate GoodAssembly(g: Assembly) {
    g.Assembling? ==> g.opcode == OP_TEXT || g.opcode == OP_BINARY
  }

  /** What the application can rely on about a frame it is handed. */
  ghost predicate Presentable(f: Frame) {
    && f.fin
    && (f.opcode == OP_TEXT || f.opcode == OP_BINARY || f.opcode == OP_CLOSE || f.opcode == OP_PING || f.opcode == OP_PONG)
    && (f.opcode >= 0x8 ==> |f.payload| <= 125)
    && (f.opcode == OP_CLOSE ==> |f.payload| != 1)
  }

  lemma ControlPayload(c: Config, s: seq<byte>)
    requires NextFrame(c, s).Got? && NextFrame(c, s).opcode >= 0x8
    ensures |NextFrame(c, s).payload| <= 125
  {
  }

  /** Whatever bytes arrive, only whole messages and sound control frames come out. */
  lemma {:induction false} DecodedFramesPresentable(c: Config, s: seq<byte>, g: Assembly)
    requires GoodAssembly(g)
    ensures forall f :: f in Decode(c, s, g).frames ==> Presentable(f)
    ensures Decode(c, s, g).Running? ==> GoodAssembly(Decode(c, s, g).assembly)
    decreases |s|
  {
    match NextFrame(c, s)
    case NeedMore =>
    case Bad(e) =>
    case Got(fin, opcode, payload, used) =>
      if opcode >= 0x8 {
        ControlPayload(c, s);
      }
      match Deliver(g, fin, opcode, payload)
      case Rejected(e) =>
      case Delivered(out, g') => DecodedFramesPresentable(c, s[used..], g');
  }
}
