/**
 * Round trips through the codec (sections 5.3 to 5.5 of RFC 6455): what was written, in whole
 * frames or in fragments with control frames between them, is what the application gets.
 */
module Fragmentation {
  import opened Bytes
  import opened FrameCodec
  import opened StreamParser

  function WriteFrames(fs: seq<WireFrame>): seq<byte> {
    if fs == [] then [] else FrameBytes(fs[0]) + WriteFrames(fs[1..])
  }

  lemma {:induction false} WriteFramesAppend(fs: seq<WireFrame>, f: WireFrame)
    ensures WriteFrames(fs + [f]) == WriteFrames(fs) + FrameBytes(f)
  {
    hide FrameBytes;
    if fs == [] {
      assert [f][1..] == [] && fs + [f] == [f];
      assert FrameBytes(f) + [] == FrameBytes(f);
    } else {
      WriteFramesAppend(fs[1..], f);
      assert (fs + [f])[1..] == fs[1..] + [f];
      Associate(FrameBytes(fs[0]), WriteFrames(fs[1..]), FrameBytes(f));
    }
  }

  /** What an application sees of frames that stand for themselves. */
  function Shown(fs: seq<WireFrame>): (r: seq<Frame>)
    ensures |r| == |fs|
  {
    seq(|fs|, i requires 0 <= i < |fs| => Frame(fs[i].opcode, true, fs[i].payload))
  }

  ghost predicate LegalControl(c: Config, f: WireFrame) {
    && Acceptable(c, f)
    && (f.opcode == OP_CLOSE || f.opcode == OP_PING || f.opcode == OP_PONG)
    && (f.opcode == OP_CLOSE ==> |f.payload| != 1)
  }

  /** An unfragmented message or a legal control frame. */
  ghost predicate Whole(c: Config, f: WireFrame) {
    LegalControl(c, f) || (Acceptable(c, f) && f.fin && (f.opcode == OP_TEXT || f.opcode == OP_BINARY))
  }

  /** A delivery, and then the rest of the stream. */
  function Deliveries(c: Config, d: Delivery, tail: seq<byte>): Outcome {
    match d
    case Rejected(e) => Failed([], e)
    case Delivered(out, g) => After(out, Decode(c, tail, g))
  }

  /** One written frame in front of the stream is one delivery. */
  lemma DecodeWritten(c: Config, f: WireFrame, tail: seq<byte>, g: Assembly)
    requires Acceptable(c, f)
    ensures Decode(c, FrameBytes(f) + tail, g) == Deliveries(c, Deliver(g, f.fin, f.opcode, f.payload), tail)
  {
    NextFrameOfWritten(c, f, tail);
    assert (FrameBytes(f) + tail)[|FrameBytes(f)|..] == tail;
  }

  lemma WholeDelivers(c: Config, f: WireFrame, g: Assembly)
    requires Whole(c, f) && (g.Idle? || LegalControl(c, f))
    ensures Acceptable(c, f) && Deliver(g, f.fin, f.opcode, f.payload) == Delivered([Frame(f.opcode, true, f.payload)], g)
  {
  }

  /** Whole frames come out one by one; inside a fragmented message only control frames may. */
  lemma {:induction false} DecodeWhole(c: Config, fs: seq<WireFrame>, tail: seq<byte>, g: Assembly)
    requires forall f :: f in fs ==> Whole(c, f) && (g.Idle? || LegalControl(c, f))
    ensures Decode(c, WriteFrames(fs) + tail, g) == After(Shown(fs), Decode(c, tail, g))
  {
    hide Decode, FrameBytes, Acceptable;
    if fs == [] {
      assert WriteFrames(fs) + tail == tail;
      assert [] + Decode(c, tail, g).frames == Decode(c, tail, g).frames;
    } else {
      var f := fs[0];
      assert f in fs;
      assert WriteFrames(fs) + tail == FrameBytes(f) + (WriteFrames(fs[1..]) + tail);
      WholeDelivers(c, f, g);
      DecodeWritten(c, f, WriteFrames(fs[1..]) + tail, g);
      DecodeWhole(c, fs[1..], tail, g);
      AfterAfter([Frame(f.opcode, true, f.payload)], Shown(fs[1..]), Decode(c, tail, g));
      assert Shown(fs) == [Frame(f.opcode, true, f.payload)] + Shown(fs[1..]);
    }
  }

  // ---------------------------------------------------------------- fragmented messages

  /** One fragment of a message, and the control frames sent before the next one. */
  datatype Part = Part(data: seq<byte>, mask: Option<Mask>, controls: seq<WireFrame>)

  /** A message cut into parts. */
  datatype Message = Message(opcode: byte, parts: seq<Part>)

  ghost predicate LegalPart(c: Config, p: Part) {
    && |p.data| <= c.maxPayload && |p.data| < MAX_LENGTH
    && (c.requireMask ==> p.mask.Some?)
    && forall f :: f in p.controls ==> LegalControl(c, f)
  }

  ghost predicate LegalMessage(c: Config, m: Message) {
    && (m.opcode == OP_TEXT || m.opcode == OP_BINARY)
    && m.parts != []
    && forall p :: p in m.parts ==> LegalPart(c, p)
  }

  /** The first fragment carries `opcode`, the others are continuations, the last one is final. */
  function WriteParts(opcode: byte, parts: seq<Part>): seq<byte> {
    if parts == [] then []
    else
      FrameBytes(WireFrame(|parts| == 1, opcode, parts[0].mask, parts[0].data))
      + WriteFrames(parts[0].controls) + WriteParts(OP_CONTINUATION, parts[1..])
  }

  function WriteMessages(ms: seq<Message>): seq<byte> {
    if ms == [] then [] else WriteParts(ms[0].opcode, ms[0].parts) + WriteMessages(ms[1..])
  }

  function Data(parts: seq<Part>): seq<byte> {
    if parts == [] then [] else parts[0].data + Data(parts[1..])
  }

  function Controls(parts: seq<Part>): seq<Frame> {
    if parts == [] then [] else Shown(parts[0].controls) + Controls(parts[1..])
  }

  /** The control frames in place, the whole message where its last fragment stood. */
  function ExpectedOf(m: Message): seq<Frame> {
    var last := |m.parts| - 1;
    if last < 0 then [] else Controls(m.parts[..last]) + [Frame(m.opcode, true, Data(m.parts))] + Shown(m.parts[last].controls)
  }

  function Expected(ms: seq<Message>): seq<Frame> {
    if ms == [] then [] else ExpectedOf(ms[0]) + Expected(ms[1..])
  }

  /** The same expectation with `sofar` already assembled, part by part. */
  function Remaining(opcode: byte, sofar: seq<byte>, parts: seq<Part>): seq<Frame>
    requires parts != []
    decreases |parts|
  {
    if |parts| == 1 then [Frame(opcode, true, sofar + parts[0].data)] + Shown(parts[0].controls)
    else Shown(parts[0].controls) + Remaining(opcode, sofar + parts[0].data, parts[1..])
  }

  lemma SplitParts(parts: seq<Part>)
    requires |parts| > 1
    ensures
      var last := |parts| - 1;
      && Controls(parts[..last]) == Shown(parts[0].controls) + Controls(parts[1..][..last - 1])
      && parts[1..][last - 1] == parts[last]
  {
    assert parts[1..][..|parts| - 2] == parts[..|parts| - 1][1..];
  }

  lemma {:induction false} RemainingIsExpected(opcode: byte, sofar: seq<byte>, parts: seq<Part>)
    requires parts != []
    ensures
      var last := |parts| - 1;
      Remaining(opcode, sofar, parts)
      == Controls(parts[..last]) + [Frame(opcode, true, sofar + Data(parts))] + Shown(parts[last].controls)
    decreases |parts|
  {
    var last := |parts| - 1;
    if last == 0 {
      assert parts[1..] == [];
      assert Data(parts) == parts[0].data;
      assert parts[..last] == [];
    } else {
      hide Shown, Controls;
      var more := parts[1..];
      RemainingIsExpected(opcode, sofar + parts[0].data, more);
      SplitParts(parts);
      var head, middle, whole := Shown(parts[0].controls), Controls(more[..last - 1]), [Frame(opcode, true, sofar + Data(parts))];
      Associate(sofar, parts[0].data, Data(more));
      Associate(head, middle + whole, Shown(parts[last].controls));
      Associate(head, middle, whole);
    }
  }

  lemma DecodePart(c: Config, opcode: byte, p: Part, final: bool, tail: seq<byte>, g: Assembly, out: seq<Frame>, g': Assembly)
    requires LegalPart(c, p) && opcode < 0x8
    requires Deliver(g, final, opcode, p.data) == Delivered(out, g')
    ensures Decode(c, FrameBytes(WireFrame(final, opcode, p.mask, p.data)) + WriteFrames(p.controls) + tail, g)
         == After(out + Shown(p.controls), Decode(c, tail, g'))
  {
    var f := WireFrame(final, opcode, p.mask, p.data);
    assert FrameBytes(f) + WriteFrames(p.controls) + tail == FrameBytes(f) + (WriteFrames(p.controls) + tail);
    DecodeWritten(c, f, WriteFrames(p.controls) + tail, g);
    DecodeWhole(c, p.controls, tail, g');
    AfterAfter(out, Shown(p.controls), Decode(c, tail, g'));
  }

  /**
   * The parts of a message still to come: `op` is the opcode the next one carries, `g` what
   * the decoder has assembled of the message so far.
   */
  ghost predicate Expecting(opcode: byte, sofar: seq<byte>, op: byte, g: Assembly) {
    || (op == OP_CONTINUATION && g == Assembling(opcode, sofar))
    || (op == opcode && (opcode == OP_TEXT || opcode == OP_BINARY) && g == Idle && sofar == [])
  }

  lemma DeliverPart(opcode: byte, sofar: seq<byte>, op: byte, g: Assembly, final: bool, data: seq<byte>)
    requires Expecting(opcode, sofar, op, g)
    ensures op < 0x8
    ensures Deliver(g, final, op, data)
         == if final then Delivered([Frame(opcode, true, sofar + data)], Idle) else Delivered([], Assembling(opcode, sofar + data))
  {
    assert [] + data == data;
  }

  lemma {:induction false} DecodeParts(c: Config, opcode: byte, sofar: seq<byte>, op: byte, g: Assembly, parts: seq<Part>, tail: seq<byte>)
    requires Expecting(opcode, sofar, op, g)
    requires parts != [] && forall p :: p in parts ==> LegalPart(c, p)
    ensures Decode(c, WriteParts(op, parts) + tail, g) == After(Remaining(opcode, sofar, parts), Decode(c, tail, Idle))
    decreases |parts|
  {
    hide Decode, FrameBytes, WriteFrames, Deliver, Shown, LegalPart;
    var p := parts[0];
    var rest := WriteParts(OP_CONTINUATION, parts[1..]);
    var head := FrameBytes(WireFrame(|parts| == 1, op, p.mask, p.data)) + WriteFrames(p.controls);
    assert WriteParts(op, parts) + tail == head + (rest + tail);
    DeliverPart(opcode, sofar, op, g, |parts| == 1, p.data);
    if |parts| == 1 {
      assert rest + tail == tail;
      DecodePart(c, op, p, true, tail, g, [Frame(opcode, true, sofar + p.data)], Idle);
    } else {
      var g' := Assembling(opcode, sofar + p.data);
      DecodePart(c, op, p, false, rest + tail, g, [], g');
      DecodeParts(c, opcode, sofar + p.data, OP_CONTINUATION, g', parts[1..], tail);
      assert [] + Shown(p.controls) == Shown(p.controls);
      AfterAfter(Shown(p.controls), Remaining(opcode, sofar + p.data, parts[1..]), Decode(c, tail, Idle));
    }
  }

  lemma DecodeMessage(c: Config, m: Message, tail: seq<byte>)
    requires LegalMessage(c, m)
    ensures Decode(c, WriteParts(m.opcode, m.parts) + tail, Idle) == After(ExpectedOf(m), Decode(c, tail, Idle))
  {
    DecodeParts(c, m.opcode, [], m.opcode, Idle, m.parts, tail);
    RemainingIsExpected(m.opcode, [], m.parts);
    assert [] + Data(m.parts) == Data(m.parts);
  }

  lemma {:induction false} DecodeMessages(c: Config, ms: seq<Message>)
    requires forall m :: m in ms ==> LegalMessage(c, m)
    ensures Decode(c, WriteMessages(ms), Idle) == Running(Expected(ms), [], Idle)
  {
    if ms != [] {
      DecodeMessage(c, ms[0], WriteMessages(ms[1..]));
      DecodeMessages(c, ms[1..]);
    }
  }

  /**
   * The fragmentation round trip: control frames sent up front, then any list of fragmented
   * messages, delivered over the network in any pieces.
   */
  lemma FragmentationRoundTrip(c: Setup, leading: seq<WireFrame>, ms: seq<Message>, chunks: seq<seq<byte>>)
    requires forall f :: f in leading ==> LegalControl(c.wire, f)
    requires forall m :: m in ms ==> LegalMessage(c.wire, m)
    requires Concat(chunks) == WriteFrames(leading) + WriteMessages(ms)
    ensures FeedAll(c, Open([], Idle), chunks) == Fed(None, Shown(leading) + Expected(ms), Live(Open([], Idle)))
  {
    FeedAllIsOneFeed(c, Open([], Idle), chunks);
    assert [] + Concat(chunks) == Concat(chunks);
    DecodeWhole(c.wire, leading, WriteMessages(ms), Idle);
    DecodeMessages(c.wire, ms);
  }

  /** Frames written one after the other, by either side, come out as they went in. */
  lemma WholeFramesRoundTrip(c: Setup, fs: seq<WireFrame>, chunks: seq<seq<byte>>)
    requires forall f :: f in fs ==> Whole(c.wire, f)
    requires Concat(chunks) == WriteFrames(fs)
    ensures FeedAll(c, Open([], Idle), chunks) == Fed(None, Shown(fs), Live(Open([], Idle)))
  {
    FeedAllIsOneFeed(c, Open([], Idle), chunks);
    assert WriteFrames(fs) + [] == WriteFrames(fs) && [] + Concat(chunks) == Concat(chunks);
    DecodeWhole(c.wire, fs, [], Idle);
    assert Shown(fs) + [] == Shown(fs);
  }

  /**
   * A stream that breaks off anywhere: no error, and a prefix of the frames that were written.
   */
  lemma TruncatedStream(c: Setup, fs: seq<WireFrame>, chunks: seq<seq<byte>>, missing: seq<byte>)
    requires forall f :: f in fs ==> Whole(c.wire, f)
    requires Concat(chunks) + missing == WriteFrames(fs)
    ensures FeedAll(c, Open([], Idle), chunks).status.Live?
    ensures FeedAll(c, Open([], Idle), chunks).frames <= Shown(fs)
  {
    FreshParsersSettled(c);
    hide WriteFrames, Whole, NextFrame, Deliver, FeedAll, Shown, Settled;
    var s := Concat(chunks);
    FeedAllIsOneFeed(c, Open([], Idle), chunks);
    WholeFramesRoundTrip(c, fs, [s + missing]);
    FeedAllIsOneFeed(c, Open([], Idle), [s + missing]);
    assert Concat([s + missing]) == s + missing;
    assert [] + s == s && [] + (s + missing) == s + missing;
    DecodeSplit(c.wire, s, missing, Idle);
  }
}
