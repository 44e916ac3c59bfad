/**
 * The frame format in numbers (section 5.2 of RFC 6455): what every byte of a written frame is, what
 * the parser makes of any bytes whatever, and which sequences of frames it takes.
 */
module FrameRules {
  import opened Bytes
  import opened FrameCodec
  import opened StreamParser
  import opened Fragmentation

  lemma LowFour(b: byte)
    ensures Val(b & 0x0F) == Val(b) % 16
  {
  }

  lemma LowSeven(b: byte)
    ensures Val(b & 0x7F) == Val(b) % 128
  {
  }

  lemma ThreeReserved(b: byte)
    ensures b & 0x70 == 0 <==> Val(b) / 16 % 8 == 0
  {
  }

  lemma TopBit(b: byte)
    ensures b & 0x80 != 0 <==> Val(b) >= 128
  {
  }

  // ---------------------------------------------------------------- a written frame, byte by byte

  lemma WithTopBit(b: byte)
    requires Val(b) < 128
    ensures Val(0x80 | b) == 128 + Val(b) && Val(0x00 | b) == Val(b)
  {
  }

  lemma LowFourBelow(b: byte)
    ensures Val(b & 0x0F) < 16
  {
  }

  lemma FirstByteNumber(fin: bool, opcode: byte)
    ensures Val(FirstByte(fin, opcode)) == (if fin then 128 else 0) + Val(opcode) % 16
  {
    LowFour(opcode);
    WithTopBit(opcode & 0x0F);
  }

  lemma SecondByteNumber(masked: bool, len7: nat)
    requires len7 < 128
    ensures Val(SecondByte(masked, len7)) == (if masked then 128 else 0) + len7
  {
    ValByte(len7);
    WithTopBit(Byte(len7));
  }

  /** Where the payload starts. */
  function PayloadAt(length: nat, masked: bool): nat {
    2 + (if length <= 125 then 0 else if length <= 65535 then 2 else 8) + (if masked then 4 else 0)
  }

  lemma FramePieces(f: WireFrame)
    ensures
      var n, s, ext := |f.payload|, FrameBytes(f), ExtendedBytes(|f.payload|);
      && s[0] == FirstByte(f.fin, f.opcode) && s[1] == SecondByte(f.mask.Some?, Length7(n))
      && |s| == 2 + |ext| + |MaskBytes(f.mask)| + n
      && s[2..2 + |ext|] == ext
      && s[2 + |ext|..|s| - n] == MaskBytes(f.mask)
      && s[|s| - n..] == Unmask(f.mask, f.payload)
  {
    hide FirstByte, SecondByte, ExtendedBytes, MaskBytes, Unmask;
  }

  /** The payload as it travels. */
  lemma MaskedPayload(mask: Option<Mask>, p: seq<byte>)
    ensures mask.None? ==> MaskBytes(mask) == [] && Unmask(mask, p) == p
    ensures mask.Some? ==>
      var key := mask.value;
      && MaskBytes(mask) == [key.k0, key.k1, key.k2, key.k3]
      && forall i :: 0 <= i < |p| ==> Unmask(mask, p)[i] == p[i] ^ MaskBytes(mask)[i % 4]
  {
    if mask.Some? {
      MaskRule(mask.value, p);
    }
  }

  /** The payload that stands at `at` behind the four bytes of its key. */
  predicate UnmaskedAt(s: seq<byte>, at: nat, payload: seq<byte>) {
    4 <= at && at + |payload| <= |s| && forall i :: 0 <= i < |payload| ==> payload[i] == s[at + i] ^ s[at - 4 + i % 4]
  }

  lemma XorTwice(a: byte, b: byte)
    ensures a ^ b ^ b == a
  {
  }

  lemma PayloadLayout(f: WireFrame)
    ensures
      var n, s := |f.payload|, FrameBytes(f);
      var at := |s| - n;
      if f.mask.None? then at >= 0 && s[at..] == f.payload
      else at >= 4 && s[at - 4..at] == [f.mask.value.k0, f.mask.value.k1, f.mask.value.k2, f.mask.value.k3] && UnmaskedAt(s, at, f.payload)
  {
    var n, s := |f.payload|, FrameBytes(f);
    FramePieces(f);
    MaskedPayload(f.mask, f.payload);
    hide FrameBytes, FirstByte, SecondByte, MaskBytes, Unmask, ExtendedBytes, UnmaskedAt;
    if f.mask.Some? {
      Masked(s, |s| - n, MaskBytes(f.mask), Unmask(f.mask, f.payload), f.payload);
    }
  }

  lemma Masked(s: seq<byte>, at: nat, key: seq<byte>, masked: seq<byte>, payload: seq<byte>)
    requires 4 <= at <= |s| && s[at - 4..at] == key && s[at..] == masked && |masked| == |payload|
    requires forall i :: 0 <= i < |payload| ==> masked[i] == payload[i] ^ key[i % 4]
    ensures UnmaskedAt(s, at, payload)
  {
    forall i | 0 <= i < |payload|
      ensures payload[i] == s[at + i] ^ s[at - 4 + i % 4]
    {
      assert s[at + i] == masked[i] && s[at - 4 + i % 4] == key[i % 4];
      XorTwice(payload[i], key[i % 4]);
    }
  }

  lemma LengthLayout(f: WireFrame)
    requires |f.payload| < 0x1_0000_0000_0000_0000
    ensures
      var n, s := |f.payload|, FrameBytes(f);
      && |s| == PayloadAt(n, f.mask.Some?) + n
      && (125 < n <= 65535 ==> ReadBE(s[2..4]) == n)
      && (65535 < n ==> ReadBE(s[2..10]) == n)
  {
    FramePieces(f);
    ExtendedRead(|f.payload|);
    MaskedPayload(f.mask, f.payload);
    hide FrameBytes, FirstByte, SecondByte, MaskBytes, Unmask;
  }

  /** A frame on the wire. */
  lemma FrameLayout(f: WireFrame)
    requires |f.payload| < 0x1_0000_0000_0000_0000
    ensures
      var n, s := |f.payload|, FrameBytes(f);
      var at := PayloadAt(n, f.mask.Some?);
      && |s| == at + n
      && Val(s[0]) == (if f.fin then 128 else 0) + Val(f.opcode) % 16
      && Val(s[1]) == (if f.mask.Some? then 128 else 0) + (if n <= 125 then n else if n <= 65535 then 126 else 127)
      && (125 < n <= 65535 ==> ReadBE(s[2..4]) == n)
      && (65535 < n ==> ReadBE(s[2..10]) == n)
      && (if f.mask.None? then s[at..] == f.payload
          else s[at - 4..at] == [f.mask.value.k0, f.mask.value.k1, f.mask.value.k2, f.mask.value.k3] && UnmaskedAt(s, at, f.payload))
  {
    FramePieces(f);
    FirstByteNumber(f.fin, f.opcode);
    SecondByteNumber(f.mask.Some?, Length7(|f.payload|));
    LengthLayout(f);
    PayloadLayout(f);
    hide FrameBytes, FirstByte, SecondByte, MaskBytes, Unmask, ExtendedBytes, UnmaskedAt, ReadBE, Val;
  }

  // ---------------------------------------------------------------- any bytes at the front of the buffer

  /** The bytes of the extended length that the second byte calls for. */
  function LengthBytes(s: seq<byte>): nat
    requires |s| >= 2
  {
    if Val(s[1]) % 128 == 126 then 2 else if Val(s[1]) % 128 == 127 then 8 else 0
  }

  /** The payload length a frame announces. */
  function Announced(s: seq<byte>): nat
    requires |s| >= 2 && |s| >= 2 + LengthBytes(s)
  {
    if LengthBytes(s) == 0 then Val(s[1]) % 128 else ReadBE(s[2..2 + LengthBytes(s)])
  }

  /** No reserved bit, and a control frame is final and short. */
  predicate SoundHeader(s: seq<byte>)
    requires |s| >= 2
  {
    Val(s[0]) / 16 % 8 == 0 && (Val(s[0]) % 16 >= 8 ==> Val(s[0]) >= 128 && Val(s[1]) % 128 <= 125)
  }

  /** The header is sound, and the length is there and within the limit. */
  predicate LengthAllowed(c: Config, s: seq<byte>) {
    |s| >= 2 && SoundHeader(s) && |s| >= 2 + LengthBytes(s) && Announced(s) <= c.maxPayload
  }

  function HeaderSize(s: seq<byte>): nat
    requires |s| >= 2
  {
    2 + LengthBytes(s) + (if Val(s[1]) >= 128 then 4 else 0)
  }

  lemma ExtendedSizeOf(s: seq<byte>)
    requires |s| >= 2
    ensures ExtendedSize(Val(s[1] & 0x7F)) == LengthBytes(s)
    ensures |s| >= 2 + LengthBytes(s) ==> PayloadLength(s) == Announced(s)
  {
    LowSeven(s[1]);
  }

  lemma OpcodeClass(b: byte)
    ensures b & 0x0F >= 0x8 <==> Val(b) % 16 >= 8
  {
    LowFour(b);
    SmallOrder(b & 0x0F);
  }

  lemma SmallOrder(b: byte)
    ensures b >= 0x8 <==> Val(b) >= 8
  {
  }

  /** The header checks, before the length is looked at. */
  lemma HeaderVerdict(c: Config, s: seq<byte>)
    requires |s| >= 2
    ensures
      var r := NextFrame(c, s);
      if Val(s[0]) / 16 % 8 != 0 then r == Bad(RsvBitsSet)
      else if Val(s[0]) % 16 >= 8 && Val(s[0]) < 128 then r == Bad(FragmentedControl)
      else if Val(s[0]) % 16 >= 8 && Val(s[1]) % 128 > 125 then r == Bad(ControlTooLarge)
      else if |s| < 2 + LengthBytes(s) then r == NeedMore
      else r == ReadPayload(c, s, 2 + LengthBytes(s), Announced(s))
  {
    ThreeReserved(s[0]);
    OpcodeClass(s[0]);
    TopBit(s[0]);
    LowSeven(s[1]);
    ExtendedSizeOf(s);
    hide ReadPayload, PayloadLength, Announced, Val;
  }

  lemma PayloadVerdict(c: Config, s: seq<byte>, at: nat, n: nat)
    requires 2 <= at <= |s|
    ensures
      var r := ReadPayload(c, s, at, n);
      if n > c.maxPayload then r == Bad(PayloadTooLarge)
      else if Val(s[1]) >= 128 then
        if |s| < at + 4 then r == NeedMore else r == ReadBody(s, Some(ReadMask(s, at)), at + 4, n)
      else if c.requireMask then r == Bad(MaskMissing)
      else r == ReadBody(s, None, at, n)
  {
    TopBit(s[1]);
    hide ReadBody, Val;
  }

  /** What is read of a frame that is there in full. */
  lemma BodyVerdict(s: seq<byte>, mask: Option<Mask>, at: nat, n: nat)
    requires 2 <= at <= |s| && (mask.Some? ==> at >= 4 && MaskBytes(mask) == s[at - 4..at])
    ensures
      var r := ReadBody(s, mask, at, n);
      if |s| < at + n then r == NeedMore
      else
        && r.Got? && r.used == at + n && |r.payload| == n
        && r.fin == (Val(s[0]) >= 128) && Val(r.opcode) == Val(s[0]) % 16
        && (mask.None? ==> r.payload == s[at..at + n])
        && (mask.Some? ==> UnmaskedAt(s, at, r.payload))
  {
    TopBit(s[0]);
    LowFour(s[0]);
    if |s| >= at + n {
      var p := s[at..at + n];
      MaskedPayload(mask, p);
      hide Unmask, MaskBytes, Val, UnmaskedAt;
      if mask.Some? {
        Unmasked(s, at, MaskBytes(mask), p, Unmask(mask, p));
      }
    }
  }

  lemma Unmasked(s: seq<byte>, at: nat, key: seq<byte>, masked: seq<byte>, payload: seq<byte>)
    requires 4 <= at && at + |masked| <= |s| && s[at - 4..at] == key && s[at..at + |masked|] == masked && |masked| == |payload|
    requires forall i :: 0 <= i < |payload| ==> payload[i] == masked[i] ^ key[i % 4]
    ensures UnmaskedAt(s, at, payload)
  {
    forall i | 0 <= i < |payload|
      ensures payload[i] == s[at + i] ^ s[at - 4 + i % 4]
    {
      assert s[at + i] == masked[i] && s[at - 4 + i % 4] == key[i % 4];
    }
  }

  lemma MaskRead(s: seq<byte>, at: nat)
    requires at + 4 <= |s|
    ensures MaskBytes(Some(ReadMask(s, at))) == s[at..at + 4]
  {
  }

  /** Past the header checks: the limit, the mask, and what is read. */
  lemma BodyRules(c: Config, s: seq<byte>)
    requires |s| >= 2 && |s| >= 2 + LengthBytes(s)
    ensures
      var r := ReadPayload(c, s, 2 + LengthBytes(s), Announced(s));
      var n, at, masked := Announced(s), HeaderSize(s), Val(s[1]) >= 128;
      if n > c.maxPayload then r == Bad(PayloadTooLarge)
      else if c.requireMask && !masked then r == Bad(MaskMissing)
      else if |s| < at + n then r == NeedMore
      else
        && r.Got? && r.used == at + n && |r.payload| == n
        && r.fin == (Val(s[0]) >= 128) && Val(r.opcode) == Val(s[0]) % 16
        && (!masked ==> r.payload == s[at..at + n])
        && (masked ==> UnmaskedAt(s, at, r.payload))
  {
    var n, at := Announced(s), 2 + LengthBytes(s);
    PayloadVerdict(c, s, at, n);
    hide ReadPayload, ReadBody, Announced, Val, LengthBytes, UnmaskedAt;
    if Val(s[1]) < 128 {
      PlainBody(s, at, n);
    } else if at + 4 <= |s| {
      MaskedBody(s, at, n);
    }
  }

  lemma PlainBody(s: seq<byte>, at: nat, n: nat)
    requires 2 <= at <= |s|
    ensures
      var r := ReadBody(s, None, at, n);
      if |s| < at + n then r == NeedMore
      else
        && r.Got? && r.used == at + n && |r.payload| == n
        && r.fin == (Val(s[0]) >= 128) && Val(r.opcode) == Val(s[0]) % 16 && r.payload == s[at..at + n]
  {
    hide ReadBody, Val;
    BodyVerdict(s, None, at, n);
  }

  lemma MaskedBody(s: seq<byte>, at: nat, n: nat)
    requires 2 <= at && at + 4 <= |s|
    ensures
      var r := ReadBody(s, Some(ReadMask(s, at)), at + 4, n);
      if |s| < at + 4 + n then r == NeedMore
      else
        && r.Got? && r.used == at + 4 + n && |r.payload| == n
        && r.fin == (Val(s[0]) >= 128) && Val(r.opcode) == Val(s[0]) % 16
        && UnmaskedAt(s, at + 4, r.payload)
  {
    MaskRead(s, at);
    hide ReadBody, Val, MaskBytes, ReadMask, UnmaskedAt;
    BodyVerdict(s, Some(ReadMask(s, at)), at + 4, n);
  }

  /**
   * For any bytes at all: which error the parser reports, or what it reads, or that it waits. `Got` needs a sound
   * header, an allowed length, a mask if one is asked for, and the whole frame.
   */
  lemma VerdictExactly(c: Config, s: seq<byte>)
    ensures |s| < 2 ==> NextFrame(c, s) == NeedMore
    ensures |s| >= 2 ==>
      var r := NextFrame(c, s);
      var control, masked := Val(s[0]) % 16 >= 8, Val(s[1]) >= 128;
      var reserved := Val(s[0]) / 16 % 8 != 0;
      && (r == Bad(RsvBitsSet) <==> reserved)
      && (r == Bad(FragmentedControl) <==> !reserved && control && Val(s[0]) < 128)
      && (r == Bad(ControlTooLarge) <==> !reserved && control && Val(s[0]) >= 128 && Val(s[1]) % 128 > 125)
      && (r == Bad(PayloadTooLarge) <==> SoundHeader(s) && |s| >= 2 + LengthBytes(s) && Announced(s) > c.maxPayload)
      && (r == Bad(MaskMissing) <==> LengthAllowed(c, s) && c.requireMask && !masked)
      && (r.Bad? ==> r.error in {RsvBitsSet, FragmentedControl, ControlTooLarge, PayloadTooLarge, MaskMissing})
      && (r.Got? <==> LengthAllowed(c, s) && (c.requireMask ==> masked) && |s| >= HeaderSize(s) + Announced(s))
      && (r.Got? ==>
            var n, at := Announced(s), HeaderSize(s);
            && r.used == at + n && |r.payload| == n
            && r.fin == (Val(s[0]) >= 128) && Val(r.opcode) == Val(s[0]) % 16
            && (!masked ==> r.payload == s[at..at + n])
            && (masked ==> UnmaskedAt(s, at, r.payload)))
  {
    if |s| >= 2 {
      HeaderVerdict(c, s);
      if |s| >= 2 + LengthBytes(s) {
        BodyRules(c, s);
      }
      hide NextFrame, ReadPayload, Announced, Val, LengthBytes, UnmaskedAt;
    }
  }

  // ---------------------------------------------------------------- sequences of frames

  /** Starts a message that further frames continue. */
  predicate Begins(f: WireFrame) {
    (Val(f.opcode) == 1 || Val(f.opcode) == 2) && !f.fin
  }

  predicate Ends(f: WireFrame) {
    Val(f.opcode) == 0 && f.fin
  }

  /** When frame `k` comes, a message has begun and not ended. */
  ghost predicate InMessage(fs: seq<WireFrame>, k: nat)
    requires k <= |fs|
  {
    exists j :: 0 <= j < k && Begins(fs[j]) && forall i :: j < i < k ==> !Ends(fs[i])
  }

  /** What is wrong with frame `k` in its place. */
  ghost function Violation(fs: seq<WireFrame>, k: nat): Option<ParseError>
    requires k < |fs|
  {
    var opcode := Val(fs[k].opcode);
    if opcode == 0 then if InMessage(fs, k) then None else Some(UnexpectedContinuation)
    else if opcode == 1 || opcode == 2 then if InMessage(fs, k) then Some(NewDataWhileFragmented) else None
    else if opcode == 8 then if |fs[k].payload| == 1 then Some(InvalidClosePayload) else None
    else if opcode == 9 || opcode == 10 then None
    else Some(UnknownOpcode)
  }

  lemma OpcodeNumbers(b: byte)
    ensures (b == OP_CONTINUATION <==> Val(b) == 0) && (b == OP_TEXT <==> Val(b) == 1) && (b == OP_BINARY <==> Val(b) == 2)
    ensures (b == OP_CLOSE <==> Val(b) == 8) && (b == OP_PING <==> Val(b) == 9) && (b == OP_PONG <==> Val(b) == 10)
  {
  }

  /** What one frame does to the message being put together. */
  lemma InMessageNext(fs: seq<WireFrame>, k: nat)
    requires k < |fs|
    ensures InMessage(fs, k + 1) <==> Begins(fs[k]) || (InMessage(fs, k) && !Ends(fs[k]))
  {
    if Begins(fs[k]) {
      assert InMessage(fs, k + 1);
    } else if InMessage(fs, k) && !Ends(fs[k]) {
      var j :| 0 <= j < k && Begins(fs[j]) && forall i :: j < i < k ==> !Ends(fs[i]);
      assert InMessage(fs, k + 1);
    }
  }

  lemma DeliveryExactly(fs: seq<WireFrame>, k: nat, g: Assembly)
    requires k < |fs| && (g.Assembling? <==> InMessage(fs, k))
    ensures
      var d := Deliver(g, fs[k].fin, fs[k].opcode, fs[k].payload);
      if Violation(fs, k).Some? then d == Rejected(Violation(fs, k).value)
      else d.Delivered? && (d.assembly.Assembling? <==> InMessage(fs, k + 1))
  {
    OpcodeNumbers(fs[k].opcode);
    InMessageNext(fs, k);
    hide InMessage, Val;
  }

  /** A decoder that has taken these bytes and waits for more. */
  ghost predicate Took(c: Config, fs: seq<WireFrame>, k: nat, frames: seq<Frame>, g: Assembly)
    requires k <= |fs|
  {
    && (g.Assembling? <==> InMessage(fs, k))
    && forall tail :: Decode(c, WriteFrames(fs[..k]) + tail, Idle) == After(frames, Decode(c, tail, g))
  }

  lemma NothingTaken(c: Config, fs: seq<WireFrame>)
    ensures Took(c, fs, 0, [], Idle)
  {
    assert !InMessage(fs, 0);
    hide Decode, WriteFrames, After;
    forall tail
      ensures Decode(c, WriteFrames(fs[..0]) + tail, Idle) == After([], Decode(c, tail, Idle))
    {
      NothingWritten(c, fs, tail);
    }
  }

  lemma NothingWritten(c: Config, fs: seq<WireFrame>, tail: seq<byte>)
    ensures Decode(c, WriteFrames(fs[..0]) + tail, Idle) == After([], Decode(c, tail, Idle))
  {
    hide Decode;
    assert WriteFrames(fs[..0]) + tail == tail;
    assert [] + Decode(c, tail, Idle).frames == Decode(c, tail, Idle).frames;
  }

  lemma OneMoreTaken(c: Config, fs: seq<WireFrame>, k: nat, frames: seq<Frame>, g: Assembly, d: Delivery)
    requires k < |fs| && Acceptable(c, fs[k]) && Took(c, fs, k, frames, g)
    requires d == Deliver(g, fs[k].fin, fs[k].opcode, fs[k].payload) && d.Delivered? && (d.assembly.Assembling? <==> InMessage(fs, k + 1))
    ensures Took(c, fs, k + 1, frames + d.out, d.assembly)
  {
    hide Decode, FrameBytes, Acceptable, Deliver, InMessage;
    var f := fs[k];
    assert fs[..k + 1] == fs[..k] + [f];
    WriteFramesAppend(fs[..k], f);
    forall tail
      ensures Decode(c, WriteFrames(fs[..k + 1]) + tail, Idle) == After(frames + d.out, Decode(c, tail, d.assembly))
    {
      Associate(WriteFrames(fs[..k]), FrameBytes(f), tail);
      DecodeWritten(c, f, tail, g);
      AfterAfter(frames, d.out, Decode(c, tail, d.assembly));
    }
  }

  lemma {:induction false} TakenSoFar(c: Config, fs: seq<WireFrame>, k: nat) returns (frames: seq<Frame>, g: Assembly)
    requires k <= |fs| && (forall f :: f in fs ==> Acceptable(c, f))
    requires forall i :: 0 <= i < k ==> Violation(fs, i).None?
    ensures Took(c, fs, k, frames, g)
    decreases k
  {
    if k == 0 {
      frames, g := [], Idle;
      NothingTaken(c, fs);
    } else {
      frames, g := TakenSoFar(c, fs, k - 1);
      hide Violation, Decode, InMessage, Deliver;
      DeliveryExactly(fs, k - 1, g);
      var d := Deliver(g, fs[k - 1].fin, fs[k - 1].opcode, fs[k - 1].payload);
      OneMoreTaken(c, fs, k - 1, frames, g, d);
      frames, g := frames + d.out, d.assembly;
    }
  }

  lemma TakenWhole(c: Config, fs: seq<WireFrame>, k: nat, frames: seq<Frame>, g: Assembly)
    requires k <= |fs| && Took(c, fs, k, frames, g)
    ensures Decode(c, WriteFrames(fs[..k]), Idle) == Running(frames, [], g)
  {
    assert WriteFrames(fs[..k]) + [] == WriteFrames(fs[..k]);
    assert frames + [] == frames;
    assert Decode(c, [], g) == Running([], [], g);
  }

  lemma {:induction false} WriteFramesSplit(a: seq<WireFrame>, b: seq<WireFrame>)
    ensures WriteFrames(a + b) == WriteFrames(a) + WriteFrames(b)
    decreases |a|
  {
    hide FrameBytes;
    if a == [] {
      assert a + b == b;
    } else {
      assert (a + b)[0] == a[0] && (a + b)[1..] == a[1..] + b;
      WriteFramesSplit(a[1..], b);
      Associate(FrameBytes(a[0]), WriteFrames(a[1..]), WriteFrames(b));
    }
  }

  /** Frames that break no rule are all taken. */
  lemma SequenceTaken(c: Setup, fs: seq<WireFrame>, chunks: seq<seq<byte>>)
    requires (forall f :: f in fs ==> Acceptable(c.wire, f)) && Concat(chunks) == WriteFrames(fs)
    requires forall k :: 0 <= k < |fs| ==> Violation(fs, k).None?
    ensures
      var r := FeedAll(c, Open([], Idle), chunks);
      r.status.Live? && r.status.phase.Open? && r.status.phase.rest == [] && (r.status.phase.assembly.Assembling? <==> InMessage(fs, |fs|))
  {
    var frames, g := TakenSoFar(c.wire, fs, |fs|);
    TakenWhole(c.wire, fs, |fs|, frames, g);
    hide Decode, WriteFrames, Violation, InMessage;
    assert fs[..|fs|] == fs && [] + Concat(chunks) == Concat(chunks);
    FreshParsersSettled(c);
    FeedAllIsOneFeed(c, Open([], Idle), chunks);
  }

  lemma StopsThere(c: Config, fs: seq<WireFrame>, k: nat, frames: seq<Frame>, g: Assembly)
    requires k < |fs| && Acceptable(c, fs[k]) && Took(c, fs, k, frames, g) && Violation(fs, k).Some?
    ensures Decode(c, WriteFrames(fs), Idle) == Failed(frames, Violation(fs, k).value)
  {
    hide Decode, FrameBytes, Acceptable, Deliver, InMessage, Violation;
    var f, rest := fs[k], WriteFrames(fs[k + 1..]);
    DeliveryExactly(fs, k, g);
    WriteFramesSplit(fs[..k], fs[k..]);
    assert fs == fs[..k] + fs[k..] && fs[k..][0] == f && fs[k..][1..] == fs[k + 1..];
    DecodeWritten(c, f, rest, g);
    assert frames + [] == frames;
  }

  /**
   * Of frames that are each well formed, the first that breaks a rule in its place stops the
   * parser with the error for it, and what the frames before it have brought still comes out.
   */
  lemma SequenceStopped(c: Setup, fs: seq<WireFrame>, k: nat, chunks: seq<seq<byte>>)
    requires (forall f :: f in fs ==> Acceptable(c.wire, f)) && Concat(chunks) == WriteFrames(fs)
    requires k < |fs| && Violation(fs, k).Some? && forall i :: 0 <= i < k ==> Violation(fs, i).None?
    ensures FeedAll(c, Open([], Idle), chunks)
         == Fed(None, FeedAll(c, Open([], Idle), [WriteFrames(fs[..k])]).frames, Dead(Violation(fs, k).value))
  {
    var frames, g := TakenSoFar(c.wire, fs, k);
    TakenWhole(c.wire, fs, k, frames, g);
    StopsThere(c.wire, fs, k, frames, g);
    hide Decode, WriteFrames, Violation, InMessage, Took;
    var before := [WriteFrames(fs[..k])];
    assert before[1..] == [] && Concat(before) == WriteFrames(fs[..k]) + [] == WriteFrames(fs[..k]);
    assert [] + Concat(chunks) == Concat(chunks) && [] + Concat(before) == Concat(before);
    FreshParsersSettled(c);
    FeedAllIsOneFeed(c, Open([], Idle), chunks);
    FeedAllIsOneFeed(c, Open([], Idle), before);
  }
}
