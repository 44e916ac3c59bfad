/** The frame builders of the codec: byte-pushing loops, proved to write `FrameCodec.FrameBytes`. */
module FrameBuilder {
  import opened Bytes
  import opened FrameCodec

  lemma Regroup(p: nat, a: nat, b: nat)
    ensures p * (256 * a + b) == (256 * p) * a + p * b
  {
  }

  lemma TwoDigits(p: nat, a: nat, b: nat, r: nat)
    requires b < 256 && r < p
    ensures p * (256 * a + b) + r == (256 * p) * a + (p * b + r) && p * b + r < 256 * p
  {
    Regroup(p, a, b);
    assert p * b + p == p * (b + 1);
    assert p * (b + 1) <= p * 256;
  }

  lemma DivideAgain(n: nat, p: nat)
    requires p > 0
    ensures n / p / 256 == n / (256 * p)
  {
    var q, r := n / p, n % p;
    var a, b := q / 256, q % 256;
    TwoDigits(p, a, b, r);
    QuotientUnique(n, 256 * p, a, p * b + r);
  }

  /** Pushes the `k` bytes of `len`, most significant first. */
  method PushBigEndian(out: seq<byte>, len: nat, k: nat) returns (res: seq<byte>)
    ensures res == out + WriteBE(len, k)
  {
    res := out;
    var i := k;
    while i > 0
      invariant 0 <= i <= k
      invariant res == out + WriteBE(len / Pow256(i), k - i)
    {
      i := i - 1;
      DivideAgain(len, Pow256(i));
      res := res + [Byte(len / Pow256(i) % 256)];
    }
    assert len / Pow256(0) == len;
  }

  /** Pushes the second header byte and the extended length behind it. */
  method PushLength(out: seq<byte>, masked: bool, len: nat) returns (res: seq<byte>)
    requires len < MAX_LENGTH
    ensures res == out + [SecondByte(masked, Length7(len))] + ExtendedBytes(len)
  {
    var maskBit: byte := if masked then 0x80 else 0x00;
    if len <= 125 {
      res := out + [maskBit | Byte(len)];
    } else if len <= 0xFFFF {
      res := out + [maskBit | Byte(126)];
      res := PushBigEndian(res, len, 2);
    } else {
      res := out + [maskBit | Byte(127)];
      res := PushBigEndian(res, len, 8);
    }
  }

  /** Server to client: never masked. */
  method BuildFrame(opcode: byte, payload: seq<byte>, fin: bool) returns (out: seq<byte>)
    requires |payload| < MAX_LENGTH
    ensures out == FrameBytes(WireFrame(fin, opcode, None, payload))
  {
    out := [(if fin then 0x80 else 0x00) | (opcode & 0x0F)];
    out := PushLength(out, false, |payload|);
    out := out + payload;
  }

  /** A header, four key bytes and the payload masked with them. */
  lemma MaskedTail(head: seq<byte>, key: seq<byte>, masked: seq<byte>, payload: seq<byte>)
    requires |key| == 4 && |masked| == |payload| && forall i :: 0 <= i < |payload| ==> masked[i] == payload[i] ^ key[i % 4]
    ensures
      var out := head + key + masked;
      var at := |out| - |payload|;
      && out[at - 4..at] == key
      && forall i :: 0 <= i < |payload| ==> out[at + i] == payload[i] ^ out[at - 4 + i % 4]
  {
    var out := head + key + masked;
    var at := |out| - |payload|;
    forall i | 0 <= i < |payload|
      ensures out[at + i] == payload[i] ^ out[at - 4 + i % 4]
    {
      assert out[at + i] == masked[i] && out[at - 4 + i % 4] == key[i % 4];
    }
  }

  lemma MaskedFrame(f: WireFrame)
    requires f.mask.Some?
    ensures
      var out, key := FrameBytes(f), f.mask.value;
      var at := |out| - |f.payload|;
      && at >= 4 && out[at - 4..at] == [key.k0, key.k1, key.k2, key.k3]
      && forall i :: 0 <= i < |f.payload| ==> out[at + i] == f.payload[i] ^ out[at - 4 + i % 4]
  {
    var key := f.mask.value;
    MaskRule(key, f.payload);
    var head := [FirstByte(f.fin, f.opcode), SecondByte(true, Length7(|f.payload|))] + ExtendedBytes(|f.payload|);
    assert FrameBytes(f) == head + key.Bytes() + key.Apply(f.payload);
    hide FrameBytes;
    MaskedTail(head, key.Bytes(), key.Apply(f.payload), f.payload);
  }

  /**
   * Client to server: always masked, with a key the caller drew. The four bytes of the key stand in front of
   * the payload, and each payload byte has been combined with one of them, in turn.
   */
  method BuildClientFrame(opcode: byte, payload: seq<byte>, key: Mask) returns (out: seq<byte>)
    requires |payload| < MAX_LENGTH
    ensures out == FrameBytes(WireFrame(true, opcode, Some(key), payload))
    ensures |out| >= |payload| + 4
    ensures
      var at := |out| - |payload|;
      && out[at - 4..at] == [key.k0, key.k1, key.k2, key.k3]
      && forall i :: 0 <= i < |payload| ==> out[at + i] == payload[i] ^ out[at - 4 + i % 4]
  {
    MaskedFrame(WireFrame(true, opcode, Some(key), payload));
    ClientFrame(opcode, payload, key);
    hide FrameBytes, FirstByte, SecondByte, ExtendedBytes;
    out := [0x80 | (opcode & 0x0F)];
    out := PushLength(out, true, |payload|);
    out := out + key.Bytes();
    out := PushMasked(out, payload, key);
  }

  lemma ClientFrame(opcode: byte, payload: seq<byte>, key: Mask)
    ensures FrameBytes(WireFrame(true, opcode, Some(key), payload))
         == [0x80 | (opcode & 0x0F)] + [SecondByte(true, Length7(|payload|))] + ExtendedBytes(|payload|) + key.Bytes() + key.Apply(payload)
  {
    hide SecondByte, ExtendedBytes;
  }

  /** Pushes the payload, each byte combined with its byte of the key. */
  method PushMasked(out: seq<byte>, payload: seq<byte>, key: Mask) returns (res: seq<byte>)
    ensures res == out + key.Apply(payload)
  {
    res := out;
    for i := 0 to |payload|
      invariant res == out + key.Apply(payload)[..i]
    {
      res := res + [payload[i] ^ key.Key(i)];
    }
    assert key.Apply(payload)[..|payload|] == key.Apply(payload);
  }

  /** The payload of a Close frame that carries a status code (section 5.5.1 of RFC 6455). */
  method BuildClose(statusCode: nat) returns (out: seq<byte>)
    requires statusCode < 0x1_0000
    ensures out == FrameBytes(WireFrame(true, OP_CLOSE, None, WriteBE(statusCode, 2)))
  {
    var payload := [Byte(statusCode / 256 % 256)] + [Byte(statusCode % 256)];
    assert payload == WriteBE(statusCode, 2) by {
      assert WriteBE(statusCode / 256, 1) == WriteBE(statusCode / 256 / 256, 0) + [Byte(statusCode / 256 % 256)];
    }
    out := BuildFrame(OP_CLOSE, payload, true);
  }
}
