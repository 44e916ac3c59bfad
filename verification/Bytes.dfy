/** Bytes and big-endian numbers, shared by every module that reads or writes the wire. */
module Bytes {
  type byte = bv8

  datatype Option<+T> = None | Some(value: T)

  /** The unsigned value of a byte. */
  function Val(b: byte): (n: nat)
    ensures n < 256
  {
    b as nat
  }

  /** The byte whose unsigned value is `n`, that is, the cast to uint8_t of a number below 256. */
  function Byte(n: nat): byte
    requires n < 256
  {
    if n == 0 then 0 else Byte(n - 1) + 1
  }

  lemma Increment(b: byte)
    requires Val(b) < 255
    ensures Val(b + 1) == Val(b) + 1
  {
    assert b < 255;
  }

  lemma {:induction false} ValByte(n: nat)
    requires n < 256
    ensures Val(Byte(n)) == n
  {
    if n > 0 {
      ValByte(n - 1);
      Increment(Byte(n - 1));
    }
  }

  lemma ValInjective(b: byte, c: byte)
    requires Val(b) == Val(c)
    ensures b == c
  {
  }

  lemma ByteVal(b: byte)
    ensures Byte(Val(b)) == b
  {
    ValByte(Val(b));
    ValInjective(b, Byte(Val(b)));
  }

  /** The mask bit beside a seven-bit length, as the second byte of a frame header packs them. */
  lemma SevenBits(n: nat)
    requires n < 128
    ensures Val((0x80 | Byte(n)) & 0x7F) == n && (0x80 | Byte(n)) & 0x80 != 0
    ensures Val(Byte(n) & 0x7F) == n && Byte(n) & 0x80 == 0
  {
    ValByte(n);
    SmallTopBit(Byte(n));
  }

  lemma SmallTopBit(b: byte)
    requires Val(b) < 128
    ensures (0x80 | b) & 0x7F == b && b & 0x7F == b && b & 0x80 == 0 && (0x80 | b) & 0x80 != 0
  {
    assert b < 128;
  }

  /** 256 to the power `k`. */
  function Pow256(k: nat): (p: nat)
    ensures p > 0
  {
    if k == 0 then 1 else 256 * Pow256(k - 1)
  }

  lemma TimesAtLeast(d: nat, k: int)
    requires k >= 1
    ensures d * k >= d
  {
  }

  lemma QuotientUnique(n: nat, d: nat, q: nat, r: nat)
    requires d > 0 && n == d * q + r && r < d
    ensures n / d == q
  {
    var q' := n / d;
    assert d * (q' - q) == r - n % d;
    if q' > q {
      TimesAtLeast(d, q' - q);
    } else if q > q' {
      TimesAtLeast(d, q - q');
    }
  }

  /** 2 to the power `k`. */
  function Pow2(k: nat): (p: nat)
    ensures p > 0
  {
    if k == 0 then 1 else 2 * Pow2(k - 1)
  }

  const U32: nat := 0x1_0000_0000
  const U64: nat := 0x1_0000_0000_0000_0000

  lemma Pow256Values()
    ensures Pow256(1) == 256 && Pow256(2) == 0x1_0000 && Pow256(4) == U32
    ensures Pow256(8) == U64
  {
    assert Pow256(2) == 256 * Pow256(1);
    assert Pow256(4) == 256 * 256 * Pow256(2);
    assert Pow256(6) == 256 * 256 * Pow256(4);
    assert Pow256(8) == 256 * 256 * Pow256(6);
  }

  /** The number a big-endian byte string stands for: the shift-and-or loop of the readers. */
  function ReadBE(s: seq<byte>): (n: nat)
    ensures n < Pow256(|s|)
  {
    if s == [] then 0 else 256 * ReadBE(s[..|s| - 1]) + Val(s[|s| - 1])
  }

  /** The `k` big-endian bytes of `n`: the shift-and-mask loop of the writers. */
  function WriteBE(n: nat, k: nat): (s: seq<byte>)
    ensures |s| == k
  {
    if k == 0 then [] else WriteBE(n / 256, k - 1) + [Byte(n % 256)]
  }

  lemma {:induction false} ReadWriteBE(n: nat, k: nat)
    requires n < Pow256(k)
    ensures ReadBE(WriteBE(n, k)) == n
  {
    if k > 0 {
      var s := WriteBE(n, k);
      ReadWriteBE(n / 256, k - 1);
      ValByte(n % 256);
      assert s[..k - 1] == WriteBE(n / 256, k - 1) && s[k - 1] == Byte(n % 256);
    }
  }

  lemma WriteOneMore(a: nat, b: nat, k: nat)
    requires b < 256
    ensures WriteBE(256 * a + b, k + 1) == WriteBE(a, k) + [Byte(b)]
  {
    hide Byte;
    var n := 256 * a + b;
    assert n / 256 == a && n % 256 == b;
  }

  lemma ReadOneMore(init: seq<byte>, last: byte)
    ensures ReadBE(init + [last]) == 256 * ReadBE(init) + Val(last)
  {
    hide Val;
    assert (init + [last])[..|init|] == init;
  }

  lemma {:induction false} WriteReadBE(s: seq<byte>)
    ensures WriteBE(ReadBE(s), |s|) == s
  {
    if s != [] {
      var init, last := s[..|s| - 1], s[|s| - 1];
      assert s == init + [last];
      hide *;
      WriteReadBE(init);
      WriteReadOneMore(init, last);
    }
  }

  lemma WriteReadOneMore(init: seq<byte>, last: byte)
    requires WriteBE(ReadBE(init), |init|) == init
    ensures WriteBE(ReadBE(init + [last]), |init| + 1) == init + [last]
  {
    hide *;
    ReadOneMore(init, last);
    WriteOneMore(ReadBE(init), Val(last), |init|);
    ByteVal(last);
  }

  lemma Associate<T>(a: seq<T>, b: seq<T>, c: seq<T>)
    ensures (a + b) + c == a + (b + c)
  {
  }

  /** The concatenation of a list of byte strings. */
  function Concat<T>(parts: seq<seq<T>>): seq<T> {
    if parts == [] then [] else parts[0] + Concat(parts[1..])
  }

  lemma {:induction false} ConcatAppend<T>(a: seq<seq<T>>, b: seq<seq<T>>)
    ensures Concat(a + b) == Concat(a) + Concat(b)
    decreases |a|
  {
    if a == [] {
      assert a + b == b;
    } else {
      ConcatAppend(a[1..], b);
      assert (a + b)[0] == a[0] && (a + b)[1..] == a[1..] + b;
      assert a[0] + (Concat(a[1..]) + Concat(b)) == Concat(a) + Concat(b);
    }
  }

  /** The bytes of an ASCII text. */
  function Ascii(s: string): (b: seq<byte>)
    ensures |b| == |s|
  {
    seq(|s|, i requires 0 <= i < |s| => Byte(s[i] as nat % 256))
  }

  lemma AsciiAppend(a: string, b: string)
    ensures Ascii(a + b) == Ascii(a) + Ascii(b)
  {
    hide Byte;
  }

  /** The text is its character codes. */
  lemma AsciiCodes(s: string)
    ensures forall i :: 0 <= i < |s| && s[i] as nat < 256 ==> Val(Ascii(s)[i]) == s[i] as nat
  {
    forall i | 0 <= i < |s| && s[i] as nat < 256
      ensures Val(Ascii(s)[i]) == s[i] as nat
    {
      ValByte(s[i] as nat);
    }
  }

  /** Byte `i` of `k` is the digit of 256 to the power `k - 1 - i`: most significant first. */
  lemma {:induction false} WriteBEAt(n: nat, k: nat, i: nat)
    requires i < k
    ensures WriteBE(n, k)[i] == Byte(n / Pow256(k - 1 - i) % 256)
    decreases k
  {
    hide Byte;
    if i < k - 1 {
      WriteBEAt(n / 256, k - 1, i);
      DivideTwice(n, Pow256(k - 2 - i));
    }
  }

  lemma DivideTwice(n: nat, p: nat)
    requires p > 0
    ensures n / 256 / p == n / (256 * p)
  {
    var m, d := n / 256, n % 256;
    var q, r := m / p, m % p;
    assert m == p * q + r;
    assert n == 256 * p * q + (256 * r + d);
    QuotientUnique(n, 256 * p, q, 256 * r + d);
  }
}
