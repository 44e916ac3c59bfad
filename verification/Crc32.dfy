/**
 * CRC-32 (section 8 of RFC 1952). Three forms of one checksum: long division of the message
 * by the polynomial over GF(2), the bit-serial shift register, and the table loop the code runs.
 * A 32-bit word is the sequence of its bits, least significant first.
 */
module Crc32 {
  import opened Bytes

  function Zeros(n: nat): (w: seq<bool>)
    ensures |w| == n
  {
    seq(n, _ => false)
  }

  type Word = w: seq<bool> | |w| == 32 witness Zeros(32)

  // ---------------------------------------------------------------- numbers and bits

  /** The `k` low bits of `n`. */
  function ToBits(n: nat, k: nat): (w: seq<bool>)
    ensures |w| == k
  {
    if k == 0 then [] else [n % 2 == 1] + ToBits(n / 2, k - 1)
  }

  function ToNat(w: seq<bool>): nat {
    if w == [] then 0 else (if w[0] then 1 else 0) + 2 * ToNat(w[1..])
  }

  lemma {:induction false} ToNatBound(w: seq<bool>)
    ensures ToNat(w) < Pow2(|w|)
  {
    if w != [] {
      ToNatBound(w[1..]);
    }
  }

  lemma {:induction false} BitsOfNat(w: seq<bool>)
    ensures ToBits(ToNat(w), |w|) == w
  {
    if w != [] {
      BitsOfNat(w[1..]);
      assert ToNat(w) / 2 == ToNat(w[1..]);
    }
  }

  lemma {:induction false} NatOfBits(n: nat, k: nat)
    requires n < Pow2(k)
    ensures ToNat(ToBits(n, k)) == n
    decreases k
  {
    if k > 0 {
      NatOfBits(n / 2, k - 1);
      assert ToBits(n, k)[1..] == ToBits(n / 2, k - 1);
    }
  }

  lemma ToNatInjective(v: Word, w: Word)
    requires ToNat(v) == ToNat(w)
    ensures v == w
  {
    BitsOfNat(v);
    BitsOfNat(w);
  }

  lemma {:induction false} ToBitsZero(k: nat)
    ensures ToBits(0, k) == Zeros(k)
  {
    if k > 0 {
      ToBitsZero(k - 1);
    }
  }

  lemma {:induction false} ToBitsWiden(n: nat, k: nat, extra: nat)
    requires n < Pow2(k)
    ensures ToBits(n, k + extra) == ToBits(n, k) + Zeros(extra)
    decreases k
  {
    if k == 0 {
      ToBitsZero(extra);
    } else {
      ToBitsWiden(n / 2, k - 1, extra);
    }
  }

  lemma Pow2Values()
    ensures Pow2(8) == 256 && Pow2(31) == 0x8000_0000 && Pow2(32) == 0x1_0000_0000
  {
    assert Pow2(4) == 16;
    assert Pow2(8) == 256;
    assert Pow2(12) == 16 * Pow2(8);
    assert Pow2(16) == 16 * Pow2(12);
    assert Pow2(20) == 16 * Pow2(16);
    assert Pow2(24) == 16 * Pow2(20);
    assert Pow2(28) == 16 * Pow2(24);
    assert Pow2(31) == 8 * Pow2(28);
  }

  // ---------------------------------------------------------------- the shift register

  /**
   * The polynomial of the standard without its leading term, x^26 + x^23 + ... + x + 1.
   * Words are bit-reversed: the coefficient of x^e is bit 31 - e.
   */
  function Polynomial(): Word {
    seq(32, i requires 0 <= i < 32 => 31 - i in {26, 23, 22, 16, 12, 11, 10, 8, 7, 5, 4, 2, 1, 0})
  }

  function NibbleValue(a: bool, b: bool, c: bool, d: bool): nat {
    (if a then 1 else 0) + (if b then 2 else 0) + (if c then 4 else 0) + (if d then 8 else 0)
  }

  /** Four more bits, one hexadecimal digit, at the low end. */
  lemma Nibble(w: seq<bool>, i: nat)
    requires i + 4 <= |w|
    ensures ToNat(w[i..]) == NibbleValue(w[i], w[i + 1], w[i + 2], w[i + 3]) + 16 * ToNat(w[i + 4..])
  {
    assert w[i..][1..] == w[i + 1..];
    assert ToNat(w[i..]) == (if w[i] then 1 else 0) + 2 * ToNat(w[i + 1..]);
    assert w[i + 1..][1..] == w[i + 2..];
    assert ToNat(w[i + 1..]) == (if w[i + 1] then 1 else 0) + 2 * ToNat(w[i + 2..]);
    assert w[i + 2..][1..] == w[i + 3..];
    assert ToNat(w[i + 2..]) == (if w[i + 2] then 1 else 0) + 2 * ToNat(w[i + 3..]);
    assert w[i + 3..][1..] == w[i + 4..];
  }

  /** The constant in the source, read off byte by byte. */
  lemma PolynomialByte(p: Word, i: nat, rest: nat)
    requires p == Polynomial() && (i == 24 || i == 16 || i == 8 || i == 0) && ToNat(p[i + 8..]) == rest
    ensures ToNat(p[i..]) == 256 * rest + (if i == 24 then 0xED else if i == 16 then 0xB8 else if i == 8 then 0x83 else 0x20)
  {
    Nibble(p, i + 4);
    Nibble(p, i);
  }

  lemma PolynomialCode()
    ensures ToNat(Polynomial()) == 0xEDB88320
  {
    var p := Polynomial();
    assert p[32..] == [] && p[0..] == p;
    PolynomialByte(p, 24, 0);
    PolynomialByte(p, 16, 0xED);
    PolynomialByte(p, 8, 0xEDB8);
    PolynomialByte(p, 0, 0xEDB883);
  }

  function Xor(a: Word, b: Word): Word {
    seq(32, i requires 0 <= i < 32 => a[i] != b[i])
  }

  function Shr(a: Word, k: nat): Word
    requires k <= 32
  {
    a[k..] + Zeros(k)
  }

  function AllOnes(): Word {
    seq(32, _ => true)
  }

  /** One shift, with the polynomial `p` fed back when a one drops out. */
  function Shift(p: Word, c: Word): Word {
    if c[0] then Xor(p, Shr(c, 1)) else Shr(c, 1)
  }

  /** One step of the shift register: the body of the inner loop of `initTable`. */
  function BitStep(c: Word): Word {
    Shift(Polynomial(), c)
  }

  function BitSteps(c: Word, n: nat): Word
    decreases n
  {
    if n == 0 then c else BitSteps(BitStep(c), n - 1)
  }

  // ---------------------------------------------------------------- the checksum, bit by bit

  /** The bits of a message, least significant bit of each byte first. */
  function Bits(data: seq<byte>): (r: seq<bool>)
    ensures |r| == 8 * |data|
  {
    if data == [] then [] else ToBits(Val(data[0]), 8) + Bits(data[1..])
  }

  /** A word that holds one bit, at the low end or at the high end. */
  function Low(b: bool): Word {
    [b] + Zeros(31)
  }

  function High(b: bool): Word {
    Zeros(31) + [b]
  }

  /** The bit-serial shift register: each message bit meets the low bit of the state. */
  function Serial(s: Word, bits: seq<bool>): Word
    decreases |bits|
  {
    if bits == [] then s else Serial(BitStep(Xor(s, Low(bits[0]))), bits[1..])
  }

  /**
   * Schoolbook long division: each bit of the dividend enters at the far end of the remainder
   * (words are bit-reversed), and the polynomial is taken off whenever a one drops out.
   */
  function LongDivision(r: Word, bits: seq<bool>): Word
    decreases |bits|
  {
    if bits == [] then r else LongDivision(Xor(BitStep(r), High(bits[0])), bits[1..])
  }

  // ---------------------------------------------------------------- the table form

  function Wide(b: byte): Word {
    ToBits(Val(b), 8) + Zeros(24)
  }

  /** The table slot the loop looks up, `(crc ^ b) & 0xFF`. */
  function Slot(crc: Word, b: byte): (i: nat)
    ensures i < 256
  {
    Pow2Values();
    ToNatBound(Xor(crc, Wide(b))[..8]);
    ToNat(Xor(crc, Wide(b))[..8])
  }

  /** The contents of table slot `i`. */
  function TableEntry(i: nat): Word {
    BitSteps(ToBits(i, 32), 8)
  }

  /** What the table loop does to the state for one byte. */
  function ByteStep(crc: Word, b: byte): Word {
    Xor(TableEntry(Slot(crc, b)), Shr(crc, 8))
  }

  function Update(crc: Word, data: seq<byte>): Word
    decreases |data|
  {
    if data == [] then crc else Update(ByteStep(crc, data[0]), data[1..])
  }

  function Checksum(data: seq<byte>): Word {
    Xor(Update(AllOnes(), data), AllOnes())
  }

  /** The checksum as the number that travels in a message field. */
  function Crc(data: seq<byte>): (n: nat)
    ensures n < 0x1_0000_0000
  {
    Pow2Values();
    ToNatBound(Checksum(data));
    ToNat(Checksum(data))
  }

  lemma {:induction false} UpdateSplit(crc: Word, a: seq<byte>, b: seq<byte>)
    ensures Update(crc, a + b) == Update(Update(crc, a), b)
    decreases |a|
  {
    if a == [] {
      assert a + b == b;
    } else {
      assert (a + b)[1..] == a[1..] + b;
      UpdateSplit(ByteStep(crc, a[0]), a[1..], b);
    }
  }

  // ---------------------------------------------------------------- linearity

  lemma ShiftLinear(p: Word, x: Word, y: Word)
    ensures Shift(p, Xor(x, y)) == Xor(Shift(p, x), Shift(p, y))
  {
    assert Shr(Xor(x, y), 1) == Xor(Shr(x, 1), Shr(y, 1));
    assert Xor(x, y)[0] == (x[0] != y[0]);
  }

  lemma StepLinear(x: Word, y: Word)
    ensures BitStep(Xor(x, y)) == Xor(BitStep(x), BitStep(y))
  {
    ShiftLinear(Polynomial(), x, y);
  }

  lemma {:induction false} StepsLinear(x: Word, y: Word, n: nat)
    ensures BitSteps(Xor(x, y), n) == Xor(BitSteps(x, n), BitSteps(y, n))
    decreases n
  {
    if n > 0 {
      StepLinear(x, y);
      StepsLinear(BitStep(x), BitStep(y), n - 1);
    }
  }

  lemma {:induction false} StepsAdd(x: Word, m: nat, n: nat)
    ensures BitSteps(x, m + n) == BitSteps(BitSteps(x, m), n)
    decreases m
  {
    if m > 0 {
      StepsAdd(BitStep(x), m - 1, n);
    }
  }

  /** As many steps as there are zeros at the low end only shift. */
  lemma {:induction false} StepsShift(c: Word, n: nat)
    requires n <= 32 && c[..n] == Zeros(n)
    ensures BitSteps(c, n) == Shr(c, n)
    decreases n
  {
    if n > 0 {
      assert !c[..n][0];
      var d := Shr(c, 1);
      assert d[..n - 1] == c[..n][1..] == Zeros(n - 1);
      StepsShift(d, n - 1);
      assert Shr(d, n - 1) == Shr(c, n);
    } else {
      assert Shr(c, 0) == c;
    }
  }

  /** Looking up a table slot is taking eight bit steps on its number. */
  lemma TableEntryOfLow(low: seq<bool>)
    requires |low| == 8
    ensures TableEntry(ToNat(low)) == BitSteps(low + Zeros(24), 8)
  {
    BitsOfNat(low);
    Pow2Values();
    ToNatBound(low);
    ToBitsWiden(ToNat(low), 8, 24);
  }

  function LowByte(x: Word): Word {
    x[..8] + Zeros(24)
  }

  function HighBytes(x: Word): Word {
    Zeros(8) + x[8..]
  }

  lemma HighBytesShift(crc: Word, b: byte)
    ensures BitSteps(HighBytes(Xor(crc, Wide(b))), 8) == Shr(crc, 8)
  {
    var high := HighBytes(Xor(crc, Wide(b)));
    assert high[..8] == Zeros(8);
    StepsShift(high, 8);
    assert Shr(high, 8) == Shr(crc, 8);
  }

  /** The table step is eight bit steps on the state with the byte mixed in. */
  lemma ByteStepIsEightBits(crc: Word, b: byte)
    ensures ByteStep(crc, b) == BitSteps(Xor(crc, Wide(b)), 8)
  {
    var x := Xor(crc, Wide(b));
    assert x == Xor(LowByte(x), HighBytes(x));
    StepsLinear(LowByte(x), HighBytes(x), 8);
    HighBytesShift(crc, b);
    TableEntryOfLow(x[..8]);
  }

  // ---------------------------------------------------------------- table, serial and division agree

  /** Up to 32 message bits, mixed in all at once. */
  function Padded(bits: seq<bool>): Word
    requires |bits| <= 32
  {
    bits + Zeros(32 - |bits|)
  }

  lemma XorAssoc(a: Word, b: Word, c: Word)
    ensures Xor(Xor(a, b), c) == Xor(a, Xor(b, c))
  {
  }

  /** A word whose lowest bit is taken apart from the others. */
  lemma TakeLowBit(s: Word, w: Word)
    ensures BitStep(Xor(s, w)) == Xor(BitStep(Xor(s, Low(w[0]))), Shr(w, 1))
  {
    var upper: Word := [false] + w[1..];
    assert w == Xor(Low(w[0]), upper);
    XorAssoc(s, Low(w[0]), upper);
    StepLinear(Xor(s, Low(w[0])), upper);
    assert BitStep(upper) == Shr(w, 1);
  }

  lemma {:induction false} SerialAtOnce(s: Word, bits: seq<bool>)
    requires |bits| <= 32
    ensures Serial(s, bits) == BitSteps(Xor(s, Padded(bits)), |bits|)
    decreases |bits|
  {
    if bits == [] {
      assert Xor(s, Padded(bits)) == s;
    } else {
      SerialAtOnce(BitStep(Xor(s, Low(bits[0]))), bits[1..]);
      TakeLowBit(s, Padded(bits));
      assert Shr(Padded(bits), 1) == Padded(bits[1..]);
    }
  }

  lemma {:induction false} SerialSplit(s: Word, a: seq<bool>, b: seq<bool>)
    ensures Serial(s, a + b) == Serial(Serial(s, a), b)
    decreases |a|
  {
    if a == [] {
      assert a + b == b;
    } else {
      assert (a + b)[1..] == a[1..] + b;
      SerialSplit(BitStep(Xor(s, Low(a[0]))), a[1..], b);
    }
  }

  /** The table loop computes the bit-serial shift register. */
  lemma {:induction false} UpdateIsSerial(s: Word, data: seq<byte>)
    ensures Update(s, data) == Serial(s, Bits(data))
    decreases |data|
  {
    if data != [] {
      var bits := ToBits(Val(data[0]), 8);
      ByteStepIsEightBits(s, data[0]);
      SerialAtOnce(s, bits);
      SerialSplit(s, bits, Bits(data[1..]));
      UpdateIsSerial(ByteStep(s, data[0]), data[1..]);
    }
  }

  /** The first 32 bits of a dividend just fill the remainder. */
  lemma {:induction false} DivisionLoads(p: seq<bool>, q: seq<bool>, rest: seq<bool>)
    requires |p| + |q| == 32
    ensures LongDivision(Zeros(|q|) + p, q + rest) == LongDivision(p + q, rest)
    decreases |q|
  {
    if q == [] {
      assert Zeros(0) + p == p + q && q + rest == rest;
    } else {
      var r: Word := Zeros(|q|) + p;
      assert (q + rest)[1..] == q[1..] + rest;
      assert Xor(BitStep(r), High(q[0])) == Zeros(|q| - 1) + (p + [q[0]]);
      DivisionLoads(p + [q[0]], q[1..], rest);
      assert p + [q[0]] + q[1..] == p + q;
    }
  }

  /** The dividend: the message followed by 32 zero bits. */
  function Dividend(m: seq<bool>): (d: seq<bool>)
    ensures |d| == |m| + 32
  {
    m + Zeros(32)
  }

  /** A bit that enters at the high end of a shifted word. */
  lemma ShiftIn(s: Word, w: Word, x: bool)
    ensures Xor(Xor(s, Shr(w, 1)), High(x)) == Xor(s, w[1..] + [x])
  {
    forall i | 0 <= i < 32
      ensures Xor(Xor(s, Shr(w, 1)), High(x))[i] == Xor(s, w[1..] + [x])[i]
    {
      assert Shr(w, 1)[i] == (i < 31 && w[1..][i]);
    }
  }

  lemma {:induction false} SerialIsDivision(s: Word, m: seq<bool>)
    ensures Serial(s, m) == LongDivision(Xor(s, Dividend(m)[..32]), Dividend(m)[32..])
    decreases |m|
  {
    var d := Dividend(m);
    if m == [] {
      assert Xor(s, d[..32]) == s;
    } else {
      var w: Word := d[..32];
      var d' := Dividend(m[1..]);
      assert d' == d[1..];
      TakeLowBit(s, w);
      var s' := BitStep(Xor(s, Low(m[0])));
      SerialIsDivision(s', m[1..]);
      ShiftIn(s', w, d[32]);
      assert w[1..] + [d[32]] == d'[..32];
      assert d[32..][0] == d[32] && d[32..][1..] == d'[32..];
    }
  }

  /** The first 32 bits of the dividend complemented, the rest as it is. */
  function Complemented(d: seq<bool>): seq<bool>
    requires |d| >= 32
  {
    Xor(AllOnes(), d[..32]) + d[32..]
  }

  /**
   * What the table loop computes, in the terms of the standard: complement the first 32 bits,
   * append 32 zeros, divide by the polynomial, complement the remainder.
   */
  lemma ChecksumIsDivision(data: seq<byte>)
    ensures Checksum(data) == Xor(LongDivision(Zeros(32), Complemented(Dividend(Bits(data)))), AllOnes())
  {
    var d := Dividend(Bits(data));
    var first := Xor(AllOnes(), d[..32]);
    UpdateIsSerial(AllOnes(), data);
    SerialIsDivision(AllOnes(), Bits(data));
    DivisionLoads([], first, d[32..]);
    assert Zeros(32) + [] == Zeros(32) && [] + first == first;
  }

  lemma OnesByte(w: Word, i: nat, rest: nat)
    requires w == AllOnes() && i <= 24 && ToNat(w[i + 8..]) == rest
    ensures ToNat(w[i..]) == 256 * rest + 0xFF
  {
    Nibble(w, i + 4);
    Nibble(w, i);
  }

  /** The register starts, and the result is masked, with 0xFFFFFFFF. */
  lemma AllOnesCode()
    ensures ToNat(AllOnes()) == 0xFFFF_FFFF
  {
    var w := AllOnes();
    assert w[32..] == [] && w[0..] == w;
    OnesByte(w, 24, 0);
    OnesByte(w, 16, 0xFF);
    OnesByte(w, 8, 0xFFFF);
    OnesByte(w, 0, 0xFF_FFFF);
  }

  lemma {:induction false} ToBitsAt(n: nat, k: nat, i: nat)
    requires i < k
    ensures ToBits(n, k)[i] <==> n / Pow2(i) % 2 == 1
    decreases i
  {
    if i > 0 {
      ToBitsAt(n / 2, k - 1, i - 1);
      HalveFirst(n, Pow2(i - 1));
    }
  }

  lemma HalveFirst(n: nat, p: nat)
    requires p > 0
    ensures n / 2 / p == n / (2 * p)
  {
    var q, r := n / 2 / p, n / 2 % p;
    var rest := 2 * r + n % 2;
    assert n / 2 == p * q + r;
    assert n == 2 * p * q + rest && rest < 2 * p;
    QuotientUnique(n, 2 * p, q, rest);
  }

  /** Bit `i` of a message: bytes in order, least significant bit first. */
  predicate MessageBit(data: seq<byte>, i: nat) {
    i < 8 * |data| && Val(data[i / 8]) / Pow2(i % 8) % 2 == 1
  }

  lemma BitsOfMessage(data: seq<byte>, i: nat)
    requires i < 8 * |data|
    ensures Bits(data)[i] <==> MessageBit(data, i)
  {
    BitsAt(data, i);
    ToBitsAt(Val(data[i / 8]), 8, i % 8);
  }

  /**
   * The checksum bit by bit: `d` is the message and 32 zeros behind it with its first 32 bits negated,
   * and each bit of the checksum is the negated bit of the remainder that `d` leaves.
   */
  lemma ChecksumBits(data: seq<byte>, d: seq<bool>)
    requires |d| == 8 * |data| + 32
    requires forall i :: 0 <= i < |d| ==> d[i] == if i < 32 then !MessageBit(data, i) else MessageBit(data, i)
    ensures forall i :: 0 <= i < 32 ==> Checksum(data)[i] == !LongDivision(Zeros(32), d)[i]
  {
    ChecksumIsDivision(data);
    var m := Dividend(Bits(data));
    forall i | 0 <= i < |d|
      ensures d[i] == Complemented(m)[i]
    {
      if i < 8 * |data| {
        BitsOfMessage(data, i);
      }
    }
    assert d == Complemented(m);
    hide Complemented, LongDivision, Checksum, MessageBit;
  }

  // ---------------------------------------------------------------- error detection

  /** A shift read backwards: its top bit is the bit that dropped out. */
  function Unshift(p: Word, y: Word): Word {
    [y[31]] + seq(31, i requires 0 <= i < 31 => y[i] != (y[31] && p[i]))
  }

  lemma UnshiftShift(p: Word, x: Word)
    requires p[31]
    ensures Unshift(p, Shift(p, x)) == x
  {
    var y := Shift(p, x);
    assert y[31] == x[0];
    forall j | 1 <= j < 32
      ensures Unshift(p, y)[j] == x[j]
    {
      assert Shr(x, 1)[j - 1] == x[j];
    }
  }

  lemma ShiftUnshift(p: Word, y: Word)
    requires p[31]
    ensures Shift(p, Unshift(p, y)) == y
  {
    var x := Unshift(p, y);
    forall i | 0 <= i < 31
      ensures Shr(x, 1)[i] == (y[i] != (y[31] && p[i]))
    {
      assert Shr(x, 1)[i] == x[i + 1];
    }
  }

  /** The step is a bijection on the 32-bit states: every state has a predecessor. */
  lemma StepSurjective(y: Word) returns (x: Word)
    ensures BitStep(x) == y
  {
    x := Unshift(Polynomial(), y);
    ShiftUnshift(Polynomial(), y);
  }

  lemma StepInjective(x: Word, y: Word)
    requires BitStep(x) == BitStep(y)
    ensures x == y
  {
    UnshiftShift(Polynomial(), x);
    UnshiftShift(Polynomial(), y);
  }

  lemma {:induction false} StepsInjective(x: Word, y: Word, n: nat)
    requires BitSteps(x, n) == BitSteps(y, n)
    ensures x == y
    decreases n
  {
    if n > 0 {
      StepsInjective(BitStep(x), BitStep(y), n - 1);
      StepInjective(x, y);
    }
  }

  lemma XorCancel(s: Word, x: Word, y: Word)
    requires Xor(s, x) == Xor(s, y)
    ensures x == y
  {
    forall i | 0 <= i < 32
      ensures x[i] == y[i]
    {
      assert Xor(s, x)[i] == Xor(s, y)[i];
    }
  }

  /** Reading the same bits is a bijection on states. */
  lemma {:induction false} SerialInjective(x: Word, y: Word, bits: seq<bool>)
    requires Serial(x, bits) == Serial(y, bits)
    ensures x == y
    decreases |bits|
  {
    if bits != [] {
      var l := Low(bits[0]);
      SerialInjective(BitStep(Xor(x, l)), BitStep(Xor(y, l)), bits[1..]);
      StepInjective(Xor(x, l), Xor(y, l));
      assert Xor(l, x) == Xor(x, l) == Xor(y, l) == Xor(l, y);
      XorCancel(l, x, y);
    }
  }

  /** From one state, different strings of at most 32 bits lead to different states. */
  lemma SerialSeparates(s: Word, u: seq<bool>, v: seq<bool>)
    requires |u| == |v| <= 32 && Serial(s, u) == Serial(s, v)
    ensures u == v
  {
    SerialAtOnce(s, u);
    SerialAtOnce(s, v);
    StepsInjective(Xor(s, Padded(u)), Xor(s, Padded(v)), |u|);
    XorCancel(s, Padded(u), Padded(v));
    assert Padded(u)[..|u|] == u && Padded(v)[..|v|] == v;
  }

  lemma BurstInBits(s: Word, p: seq<bool>, u: seq<bool>, v: seq<bool>, q: seq<bool>)
    requires |u| == |v| <= 32 && u != v
    ensures Serial(s, p + u + q) != Serial(s, p + v + q)
  {
    SerialSplit(s, p + u, q);
    SerialSplit(s, p + v, q);
    SerialSplit(s, p, u);
    SerialSplit(s, p, v);
    if Serial(s, p + u + q) == Serial(s, p + v + q) {
      SerialInjective(Serial(s, p + u), Serial(s, p + v), q);
      SerialSeparates(Serial(s, p), u, v);
    }
  }

  lemma {:induction false} BitsAt(data: seq<byte>, j: nat)
    requires j < 8 * |data|
    ensures Bits(data)[j] == ToBits(Val(data[j / 8]), 8)[j % 8]
    decreases |data|
  {
    if j < 8 {
      assert j / 8 == 0 && j % 8 == j;
    } else {
      BitsAt(data[1..], j - 8);
      assert (j - 8) / 8 == j / 8 - 1 && (j - 8) % 8 == j % 8;
      assert data[1..][j / 8 - 1] == data[j / 8];
    }
  }

  lemma {:induction false} BitsInjective(x: seq<byte>, y: seq<byte>)
    requires |x| == |y| && Bits(x) == Bits(y)
    ensures x == y
  {
    if x != [] {
      Pow2Values();
      assert ToBits(Val(x[0]), 8) == Bits(x)[..8] == Bits(y)[..8] == ToBits(Val(y[0]), 8);
      NatOfBits(Val(x[0]), 8);
      NatOfBits(Val(y[0]), 8);
      ValInjective(x[0], y[0]);
      assert Bits(x[1..]) == Bits(x)[8..] == Bits(y)[8..] == Bits(y[1..]);
      BitsInjective(x[1..], y[1..]);
    }
  }

  lemma ChecksumInjective(x: seq<byte>, y: seq<byte>)
    requires Checksum(x) == Checksum(y)
    ensures Serial(AllOnes(), Bits(x)) == Serial(AllOnes(), Bits(y))
  {
    UpdateIsSerial(AllOnes(), x);
    UpdateIsSerial(AllOnes(), y);
    var ux, uy := Update(AllOnes(), x), Update(AllOnes(), y);
    assert Xor(AllOnes(), ux) == Xor(ux, AllOnes()) && Xor(AllOnes(), uy) == Xor(uy, AllOnes());
    XorCancel(AllOnes(), ux, uy);
  }

  lemma BurstWindow(s: Word, a: seq<bool>, b: seq<bool>, lo: nat, hi: nat)
    requires |a| == |b| && lo <= hi <= |a| && hi - lo <= 32 && a != b
    requires a[..lo] == b[..lo] && a[hi..] == b[hi..]
    ensures Serial(s, a) != Serial(s, b)
  {
    assert a == a[..lo] + a[lo..hi] + a[hi..];
    assert b == a[..lo] + b[lo..hi] + a[hi..];
    BurstInBits(s, a[..lo], a[lo..hi], b[lo..hi], a[hi..]);
  }

  /** Every error confined to 32 consecutive bits is detected, wherever it falls. */
  lemma BurstDetected(x: seq<byte>, y: seq<byte>, i: nat)
    requires |x| == |y| && x != y
    requires forall j :: 0 <= j < 8 * |x| && (j < i || j >= i + 32) ==> Bits(x)[j] == Bits(y)[j]
    ensures Checksum(x) != Checksum(y)
  {
    var a, b := Bits(x), Bits(y);
    var lo := if i <= |a| then i else |a|;
    var hi := if lo + 32 <= |a| then lo + 32 else |a|;
    if a == b {
      BitsInjective(x, y);
    }
    BurstWindow(AllOnes(), a, b, lo, hi);
    if Checksum(x) == Checksum(y) {
      ChecksumInjective(x, y);
    }
  }

  /** In particular, every error confined to 4 consecutive bytes. */
  lemma FourByteBurstDetected(x: seq<byte>, y: seq<byte>, i: nat)
    requires |x| == |y| && x != y
    requires forall j :: 0 <= j < |x| && (j < i || j >= i + 4) ==> x[j] == y[j]
    ensures Crc(x) != Crc(y)
  {
    forall j | 0 <= j < 8 * |x| && (j < 8 * i || j >= 8 * i + 32)
      ensures Bits(x)[j] == Bits(y)[j]
    {
      BitsAt(x, j);
      BitsAt(y, j);
      assert x[j / 8] == y[j / 8];
    }
    BurstDetected(x, y, 8 * i);
    if Crc(x) == Crc(y) {
      ToNatInjective(Checksum(x), Checksum(y));
    }
  }

  // ---------------------------------------------------------------- the checksum object

  ghost predicate IsTable(t: seq<Word>) {
    |t| == 256 && forall i :: 0 <= i < 256 ==> t[i] == TableEntry(i)
  }

  class CRC32 {
    const table: array<Word>
    var current: Word

    ghost predicate Valid()
      reads table
    {
      IsTable(table[..])
    }

    constructor ()
      ensures Valid() && current == AllOnes() && fresh(table)
    {
      table := new Word[256];
      current := AllOnes();
      new;
      InitTable();
    }

    method InitTable()
      requires table.Length == 256
      modifies table
      ensures Valid()
    {
      for i := 0 to 256
        invariant forall k :: 0 <= k < i ==> table[k] == TableEntry(k)
      {
        var c: Word := ToBits(i, 32);
        for j := 0 to 8
          invariant BitSteps(c, 8 - j) == TableEntry(i)
        {
          if c[0] {
            c := Xor(Polynomial(), Shr(c, 1));
          } else {
            c := Shr(c, 1);
          }
        }
        table[i] := c;
      }
    }

    /** One-shot checksum. */
    method OneShot(data: seq<byte>) returns (r: Word)
      requires Valid()
      ensures r == Checksum(data)
    {
      var crc := AllOnes();
      for i := 0 to |data|
        invariant Update(crc, data[i..]) == Update(AllOnes(), data)
      {
        assert data[i..][0] == data[i] && data[i..][1..] == data[i + 1..];
        assert table[..][Slot(crc, data[i])] == table[Slot(crc, data[i])];
        crc := Xor(table[Slot(crc, data[i])], Shr(crc, 8));
      }
      r := Xor(crc, AllOnes());
    }

    method Reset()
      modifies this`current
      ensures current == AllOnes()
    {
      current := AllOnes();
    }

    /** Takes in one more block. */
    method Feed(data: seq<byte>)
      requires Valid()
      modifies this`current
      ensures current == Update(old(current), data)
    {
      for i := 0 to |data|
        invariant Update(current, data[i..]) == Update(old(current), data)
      {
        assert data[i..][0] == data[i] && data[i..][1..] == data[i + 1..];
        assert table[..][Slot(current, data[i])] == table[Slot(current, data[i])];
        current := Xor(table[Slot(current, data[i])], Shr(current, 8));
      }
    }

    method Finish() returns (r: Word)
      ensures r == Xor(current, AllOnes())
    {
      r := Xor(current, AllOnes());
    }

    /** A file read block by block: any split of the data gives the one-shot checksum. */
    method StreamBlocks(blocks: seq<seq<byte>>) returns (r: Word)
      requires Valid()
      modifies this`current
      ensures r == Checksum(Concat(blocks))
    {
      Reset();
      for i := 0 to |blocks|
        invariant Valid()
        invariant current == Update(AllOnes(), Concat(blocks[..i]))
      {
        assert blocks[..i + 1] == blocks[..i] + [blocks[i]];
        ConcatAppend(blocks[..i], [blocks[i]]);
        assert Concat([blocks[i]]) == blocks[i];
        UpdateSplit(AllOnes(), Concat(blocks[..i]), blocks[i]);
        Feed(blocks[i]);
      }
      assert blocks[..|blocks|] == blocks;
      r := Finish();
    }
  }
}
