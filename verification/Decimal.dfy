/** Decimal numbers as text: how they are written into names and headers, and read back. */
module Decimal {
  import opened Bytes

  predicate IsDigit(b: byte) {
    48 <= Val(b) <= 57
  }

  function Digit(n: nat): byte
    requires n < 10
  {
    Byte(48 + n)
  }

  function DigitValue(b: byte): nat {
    if Val(b) >= 48 then Val(b) - 48 else 0
  }

  function WriteDecimal(n: nat): (s: seq<byte>)
    ensures |s| > 0
  {
    if n < 10 then [Digit(n)] else WriteDecimal(n / 10) + [Digit(n % 10)]
  }

  /** The number a string of digits stands for. */
  function DigitsValue(s: seq<byte>): nat {
    if s == [] then 0 else 10 * DigitsValue(s[..|s| - 1]) + DigitValue(s[|s| - 1])
  }

  /** How many digits the text begins with. */
  function LeadingDigits(s: seq<byte>): (n: nat)
    ensures n <= |s|
  {
    if s == [] || !IsDigit(s[0]) then 0 else 1 + LeadingDigits(s[1..])
  }

  lemma DigitRead(n: nat)
    requires n < 10
    ensures IsDigit(Digit(n)) && DigitValue(Digit(n)) == n
  {
    ValByte(48 + n);
  }

  lemma OneMoreDigit(s: seq<byte>, b: byte)
    ensures DigitsValue(s + [b]) == 10 * DigitsValue(s) + DigitValue(b)
  {
    hide DigitValue;
    assert (s + [b])[..|s|] == s;
  }

  /** Writing and reading back. */
  lemma {:induction false} DecimalRoundTrip(n: nat)
    ensures DigitsValue(WriteDecimal(n)) == n && forall b :: b in WriteDecimal(n) ==> IsDigit(b)
  {
    hide Digit, DigitValue, IsDigit, DigitsValue;
    if n < 10 {
      DigitRead(n);
      OneMoreDigit([], Digit(n));
      assert [] + [Digit(n)] == [Digit(n)];
      NoDigits();
    } else {
      DecimalRoundTrip(n / 10);
      DigitRead(n % 10);
      OneMoreDigit(WriteDecimal(n / 10), Digit(n % 10));
    }
  }

  lemma NoDigits()
    ensures DigitsValue([]) == 0
  {
  }

  lemma {:induction false} DigitsThenOther(s: seq<byte>, rest: seq<byte>)
    requires forall b :: b in s ==> IsDigit(b)
    requires rest == [] || !IsDigit(rest[0])
    ensures LeadingDigits(s + rest) == |s|
  {
    hide IsDigit;
    if s == [] {
      assert s + rest == rest;
    } else {
      assert s[0] in s && (s + rest)[1..] == s[1..] + rest;
      DigitsThenOther(s[1..], rest);
    }
  }

  /** A number followed by something that is no digit can be taken apart in one way only. */
  lemma NumberThenOther(m: nat, a: seq<byte>, n: nat, b: seq<byte>)
    requires (a == [] || !IsDigit(a[0])) && (b == [] || !IsDigit(b[0]))
    requires WriteDecimal(m) + a == WriteDecimal(n) + b
    ensures m == n && a == b
  {
    DecimalRoundTrip(m);
    DecimalRoundTrip(n);
    hide WriteDecimal, IsDigit;
    var x, y := WriteDecimal(m), WriteDecimal(n);
    DigitsThenOther(x, a);
    DigitsThenOther(y, b);
    assert x == (x + a)[..|x|] && y == (y + b)[..|y|];
    assert a == (x + a)[|x|..] && b == (y + b)[|y|..];
  }

  // ---------------------------------------------------------------- reading a header value

  predicate IsBlank(b: byte) {
    Val(b) == 32 || 9 <= Val(b) <= 13
  }

  function SkipBlanks(s: seq<byte>): seq<byte> {
    if s != [] && IsBlank(s[0]) then SkipBlanks(s[1..]) else s
  }

  function TakeDigits(s: seq<byte>): Option<nat> {
    var n := LeadingDigits(s);
    if n == 0 || DigitsValue(s[..n]) >= U64 then None else Some(DigitsValue(s[..n]))
  }

  /**
   * The 64-bit number at the front of a text, as `std::stoull` reads it: white space, a sign,
   * digits; what follows is ignored, a minus sign negates modulo 2^64, and without digits or with too
   * large a number there is none.
   */
  function ReadUnsigned(text: seq<byte>): Option<nat> {
    var s := SkipBlanks(text);
    if s != [] && Val(s[0]) == 43 then TakeDigits(s[1..])
    else if s != [] && Val(s[0]) == 45 then
      var n := TakeDigits(s[1..]);
      if n.None? then None else Some((U64 - n.value) % U64)
    else TakeDigits(s)
  }

  lemma ReadWritten(n: nat)
    requires n < U64
    ensures ReadUnsigned(WriteDecimal(n)) == Some(n)
  {
    DecimalRoundTrip(n);
    var s := WriteDecimal(n);
    hide WriteDecimal, DigitsValue;
    assert s[0] in s;
    DigitsThenOther(s, []);
    assert s + [] == s && s[..|s|] == s;
  }

  lemma {:induction false} BlanksSkipped(blanks: seq<byte>, s: seq<byte>)
    requires (forall b :: b in blanks ==> IsBlank(b)) && (s == [] || !IsBlank(s[0]))
    ensures SkipBlanks(blanks + s) == s
  {
    hide IsBlank;
    if blanks == [] {
      assert blanks + s == s;
    } else {
      assert blanks[0] in blanks && (blanks + s)[1..] == blanks[1..] + s;
      BlanksSkipped(blanks[1..], s);
    }
  }

  lemma WrittenTaken(n: nat, rest: seq<byte>)
    requires rest == [] || !IsDigit(rest[0])
    ensures TakeDigits(WriteDecimal(n) + rest) == if n < 0x1_0000_0000_0000_0000 then Some(n) else None
  {
    DecimalRoundTrip(n);
    var s := WriteDecimal(n);
    DigitsThenOther(s, rest);
    hide WriteDecimal, DigitsValue, IsDigit;
    assert (s + rest)[..|s|] == s;
  }

  /** A sign in front of the number: none, a plus, or a minus, as ASCII codes. */
  function Sign(negative: Option<bool>): seq<byte> {
    match negative case None => [] case Some(m) => [if m then 45 else 43]
  }

  lemma SignCodes()
    ensures Val(43) == 43 && Val(45) == 45
  {
  }

  lemma NumberStarts(n: nat, rest: seq<byte>)
    ensures
      var s := WriteDecimal(n) + rest;
      s != [] && IsDigit(s[0]) && !IsBlank(s[0]) && Val(s[0]) != 43 && Val(s[0]) != 45
  {
    DecimalRoundTrip(n);
    assert WriteDecimal(n)[0] in WriteDecimal(n);
    hide WriteDecimal;
  }

  /**
   * White space, a sign, a number, and anything that is no digit behind it: the number, negated modulo 2^64
   * behind a minus; none if it has more than 64 bits.
   */
  lemma ReadInContext(blanks: seq<byte>, negative: Option<bool>, n: nat, rest: seq<byte>)
    requires (forall b :: b in blanks ==> IsBlank(b)) && (rest == [] || !IsDigit(rest[0]))
    ensures ReadUnsigned(blanks + Sign(negative) + WriteDecimal(n) + rest)
         == if n >= 0x1_0000_0000_0000_0000 then None
            else if negative == Some(true) && 0 < n then Some(0x1_0000_0000_0000_0000 - n)
            else Some(n)
  {
    WrittenTaken(n, rest);
    NumberStarts(n, rest);
    hide *;
    var number := WriteDecimal(n) + rest;
    var s := Sign(negative) + number;
    Regrouped(blanks, Sign(negative), WriteDecimal(n), rest);
    SignedStart(negative, number);
    BlanksSkipped(blanks, s);
    SignedNumber(blanks + s, negative, number);
    Complement(n);
  }

  lemma Regrouped(a: seq<byte>, b: seq<byte>, c: seq<byte>, d: seq<byte>)
    ensures a + b + c + d == a + (b + (c + d))
  {
  }

  lemma Complement(n: nat)
    ensures 0 < n < 0x1_0000_0000_0000_0000 ==> Complemented(n) == 0x1_0000_0000_0000_0000 - n
    ensures Complemented(0) == 0
  {
  }

  function Complemented(n: nat): nat
    requires n < 0x1_0000_0000_0000_0000
  {
    (U64 - n) % U64
  }

  lemma SignedNumber(text: seq<byte>, negative: Option<bool>, number: seq<byte>)
    requires
      var s := SkipBlanks(text);
      && s != []
      && (negative.None? ==> s == number)
      && (negative.Some? ==> s[1..] == number)
      && (Val(s[0]) == 43 <==> negative == Some(false)) && (Val(s[0]) == 45 <==> negative == Some(true))
    ensures TakeDigits(number).Some? ==> TakeDigits(number).value < 0x1_0000_0000_0000_0000
    ensures ReadUnsigned(text)
         == if negative == Some(true) && TakeDigits(number).Some? then Some(Complemented(TakeDigits(number).value)) else TakeDigits(number)
  {
    hide SkipBlanks, Val, DigitsValue, LeadingDigits;
    var s := SkipBlanks(text);
    if negative.None? {
      assert ReadUnsigned(text) == TakeDigits(s);
    } else {
      assert negative.value <==> Val(s[0]) == 45;
    }
  }

  lemma SignedStart(negative: Option<bool>, number: seq<byte>)
    requires number != [] && !IsBlank(number[0]) && Val(number[0]) != 43 && Val(number[0]) != 45
    ensures
      var s := Sign(negative) + number;
      && s != [] && !IsBlank(s[0])
      && (negative.None? ==> s == number)
      && (negative.Some? ==> s[1..] == number)
      && (Val(s[0]) == 43 <==> negative == Some(false)) && (Val(s[0]) == 45 <==> negative == Some(true))
  {
    SignCodes();
    NotBlank(negative);
    hide IsBlank, Val;
  }

  lemma NotBlank(negative: Option<bool>)
    ensures negative.Some? ==> !IsBlank(Sign(negative)[0]) && Val(Sign(negative)[0]) == if negative.value then 45 else 43
  {
  }

  /** Without a digit there is no number. */
  lemma NothingRead(blanks: seq<byte>, s: seq<byte>)
    requires (forall b :: b in blanks ==> IsBlank(b)) && (s == [] || (!IsBlank(s[0]) && !IsDigit(s[0]) && Val(s[0]) != 43 && Val(s[0]) != 45))
    ensures ReadUnsigned(blanks + s) == None
  {
    hide IsBlank;
    BlanksSkipped(blanks, s);
  }
}
