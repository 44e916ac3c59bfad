/** Names of files on disk: how a client's name is cleaned, and how ids and names make file names. */
module FileNames {
  import opened Bytes
  import opened Decimal

  const MAX_CLEAN: nat := 200

  predicate IsSeparator(b: byte) {
    b == 47 || b == 92
  }

  /** Bytes that may not stand in a file name: control characters and `/ \ : < > " | * ?`. */
  predicate IsForbidden(b: byte) {
    b < 32 || IsSeparator(b) || b == 58 || b == 60 || b == 62 || b == 34 || b == 124 || b == 42 || b == 63
  }

  /** Bytes a name may not end with: space and dot. */
  predicate IsLoose(b: byte) {
    b == 32 || b == 46
  }

  /** What stands behind the last separator. */
  function BaseName(raw: seq<byte>): (r: seq<byte>)
    ensures |r| <= |raw|
    ensures forall b :: b in r ==> !IsSeparator(b)
  {
    if raw == [] then []
    else if IsSeparator(raw[|raw| - 1]) then []
    else BaseName(raw[..|raw| - 1]) + [raw[|raw| - 1]]
  }

  function TrimEnd(s: seq<byte>): (r: seq<byte>)
    ensures |r| <= |s| && r == s[..|r|]
    ensures r != [] ==> !IsLoose(r[|r| - 1])
  {
    if s != [] && IsLoose(s[|s| - 1]) then
      assert s[..|s| - 1][..|TrimEnd(s[..|s| - 1])|] == s[..|TrimEnd(s[..|s| - 1])|];
      TrimEnd(s[..|s| - 1])
    else s
  }

  /** The first allowed bytes, at most `room` of them. */
  function Allowed(s: seq<byte>, room: nat): (r: seq<byte>)
    ensures |r| <= room && |r| <= |s|
    ensures forall b :: b in r ==> !IsForbidden(b)
  {
    if s == [] || room == 0 then []
    else if IsForbidden(s[0]) then Allowed(s[1..], room)
    else [s[0]] + Allowed(s[1..], room - 1)
  }

  function Clean(raw: seq<byte>): (r: seq<byte>) {
    TrimEnd(Allowed(TrimEnd(BaseName(raw)), MAX_CLEAN))
  }

  /** The bytes that may stand in a name, by number: not a control character and none of `" * / : < > ? \ |`. */
  predicate MayStand(b: byte) {
    Val(b) >= 32 && Val(b) !in {34, 42, 47, 58, 60, 62, 63, 92, 124}
  }

  /** The bytes a name may end with: no space and no dot. */
  predicate MayEnd(b: byte) {
    Val(b) != 32 && Val(b) != 46
  }

  lemma ByteClasses(b: byte)
    ensures IsForbidden(b) <==> !MayStand(b)
    ensures IsLoose(b) <==> !MayEnd(b)
    ensures IsSeparator(b) <==> Val(b) == 47 || Val(b) == 92
  {
  }

  /** What cleaning guarantees. */
  lemma CleanIsSafe(raw: seq<byte>)
    ensures |Clean(raw)| <= 200 && |Clean(raw)| <= |raw|
    ensures forall b :: b in Clean(raw) ==> MayStand(b)
    ensures Clean(raw) != [] ==> MayEnd(Clean(raw)[|Clean(raw)| - 1])
  {
    forall b
      ensures IsForbidden(b) <==> !MayStand(b)
      ensures IsLoose(b) <==> !MayEnd(b)
    {
      ByteClasses(b);
    }
    hide IsForbidden, MayStand, IsLoose, MayEnd;
    var a := Allowed(TrimEnd(BaseName(raw)), MAX_CLEAN);
    assert forall b :: b in TrimEnd(a) ==> b in a;
  }

  lemma {:induction false} NothingToCut(s: seq<byte>)
    requires forall b :: b in s ==> !IsSeparator(b)
    ensures BaseName(s) == s
  {
    if s != [] {
      assert s[|s| - 1] in s;
      NothingToCut(s[..|s| - 1]);
    }
  }

  lemma {:induction false} NothingToDrop(s: seq<byte>, room: nat)
    requires |s| <= room && forall b :: b in s ==> !IsForbidden(b)
    ensures Allowed(s, room) == s
  {
    if s != [] {
      assert s[0] in s;
      NothingToDrop(s[1..], room - 1);
    }
  }

  /** A cleaned name stays as it is. */
  lemma CleanTwice(raw: seq<byte>)
    ensures Clean(Clean(raw)) == Clean(raw)
  {
    CleanIsSafe(raw);
    hide Clean, MayStand, MayEnd;
    NameKept(Clean(raw));
  }

  /** A name that is short enough, allowed throughout and not loose at its end is kept as it is. */
  lemma NameKept(name: seq<byte>)
    requires |name| <= 200 && (forall b :: b in name ==> MayStand(b)) && (name != [] ==> MayEnd(name[|name| - 1]))
    ensures Clean(name) == name
  {
    NameAllowed(name);
    NothingToCut(name);
    NothingToDrop(name, 200);
    hide IsForbidden, IsSeparator, MayStand, MayEnd;
    assert TrimEnd(name) == name;
  }

  lemma NameAllowed(name: seq<byte>)
    requires (forall b :: b in name ==> MayStand(b)) && (name != [] ==> MayEnd(name[|name| - 1]))
    ensures forall b :: b in name ==> !IsForbidden(b) && !IsSeparator(b)
    ensures name != [] ==> !IsLoose(name[|name| - 1])
  {
    forall b | b in name
      ensures !IsForbidden(b) && !IsSeparator(b)
    {
      ByteClasses(b);
    }
    if name != [] {
      ByteClasses(name[|name| - 1]);
    }
  }

  lemma {:induction false} CutBehind(path: seq<byte>, name: seq<byte>)
    requires (forall b :: b in name ==> !IsSeparator(b)) && path != [] && IsSeparator(path[|path| - 1])
    ensures BaseName(path + name) == name
  {
    hide IsSeparator;
    if name == [] {
      assert path + name == path;
    } else {
      var m := |name| - 1;
      assert name[m] in name;
      assert (path + name)[..|path| + m] == path + name[..m];
      CutBehind(path, name[..m]);
    }
  }

  /** Of a path, whatever it is, exactly the name behind its last slash or backslash is kept. */
  lemma NameBehindPath(path: seq<byte>, separator: byte, name: seq<byte>)
    requires Val(separator) == 47 || Val(separator) == 92
    requires |name| <= 200 && (forall b :: b in name ==> MayStand(b)) && (name != [] ==> MayEnd(name[|name| - 1]))
    ensures Clean(path + [separator] + name) == name
  {
    ByteClasses(separator);
    NameAllowed(name);
    NameKept(name);
    NothingToCut(name);
    hide IsForbidden, IsSeparator, MayStand, MayEnd, TrimEnd, Allowed;
    CutBehind(path + [separator], name);
  }

  lemma {:induction false} LooseTail(s: seq<byte>, tail: seq<byte>)
    requires (forall b :: b in tail ==> IsLoose(b)) && (s != [] ==> !IsLoose(s[|s| - 1]))
    ensures TrimEnd(s + tail) == s
    decreases |tail|
  {
    hide IsLoose;
    if tail == [] {
      assert s + tail == s;
    } else {
      var m := |tail| - 1;
      assert tail[m] in tail;
      assert (s + tail)[..|s| + m] == s + tail[..m];
      LooseTail(s, tail[..m]);
    }
  }

  lemma {:induction false} LooseIsNoSeparator(tail: seq<byte>)
    requires forall b :: b in tail ==> !MayEnd(b)
    ensures forall b :: b in tail ==> IsLoose(b) && !IsSeparator(b)
  {
    forall b | b in tail
      ensures IsLoose(b) && !IsSeparator(b)
    {
      ByteClasses(b);
    }
  }

  /** Spaces and dots at the end are dropped, and nothing before them. */
  lemma LooseEndDropped(name: seq<byte>, tail: seq<byte>)
    requires |name| <= 200 && (forall b :: b in name ==> MayStand(b)) && (name != [] ==> MayEnd(name[|name| - 1]))
    requires forall b :: b in tail ==> !MayEnd(b)
    ensures Clean(name + tail) == name
  {
    LooseIsNoSeparator(tail);
    NameAllowed(name);
    NameKept(name);
    NothingToCut(name);
    hide IsForbidden, IsSeparator, IsLoose, MayStand, MayEnd, Allowed;
    NothingToCut(name + tail);
    LooseTail(name, tail);
    LooseTail(name, []);
    assert name + [] == name;
  }

  /** Byte by byte from the front: dropped if it is forbidden or the name is full, else kept. */
  lemma {:induction false} AllowedOneMore(s: seq<byte>, b: byte, room: nat)
    ensures Allowed(s + [b], room) == Allowed(s, room) + (if MayStand(b) && |Allowed(s, room)| < room then [b] else [])
    decreases |s|
  {
    ByteClasses(b);
    hide IsForbidden, MayStand;
    if s == [] {
      assert s + [b] == [b] && [b][1..] == [];
      assert Allowed([], room) == [];
    } else if room > 0 {
      assert (s + [b])[0] == s[0] && (s + [b])[1..] == s[1..] + [b];
      if IsForbidden(s[0]) {
        AllowedOneMore(s[1..], b, room);
      } else {
        AllowedOneMore(s[1..], b, room - 1);
        Associate([s[0]], Allowed(s[1..], room - 1), if MayStand(b) && |Allowed(s[1..], room - 1)| < room - 1 then [b] else []);
      }
    } else {
      assert Allowed(s, room) + [] == Allowed(s, room);
    }
  }

  /** The scan for the last separator, the filter and the two trims. */
  method SanitizeName(raw: seq<byte>) returns (name: seq<byte>)
    ensures name == Clean(raw)
  {
    var base := CutToBase(raw);
    base := Trim(base);
    name := FilterName(base);
    name := Trim(name);
  }

  /** One turn of the filter. */
  lemma FilterTurn(name: seq<byte>, base: seq<byte>, i: nat, room: nat)
    requires i < |base| && room > 0
    ensures Allowed(base[i..], room)
         == if IsForbidden(base[i]) then Allowed(base[i + 1..], room) else [base[i]] + Allowed(base[i + 1..], room - 1)
    ensures !IsForbidden(base[i]) ==>
      name + Allowed(base[i..], room) == (name + [base[i]]) + Allowed(base[i + 1..], room - 1)
  {
    hide IsForbidden;
    assert base[i..][0] == base[i] && base[i..][1..] == base[i + 1..];
    if !IsForbidden(base[i]) {
      Associate(name, [base[i]], Allowed(base[i + 1..], room - 1));
    }
  }

  lemma FilterEnd(name: seq<byte>, base: seq<byte>, i: nat, room: nat)
    requires i <= |base| && (i == |base| || room == 0)
    ensures name + Allowed(base[i..], room) == name
  {
  }

  method FilterName(base: seq<byte>) returns (name: seq<byte>)
    ensures name == Allowed(base, MAX_CLEAN)
  {
    name := [];
    var i := 0;
    assert base[0..] == base && [] + Allowed(base, MAX_CLEAN) == Allowed(base, MAX_CLEAN);
    hide IsForbidden, Allowed;
    while i < |base| && |name| < MAX_CLEAN
      invariant 0 <= i <= |base| && |name| <= MAX_CLEAN
      invariant name + Allowed(base[i..], MAX_CLEAN - |name|) == Allowed(base, MAX_CLEAN)
    {
      FilterTurn(name, base, i, MAX_CLEAN - |name|);
      if !IsForbidden(base[i]) {
        name := name + [base[i]];
      }
      i := i + 1;
    }
    FilterEnd(name, base, i, MAX_CLEAN - |name|);
  }

  method CutToBase(raw: seq<byte>) returns (base: seq<byte>)
    ensures base == BaseName(raw)
  {
    var p := |raw|;
    assert raw[..p] == raw && raw[p..] == [];
    while p > 0 && !IsSeparator(raw[p - 1])
      invariant 0 <= p <= |raw|
      invariant BaseName(raw) == BaseName(raw[..p]) + raw[p..]
    {
      assert raw[..p][..p - 1] == raw[..p - 1] && raw[p - 1..] == [raw[p - 1]] + raw[p..];
      Associate(BaseName(raw[..p - 1]), [raw[p - 1]], raw[p..]);
      p := p - 1;
    }
    base := raw[p..];
  }

  method Trim(s: seq<byte>) returns (r: seq<byte>)
    ensures r == TrimEnd(s)
  {
    r := s;
    while r != [] && IsLoose(r[|r| - 1])
      invariant TrimEnd(r) == TrimEnd(s)
    {
      r := r[..|r| - 1];
    }
  }

  // ---------------------------------------------------------------- file names

  const TEMP_PREFIX: seq<byte> := [116, 109, 112, 95]
  const BIN: seq<byte> := [46, 98, 105, 110]
  const UNDERSCORE: byte := 95

  /** `tmp_<id>.bin` */
  function TempName(id: nat): seq<byte> {
    TEMP_PREFIX + WriteDecimal(id) + BIN
  }

  /** `<id>.bin` or `<id>_<name>` */
  function FinalName(id: nat, name: seq<byte>): seq<byte> {
    WriteDecimal(id) + AfterId(name)
  }

  lemma Marks()
    ensures !IsDigit(46) && !IsDigit(95) && !IsDigit(116)
  {
  }

  function AfterId(name: seq<byte>): (r: seq<byte>)
    ensures r != [] && !IsDigit(r[0])
  {
    Marks();
    if name == [] then BIN else [UNDERSCORE] + name
  }

  lemma AfterIdTells(name: seq<byte>, name': seq<byte>)
    requires AfterId(name) == AfterId(name')
    ensures name == name'
  {
    var a, b := AfterId(name), AfterId(name');
    assert a[0] == b[0];
    if name != [] && name' != [] {
      assert a[1..] == name && b[1..] == name';
    }
  }

  /** The names in text. */
  lemma NamesInText(id: nat, name: seq<byte>)
    ensures TempName(id) == Ascii("tmp_") + WriteDecimal(id) + Ascii(".bin")
    ensures FinalName(id, name) == WriteDecimal(id) + (if name == [] then Ascii(".bin") else Ascii("_") + name)
  {
    SameText(TEMP_PREFIX, "tmp_");
    SameText(BIN, ".bin");
    SameText([UNDERSCORE], "_");
    hide Ascii, WriteDecimal;
  }

  lemma SameText(b: seq<byte>, text: string)
    requires |b| == |text| && forall i :: 0 <= i < |b| ==> text[i] as nat < 256 && Val(b[i]) == text[i] as nat
    ensures b == Ascii(text)
  {
    AsciiCodes(text);
    hide Ascii;
    forall i | 0 <= i < |b|
      ensures b[i] == Ascii(text)[i]
    {
      ValInjective(b[i], Ascii(text)[i]);
    }
  }

  /** Different ids or names never share a file. */
  lemma FinalNamesDistinct(id: nat, name: seq<byte>, id': nat, name': seq<byte>)
    requires FinalName(id, name) == FinalName(id', name')
    ensures id == id' && name == name'
  {
    hide WriteDecimal, AfterId;
    NumberThenOther(id, AfterId(name), id', AfterId(name'));
    AfterIdTells(name, name');
  }

  lemma TempNamesDistinct(id: nat, id': nat)
    requires TempName(id) == TempName(id')
    ensures id == id'
  {
    Marks();
    hide WriteDecimal;
    assert TempName(id)[4..] == WriteDecimal(id) + BIN;
    assert TempName(id')[4..] == WriteDecimal(id') + BIN;
    NumberThenOther(id, BIN, id', BIN);
  }

  /** No finished file is taken for a temporary one. */
  lemma TempIsNotFinal(id: nat, id': nat, name: seq<byte>)
    ensures TempName(id) != FinalName(id', name)
  {
    Marks();
    DecimalRoundTrip(id');
    hide WriteDecimal;
    assert WriteDecimal(id')[0] in WriteDecimal(id');
    assert FinalName(id', name)[0] == WriteDecimal(id')[0] && TempName(id)[0] == 116;
  }
}
