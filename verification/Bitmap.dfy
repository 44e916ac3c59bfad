/** The chunk bitmap of an upload: one bit per chunk, eight chunks to a byte. */
module Bitmap {
  import opened Bytes

  /** `(b >> k) & 1` */
  predicate BitOf(b: byte, k: nat)
    requires k < 8
  {
    match k
    case 0 => b & 1 != 0
    case 1 => b & 2 != 0
    case 2 => b & 4 != 0
    case 3 => b & 8 != 0
    case 4 => b & 16 != 0
    case 5 => b & 32 != 0
    case 6 => b & 64 != 0
    case _ => b & 128 != 0
  }

  /** `b | (1 << k)` */
  function WithBit(b: byte, k: nat): byte
    requires k < 8
  {
    match k
    case 0 => b | 1
    case 1 => b | 2
    case 2 => b | 4
    case 3 => b | 8
    case 4 => b | 16
    case 5 => b | 32
    case 6 => b | 64
    case _ => b | 128
  }

  lemma OneBit(k: nat)
    requires k < 8
    ensures Val(WithBit(0, k)) == [1, 2, 4, 8, 16, 32, 64, 128][k]
  {
  }

  /** A single mark on the wire: byte `i / 8` is 2 to the power `i % 8`, all others are zero. */
  lemma FirstMark(total: nat, i: nat)
    requires i < total
    ensures |Empty(total)| == (total + 7) / 8 && i / 8 < |Empty(total)|
    ensures forall j :: 0 <= j < |Empty(total)| ==>
      Val(Set(Empty(total), i)[j]) == if j == i / 8 then [1, 2, 4, 8, 16, 32, 64, 128][i % 8] else 0
  {
    OneBit(i % 8);
    assert Val(0) == 0;
    hide Val, WithBit;
  }

  lemma WithBitOf(b: byte, i: nat, j: nat)
    requires i < 8 && j < 8
    ensures BitOf(WithBit(b, i), j) <==> i == j || BitOf(b, j)
  {
  }

  /** How many bytes hold one bit for each of `total` chunks. */
  function Size(total: nat): nat {
    (total + 7) / 8
  }

  function Empty(total: nat): (bm: seq<byte>)
    ensures |bm| == Size(total)
  {
    seq(Size(total), _ => 0)
  }

  predicate Get(bm: seq<byte>, i: nat)
    requires i / 8 < |bm|
  {
    BitOf(bm[i / 8], i % 8)
  }

  function Set(bm: seq<byte>, i: nat): (r: seq<byte>)
    requires i / 8 < |bm|
    ensures |r| == |bm|
  {
    bm[i / 8 := WithBit(bm[i / 8], i % 8)]
  }

  /** The number of chunks below `n` that are marked. */
  function Count(bm: seq<byte>, n: nat): (c: nat)
    requires n <= 8 * |bm|
    ensures c <= n
  {
    if n == 0 then 0 else Count(bm, n - 1) + (if Get(bm, n - 1) then 1 else 0)
  }

  lemma SetGet(bm: seq<byte>, i: nat, j: nat)
    requires i / 8 < |bm| && j / 8 < |bm|
    ensures Get(Set(bm, i), j) <==> i == j || Get(bm, j)
  {
    if i / 8 == j / 8 {
      assert i == 8 * (i / 8) + i % 8 && j == 8 * (j / 8) + j % 8;
      WithBitOf(bm[i / 8], i % 8, j % 8);
    }
  }

  /** One more mark, one more counted. */
  lemma {:induction false} CountOneMore(bm: seq<byte>, r: seq<byte>, i: nat, n: nat)
    requires n <= 8 * |bm| && |r| == |bm| && i / 8 < |bm| && !Get(bm, i)
    requires forall j: nat :: j < n ==> (Get(r, j) <==> i == j || Get(bm, j))
    ensures Count(r, n) == Count(bm, n) + (if i < n then 1 else 0)
    decreases n
  {
    if n > 0 {
      CountOneMore(bm, r, i, n - 1);
      assert Get(r, n - 1) <==> i == n - 1 || Get(bm, n - 1);
    }
  }

  lemma CountSet(bm: seq<byte>, i: nat, n: nat)
    requires n <= 8 * |bm| && i / 8 < |bm| && !Get(bm, i)
    ensures Count(Set(bm, i), n) == Count(bm, n) + (if i < n then 1 else 0)
  {
    forall j: nat | j < n
      ensures Get(Set(bm, i), j) <==> i == j || Get(bm, j)
    {
      SetGet(bm, i, j);
    }
    CountOneMore(bm, Set(bm, i), i, n);
  }

  lemma {:induction false} CountFull(bm: seq<byte>, n: nat)
    requires n <= 8 * |bm|
    ensures Count(bm, n) == n <==> forall i :: 0 <= i < n ==> Get(bm, i)
    decreases n
  {
    if n > 0 {
      CountFull(bm, n - 1);
    }
  }

  lemma EmptyGet(total: nat, i: nat)
    requires i / 8 < Size(total)
    ensures !Get(Empty(total), i)
  {
    assert BitOf(0, i % 8) == false;
  }

  lemma {:induction false} EmptyCount(total: nat, n: nat)
    requires n <= 8 * Size(total)
    ensures Count(Empty(total), n) == 0
    decreases n
  {
    if n > 0 {
      EmptyCount(total, n - 1);
      EmptyGet(total, n - 1);
    }
  }

  /** The chunks below `total` that are not marked. */
  ghost function Missing(bm: seq<byte>, total: nat): set<nat>
    requires total <= 8 * |bm|
  {
    set i: nat | i < total && !Get(bm, i)
  }

  /** The bitmap an upload keeps: right size, no stray bits, and a matching counter. */
  ghost predicate WellFormed(bm: seq<byte>, total: nat, received: nat) {
    && |bm| == Size(total)
    && (forall i :: total <= i < 8 * |bm| ==> !Get(bm, i))
    && received == Count(bm, total)
  }

  lemma EmptyWellFormed(total: nat)
    ensures WellFormed(Empty(total), total, 0)
  {
    EmptyCount(total, total);
    forall i | total <= i < 8 * Size(total)
      ensures !Get(Empty(total), i)
    {
      EmptyGet(total, i);
    }
  }

  lemma SetWellFormed(bm: seq<byte>, total: nat, received: nat, i: nat)
    requires WellFormed(bm, total, received) && i < total && !Get(bm, i)
    ensures WellFormed(Set(bm, i), total, received + 1)
  {
    CountSet(bm, i, total);
    forall j | total <= j < 8 * |bm|
      ensures !Get(Set(bm, i), j)
    {
      SetGet(bm, i, j);
    }
  }

  lemma MissingEmpty(bm: seq<byte>, total: nat, received: nat)
    requires WellFormed(bm, total, received)
    ensures received == total <==> Missing(bm, total) == {}
  {
    CountFull(bm, total);
    var missing := Missing(bm, total);
    if missing == {} {
      forall i | 0 <= i < total
        ensures Get(bm, i)
      {
        assert Get(bm, i) || i in missing;
      }
    }
  }
}
