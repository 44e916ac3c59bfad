/**
 * The messages of the upload protocol in bytes and numbers: where each field stands, which messages the
 * server understands, and the error codes.
 */
module FileMessages {
  import opened Bytes
  import opened FileProtocol

  lemma KindNumber(b: byte)
    ensures (b == MSG_START <==> Val(b) == 1) && (b == MSG_QUERY <==> Val(b) == 2) && (b == MSG_CHUNK <==> Val(b) == 3)
    ensures (b == MSG_QUERY_RESPONSE <==> Val(b) == 101) && (b == MSG_CHUNK_ACK <==> Val(b) == 102)
    ensures (b == MSG_FINISH_ACK <==> Val(b) == 103) && (b == MSG_ERROR <==> Val(b) == 255)
  {
  }

  /** A START, behind its type byte: with or without a name. */
  predicate StartUnderstood(m: seq<byte>)
    requires m != []
  {
    && |m| >= 29
    && (|m| == 29 || (|m| >= 31 && ReadBE(m[29..31]) <= 512 && |m| >= 31 + ReadBE(m[29..31])))
    && ReadBE(m[17..21]) > 0 && ReadBE(m[21..25]) > 0
  }

  /** Exactly the messages the server understands, and what it takes from them. */
  lemma ParsedExactly(m: seq<byte>)
    requires m != []
    ensures
      var kind, r := Val(m[0]), Parse(m);
      && (r.Start? <==> kind == 1 && StartUnderstood(m))
      && (r.Query? <==> kind == 2 && |m| >= 9)
      && (r.Chunk? <==> kind == 3 && |m| >= 17)
      && (r.Malformed? ==> CodeNumber(r.code) == if kind in {1, 2, 3} then 0x1001 else 0x1003)
      && (r.Start? ==>
            && r.id == ReadBE(m[1..9]) && r.size == ReadBE(m[9..17]) && r.chunkSize == ReadBE(m[17..21])
            && r.total == ReadBE(m[21..25]) && r.crc == ReadBE(m[25..29])
            && r.name == if |m| == 29 then [] else m[31..31 + ReadBE(m[29..31])])
      && (r.Query? ==> r.id == ReadBE(m[1..9]))
      && (r.Chunk? ==> r.id == ReadBE(m[1..9]) && r.index == ReadBE(m[9..13]) && r.crc == ReadBE(m[13..17]) && r.data == m[17..])
  {
    KindNumber(m[0]);
    hide ReadBE, Val;
  }

  /** Requests in bytes. */
  lemma RequestLayout(r: Request)
    requires Writable(r)
    ensures
      var m := Encode(r);
      match r
      case Start(id, size, chunkSize, total, crc, name) =>
        && |m| == 31 + |name| && Val(m[0]) == 1
        && ReadBE(m[1..9]) == id && ReadBE(m[9..17]) == size && ReadBE(m[17..21]) == chunkSize && ReadBE(m[21..25]) == total
        && ReadBE(m[25..29]) == crc && ReadBE(m[29..31]) == |name| && m[31..] == name
      case Query(id) => |m| == 9 && Val(m[0]) == 2 && ReadBE(m[1..9]) == id
      case Chunk(id, index, crc, data) =>
        && |m| == 17 + |data| && Val(m[0]) == 3
        && ReadBE(m[1..9]) == id && ReadBE(m[9..13]) == index && ReadBE(m[13..17]) == crc && m[17..] == data
      case Malformed(_, _) => true
  {
    var m := Encode(r);
    Pow256Values();
    KindNumber(m[0]);
    match r
    case Start(id, size, chunkSize, total, crc, name) =>
      StartLayout(r);
      ReadWriteBE(id, 8);
      ReadWriteBE(size, 8);
      ReadWriteBE(chunkSize, 4);
      ReadWriteBE(total, 4);
      ReadWriteBE(crc, 4);
      ReadWriteBE(|name|, 2);
      hide ReadBE, WriteBE, Encode, Val;
      assert m[31..] == m[31..31 + |name|];
    case Query(id) =>
      ReadWriteBE(id, 8);
      assert m[1..9] == WriteBE(id, 8);
    case Chunk(id, index, crc, data) =>
      ReadWriteBE(id, 8);
      ReadWriteBE(index, 4);
      ReadWriteBE(crc, 4);
      hide ReadBE, WriteBE, Val;
      assert m[1..9] == WriteBE(id, 8) && m[9..13] == WriteBE(index, 4) && m[13..17] == WriteBE(crc, 4) && m[17..] == data;
  }

  lemma ErrorLayout(code: ErrorCode, detail: string)
    ensures
      var m := EncodeReply(Failure(code, detail));
      |m| == 3 + |detail| && Val(m[0]) == 255 && ReadBE(m[1..3]) == CodeNumber(code) && m[3..] == Ascii(detail)
  {
    var m := EncodeReply(Failure(code, detail));
    KindNumber(m[0]);
    Pow256Values();
    ReadWriteBE(CodeNumber(code), 2);
    hide ReadBE, WriteBE, Val, CodeNumber, Ascii;
    assert m[1..3] == WriteBE(CodeNumber(code), 2) && m[3..] == Ascii(detail);
  }

  lemma QueryResponseLayout(id: nat, total: nat, bitmap: seq<byte>)
    requires id < U64 && total < U32 && |bitmap| < U32
    ensures
      var m := EncodeReply(QueryResponse(id, total, bitmap));
      && |m| == 17 + |bitmap| && Val(m[0]) == 101 && ReadBE(m[1..9]) == id && ReadBE(m[9..13]) == total
      && ReadBE(m[13..17]) == |bitmap| && m[17..] == bitmap
  {
    var m := EncodeReply(QueryResponse(id, total, bitmap));
    KindNumber(m[0]);
    Pow256Values();
    ReadWriteBE(id, 8);
    ReadWriteBE(total, 4);
    ReadWriteBE(|bitmap|, 4);
    hide ReadBE, WriteBE, Val;
    assert m[1..9] == WriteBE(id, 8) && m[9..13] == WriteBE(total, 4) && m[13..17] == WriteBE(|bitmap|, 4) && m[17..] == bitmap;
  }

  /** The bytes that stand for yes and no. */
  function Flag(yes: bool): byte {
    if yes then 1 else 0
  }

  lemma FlagNumber(yes: bool)
    ensures Val(Flag(yes)) == if yes then 1 else 0
  {
  }

  lemma ChunkAckLayout(id: nat, index: nat, isNew: bool)
    requires id < U64 && index < U32
    ensures
      var m := EncodeReply(ChunkAck(id, index, isNew));
      && |m| == 14 && Val(m[0]) == 102 && ReadBE(m[1..9]) == id && ReadBE(m[9..13]) == index
      && Val(m[13]) == if isNew then 1 else 0
  {
    var m := EncodeReply(ChunkAck(id, index, isNew));
    KindNumber(m[0]);
    Pow256Values();
    ReadWriteBE(id, 8);
    ReadWriteBE(index, 4);
    FlagNumber(isNew);
    hide ReadBE, WriteBE, Val;
    assert m[1..9] == WriteBE(id, 8) && m[9..13] == WriteBE(index, 4) && m[13] == Flag(isNew);
  }

  lemma FinishAckLayout(id: nat, ok: bool)
    requires id < U64
    ensures
      var m := EncodeReply(FinishAck(id, ok));
      |m| == 10 && Val(m[0]) == 103 && ReadBE(m[1..9]) == id && Val(m[9]) == if ok then 1 else 0
  {
    var m := EncodeReply(FinishAck(id, ok));
    KindNumber(m[0]);
    Pow256Values();
    ReadWriteBE(id, 8);
    FlagNumber(ok);
    hide ReadBE, WriteBE, Val;
    assert m[1..9] == WriteBE(id, 8) && m[9] == Flag(ok);
  }
}
