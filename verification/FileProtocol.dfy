/** The messages of the upload protocol, as they travel inside binary WebSocket messages. */
module FileProtocol {
  import opened Bytes

  const MSG_START: byte := 1
  const MSG_QUERY: byte := 2
  const MSG_CHUNK: byte := 3
  const MSG_QUERY_RESPONSE: byte := 101
  const MSG_CHUNK_ACK: byte := 102
  const MSG_FINISH_ACK: byte := 103
  const MSG_ERROR: byte := 255

  const MAX_NAME: nat := 512

  datatype ErrorCode =
    | InvalidArgument
    | InternalError
    | UnsupportedOpcode
    | ProtocolViolation
    | StateNotFound
    | ChunkCrcMismatch
    | ChunkOutOfRange

  function CodeNumber(c: ErrorCode): (n: nat)
    ensures n < 0x1_0000
  {
    match c
    case InvalidArgument => 0x1001
    case InternalError => 0x1002
    case UnsupportedOpcode => 0x1003
    case ProtocolViolation => 0x1004
    case StateNotFound => 0x3001
    case ChunkCrcMismatch => 0x3002
    case ChunkOutOfRange => 0x3003
  }

  datatype Request =
    | Start(id: nat, size: nat, chunkSize: nat, total: nat, crc: nat, name: seq<byte>)
    | Query(id: nat)
    | Chunk(id: nat, index: nat, crc: nat, data: seq<byte>)
    | Malformed(code: ErrorCode, detail: string)

  datatype Reply =
    | QueryResponse(id: nat, total: nat, bitmap: seq<byte>)
    | ChunkAck(id: nat, index: nat, isNew: bool)
    | FinishAck(id: nat, ok: bool)
    | Failure(code: ErrorCode, detail: string)

  // ---------------------------------------------------------------- the server reads

  function ParseStart(m: seq<byte>): Request
    requires m != []
  {
    var remain := |m| - 1;
    if remain < 28 then Malformed(InvalidArgument, "FILE_START payload too small")
    else if 28 < remain < 30 then Malformed(InvalidArgument, "FILE_START filename header incomplete")
    else if remain > 28 && ReadBE(m[29..31]) > MAX_NAME then Malformed(InvalidArgument, "FILE_START filename too long")
    else if remain > 28 && remain < 30 + ReadBE(m[29..31]) then Malformed(InvalidArgument, "FILE_START filename truncated")
    else if ReadBE(m[21..25]) == 0 || ReadBE(m[17..21]) == 0 then Malformed(InvalidArgument, "invalid chunk params")
    else
      Start(ReadBE(m[1..9]), ReadBE(m[9..17]), ReadBE(m[17..21]), ReadBE(m[21..25]), ReadBE(m[25..29]),
            if remain > 28 then m[31..31 + ReadBE(m[29..31])] else [])
  }

  function ParseQuery(m: seq<byte>): Request
    requires m != []
  {
    if |m| - 1 < 8 then Malformed(InvalidArgument, "FILE_QUERY payload too small") else Query(ReadBE(m[1..9]))
  }

  function ParseChunk(m: seq<byte>): Request
    requires m != []
  {
    if |m| - 1 < 16 then Malformed(InvalidArgument, "FILE_CHUNK payload too small")
    else Chunk(ReadBE(m[1..9]), ReadBE(m[9..13]), ReadBE(m[13..17]), m[17..])
  }

  function Parse(m: seq<byte>): Request
    requires m != []
  {
    if m[0] == MSG_START then ParseStart(m)
    else if m[0] == MSG_QUERY then ParseQuery(m)
    else if m[0] == MSG_CHUNK then ParseChunk(m)
    else Malformed(UnsupportedOpcode, "unknown msgType")
  }

  // ---------------------------------------------------------------- the client writes

  /** A request whose numbers fit their fields. */
  ghost predicate Writable(r: Request) {
    match r
    case Start(id, size, chunkSize, total, crc, name) =>
      && id < U64 && size < U64
      && 0 < chunkSize < U32 && 0 < total < U32 && crc < U32 && |name| <= MAX_NAME
    case Query(id) => id < U64
    case Chunk(id, index, crc, data) => id < U64 && index < U32 && crc < U32
    case Malformed(_, _) => false
  }

  function Encode(r: Request): seq<byte>
    requires !r.Malformed?
  {
    match r
    case Start(id, size, chunkSize, total, crc, name) =>
      [MSG_START] + WriteBE(id, 8) + WriteBE(size, 8) + WriteBE(chunkSize, 4) + WriteBE(total, 4) + WriteBE(crc, 4)
      + WriteBE(|name|, 2) + name
    case Query(id) => [MSG_QUERY] + WriteBE(id, 8)
    case Chunk(id, index, crc, data) => [MSG_CHUNK] + WriteBE(id, 8) + WriteBE(index, 4) + WriteBE(crc, 4) + data
  }

  lemma StartLayout(r: Request)
    requires r.Start?
    ensures
      var m := Encode(r);
      && |m| == 31 + |r.name| && m[0] == MSG_START
      && m[1..9] == WriteBE(r.id, 8)
      && m[9..17] == WriteBE(r.size, 8)
      && m[17..21] == WriteBE(r.chunkSize, 4)
      && m[21..25] == WriteBE(r.total, 4)
      && m[25..29] == WriteBE(r.crc, 4)
      && m[29..31] == WriteBE(|r.name|, 2)
      && m[31..31 + |r.name|] == r.name
  {
  }

  lemma ParseStartFields(m: seq<byte>, r: Request)
    requires r.Start? && Writable(r)
    requires |m| == 31 + |r.name| && m[31..31 + |r.name|] == r.name
    requires ReadBE(m[1..9]) == r.id && ReadBE(m[9..17]) == r.size
    requires ReadBE(m[17..21]) == r.chunkSize && ReadBE(m[21..25]) == r.total && ReadBE(m[25..29]) == r.crc
    requires ReadBE(m[29..31]) == |r.name|
    ensures ParseStart(m) == r
  {
  }

  lemma ParseEncodeStart(r: Request)
    requires r.Start? && Writable(r)
    ensures Parse(Encode(r)) == r
  {
    StartLayout(r);
    Pow256Values();
    ReadWriteBE(r.id, 8);
    ReadWriteBE(r.size, 8);
    ReadWriteBE(r.chunkSize, 4);
    ReadWriteBE(r.total, 4);
    ReadWriteBE(r.crc, 4);
    ReadWriteBE(|r.name|, 2);
    ParseStartFields(Encode(r), r);
  }

  lemma ParseEncodeChunk(r: Request)
    requires r.Chunk? && Writable(r)
    ensures Parse(Encode(r)) == r
  {
    var m := Encode(r);
    Pow256Values();
    ReadWriteBE(r.id, 8);
    ReadWriteBE(r.index, 4);
    ReadWriteBE(r.crc, 4);
    assert m[1..9] == WriteBE(r.id, 8);
    assert m[9..13] == WriteBE(r.index, 4);
    assert m[13..17] == WriteBE(r.crc, 4);
    assert m[17..] == r.data;
  }

  /** The server understands what the client meant. */
  lemma ParseEncode(r: Request)
    requires Writable(r)
    ensures Encode(r) != [] && Parse(Encode(r)) == r
  {
    match r
    case Start(_, _, _, _, _, _) => ParseEncodeStart(r);
    case Query(id) =>
      Pow256Values();
      ReadWriteBE(id, 8);
      assert Encode(r)[1..9] == WriteBE(id, 8);
    case Chunk(_, _, _, _) => ParseEncodeChunk(r);
  }

  // ---------------------------------------------------------------- the server writes

  function EncodeReply(r: Reply): (m: seq<byte>)
    ensures |m| >= 3
  {
    match r
    case QueryResponse(id, total, bitmap) =>
      [MSG_QUERY_RESPONSE] + WriteBE(id, 8) + WriteBE(total, 4) + WriteBE(|bitmap|, 4) + bitmap
    case ChunkAck(id, index, isNew) => [MSG_CHUNK_ACK] + WriteBE(id, 8) + WriteBE(index, 4) + [if isNew then 1 else 0]
    case FinishAck(id, ok) => [MSG_FINISH_ACK] + WriteBE(id, 8) + [if ok then 1 else 0]
    case Failure(code, detail) => [MSG_ERROR] + WriteBE(CodeNumber(code), 2) + Ascii(detail)
  }

  function EncodeReplies(rs: seq<Reply>): (ms: seq<seq<byte>>)
    ensures |ms| == |rs|
  {
    seq(|rs|, i requires 0 <= i < |rs| => EncodeReply(rs[i]))
  }

  // ---------------------------------------------------------------- the client reads

  /** What a client takes from a reply: the type, and the fields it looks at. */
  function ReplyType(m: seq<byte>): byte
    requires m != []
  {
    m[0]
  }

  /** The bitmap of a QUERY_RESPONSE, unless the message is too short for what it announces. */
  function ReplyBitmap(m: seq<byte>): Option<seq<byte>> {
    if |m| < 17 then None
    else if |m| < 17 + ReadBE(m[13..17]) then None
    else Some(m[17..17 + ReadBE(m[13..17])])
  }

  function ReplyIndex(m: seq<byte>): nat
    requires |m| >= 14
  {
    ReadBE(m[9..13])
  }

  lemma QueryResponseRead(id: nat, total: nat, bitmap: seq<byte>)
    requires |bitmap| < U32
    ensures
      var m := EncodeReply(QueryResponse(id, total, bitmap));
      ReplyType(m) == MSG_QUERY_RESPONSE && ReplyBitmap(m) == Some(bitmap)
  {
    var m := EncodeReply(QueryResponse(id, total, bitmap));
    Pow256Values();
    ReadWriteBE(|bitmap|, 4);
    assert m[13..17] == WriteBE(|bitmap|, 4);
    assert m[17..17 + |bitmap|] == bitmap;
  }

  lemma ChunkAckRead(id: nat, index: nat, isNew: bool)
    requires index < U32
    ensures
      var m := EncodeReply(ChunkAck(id, index, isNew));
      ReplyType(m) == MSG_CHUNK_ACK && |m| == 14 && ReplyIndex(m) == index && m[13] == if isNew then 1 else 0
  {
    var m := EncodeReply(ChunkAck(id, index, isNew));
    Pow256Values();
    ReadWriteBE(index, 4);
    assert m[9..13] == WriteBE(index, 4);
  }
}
