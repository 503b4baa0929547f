/**
  The chunk format of RTMP 1.0, section 5.3.1, as the importer understands it:
  what a header says, what it means after the previous header of its chunk
  stream, and which payload bytes belong to the message.
 */
module ChunkFormat {
  import opened Bytes

  const EXTENDED_TIMESTAMP: nat := 0xFF_FFFF
  const EXTENDED_TIMESTAMP_SIZE: nat := 4
  const MAX_PACKET_SIZE: nat := 20 * 1024 * 1024

  /** A chunk size is a nonzero 32-bit number. */
  type ChunkSize = x: int | 1 <= x < 0x1_0000_0000 witness 128

  datatype ChunkType = T0 | T1 | T2 | T3 {
    /** The value of the two high bits of the first byte. */
    function Tag(): nat {
      match this
      case T0 => 0
      case T1 => 64
      case T2 => 128
      case T3 => 192
    }

    function MessageHeaderSize(): nat {
      match this
      case T0 => 11
      case T1 => 7
      case T2 => 3
      case T3 => 0
    }
  }

  datatype BasicHeader = BasicHeader(format: ChunkType, size: Positive, csid: nat)

  datatype MessageHeader =
    | Type0(timestamp: nat, length: nat, typeId: nat, streamId: nat)
    | Type1(delta: nat, length: nat, typeId: nat)
    | Type2(delta: nat)
    | Type3

  /** The values a header stands for once the previous header of its chunk stream is applied. */
  datatype Fields = Fields(delta: nat, timestamp: nat, length: nat, typeId: nat, streamId: nat)

  datatype ChunkHeader = ChunkHeader(
    basic: BasicHeader,
    message: MessageHeader,
    extended: Option<nat>,
    completed: Fields,
    expected: Positive)

  datatype Message = Message(header: ChunkHeader, payload: seq<Byte>)

  // ----- the three header stages -----

  function GetChunkType(first: Byte): (t: ChunkType)
    ensures t.Tag() == first / 64 * 64
  {
    if first < 64 then T0 else if first < 128 then T1 else if first < 192 then T2 else T3
  }

  function GetBasicHeaderSize(first: Byte): (n: nat)
    ensures 1 <= n <= 3
  {
    if first % 64 == 0 then 2 else if first % 64 == 1 then 3 else 1
  }

  function GetChunkStreamId(d: seq<Byte>): nat
    requires d != [] && GetBasicHeaderSize(d[0]) <= |d|
  {
    var n := GetBasicHeaderSize(d[0]);
    if n == 1 then d[0] % 64
    else if n == 2 then d[1] as int + 64
    else d[1] as int + 64 + d[2] as int * 256
  }

  function ReadBasicHeader(d: seq<Byte>): BasicHeader
    requires d != [] && GetBasicHeaderSize(d[0]) <= |d|
  {
    BasicHeader(GetChunkType(d[0]), GetBasicHeaderSize(d[0]), GetChunkStreamId(d))
  }

  function ReadMessageHeader(t: ChunkType, d: seq<Byte>): MessageHeader
    requires t.MessageHeaderSize() <= |d|
  {
    match t
    case T0 => Type0(ReadBE(d[..3]), ReadBE(d[3..6]), d[6], ReadLE(d[7..11]))
    case T1 => Type1(ReadBE(d[..3]), ReadBE(d[3..6]), d[6])
    case T2 => Type2(ReadBE(d[..3]))
    case T3 => Type3
  }

  /** Does an extended timestamp follow this message header? */
  predicate HasExtended(m: MessageHeader, last: Option<ChunkHeader>) {
    match m
    case Type0(timestamp, _, _, _) => timestamp == EXTENDED_TIMESTAMP
    case Type1(delta, _, _) => delta == EXTENDED_TIMESTAMP
    case Type2(delta) => delta == EXTENDED_TIMESTAMP
    case Type3 => last.Some? && last.value.extended.Some?
  }

  // ----- completing a header -----

  const SERIAL: nat := 0x8000_0000

  function Abs(x: int): nat {
    if x < 0 then -x else x
  }

  /** Serial-number arithmetic on a type 0 timestamp. */
  function CalculateRolledTimestamp(last: nat, parsed: nat): nat
  {
    if Abs(last - parsed) <= SERIAL / 2 - 1 then parsed
    else last + SERIAL - last % SERIAL + parsed
  }

  /** What a header says, given what the previous header of its chunk stream came to. */
  function CompleteFields(m: MessageHeader, extended: Option<nat>, last: Option<Fields>): Fields
    requires last.None? ==> m.Type0?
  {
    match m
    case Type0(timestamp, length, typeId, streamId) =>
      var parsed := if extended.Some? then extended.value else timestamp;
      Fields(0, if last.Some? then CalculateRolledTimestamp(last.value.timestamp, parsed) else parsed,
             length, typeId, streamId)
    case Type1(delta, length, typeId) =>
      var d := if extended.Some? then extended.value else delta;
      Fields(d, last.value.timestamp + d, length, typeId, last.value.streamId)
    case Type2(delta) =>
      var d := if extended.Some? then extended.value else delta;
      last.value.(delta := d, timestamp := last.value.timestamp + d)
    case Type3 =>
      last.value.(timestamp := last.value.timestamp + last.value.delta)
  }

  /** Bytes a type 3 header takes between two chunks of one message. */
  function Type3Size(basic: BasicHeader, extended: bool): Positive {
    basic.size + if extended then EXTENDED_TIMESTAMP_SIZE else 0
  }

  /** How many type 3 headers split the payload; the subtraction wraps for an empty payload. */
  function Type3Count(length: nat, chunkSize: ChunkSize): nat {
    (if length == 0 then 0xFFFF_FFFF else length - 1) / chunkSize
  }

  /** Wire bytes of a payload of `length` bytes cut into chunks. */
  function ExpectedSize(length: nat, chunkSize: ChunkSize, type3Size: Positive): Positive {
    assert Type3Count(length, chunkSize) * type3Size >= Type3Count(length, chunkSize);
    length + Type3Count(length, chunkSize) * type3Size
  }

  /** The header with its fields completed, or None when the importer rejects it. */
  function ProcessChunkHeader(basic: BasicHeader, m: MessageHeader, extended: Option<nat>,
                              last: Option<ChunkHeader>, chunkSize: ChunkSize): Option<ChunkHeader>
  {
    if last.None? && !m.Type0? then None
    else
      var completed := CompleteFields(m, extended, if last.Some? then Some(last.value.completed) else None);
      if MAX_PACKET_SIZE < completed.length then None
      else
        var count := Type3Count(completed.length, chunkSize);
        if 0x8000_0000 <= count then None
        else
          Some(ChunkHeader(basic, m, extended, completed,
                           ExpectedSize(completed.length, chunkSize, Type3Size(basic, extended.Some?))))
  }

  // ----- payloads -----

  /** The basic header every interior type 3 chunk must start with. */
  function ExpectedType3(basic: BasicHeader): seq<Byte> {
    var id := basic.csid - 64;
    if basic.size == 1 then [192 + basic.csid % 64]
    else if basic.size == 2 then [192, id % 256]
    else [193, id % 256, id / 0x1_0000 % 256]
  }

  /** Puts `a` in front of a stripped payload. */
  function Prefix(a: seq<Byte>, b: Option<seq<Byte>>): Option<seq<Byte>> {
    if b.None? then None else Some(a + b.value)
  }

  lemma PrefixNothing(b: Option<seq<Byte>>)
    ensures Prefix([], b) == b
  {
    if b.Some? { assert [] + b.value == b.value; }
  }

  lemma PrefixTwice(a: seq<Byte>, b: seq<Byte>, c: Option<seq<Byte>>)
    ensures Prefix(a, Prefix(b, c)) == Prefix(a + b, c)
  {
    if c.Some? { assert a + (b + c.value) == a + b + c.value; }
  }

  /** The payload bytes of `raw` without the type 3 headers, each of which must start with `type3`. */
  function Strip(raw: seq<Byte>, chunkSize: ChunkSize, type3: seq<Byte>, extra: nat, first: bool): Option<seq<Byte>>
    requires type3 != []
    decreases |raw|, !first
  {
    if raw == [] then Some([])
    else if first then
      var n := Min(chunkSize, |raw|);
      Prefix(raw[..n], Strip(raw[n..], chunkSize, type3, extra, false))
    else if |raw| < |type3| + extra || raw[..|type3|] != type3 then None
    else Strip(raw[|type3| + extra..], chunkSize, type3, extra, true)
  }

  lemma StripNothing(chunkSize: ChunkSize, type3: seq<Byte>, extra: nat, first: bool)
    requires type3 != []
    ensures Strip([], chunkSize, type3, extra, first) == Some([])
  {
  }

  /** Copying the chunk at `current` behind `payload` leaves the rest of the raw bytes to strip. */
  lemma StripChunk(raw: seq<Byte>, current: nat, chunkSize: ChunkSize, type3: seq<Byte>, extra: nat, payload: seq<Byte>)
    requires type3 != [] && current <= |raw|
    ensures Prefix(payload, Strip(raw[current..], chunkSize, type3, extra, true)) ==
            Prefix(payload + raw[current..current + Min(chunkSize, |raw| - current)],
                   Strip(raw[current + Min(chunkSize, |raw| - current)..], chunkSize, type3, extra, false))
  {
    var n := Min(chunkSize, |raw| - current);
    var chunk := raw[current..];
    assert chunk[..n] == raw[current..current + n] && chunk[n..] == raw[current + n..];
    if chunk == [] {
      assert payload + chunk[..n] == payload;
    } else {
      PrefixTwice(payload, chunk[..n], Strip(chunk[n..], chunkSize, type3, extra, false));
    }
  }

  /** Skipping the type 3 header at `current`. */
  lemma StripHeader(raw: seq<Byte>, current: nat, chunkSize: ChunkSize, type3: seq<Byte>, extra: nat)
    requires type3 != [] && current < |raw|
    ensures Strip(raw[current..], chunkSize, type3, extra, false) ==
            if |raw| - current < |type3| + extra || raw[current..current + |type3|] != type3 then None
            else Strip(raw[current + |type3| + extra..], chunkSize, type3, extra, true)
  {
    var before := raw[current..];
    if |type3| + extra <= |before| {
      assert before[..|type3|] == raw[current..current + |type3|];
      assert before[|type3| + extra..] == raw[current + |type3| + extra..];
    }
  }

  function FinalizeMessage(h: ChunkHeader, chunkSize: ChunkSize, raw: seq<Byte>): Option<Message>
  {
    var extra := if h.extended.Some? then EXTENDED_TIMESTAMP_SIZE else 0;
    match Strip(raw, chunkSize, ExpectedType3(h.basic), extra, true)
    case None => None
    case Some(payload) => if |payload| == h.completed.length then Some(Message(h, payload)) else None
  }
}
