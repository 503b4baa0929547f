/**
  The exporter: which header form a message gets, and how header and chunks are
  written into one buffer. `Export` is the wire form the class is proved to produce.
 */
module ChunkExport {
  import opened Bytes
  import opened ChunkFormat

  type Uint32 = x: int | 0 <= x < 0x1_0000_0000

  /** The exporter keeps its chunk size in a signed 32-bit number. */
  type ExportChunkSize = x: int | 1 <= x < 0x8000_0000 witness 128

  const PACKET_HEADER_SIZE_MAX: nat := 18
  const FIELD24: nat := 0x100_0000

  /** What a caller says about a message. */
  datatype MuxHeader = MuxHeader(csid: Uint32, timestamp: Uint32, typeId: Byte, streamId: Uint32, bodySize: Uint32)

  const NO_MUX_HEADER := MuxHeader(0, 0, 0, 0, 0)

  /** The last header sent on each chunk stream. */
  type Sent = map<Uint32, MuxHeader>

  function LastSent(sent: Sent, csid: Uint32): MuxHeader {
    if csid in sent then sent[csid] else NO_MUX_HEADER
  }

  // ----- the wire form -----

  function GetBasicHeaderSizeByChunkStreamID(csid: nat): nat {
    if csid >= 64 + 256 then 3 else if csid >= 64 then 2 else 1
  }

  function BasicHeaderRaw(t: ChunkType, csid: nat): (s: seq<Byte>)
    ensures |s| == GetBasicHeaderSizeByChunkStreamID(csid)
  {
    var id := csid - 64;
    if csid >= 64 + 256 then [1 + t.Tag(), id % 256, id / 256 % 256]
    else if csid >= 64 then [t.Tag(), id % 256]
    else [csid % 64 + t.Tag()]
  }

  /** The timestamp or delta field, 24 bits wide. */
  function Time(m: MessageHeader): nat {
    match m
    case Type0(timestamp, _, _, _) => timestamp
    case Type1(delta, _, _) => delta
    case Type2(delta) => delta
    case Type3 => 0
  }

  function Format(m: MessageHeader): ChunkType {
    match m
    case Type0(_, _, _, _) => T0
    case Type1(_, _, _) => T1
    case Type2(_) => T2
    case Type3 => T3
  }

  function ExtendedRaw(m: MessageHeader, extended: bool): seq<Byte> {
    if extended then WriteBE(Time(m), 4) else []
  }

  function MessageHeaderRaw(m: MessageHeader, extended: bool): seq<Byte> {
    var time := WriteBE(if extended then EXTENDED_TIMESTAMP else Time(m), 3);
    match m
    case Type0(_, length, typeId, streamId) =>
      time + WriteBE(length, 3) + [typeId % 256] + WriteLE(streamId, 4)
    case Type1(_, length, typeId) => time + WriteBE(length, 3) + [typeId % 256]
    case Type2(_) => time
    case Type3 => []
  }

  function HeaderRaw(m: MessageHeader, csid: nat, extended: bool): seq<Byte> {
    BasicHeaderRaw(Format(m), csid) + MessageHeaderRaw(m, extended) + ExtendedRaw(m, extended)
  }

  /** The body in chunks, with `separator` between any two. */
  function Weave(body: seq<Byte>, chunkSize: ChunkSize, separator: seq<Byte>): seq<Byte>
    decreases |body|
  {
    if |body| <= chunkSize then body
    else body[..chunkSize] + (separator + Weave(body[chunkSize..], chunkSize, separator))
  }

  /** What stands between two chunks of a message. */
  function Separator(m: MessageHeader, csid: nat, extended: bool): seq<Byte> {
    BasicHeaderRaw(T3, csid) + ExtendedRaw(m, extended)
  }

  /** The header form for `m` after `last` on the same chunk stream. */
  function ChooseHeader(compress: bool, last: MuxHeader, m: MuxHeader): MessageHeader {
    var delta := (m.timestamp - last.timestamp) % FIELD24;
    if compress && last.csid == m.csid && last.bodySize == m.bodySize && last.streamId == m.streamId
       && last.typeId == m.typeId then
      Type2(delta)
    else if compress && last.csid == m.csid && last.streamId == m.streamId then
      Type1(delta, m.bodySize % FIELD24, m.typeId)
    else
      Type0(m.timestamp % FIELD24, m.bodySize % FIELD24, m.typeId, m.streamId)
  }

  predicate Extends(m: MessageHeader) {
    Time(m) >= EXTENDED_TIMESTAMP
  }

  function Export(compress: bool, chunkSize: ChunkSize, last: MuxHeader, m: MuxHeader, body: seq<Byte>): seq<Byte> {
    var h := ChooseHeader(compress, last, m);
    HeaderRaw(h, m.csid, Extends(h)) + Weave(body, chunkSize, Separator(h, m.csid, Extends(h)))
  }

  // ----- sizes -----

  function GetChunkDataRawSize(chunkSize: ChunkSize, csid: nat, length: nat, extended: bool): nat {
    if length == 0 then 0
    else
      var gap: nat := GetBasicHeaderSizeByChunkStreamID(csid) + if extended then EXTENDED_TIMESTAMP_SIZE else 0;
      MultiplyMonotone(0, (length - 1) / chunkSize, gap);
      length + (length - 1) / chunkSize * gap
  }

  /** The number of chunks, counted one by one. */
  function Blocks(length: nat, chunkSize: ChunkSize): nat {
    if length <= chunkSize then 1 else 1 + Blocks(length - chunkSize, chunkSize)
  }

  /** The bytes between the chunks, counted one gap at a time. */
  function GapBytes(length: nat, chunkSize: ChunkSize, gap: nat): nat {
    if length <= chunkSize then 0 else gap + GapBytes(length - chunkSize, chunkSize, gap)
  }

  lemma {:induction false} BlocksDivide(length: Positive, chunkSize: ChunkSize)
    ensures Blocks(length, chunkSize) == (length - 1) / chunkSize + 1
  {
    if length > chunkSize {
      BlocksDivide(length - chunkSize, chunkSize);
      DivideStep(length - 1, chunkSize);
    } else {
      DivideUnique(length - 1, chunkSize, 0, length - 1);
    }
  }

  lemma {:induction false} GapBytesBlocks(length: nat, chunkSize: ChunkSize, gap: nat)
    ensures GapBytes(length, chunkSize, gap) == (Blocks(length, chunkSize) - 1) * gap
  {
    if length > chunkSize {
      GapBytesBlocks(length - chunkSize, chunkSize, gap);
      MultiplySuccessor(Blocks(length - chunkSize, chunkSize) - 1, gap);
    }
  }

  lemma {:induction false} WeaveLength(body: seq<Byte>, chunkSize: ChunkSize, separator: seq<Byte>)
    ensures |Weave(body, chunkSize, separator)| == |body| + GapBytes(|body|, chunkSize, |separator|)
    decreases |body|
  {
    if |body| > chunkSize {
      WeaveLength(body[chunkSize..], chunkSize, separator);
    }
  }

  /** The size the exporter reserves, the size it fills and the size the importer expects are one number. */
  lemma SizesAgree(m: MessageHeader, csid: nat, extended: bool, body: seq<Byte>, chunkSize: ChunkSize,
                   basic: BasicHeader)
    requires basic.size == GetBasicHeaderSizeByChunkStreamID(csid)
    ensures |Weave(body, chunkSize, Separator(m, csid, extended))| ==
            GetChunkDataRawSize(chunkSize, csid, |body|, extended)
    ensures body != [] ==> GetChunkDataRawSize(chunkSize, csid, |body|, extended) ==
                           ExpectedSize(|body|, chunkSize, Type3Size(basic, extended))
  {
    if body == [] {
      return;
    }
    WeaveLength(body, chunkSize, Separator(m, csid, extended));
    GapBytesBlocks(|body|, chunkSize, |Separator(m, csid, extended)|);
    BlocksDivide(|body|, chunkSize);
  }

  /** A shorter body needs no more room. */
  lemma RoomGrows(chunkSize: ChunkSize, csid: nat, length: nat, announced: nat, extended: bool)
    requires length <= announced
    ensures GetChunkDataRawSize(chunkSize, csid, length, extended) <=
            GetChunkDataRawSize(chunkSize, csid, announced, extended)
  {
    if length > 0 {
      BlocksDivide(length, chunkSize);
      BlocksDivide(announced, chunkSize);
      BlocksGrow(length, announced, chunkSize);
      var gap := GetBasicHeaderSizeByChunkStreamID(csid) + if extended then EXTENDED_TIMESTAMP_SIZE else 0;
      MultiplyMonotone((length - 1) / chunkSize, (announced - 1) / chunkSize, gap);
    }
  }

  lemma {:induction false} BlocksGrow(length: nat, announced: nat, chunkSize: ChunkSize)
    requires length <= announced
    ensures Blocks(length, chunkSize) <= Blocks(announced, chunkSize)
  {
    if length > chunkSize {
      BlocksGrow(length - chunkSize, announced - chunkSize, chunkSize);
    }
  }

  // ----- writing into the buffer -----

  method WriteInt24(out: array<Byte>, at: nat, v: nat) returns (next: nat)
    requires at + 3 <= out.Length
    modifies out
    ensures next == at + 3
    ensures out[..next] == old(out[..at]) + WriteBE(v, 3)
  {
    out[at + 2] := v % 256;
    out[at + 1] := v / 256 % 256;
    out[at] := v / 0x1_0000 % 256;
    next := at + 3;
    WriteBE3(v);
  }

  method WriteInt32(out: array<Byte>, at: nat, v: nat) returns (next: nat)
    requires at + 4 <= out.Length
    modifies out
    ensures next == at + 4
    ensures out[..next] == old(out[..at]) + WriteBE(v, 4)
  {
    out[at + 3] := v % 256;
    out[at + 2] := v / 256 % 256;
    out[at + 1] := v / 0x1_0000 % 256;
    out[at] := v / 0x100_0000 % 256;
    next := at + 4;
    WriteBE4(v);
  }

  method WriteInt32LE(out: array<Byte>, at: nat, v: nat) returns (next: nat)
    requires at + 4 <= out.Length
    modifies out
    ensures next == at + 4
    ensures out[..next] == old(out[..at]) + WriteLE(v, 4)
  {
    out[at] := v % 256;
    out[at + 1] := v / 256 % 256;
    out[at + 2] := v / 0x1_0000 % 256;
    out[at + 3] := v / 0x100_0000 % 256;
    next := at + 4;
    WriteLE4(v);
  }

  method GetChunkBasicHeaderRaw(t: ChunkType, csid: nat, out: array<Byte>, at: nat) returns (next: nat)
    requires at + GetBasicHeaderSizeByChunkStreamID(csid) <= out.Length
    modifies out
    ensures next == at + GetBasicHeaderSizeByChunkStreamID(csid)
    ensures out[..next] == old(out[..at]) + BasicHeaderRaw(t, csid)
  {
    if csid >= 64 + 256 {
      var id := csid - 64;
      out[at] := 1 + t.Tag();
      out[at + 1] := id % 256;
      id := id / 256;
      out[at + 2] := id % 256;
      next := at + 3;
    } else if csid >= 64 {
      out[at] := t.Tag();
      out[at + 1] := (csid - 64) % 256;
      next := at + 2;
    } else {
      out[at] := csid % 64 + t.Tag();
      next := at + 1;
    }
  }

  method WriteLengthAndType(out: array<Byte>, at: nat, length: nat, typeId: nat) returns (next: nat)
    requires at + 4 <= out.Length
    modifies out
    ensures next == at + 4 && out[..next] == old(out[..at]) + (WriteBE(length, 3) + [typeId % 256])
  {
    hide WriteBE;
    next := WriteInt24(out, at, length);
    out[next] := typeId % 256;
    next := next + 1;
    assert out[..next] == out[..next - 1] + [typeId % 256];
  }

  /** The fields of a message header as the branches of `GetChunkHeaderRaw` write them. */
  method WriteMessageHeader(m: MessageHeader, extended: bool, out: array<Byte>, at: nat) returns (next: nat)
    requires at + 11 <= out.Length && !m.Type3?
    modifies out
    ensures at <= next <= at + 11 && out[..next] == old(out[..at]) + MessageHeaderRaw(m, extended)
  {
    hide WriteBE, WriteLE;
    next := WriteInt24(out, at, if extended then EXTENDED_TIMESTAMP else Time(m));
    match m {
      case Type0(_, length, typeId, streamId) =>
        next := WriteLengthAndType(out, next, length, typeId);
        next := WriteInt32LE(out, next, streamId);
      case Type1(_, length, typeId) => next := WriteLengthAndType(out, next, length, typeId);
      case Type2(_) =>
    }
  }

  method GetChunkHeaderRaw(m: MessageHeader, csid: nat, extended: bool, out: array<Byte>) returns (next: nat)
    requires PACKET_HEADER_SIZE_MAX <= out.Length && !m.Type3?
    modifies out
    ensures next <= PACKET_HEADER_SIZE_MAX
    ensures out[..next] == HeaderRaw(m, csid, extended)
  {
    hide BasicHeaderRaw, MessageHeaderRaw, WriteBE;
    next := GetChunkBasicHeaderRaw(Format(m), csid, out, 0);
    next := WriteMessageHeader(m, extended, out, next);
    if extended {
      next := WriteInt32(out, next, Time(m));
    }
  }

  /** What is still to be written once `left` remains of the body: nothing, or a separator and more chunks. */
  function Tail(left: seq<Byte>, chunkSize: ChunkSize, separator: seq<Byte>): seq<Byte> {
    if left == [] then [] else separator + Weave(left, chunkSize, separator)
  }

  function Rest(left: seq<Byte>, chunkSize: ChunkSize, separator: seq<Byte>, first: bool): seq<Byte> {
    if first then Weave(left, chunkSize, separator) else Tail(left, chunkSize, separator)
  }

  lemma RestFirst(body: seq<Byte>, chunkSize: ChunkSize, separator: seq<Byte>)
    ensures Rest(body, chunkSize, separator, true) == Weave(body, chunkSize, separator)
  {
  }

  lemma RestNothing(chunkSize: ChunkSize, separator: seq<Byte>)
    ensures Rest([], chunkSize, separator, false) == []
  {
  }

  /** One more chunk moves from what is left to what is written. */
  lemma RestStep(body: seq<Byte>, read: nat, chunkSize: ChunkSize, separator: seq<Byte>, first: bool)
    requires read < |body|
    ensures Rest(body[read..], chunkSize, separator, first) ==
            (if first then [] else separator) + body[read..read + Min(|body| - read, chunkSize)]
            + Rest(body[read + Min(|body| - read, chunkSize)..], chunkSize, separator, false)
  {
    hide Weave;
    var left, size := body[read..], Min(|body| - read, chunkSize);
    WeaveHead(left, chunkSize, separator);
    assert left[..size] == body[read..read + size] && left[size..] == body[read + size..];
  }

  lemma WeaveHead(body: seq<Byte>, chunkSize: ChunkSize, separator: seq<Byte>)
    ensures Weave(body, chunkSize, separator) ==
            body[..Min(|body|, chunkSize)] + Tail(body[Min(|body|, chunkSize)..], chunkSize, separator)
  {
    if |body| <= chunkSize {
      assert body[..|body|] + [] == body;
    }
  }

  /** Writes one chunk of a message, behind a type 3 header unless it is the first. */
  method WriteBlock(out: array<Byte>, at: nat, first: bool, type3: seq<Byte>, extended: bool, m: MessageHeader,
                    block: seq<Byte>) returns (next: nat)
    requires at + (if first then 0 else |type3| + |ExtendedRaw(m, extended)|) + |block| <= out.Length
    modifies out
    ensures next == at + (if first then 0 else |type3| + |ExtendedRaw(m, extended)|) + |block|
    ensures out[..next] == old(out[..at]) + (if first then [] else type3 + ExtendedRaw(m, extended)) + block
  {
    next := at;
    if !first {
      next := Put(out, next, type3);
      if extended {
        next := WriteInt32(out, next, Time(m));
      }
    }
    assert out[..next] == old(out[..at]) + (if first then [] else type3 + ExtendedRaw(m, extended));
    next := Put(out, next, block);
  }

  /** The copying loop of `GetChunkDataRaw`. */
  method WriteBlocks(chunkSize: ChunkSize, body: seq<Byte>, blocks: nat, type3: seq<Byte>, out: array<Byte>, at: nat,
                     extended: bool, m: MessageHeader) returns (next: nat)
    requires body != [] && blocks == Blocks(|body|, chunkSize)
    requires at + |Rest(body, chunkSize, type3 + ExtendedRaw(m, extended), true)| <= out.Length
    modifies out
    ensures next == at + |Rest(body, chunkSize, type3 + ExtendedRaw(m, extended), true)|
    ensures out[..next] == old(out[..at]) + Rest(body, chunkSize, type3 + ExtendedRaw(m, extended), true)
  {
    hide Weave, Rest;
    ghost var separator := type3 + ExtendedRaw(m, extended);
    ghost var goal := Rest(body, chunkSize, separator, true);
    var read: nat, index: nat := 0, 0;
    ghost var written: seq<Byte> := [];
    next := at;
    assert body[0..] == body && [] + goal == goal;
    while index < blocks
      invariant index <= blocks && read <= |body|
      invariant if read < |body| then blocks - index == Blocks(|body| - read, chunkSize) else blocks == index
      invariant next == at + |written| <= out.Length && out[..next] == old(out[..at]) + written
      invariant goal == written + Rest(body[read..], chunkSize, separator, index == 0)
      decreases blocks - index
    {
      var size := Min(|body| - read, chunkSize);
      var block := body[read..read + size];
      ghost var gap := if index == 0 then [] else separator;
      ghost var left := Rest(body[read + size..], chunkSize, separator, false);
      RestStep(body, read, chunkSize, separator, index == 0);
      assert goal == (written + gap + block) + left;
      next := WriteBlock(out, next, index == 0, type3, extended, m, block);
      written := written + gap + block;
      read := read + size;
      index := index + 1;
    }
    assert body[read..] == [];
    RestNothing(chunkSize, separator);
    assert goal == written;
  }

  method GetChunkDataRaw(chunkSize: ChunkSize, csid: nat, body: seq<Byte>, out: array<Byte>, at: nat, extended: bool,
                         m: MessageHeader) returns (next: nat)
    requires at + |Weave(body, chunkSize, Separator(m, csid, extended))| <= out.Length
    modifies out
    ensures next == at + |Weave(body, chunkSize, Separator(m, csid, extended))|
    ensures out[..next] == old(out[..at]) + Weave(body, chunkSize, Separator(m, csid, extended))
  {
    hide Rest;
    if body == [] {
      return at;
    }
    ghost var separator := Separator(m, csid, extended);
    var blocks := (|body| - 1) / chunkSize + 1;
    BlocksDivide(|body|, chunkSize);
    var buffer := new Byte[3];
    var type3Size := GetChunkBasicHeaderRaw(T3, csid, buffer, 0);
    var type3 := buffer[..type3Size];
    assert type3 == BasicHeaderRaw(T3, csid);
    RestFirst(body, chunkSize, separator);
    next := WriteBlocks(chunkSize, body, blocks, type3, out, at, extended, m);
  }

  // ----- the exporter -----

  datatype ExportStream = ExportStream(message: MuxHeader, delta: Uint32)

  class RtmpExportChunk {
    var streamMap: map<Uint32, ExportStream>
    const compress: bool
    const chunkSize: ExportChunkSize

    constructor (compress: bool, chunkSize: ExportChunkSize)
      ensures this.compress == compress && this.chunkSize == chunkSize && streamMap == map[]
    {
      this.compress := compress;
      this.chunkSize := chunkSize;
      streamMap := map[];
    }

    ghost function AllSent(): Sent
      reads this
    {
      map id | id in streamMap :: streamMap[id].message
    }

    /** The entry of a chunk stream; a new one has the all-zero header. */
    method GetStream(csid: Uint32) returns (stream: ExportStream)
      modifies this`streamMap
      ensures stream.message == LastSent(old(AllSent()), csid)
      ensures csid in streamMap && stream == streamMap[csid]
      ensures forall id :: id in old(streamMap) ==> id in streamMap && streamMap[id] == old(streamMap)[id]
      ensures forall id :: id in streamMap ==> id in old(streamMap) || id == csid
    {
      if csid in streamMap {
        return streamMap[csid];
      }
      stream := ExportStream(NO_MUX_HEADER, 0);
      streamMap := streamMap[csid := stream];
    }

    /**
      The chunks of one message, or None for a reserved chunk stream. The buffer is sized by the
      length the header announces, and is large enough for any body that is not longer.
     */
    method ExportStreamData(m: MuxHeader, body: seq<Byte>) returns (data: Option<seq<Byte>>)
      requires |body| <= m.bodySize
      modifies this`streamMap
      ensures m.csid < 2 ==> data.None? && streamMap == old(streamMap)
      ensures 2 <= m.csid ==>
        data == Some(Export(compress, chunkSize, LastSent(old(AllSent()), m.csid), m, body))
        && AllSent() == old(AllSent())[m.csid := m]
    {
      if m.csid < 2 {
        return None;
      }
      var stream := GetStream(m.csid);
      var h := ChooseHeader(compress, stream.message, m);
      var extended := Extends(h);
      var basic := BasicHeader(T3, GetBasicHeaderSizeByChunkStreamID(m.csid), m.csid);
      SizesAgree(h, m.csid, extended, body, chunkSize, basic);
      RoomGrows(chunkSize, m.csid, |body|, m.bodySize, extended);
      var buffer := new Byte[PACKET_HEADER_SIZE_MAX + GetChunkDataRawSize(chunkSize, m.csid, m.bodySize, extended)];
      var size := GetChunkHeaderRaw(h, m.csid, extended, buffer);
      size := GetChunkDataRaw(chunkSize, m.csid, body, buffer, size, extended, h);
      streamMap := streamMap[m.csid := ExportStream(m, (m.timestamp - stream.message.timestamp) % 0x1_0000_0000)];
      return Some(buffer[..size]);
    }
  }
}
