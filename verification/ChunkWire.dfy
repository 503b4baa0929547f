/**
  The chunk layer byte by byte: what the bytes of a header say, what a header takes over from the one before,
  what a message does to the connection, and what the exporter writes. Everything is stated over bytes and
  numbers, as sections 5.3.1 and 5.4.1 of the RTMP 1.0 specification lay them out.
 */
module ChunkWire {
  import opened Bytes
  import opened ChunkFormat
  import opened ChunkMachine
  import opened ChunkExport
  import opened ChunkRoundTrip

  function Number4(p: seq<Byte>): nat
    requires 4 <= |p|
  {
    0x100_0000 * (p[0] as int) + 0x1_0000 * (p[1] as int) + 0x100 * (p[2] as int) + p[3] as int
  }

  function Number3(p: seq<Byte>): nat
    requires 3 <= |p|
  {
    0x1_0000 * (p[0] as int) + 0x100 * (p[1] as int) + p[2] as int
  }

  // ----- reading a header -----

  /** The first byte of a chunk and the one or two bytes that may follow it. */
  lemma BasicRead(s: State, d: seq<Byte>)
    requires s.handshake == Complete && s.parser == AwaitBasic && d != []
    ensures var low := d[0] % 64;
            var n := if low == 0 then 2 else if low == 1 then 3 else 1;
            if |d| < n then Run(s, d) == Ran(s, d, [])
            else
              var form := if d[0] < 64 then T0 else if d[0] < 128 then T1 else if d[0] < 192 then T2 else T3;
              var csid: nat := if n == 1 then low else if n == 2 then 64 + d[1] as int
                               else 64 + d[1] as int + 256 * (d[2] as int);
              Run(s, d) == Run(s.(parser := AwaitMessage(BasicHeader(form, n, csid))), d[n..])
  {
    hide Run;
    if |d| < GetBasicHeaderSize(d[0]) {
      RunStopped(s, d);
    } else {
      RunBasic(s, d);
    }
  }

  /** Eleven, seven, three or no bytes of message header. */
  lemma MessageRead(s: State, basic: BasicHeader, d: seq<Byte>)
    requires s.handshake == Complete && s.parser == AwaitMessage(basic) && d != []
    ensures var n := match basic.format case T0 => 11 case T1 => 7 case T2 => 3 case T3 => 0;
            if |d| < n then Run(s, d) == Ran(s, d, [])
            else
              var m := match basic.format
                       case T0 => Type0(Number3(d), Number3(d[3..]), d[6], Number4([d[10], d[9], d[8], d[7]]))
                       case T1 => Type1(Number3(d), Number3(d[3..]), d[6])
                       case T2 => Type2(Number3(d))
                       case T3 => Type3;
              Run(s, d) == Run(s.(parser := AwaitExtended(basic, m)), d[n..])
  {
    hide Run, ReadBE, ReadLE;
    if |d| < basic.format.MessageHeaderSize() {
      RunStopped(s, d);
    } else {
      RunMessage(s, basic, d);
      if !basic.format.T3? { BE3(d[..3]); }
      if basic.format.T0? || basic.format.T1? { BE3(d[3..6]); }
      if basic.format.T0? { LE4(d[7..11]); }
    }
  }

  lemma LE4(s: seq<Byte>)
    requires |s| == 4
    ensures ReadLE(s) == Number4([s[3], s[2], s[1], s[0]])
  {
    var a, b, c := s[1..], s[2..], s[3..];
    assert a[1..] == b && b[1..] == c && c[1..] == [];
    assert ReadLE(c) == s[3];
    assert ReadLE(b) == s[2] as int + 256 * (s[3] as int);
    assert ReadLE(a) == s[1] as int + 256 * ReadLE(b);
  }

  /** Four more bytes follow a field of all ones, and behind a type 3 header when the header before had them. */
  lemma ExtendedRead(s: State, basic: BasicHeader, m: MessageHeader, d: seq<Byte>)
    requires s.handshake == Complete && s.parser == AwaitExtended(basic, m) && d != []
    ensures var due := match m
                       case Type0(timestamp, _, _, _) => timestamp == 16777215
                       case Type1(delta, _, _) => delta == 16777215
                       case Type2(delta) => delta == 16777215
                       case Type3 => basic.csid in s.chunkMap && s.chunkMap[basic.csid].extended.Some?;
            if due && |d| < 4 then Run(s, d) == Ran(s, d, [])
            else if due then Run(s, d) == Headed(HeaderDone(s, basic, m, Some(Number4(d)), 0), d[4..])
            else Run(s, d) == Headed(HeaderDone(s, basic, m, None, 0), d)
  {
    hide Run, ReadBE, HeaderDone;
    assert s.(parser := AwaitExtended(basic, m)) == s;
    if HasExtended(m, Lookup(s.chunkMap, basic.csid)) {
      if |d| < 4 {
        RunStopped(s, d);
      } else {
        BE4(d[..4]);
        RunExtended(s, basic, m, Some(ReadBE(d[..4])), d, 4);
      }
    } else {
      RunExtended(s, basic, m, None, d, 0);
      assert d[0..] == d;
    }
  }

  /** What each form of header says itself and what it takes over from the header before on its chunk stream. */
  lemma Inherits(m: MessageHeader, extended: Option<nat>, last: Option<Fields>)
    requires last.None? ==> m.Type0?
    ensures var c := CompleteFields(m, extended, last);
            match m
            case Type0(timestamp, length, typeId, streamId) =>
              var sent := if extended.Some? then extended.value else timestamp;
              && c.delta == 0 && c.length == length && c.typeId == typeId && c.streamId == streamId
              && c.timestamp ==
                 if last.None? || -1073741824 < last.value.timestamp - sent < 1073741824 then sent
                 else (last.value.timestamp / 2147483648 + 1) * 2147483648 + sent
            case Type1(delta, length, typeId) =>
              && c.delta == (if extended.Some? then extended.value else delta)
              && c.timestamp == last.value.timestamp + c.delta
              && c.length == length && c.typeId == typeId && c.streamId == last.value.streamId
            case Type2(delta) =>
              && c.delta == (if extended.Some? then extended.value else delta)
              && c.timestamp == last.value.timestamp + c.delta
              && c.length == last.value.length && c.typeId == last.value.typeId && c.streamId == last.value.streamId
            case Type3 =>
              && c.delta == last.value.delta && c.timestamp == last.value.timestamp + last.value.delta
              && c.length == last.value.length && c.typeId == last.value.typeId && c.streamId == last.value.streamId
  {
    if m.Type0? && last.Some? {
      assert last.value.timestamp - last.value.timestamp % SERIAL == last.value.timestamp / SERIAL * SERIAL;
    }
  }

  /** A complete header: refused, or remembered for its chunk stream with the number of bytes its message takes. */
  lemma HeaderCompleted(s: State, basic: BasicHeader, m: MessageHeader, extended: Option<nat>)
    ensures var known := basic.csid in s.chunkMap;
            var r := HeaderDone(s, basic, m, extended, 0);
            if !known && !m.Type0? then r.Reject?
            else
              var c := CompleteFields(m, extended, if known then Some(s.chunkMap[basic.csid].completed) else None);
              var count := (if c.length == 0 then 4294967295 else c.length - 1) / s.chunkSize;
              if 20971520 < c.length || 2147483648 <= count then r.Reject?
              else
                r.Advance? && r.consumed == 0 && r.message == None &&
                var h := ChunkHeader(basic, m, extended, c,
                                     c.length + count * (basic.size + if extended.Some? then 4 else 0));
                r.next == s.(chunkMap := s.chunkMap[basic.csid := h], parser := AwaitPayload(h))
  {
    hide CompleteFields;
  }

  /** The bytes that an interior chunk of a message must start with: right only for chunk stream ids below 320. */
  lemma InteriorHeader(csid: nat)
    requires 2 <= csid <= 65599
    ensures var size := if csid < 64 then 1 else if csid < 320 then 2 else 3;
            ExpectedType3(BasicHeader(T3, size, csid)) ==
            if csid < 64 then [192 + csid]
            else if csid < 320 then [192, csid - 64]
            else [193, (csid - 64) % 256, 0]
  {
  }

  // ----- what a message does -----

  /**
    A complete message on a live connection: type 1 sets the chunk size for everything behind it to the number in
    its first four bytes, and is refused when that is zero or not there; any other message leaves it as it was.
   */
  lemma MessageTakesEffect(s: State, h: ChunkHeader, m: Message, d: seq<Byte>)
    requires s.handshake == Complete && s.parser == AwaitPayload(h) && h.expected <= |d|
    requires FinalizeMessage(h, s.chunkSize, d[..h.expected]) == Some(m)
    ensures var next, rest, p := s.(parser := AwaitBasic), d[h.expected..], m.payload;
            if !s.live || m.header.completed.typeId != 1 then Run(s, d) == Emit(Some(m), Run(next, rest))
            else if |p| < 4 || Number4(p) == 0 then Run(s, d) == Rejected
            else Run(s, d) == Emit(Some(m), Run(next.(chunkSize := Number4(p)), rest))
  {
    hide Run, ReadBE, FinalizeMessage;
    RunPayload(s, h, d);
    if 4 <= |m.payload| {
      BE4(m.payload[..4]);
    }
  }

  // ----- messages that start with a type 3 header -----

  /** A type 3 basic header, as both sides write and read it. */
  function Type3Bytes(csid: nat): (s: seq<Byte>)
    requires 2 <= csid <= 65599
    ensures |s| == if csid < 64 then 1 else if csid < 320 then 2 else 3
  {
    if csid < 64 then [192 + csid]
    else if csid < 320 then [192, csid - 64]
    else [193, (csid - 64) % 256, (csid - 64) / 256]
  }

  /** The header a message gets that repeats the one before on its chunk stream. */
  function Repeated(last: ChunkHeader, csid: nat, extended: seq<Byte>, chunkSize: ChunkSize): ChunkHeader
    requires 2 <= csid <= 65599 && (extended != [] ==> 4 <= |extended|) && 1 <= last.completed.length
  {
    var c := last.completed;
    var basic := BasicHeader(T3, |Type3Bytes(csid)|, csid);
    ChunkHeader(basic, Type3, if extended == [] then None else Some(Number4(extended)),
                c.(timestamp := c.timestamp + c.delta),
                ExpectedSize(c.length, chunkSize, Type3Size(basic, extended != [])))
  }

  /** The bytes of such a message: its header, and its body cut into chunks by the same header. */
  function RepeatedBytes(csid: nat, extended: seq<Byte>, body: seq<Byte>, chunkSize: ChunkSize): seq<Byte>
    requires 2 <= csid <= 65599
  {
    Type3Bytes(csid) + extended + Weave(body, chunkSize, Type3Bytes(csid) + extended)
  }

  lemma Type3BasicRead(s: State, csid: nat, rest: seq<Byte>)
    requires s.handshake == Complete && s.parser == AwaitBasic && 2 <= csid <= 65599
    ensures Run(s, Type3Bytes(csid) + rest) ==
            Run(s.(parser := AwaitMessage(BasicHeader(T3, |Type3Bytes(csid)|, csid))), rest)
  {
    hide Run;
    var a, d := Type3Bytes(csid), Type3Bytes(csid) + rest;
    assert d[|a|..] == rest;
    BasicRead(s, d);
  }

  lemma Type3HeaderRead(s: State, last: ChunkHeader, csid: nat, extended: seq<Byte>, more: seq<Byte>)
    requires s.handshake == Complete && s.parser == AwaitBasic && 2 <= csid <= 65599
    requires csid in s.chunkMap && s.chunkMap[csid] == last && 1 <= last.completed.length <= 20971520
    requires |extended| == (if last.extended.Some? then 4 else 0) && more != []
    ensures var h := Repeated(last, csid, extended, s.chunkSize);
            Run(s, Type3Bytes(csid) + extended + more) ==
            Run(s.(chunkMap := s.chunkMap[csid := h], parser := AwaitPayload(h)), more)
  {
    hide Run, HeaderDone;
    var a, rest := Type3Bytes(csid), extended + more;
    var basic := BasicHeader(T3, |a|, csid);
    Type3BasicRead(s, csid, rest);
    AppendTwice(a, extended, more);
    assert rest[0..] == rest;
    MessageRead(s.(parser := AwaitMessage(basic)), basic, rest);
    ExtendedRead(s.(parser := AwaitExtended(basic, Type3)), basic, Type3, rest);
    if extended != [] {
      assert rest[4..] == more && Number4(rest) == Number4(extended);
    } else {
      assert rest == more;
    }
    Type3Completed(s.(parser := AwaitExtended(basic, Type3)), last, csid, extended);
  }

  lemma Type3Completed(s: State, last: ChunkHeader, csid: nat, extended: seq<Byte>)
    requires 2 <= csid <= 65599
    requires csid in s.chunkMap && s.chunkMap[csid] == last && 1 <= last.completed.length <= 20971520
    requires |extended| == (if last.extended.Some? then 4 else 0)
    ensures var h := Repeated(last, csid, extended, s.chunkSize);
            HeaderDone(s, h.basic, Type3, h.extended, 0) ==
            Advance(s.(chunkMap := s.chunkMap[csid := h], parser := AwaitPayload(h)), 0, None)
  {
    hide Type3Count, ExpectedSize;
    CountBelowLength(last.completed.length, s.chunkSize);
  }

  /** Any body of the repeated length is put together again when it is one chunk or the id is below 320. */
  lemma RepeatedBody(h: ChunkHeader, csid: nat, extended: seq<Byte>, body: seq<Byte>, chunkSize: ChunkSize)
    requires 2 <= csid <= 65599 && |extended| == (if h.extended.Some? then 4 else 0)
    requires h.basic == BasicHeader(T3, |Type3Bytes(csid)|, csid) && h.completed.length == |body|
    ensures var raw := Weave(body, chunkSize, Type3Bytes(csid) + extended);
            FinalizeMessage(h, chunkSize, raw) ==
            if |body| <= chunkSize || csid < 320 then Some(Message(h, body)) else None
  {
    hide Strip, Weave;
    InteriorHeader(csid);
    var written, type3 := Type3Bytes(csid), ExpectedType3(h.basic);
    if csid < 320 {
      StripWeave(body, chunkSize, type3, extended);
    } else if |body| <= chunkSize {
      WeaveOneChunk(body, chunkSize, written + extended, type3 + extended);
      StripWeave(body, chunkSize, type3, extended);
    } else {
      StripMismatch(body, chunkSize, written, type3, extended);
    }
  }

  lemma WeaveOneChunk(body: seq<Byte>, chunkSize: ChunkSize, a: seq<Byte>, b: seq<Byte>)
    requires |body| <= chunkSize
    ensures Weave(body, chunkSize, a) == Weave(body, chunkSize, b)
  {
  }

  /**
    A message that starts with a type 3 header behind a message of its chunk stream: the same length, type and
    stream id, the timestamp one delta later. It is delivered when it is one chunk or its id is below 320.
   */
  lemma Type3Repeats(s: State, last: ChunkHeader, csid: nat, extended: seq<Byte>, body: seq<Byte>, rest: seq<Byte>)
    requires s.handshake == Complete && s.parser == AwaitBasic && 2 <= csid <= 65599
    requires csid in s.chunkMap && s.chunkMap[csid] == last && 1 <= |body| == last.completed.length <= 20971520
    requires |extended| == (if last.extended.Some? then 4 else 0)
    requires !s.live || last.completed.typeId != 1
    ensures var h := Repeated(last, csid, extended, s.chunkSize);
            && h.basic.csid == csid && h.completed.length == |body| && h.completed.typeId == last.completed.typeId
            && h.completed.streamId == last.completed.streamId
            && h.completed.timestamp == last.completed.timestamp + last.completed.delta
            && Run(s, RepeatedBytes(csid, extended, body, s.chunkSize) + rest) ==
               if |body| <= s.chunkSize || csid < 320
               then Emit(Some(Message(h, body)), Run(s.(chunkMap := s.chunkMap[csid := h]), rest))
               else Rejected
  {
    hide Run, FinalizeMessage, Weave;
    var h, header := Repeated(last, csid, extended, s.chunkSize), Type3Bytes(csid);
    var raw := Weave(body, s.chunkSize, header + extended);
    RepeatedSize(h, csid, extended, body, s.chunkSize);
    assert RepeatedBytes(csid, extended, body, s.chunkSize) + rest == header + extended + (raw + rest);
    Type3HeaderRead(s, last, csid, extended, raw + rest);
    var waiting := s.(chunkMap := s.chunkMap[csid := h], parser := AwaitPayload(h));
    assert (raw + rest)[..|raw|] == raw && (raw + rest)[|raw|..] == rest;
    RepeatedBody(h, csid, extended, body, s.chunkSize);
    RunPayload(waiting, h, raw + rest);
  }

  lemma RepeatedSize(h: ChunkHeader, csid: nat, extended: seq<Byte>, body: seq<Byte>, chunkSize: ChunkSize)
    requires 2 <= csid <= 65599 && |extended| in {0, 4} && body != []
    requires h.expected == ExpectedSize(|body|, chunkSize, |Type3Bytes(csid)| + |extended|)
    ensures |Weave(body, chunkSize, Type3Bytes(csid) + extended)| == h.expected
  {
    var gap := |Type3Bytes(csid)| + |extended|;
    WeaveLength(body, chunkSize, Type3Bytes(csid) + extended);
    GapBytesBlocks(|body|, chunkSize, gap);
    BlocksDivide(|body|, chunkSize);
  }

  /** The same on the bytes of two messages: whatever form the first had, the second repeats it. */
  lemma BehindMessage(s: State, h: ChunkHeader, m: Message, raw: seq<Byte>, extended: seq<Byte>, body: seq<Byte>,
                      rest: seq<Byte>)
    requires s.handshake == Complete && s.parser == AwaitPayload(h) && 2 <= h.basic.csid <= 65599
    requires h.basic.csid in s.chunkMap && s.chunkMap[h.basic.csid] == h && |raw| == h.expected
    requires FinalizeMessage(h, s.chunkSize, raw) == Some(m) && (!s.live || h.completed.typeId != 1)
    requires |extended| == (if h.extended.Some? then 4 else 0)
    requires 1 <= |body| == h.completed.length <= 20971520
    ensures var csid := h.basic.csid;
            var again := Repeated(h, csid, extended, s.chunkSize);
            var next := s.(parser := AwaitBasic, chunkMap := s.chunkMap[csid := again]);
            Run(s, raw + (RepeatedBytes(csid, extended, body, s.chunkSize) + rest)) ==
            if |body| <= s.chunkSize || csid < 320
            then Emit(Some(m), Emit(Some(Message(again, body)), Run(next, rest)))
            else Rejected
  {
    hide Run, FinalizeMessage, RepeatedBytes, Repeated;
    var more := RepeatedBytes(h.basic.csid, extended, body, s.chunkSize) + rest;
    assert (raw + more)[..|raw|] == raw && (raw + more)[|raw|..] == more;
    FinalizedHeader(h, s.chunkSize, raw);
    MessageTakesEffect(s, h, m, raw + more);
    Type3Repeats(s.(parser := AwaitBasic), h, h.basic.csid, extended, body, rest);
  }

  lemma FinalizedHeader(h: ChunkHeader, chunkSize: ChunkSize, raw: seq<Byte>)
    ensures var m := FinalizeMessage(h, chunkSize, raw);
            m.Some? ==> m.value.header == h && |m.value.payload| == h.completed.length
  {
    hide Strip;
  }

  // ----- what the exporter writes -----

  /** Which fields a message repeats of the one sent before on its chunk stream, when headers are compressed. */
  predicate SameStream(compress: bool, last: MuxHeader, m: MuxHeader) {
    compress && last.csid == m.csid && last.streamId == m.streamId
  }

  function FirstBytes(tag: Byte, csid: nat): seq<Byte>
    requires 2 <= csid <= 65599 && tag in {0, 64, 128, 192}
  {
    if csid < 64 then [tag + csid]
    else if csid < 320 then [tag, csid - 64]
    else [tag + 1, (csid - 64) % 256, (csid - 64) / 256]
  }

  function Bytes3(v: nat): seq<Byte> {
    [v / 65536 % 256, v / 256 % 256, v % 256]
  }

  /**
    The bytes of one exported message. A message that repeats its chunk stream and message stream sends how much
    later it is instead of its time, then its length and type unless it repeats these as well; the first one sends
    all of them and its stream, least significant byte first. A time field of all ones is sent twice.
   */
  lemma ExportedBytes(compress: bool, chunkSize: ChunkSize, last: MuxHeader, m: MuxHeader, body: seq<Byte>)
    requires 2 <= m.csid <= 65599
    ensures var same := SameStream(compress, last, m);
            var short := same && last.bodySize == m.bodySize && last.typeId == m.typeId;
            var time := (if same then m.timestamp - last.timestamp else m.timestamp) % 16777216;
            var twice := if time == 16777215 then [0, 255, 255, 255] else [];
            var stream := [m.streamId % 256, m.streamId / 256 % 256, m.streamId / 65536 % 256,
                           m.streamId / 16777216 % 256];
            Export(compress, chunkSize, last, m, body) ==
            FirstBytes(if short then 128 else if same then 64 else 0, m.csid) + Bytes3(time)
            + (if short then [] else Bytes3(m.bodySize % 16777216) + [m.typeId]) + (if same then [] else stream) + twice
            + Weave(body, chunkSize, FirstBytes(192, m.csid) + twice)
  {
    hide BasicHeaderRaw, FirstBytes, Bytes3, MessageHeaderRaw, ExtendedRaw, Weave;
    var h := ChooseHeader(compress, last, m);
    FirstBytesRaw(Format(h), m.csid);
    FirstBytesRaw(T3, m.csid);
    TimeBytes(h);
    FieldBytes(h);
  }

  lemma FirstBytesRaw(t: ChunkType, csid: nat)
    requires 2 <= csid <= 65599
    ensures BasicHeaderRaw(t, csid) ==
            FirstBytes(match t case T0 => 0 case T1 => 64 case T2 => 128 case T3 => 192, csid)
  {
  }

  lemma TimeBytes(h: MessageHeader)
    requires Time(h) < 16777216
    ensures ExtendedRaw(h, Extends(h)) == if Time(h) == 16777215 then [0, 255, 255, 255] else []
  {
    hide WriteBE;
    WriteBE4(Time(h));
  }

  lemma FieldBytes(h: MessageHeader)
    requires Time(h) < 16777216
    ensures MessageHeaderRaw(h, Extends(h)) ==
            match h
            case Type0(timestamp, length, typeId, streamId) =>
              Bytes3(timestamp) + (Bytes3(length) + [typeId % 256])
              + [streamId % 256, streamId / 256 % 256, streamId / 65536 % 256, streamId / 16777216 % 256]
            case Type1(delta, length, typeId) => Bytes3(delta) + (Bytes3(length) + [typeId % 256])
            case Type2(delta) => Bytes3(delta)
            case Type3 => []
  {
    hide WriteBE, WriteLE;
    WriteBE3(Time(h));
    WriteBE3(EXTENDED_TIMESTAMP);
    if h.Type0? {
      WriteBE3(h.length);
      WriteLE4(h.streamId);
    } else if h.Type1? {
      WriteBE3(h.length);
    }
  }
}
