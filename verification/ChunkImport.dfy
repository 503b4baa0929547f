/**
  The importer as the program runs it: a read cursor, a resumable header parser
  that keeps its stage between calls, and the class that strips and queues
  messages. Every method is tied to `ChunkMachine.Run`.
 */
module ChunkImport {
  import opened Bytes
  import opened ChunkFormat
  import opened ChunkMachine

  /** A read-only `ov::ByteStream`. */
  class ReadStream {
    const data: seq<Byte>
    var offset: nat

    ghost predicate Valid()
      reads this
    {
      offset <= |data|
    }

    constructor (data: seq<Byte>)
      ensures Valid() && this.data == data && offset == 0
    {
      this.data := data;
      offset := 0;
    }

    predicate IsRemained(n: nat)
      reads this
      requires Valid()
    {
      offset + n <= |data|
    }

    method Read(n: nat) returns (bytes: seq<Byte>)
      requires Valid() && IsRemained(n)
      modifies this
      ensures Valid() && offset == old(offset) + n
      ensures bytes == data[old(offset)..offset]
    {
      bytes := data[offset..offset + n];
      offset := offset + n;
    }
  }

  datatype ParseStatus = BasicHeaderStage | MessageHeaderStage | ExtendedTimestampStage | CompletedStage

  datatype ParseResult = NeedMoreData | Parsed

  /** What the parser has read of the current header. */
  datatype PartialHeader = PartialHeader(basic: BasicHeader, message: MessageHeader, extended: Option<nat>)

  const NO_HEADER := PartialHeader(BasicHeader(T3, 1, 0), Type3, None)

  class RtmpChunkParser {
    var header: PartialHeader
    var status: ParseStatus

    constructor ()
      ensures status == BasicHeaderStage
    {
      header := NO_HEADER;
      status := BasicHeaderStage;
    }

    /** The machine's view of a parser that is still reading a header. */
    ghost function Pending(): ParserState
      reads this
      requires status != CompletedStage
    {
      match status
      case BasicHeaderStage => AwaitBasic
      case MessageHeaderStage => AwaitMessage(header.basic)
      case ExtendedTimestampStage => AwaitExtended(header.basic, header.message)
    }

    method Reset()
      modifies this
      ensures status == BasicHeaderStage
    {
      header := NO_HEADER;
      status := BasicHeaderStage;
    }

    method ParseBasicHeader(stream: ReadStream) returns (result: ParseResult, parsed: nat)
      requires stream.Valid() && stream.IsRemained(1)
      modifies this`header, stream
      ensures stream.Valid()
      ensures var d := stream.data[old(stream.offset)..];
              var n := GetBasicHeaderSize(d[0]);
              if |d| < n then result == NeedMoreData
              else result == Parsed && parsed == n && stream.offset == old(stream.offset) + n
                   && header == old(header).(basic := ReadBasicHeader(d))
    {
      var first := stream.Read(1);
      var size := GetBasicHeaderSize(first[0]);
      parsed := 0;
      if !stream.IsRemained(size - 1) {
        return NeedMoreData, parsed;
      }
      var id: nat := first[0] as int % 64;
      if size == 2 {
        var more := stream.Read(1);
        id := more[0] as int + 64;
      } else if size == 3 {
        var more := stream.Read(2);
        id := more[0] as int + 64 + more[1] as int * 256;
      }
      header := header.(basic := BasicHeader(GetChunkType(first[0]), size, id));
      return Parsed, size;
    }

    method ParseMessageHeader(stream: ReadStream) returns (result: ParseResult, parsed: nat)
      requires stream.Valid()
      modifies this`header, stream
      ensures stream.Valid()
      ensures var d := stream.data[old(stream.offset)..];
              var t := old(header).basic.format;
              if |d| < t.MessageHeaderSize() then result == NeedMoreData && header == old(header)
              else result == Parsed && parsed == t.MessageHeaderSize() && stream.offset == old(stream.offset) + parsed
                   && header == old(header).(message := ReadMessageHeader(t, d))
    {
      var t := header.basic.format;
      parsed := 0;
      if !stream.IsRemained(t.MessageHeaderSize()) {
        return NeedMoreData, parsed;
      }
      ghost var d := stream.data[stream.offset..];
      match t {
        case T0 =>
          var timestamp := stream.Read(3);
          var length := stream.Read(3);
          var typeId := stream.Read(1);
          var streamId := stream.Read(4);
          assert timestamp == d[..3] && length == d[3..6] && typeId[0] == d[6] && streamId == d[7..11];
          header := header.(message := Type0(ReadBE(timestamp), ReadBE(length), typeId[0], ReadLE(streamId)));
        case T1 =>
          var delta := stream.Read(3);
          var length := stream.Read(3);
          var typeId := stream.Read(1);
          assert delta == d[..3] && length == d[3..6] && typeId[0] == d[6];
          header := header.(message := Type1(ReadBE(delta), ReadBE(length), typeId[0]));
        case T2 =>
          var delta := stream.Read(3);
          assert delta == d[..3];
          header := header.(message := Type2(ReadBE(delta)));
        case T3 =>
          header := header.(message := Type3);
      }
      return Parsed, t.MessageHeaderSize();
    }

    /** `before` is what the caller's counter holds: a type 3 header without extension leaves it as it is. */
    method ParseExtendedTimestamp(last: Option<ChunkHeader>, stream: ReadStream, before: nat)
      returns (result: ParseResult, parsed: nat)
      requires stream.Valid()
      requires header.message.Type3? ==> before == 0
      modifies this`header, stream
      ensures stream.Valid()
      ensures var d := stream.data[old(stream.offset)..];
              if !HasExtended(old(header).message, last) then
                result == Parsed && parsed == 0 && stream.offset == old(stream.offset)
                && header == old(header).(extended := None)
              else if |d| < EXTENDED_TIMESTAMP_SIZE then result == NeedMoreData && header == old(header)
              else
                result == Parsed && parsed == EXTENDED_TIMESTAMP_SIZE && stream.offset == old(stream.offset) + parsed
                && header == old(header).(extended := Some(ReadBE(d[..4])))
    {
      parsed := before;
      var target := 0;
      match header.message {
        case Type0(timestamp, _, _, _) => target := timestamp;
        case Type1(delta, _, _) => target := delta;
        case Type2(delta) => target := delta;
        case Type3 =>
          if last.None? || last.value.extended.None? {
            header := header.(extended := None);
            return Parsed, parsed;
          }
          target := EXTENDED_TIMESTAMP;
      }
      if target == EXTENDED_TIMESTAMP {
        if !stream.IsRemained(EXTENDED_TIMESTAMP_SIZE) {
          return NeedMoreData, parsed;
        }
        var d := stream.Read(EXTENDED_TIMESTAMP_SIZE);
        assert d == stream.data[old(stream.offset)..][..4];
        header := header.(extended := Some(ReadBE(d)));
        parsed := EXTENDED_TIMESTAMP_SIZE;
      } else {
        header := header.(extended := None);
        parsed := 0;
      }
      result := Parsed;
    }

    /** One round of the parse loop: the stage `status` names. `before` is the counter of the previous round. */
    method ParseStage(chunkMap: ChunkMap, stream: ReadStream, before: nat, ghost s: State)
      returns (result: ParseResult, parsed: nat)
      requires stream.Valid() && stream.offset < |stream.data| && status != CompletedStage
      requires s.handshake == Complete && s.chunkMap == chunkMap
      requires status == ExtendedTimestampStage && header.message.Type3? ==> before == 0
      modifies this, stream
      ensures stream.Valid()
      ensures result == NeedMoreData ==>
        status == old(status) && Pending() == old(Pending())
        && Step(s.(parser := Pending()), stream.data[old(stream.offset)..]).NeedMore?
      ensures result == Parsed ==> stream.offset == old(stream.offset) + parsed
      ensures result == Parsed && status != CompletedStage ==>
        Run(s.(parser := old(Pending())), stream.data[old(stream.offset)..]) ==
        Run(s.(parser := Pending()), stream.data[stream.offset..])
        && Rank(Pending()) < Rank(old(Pending()))
        && status != BasicHeaderStage
        && (status == ExtendedTimestampStage && header.message.Type3? ==> parsed == 0)
      ensures result == Parsed && status == CompletedStage ==>
        Run(s.(parser := old(Pending())), stream.data[old(stream.offset)..]) ==
        Headed(HeaderDone(s, header.basic, header.message, header.extended, 0), stream.data[stream.offset..])
    {
      ghost var rest := stream.data[stream.offset..];
      ghost var cur := s.(parser := Pending());
      match status {
        case BasicHeaderStage =>
          header := NO_HEADER;
          result, parsed := ParseBasicHeader(stream);
          if result == Parsed {
            RunBasic(cur, rest);
            status := MessageHeaderStage;
          }
        case MessageHeaderStage =>
          result, parsed := ParseMessageHeader(stream);
          if result == Parsed {
            RunMessage(cur, header.basic, rest);
            status := ExtendedTimestampStage;
          }
        case ExtendedTimestampStage =>
          var last := if header.basic.csid in chunkMap then Some(chunkMap[header.basic.csid]) else None;
          result, parsed := ParseExtendedTimestamp(last, stream, before);
          if result == Parsed {
            RunExtended(s, header.basic, header.message, header.extended, rest, parsed);
            status := CompletedStage;
          }
      }
      assert result == Parsed ==> stream.data[stream.offset..] == rest[parsed..];
    }

    /** Reads as much of a header as the data holds. `s` is the connection this parser belongs to. */
    method Parse(chunkMap: ChunkMap, stream: ReadStream, ghost s: State) returns (total: nat)
      requires stream.Valid() && stream.offset == 0 && status != CompletedStage
      requires s.handshake == Complete && s.chunkMap == chunkMap && s.parser == Pending()
      modifies this, stream
      ensures stream.Valid() && total <= |stream.data|
      ensures status != CompletedStage ==>
        Run(s, stream.data) == Run(s.(parser := Pending()), stream.data[total..])
        && Step(s.(parser := Pending()), stream.data[total..]).NeedMore?
      ensures status == CompletedStage ==>
        stream.offset == total
        && Run(s, stream.data) ==
           Headed(HeaderDone(s, header.basic, header.message, header.extended, 0), stream.data[total..])
    {
      total := 0;
      var parsed := 0;
      assert stream.data[0..] == stream.data && s.(parser := Pending()) == s;
      while stream.offset < |stream.data|
        invariant stream.Valid() && stream.offset == total && status != CompletedStage
        invariant status == BasicHeaderStage ==> total == 0
        invariant status == ExtendedTimestampStage && header.message.Type3? ==> parsed == 0
        invariant Run(s, stream.data) == Run(s.(parser := Pending()), stream.data[total..])
        decreases |stream.data| - total, Rank(Pending())
      {
        if status == BasicHeaderStage {
          total := 0;
        }
        var result;
        result, parsed := ParseStage(chunkMap, stream, parsed, s);
        if result == NeedMoreData {
          return;
        }
        total := total + parsed;
        if status == CompletedStage {
          return;
        }
      }
    }
  }

  class RtmpImportChunk {
    var chunkMap: ChunkMap
    var messageQueue: seq<Message>
    var chunkSize: ChunkSize
    const parser: RtmpChunkParser

    constructor (chunkSize: ChunkSize)
      ensures Valid() && fresh(parser)
      ensures messageQueue == [] && Abstract(true) == Connection(chunkSize).(handshake := Complete)
    {
      this.chunkSize := chunkSize;
      chunkMap := map[];
      messageQueue := [];
      parser := new RtmpChunkParser();
    }

    ghost predicate Valid()
      reads this, parser
    {
      parser.status == CompletedStage ==> parser.header.basic.csid in chunkMap
    }

    /** The importer as a machine state. */
    ghost function Abstract(live: bool): State
      reads this, parser
      requires Valid()
    {
      State(Complete, live, chunkMap, chunkSize,
            if parser.status == CompletedStage then AwaitPayload(chunkMap[parser.header.basic.csid])
            else parser.Pending())
    }

    method SetChunkSize(size: ChunkSize)
      modifies this`chunkSize
      ensures chunkSize == size
    {
      chunkSize := size;
    }

    method GetMessage() returns (m: Option<Message>)
      modifies this`messageQueue
      ensures if old(messageQueue) == [] then m.None? && messageQueue == []
              else m == Some(old(messageQueue)[0]) && messageQueue == old(messageQueue)[1..]
    {
      if messageQueue == [] {
        return None;
      }
      m := Some(messageQueue[0]);
      messageQueue := messageQueue[1..];
    }

    /** Copies the payload of a message out of its chunks, checking each interior type 3 header. */
    method CollectPayload(h: ChunkHeader, raw: seq<Byte>) returns (m: Option<Message>)
      ensures m == FinalizeMessage(h, chunkSize, raw)
    {
      hide Strip;
      var type3 := ExpectedType3(h.basic);
      var extra := if h.extended.Some? then EXTENDED_TIMESTAMP_SIZE else 0;
      ghost var goal := Strip(raw, chunkSize, type3, extra, true);
      var index, current := 0, 0;
      var payload: seq<Byte> := [];
      assert raw[0..] == raw;
      PrefixNothing(goal);
      while current < |raw|
        invariant current <= |raw|
        invariant goal == Prefix(payload, Strip(raw[current..], chunkSize, type3, extra, index == 0))
        decreases |raw| - current
      {
        if index > 0 {
          StripHeader(raw, current, chunkSize, type3, extra);
          if |raw| - current < |type3| + extra {
            return None;
          }
          if raw[current..current + |type3|] != type3 {
            return None;
          }
          current := current + |type3| + extra;
        }
        var n := Min(chunkSize, |raw| - current);
        StripChunk(raw, current, chunkSize, type3, extra, payload);
        payload := payload + raw[current..current + n];
        index := index + 1;
        current := current + n;
      }
      assert raw[current..] == [];
      StripNothing(chunkSize, type3, extra, index == 0);
      assert payload + [] == payload;
      if |payload| != h.completed.length {
        return None;
      }
      return Some(Message(h, payload));
    }

    /** The first half of `Import`: reads what it can of a header and completes it. */
    method ImportHeader(stream: ReadStream, ghost live: bool) returns (parsed: int)
      requires Valid() && stream.Valid() && stream.offset == 0
      requires parser.status != CompletedStage
      modifies this`chunkMap, parser, stream
      ensures stream.Valid() && parsed <= |stream.data|
      ensures parsed < 0 ==> Run(old(Abstract(live)), stream.data).Rejected?
      ensures 0 <= parsed ==>
        Valid() && Run(old(Abstract(live)), stream.data) == Run(Abstract(live), stream.data[parsed..])
      ensures 0 <= parsed && parser.status != CompletedStage ==> Step(Abstract(live), stream.data[parsed..]).NeedMore?
      ensures 0 <= parsed && parser.status == CompletedStage ==> stream.offset == parsed
    {
      parsed := parser.Parse(chunkMap, stream, Abstract(live));
      if parser.status != CompletedStage {
        return;
      }
      var h := parser.header;
      var last := if h.basic.csid in chunkMap then Some(chunkMap[h.basic.csid]) else None;
      var done := ProcessChunkHeader(h.basic, h.message, h.extended, last, chunkSize);
      if done.None? {
        return -1;
      }
      chunkMap := chunkMap[h.basic.csid := done.value];
    }

    /**
      Parses a header or finishes a message. A negative result is an error; otherwise
      the result is the number of bytes used and `completed` tells whether a message was queued.
     */
    method Import(data: seq<Byte>, ghost live: bool) returns (used: int, completed: bool)
      requires Valid() && data != []
      modifies this, parser
      ensures used < 0 ==> Run(old(Abstract(live)), data).Rejected?
      ensures 0 <= used ==> Valid() && used <= |data|
      ensures 0 <= used && !completed ==>
        messageQueue == old(messageQueue)
        && Run(old(Abstract(live)), data) == Run(Abstract(live), data[used..])
        && Step(Abstract(live), data[used..]).NeedMore?
      ensures 0 <= used && completed ==>
        0 < used && |messageQueue| == |old(messageQueue)| + 1
        && messageQueue == old(messageQueue) + [messageQueue[|old(messageQueue)|]]
        && Run(old(Abstract(live)), data) == Delivered(Abstract(live), messageQueue[|old(messageQueue)|], data[used..])
    {
      hide Run, Step, FinalizeMessage;
      var stream := new ReadStream(data);
      var parsed := 0;
      assert data[0..] == data;
      if parser.status != CompletedStage {
        parsed := ImportHeader(stream, live);
        if parsed < 0 || parser.status != CompletedStage {
          return parsed, false;
        }
      }
      var header := chunkMap[parser.header.basic.csid];
      ghost var rest := data[parsed..];
      if !stream.IsRemained(header.expected) {
        StepShortPayload(Abstract(live), header, rest);
        return parsed, false;
      }
      RunPayload(Abstract(live), header, rest);
      assert rest[..header.expected] == data[parsed..parsed + header.expected];
      assert rest[header.expected..] == data[parsed + header.expected..];
      var message := CollectPayload(header, data[parsed..parsed + header.expected]);
      if message.None? {
        return -1, false;
      }
      messageQueue := messageQueue + [message.value];
      parser.Reset();
      return parsed + header.expected, true;
    }
  }
}
