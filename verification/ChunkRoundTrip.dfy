/**
  Exporting messages and importing the bytes: which messages survive. The answer is
  an equivalence, because two families do not: messages cut into several chunks on
  chunk streams from 320 up, and timestamps a 24-bit field cannot carry.
 */
module ChunkRoundTrip {
  import opened Bytes
  import opened ChunkFormat
  import opened ChunkMachine
  import opened ChunkExport

  datatype Outgoing = Outgoing(header: MuxHeader, body: seq<Byte>)

  /** What the wire format demands: a chunk stream it can name and a length its field can hold. */
  predicate WellFormed(o: Outgoing) {
    && 2 <= o.header.csid <= 65599
    && 1 <= |o.body| < FIELD24
    && o.header.bodySize == |o.body|
  }

  function Previous(sent: Sent, csid: Uint32): Option<MuxHeader> {
    if csid in sent then Some(sent[csid]) else None
  }

  /** The bytes of a whole run of the exporter. */
  function ExportAll(compress: bool, chunkSize: ChunkSize, sent: Sent, out: seq<Outgoing>): seq<Byte>
    decreases |out|
  {
    if out == [] then []
    else
      var m := out[0].header;
      Export(compress, chunkSize, LastSent(sent, m.csid), m, out[0].body)
      + ExportAll(compress, chunkSize, sent[m.csid := m], out[1..])
  }

  // ----- when a message survives -----

  predicate UsesDelta(compress: bool, previous: Option<MuxHeader>, m: MuxHeader) {
    compress && previous.Some? && previous.value.streamId == m.streamId
  }

  /** The timestamp survives: a delta that fits 24 bits, or an absolute timestamp the rolling rule restores. */
  predicate TimestampFits(compress: bool, previous: Option<MuxHeader>, m: MuxHeader) {
    var low := m.timestamp % FIELD24;
    if previous.None? then m.timestamp < FIELD24
    else
      var last := previous.value.timestamp;
      if UsesDelta(compress, previous, m) then last <= m.timestamp < last + FIELD24
      else if Abs(last - low) < SERIAL / 2 then m.timestamp < FIELD24
      else m.timestamp - low == (last / SERIAL + 1) * SERIAL
  }

  /** The body survives: one chunk, or a chunk stream whose type 3 header the importer predicts. */
  predicate BodyFits(chunkSize: ChunkSize, o: Outgoing) {
    |o.body| <= chunkSize || o.header.csid < 320
  }

  predicate AllFit(compress: bool, chunkSize: ChunkSize, sent: Sent, out: seq<Outgoing>)
    decreases |out|
  {
    out == []
    || (TimestampFits(compress, Previous(sent, out[0].header.csid), out[0].header)
        && BodyFits(chunkSize, out[0])
        && AllFit(compress, chunkSize, sent[out[0].header.csid := out[0].header], out[1..]))
  }

  /** The importer's message is the one that was sent. */
  predicate Same(o: Outgoing, m: Message) {
    && m.header.basic.csid == o.header.csid
    && m.header.completed.timestamp == o.header.timestamp
    && m.header.completed.typeId == o.header.typeId
    && m.header.completed.streamId == o.header.streamId
    && m.payload == o.body
  }

  predicate AllSame(out: seq<Outgoing>, messages: seq<Message>) {
    |messages| == |out| && forall i :: 0 <= i < |out| ==> Same(out[i], messages[i])
  }

  // ----- headers -----

  lemma ReadBasicRaw(t: ChunkType, csid: nat, more: seq<Byte>)
    requires 2 <= csid <= 65599
    ensures var d := BasicHeaderRaw(t, csid) + more;
            GetBasicHeaderSize(d[0]) == |BasicHeaderRaw(t, csid)|
            && ReadBasicHeader(d) == BasicHeader(t, |BasicHeaderRaw(t, csid)|, csid)
  {
    var d, id := BasicHeaderRaw(t, csid) + more, csid - 64;
    assert GetChunkType(d[0]) == t;
    if csid >= 320 {
      assert d[0] == 1 + t.Tag() && d[1] == id % 256 && d[2] == id / 256 % 256;
      assert id / 256 < 256 && id == id / 256 * 256 + id % 256;
    } else if csid >= 64 {
      assert d[0] == t.Tag() && d[1] == id;
    }
  }

  predicate Fields24(m: MessageHeader) {
    && Time(m) < FIELD24
    && match m {
         case Type0(_, length, typeId, streamId) => length < FIELD24 && typeId < 256 && streamId < 0x1_0000_0000
         case Type1(_, length, typeId) => length < FIELD24 && typeId < 256
         case _ => true
       }
  }

  lemma ReadMessageRaw(m: MessageHeader, more: seq<Byte>)
    requires Fields24(m)
    ensures Format(m).MessageHeaderSize() == |MessageHeaderRaw(m, Extends(m))|
    ensures ReadMessageHeader(Format(m), MessageHeaderRaw(m, Extends(m)) + more) == m
  {
    Pow256Values();
    var d := MessageHeaderRaw(m, Extends(m)) + more;
    ReadWriteBE(Time(m), 3);
    match m {
      case Type0(_, length, typeId, streamId) =>
        assert d[..3] == WriteBE(Time(m), 3) && d[3..6] == WriteBE(length, 3) && d[7..11] == WriteLE(streamId, 4);
        ReadWriteBE(length, 3);
        ReadWriteLE(streamId, 4);
      case Type1(_, length, typeId) =>
        assert d[..3] == WriteBE(Time(m), 3) && d[3..6] == WriteBE(length, 3);
        ReadWriteBE(length, 3);
      case Type2(_) =>
        assert d[..3] == WriteBE(Time(m), 3);
      case Type3 =>
    }
  }

  /** Running over an exported header leaves its meaning and the bytes behind it. */
  lemma RunHeader(s: State, m: MessageHeader, csid: nat, more: seq<Byte>)
    requires s.handshake == Complete && s.parser == AwaitBasic
    requires 2 <= csid <= 65599 && Fields24(m) && !m.Type3? && more != []
    ensures var basic := BasicHeader(Format(m), GetBasicHeaderSizeByChunkStreamID(csid), csid);
            Run(s, HeaderRaw(m, csid, Extends(m)) + more) ==
            Headed(HeaderDone(s, basic, m, if Extends(m) then Some(Time(m)) else None, 0), more)
  {
    hide Run, Step, HeaderDone, BasicHeaderRaw, MessageHeaderRaw;
    var a, b, c := BasicHeaderRaw(Format(m), csid), MessageHeaderRaw(m, Extends(m)), ExtendedRaw(m, Extends(m));
    var basic := BasicHeader(Format(m), |a|, csid);
    var d0, d1, d2 := HeaderRaw(m, csid, Extends(m)) + more, b + (c + more), c + more;
    assert d0 == a + d1;
    ReadBasicRaw(Format(m), csid, d1);
    assert d0[|a|..] == d1;
    RunBasic(s, d0);
    ReadMessageRaw(m, d2);
    assert d1[|b|..] == d2;
    RunMessage(s.(parser := AwaitMessage(basic)), basic, d1);
    var extended := if Extends(m) then Some(Time(m)) else None;
    if Extends(m) {
      Pow256Values();
      ReadWriteBE(Time(m), 4);
      assert d2[..4] == c;
    }
    assert d2[|c|..] == more;
    RunExtended(s, basic, m, extended, d2, |c|);
  }

  // ----- bodies -----

  lemma {:induction false} StripWeave(body: seq<Byte>, chunkSize: ChunkSize, type3: seq<Byte>, extra: seq<Byte>)
    requires type3 != []
    ensures Strip(Weave(body, chunkSize, type3 + extra), chunkSize, type3, |extra|, true) == Some(body)
    decreases |body|
  {
    hide Strip, Prefix;
    var raw := Weave(body, chunkSize, type3 + extra);
    StripChunk(raw, 0, chunkSize, type3, |extra|, []);
    assert raw[0..] == raw;
    PrefixNothing(Strip(raw, chunkSize, type3, |extra|, true));
    if |body| <= chunkSize {
      StripNothing(chunkSize, type3, |extra|, false);
      PrefixSome([] + raw[..|raw|], []);
      assert raw[|raw|..] == [] && [] + raw[..|raw|] + [] == body;
    } else {
      var left := body[chunkSize..];
      var rest := Weave(left, chunkSize, type3 + extra);
      StripWeave(left, chunkSize, type3, extra);
      GapParts(body[..chunkSize], type3, extra, rest);
      StripHeader(raw, chunkSize, chunkSize, type3, |extra|);
      assert [] + raw[0..chunkSize] == body[..chunkSize] && body[..chunkSize] + left == body;
      PrefixSome(body[..chunkSize], left);
    }
  }

  lemma GapParts(chunk: seq<Byte>, type3: seq<Byte>, extra: seq<Byte>, rest: seq<Byte>)
    ensures var raw, n := chunk + ((type3 + extra) + rest), |chunk|;
            && raw[0..n] == chunk && raw[n..n + |type3|] == type3 && raw[n + |type3| + |extra|..] == rest
            && |raw| == n + |type3| + |extra| + |rest|
  {
  }

  lemma PrefixSome(a: seq<Byte>, b: seq<Byte>)
    ensures Prefix(a, Some(b)) == Some(a + b)
  {
  }

  lemma StripMismatch(body: seq<Byte>, chunkSize: ChunkSize, written: seq<Byte>, type3: seq<Byte>, extra: seq<Byte>)
    requires |written| == |type3| >= 1 && written != type3 && |body| > chunkSize
    ensures Strip(Weave(body, chunkSize, written + extra), chunkSize, type3, |extra|, true) == None
  {
    var raw := Weave(body, chunkSize, written + extra);
    var rest := Weave(body[chunkSize..], chunkSize, written + extra);
    var tail := raw[chunkSize..];
    assert tail == written + extra + rest;
    assert tail[..|type3|] == written;
  }

  /** The importer finds the body in the exported chunks exactly when it fits. */
  lemma FinalizeExported(h: ChunkHeader, m: MessageHeader, o: Outgoing, chunkSize: ChunkSize)
    requires WellFormed(o)
    requires h.basic.csid == o.header.csid && h.basic.size == GetBasicHeaderSizeByChunkStreamID(o.header.csid)
    requires h.extended.Some? == Extends(m) && h.completed.length == |o.body|
    ensures FinalizeMessage(h, chunkSize, Weave(o.body, chunkSize, Separator(m, o.header.csid, Extends(m)))) ==
            if BodyFits(chunkSize, o) then Some(Message(h, o.body)) else None
  {
    var csid := o.header.csid;
    var written, type3, extra := BasicHeaderRaw(T3, csid), ExpectedType3(h.basic), ExtendedRaw(m, Extends(m));
    if csid < 320 {
      assert written == type3;
      StripWeave(o.body, chunkSize, type3, extra);
    } else if |o.body| <= chunkSize {
      StripWeave(o.body, chunkSize, type3, extra);
      assert Weave(o.body, chunkSize, type3 + extra) == o.body;
    } else {
      assert written[2] != type3[2];
      StripMismatch(o.body, chunkSize, written, type3, extra);
    }
  }

  // ----- one message -----

  /** Exporter and importer agree on what every chunk stream said last. */
  ghost predicate InSync(s: State, sent: Sent) {
    && s.handshake == Complete && !s.live && s.parser == AwaitBasic
    && (forall id: Uint32 :: id in sent <==> id in s.chunkMap)
    && (forall id: Uint32 :: id in sent ==>
          var c := s.chunkMap[id].completed;
          sent[id].csid == id && c.timestamp == sent[id].timestamp && c.length == sent[id].bodySize
          && c.typeId == sent[id].typeId && c.streamId == sent[id].streamId)
  }

  /** The timestamp the importer derives. */
  function RecoveredTimestamp(compress: bool, previous: Option<MuxHeader>, m: MuxHeader): nat {
    if UsesDelta(compress, previous, m) then
      previous.value.timestamp + (m.timestamp - previous.value.timestamp) % FIELD24
    else if previous.Some? then
      CalculateRolledTimestamp(previous.value.timestamp, m.timestamp % FIELD24)
    else m.timestamp % FIELD24
  }

  lemma TimestampRecovered(compress: bool, previous: Option<MuxHeader>, m: MuxHeader)
    ensures RecoveredTimestamp(compress, previous, m) == m.timestamp <==> TimestampFits(compress, previous, m)
  {
    if previous.Some? && !UsesDelta(compress, previous, m) {
      var last := previous.value.timestamp;
      assert last - last % SERIAL == last / SERIAL * SERIAL;
    }
  }

  /** The header the importer stores for an exported message. */
  function ImportedHeader(compress: bool, chunkSize: ChunkSize, previous: Option<MuxHeader>,
                          m: MuxHeader): ChunkHeader {
    var last := if previous.Some? then previous.value else NO_MUX_HEADER;
    var h := ChooseHeader(compress, last, m);
    var size := GetBasicHeaderSizeByChunkStreamID(m.csid);
    var basic := BasicHeader(Format(h), size, m.csid);
    var extended := if Extends(h) then Some(Time(h)) else None;
    ChunkHeader(basic, h, extended,
                Fields(if h.Type0? then 0 else Time(h), RecoveredTimestamp(compress, previous, m),
                       m.bodySize, m.typeId, m.streamId),
                ExpectedSize(m.bodySize, chunkSize, Type3Size(basic, extended.Some?)))
  }

  lemma HeaderImported(s: State, sent: Sent, compress: bool, o: Outgoing)
    requires InSync(s, sent) && WellFormed(o)
    ensures var m := o.header;
            var h := ChooseHeader(compress, LastSent(sent, m.csid), m);
            var imported := ImportedHeader(compress, s.chunkSize, Previous(sent, m.csid), m);
            !h.Type3? && Fields24(h)
            && HeaderDone(s, imported.basic, h, imported.extended, 0) ==
               Advance(s.(chunkMap := s.chunkMap[m.csid := imported], parser := AwaitPayload(imported)), 0, None)
  {
    hide Type3Count, ExpectedSize;
    CountBelowLength(o.header.bodySize, s.chunkSize);
  }

  lemma CountBelowLength(length: Positive, chunkSize: ChunkSize)
    ensures Type3Count(length, chunkSize) < length
  {
    var q := (length - 1) / chunkSize;
    assert length - 1 == chunkSize * q + (length - 1) % chunkSize;
    MultiplyMonotone(1, chunkSize, q);
  }

  /** One exported message, imported: delivered with the recovered timestamp, or refused for its body. */
  lemma MessageImported(s: State, sent: Sent, compress: bool, o: Outgoing, rest: seq<Byte>)
    requires InSync(s, sent) && WellFormed(o)
    ensures var m := o.header;
            var imported := ImportedHeader(compress, s.chunkSize, Previous(sent, m.csid), m);
            Run(s, Export(compress, s.chunkSize, LastSent(sent, m.csid), m, o.body) + rest) ==
            if BodyFits(s.chunkSize, o)
            then Emit(Some(Message(imported, o.body)), Run(s.(chunkMap := s.chunkMap[m.csid := imported]), rest))
            else Rejected
  {
    hide Run, Step, HeaderDone, FinalizeMessage, Weave;
    var m := o.header;
    var h := ChooseHeader(compress, LastSent(sent, m.csid), m);
    var imported := ImportedHeader(compress, s.chunkSize, Previous(sent, m.csid), m);
    var separator := Separator(h, m.csid, Extends(h));
    var raw := Weave(o.body, s.chunkSize, separator);
    HeaderImported(s, sent, compress, o);
    SizesAgree(h, m.csid, Extends(h), o.body, s.chunkSize, imported.basic);
    assert Export(compress, s.chunkSize, LastSent(sent, m.csid), m, o.body) + rest ==
           HeaderRaw(h, m.csid, Extends(h)) + (raw + rest);
    RunHeader(s, h, m.csid, raw + rest);
    var waiting := s.(chunkMap := s.chunkMap[m.csid := imported], parser := AwaitPayload(imported));
    assert (raw + rest)[..|raw|] == raw && (raw + rest)[|raw|..] == rest;
    RunPayload(waiting, imported, raw + rest);
    FinalizeExported(imported, h, o, s.chunkSize);
  }

  // ----- whole runs -----

  /** Everything sent is received, and nothing else, exactly when every message fits. */
  lemma {:induction false} ExportThenImport(s: State, sent: Sent, compress: bool, out: seq<Outgoing>)
    requires InSync(s, sent)
    requires forall o :: o in out ==> WellFormed(o)
    ensures var r := Run(s, ExportAll(compress, s.chunkSize, sent, out));
            AllFit(compress, s.chunkSize, sent, out) <==> r.Ran? && r.rest == [] && AllSame(out, r.messages)
    decreases |out|
  {
    hide Run, Step, Export;
    var wire := ExportAll(compress, s.chunkSize, sent, out);
    if out == [] {
      StepNothing(s);
      RunStopped(s, []);
    } else {
      var o, m := out[0], out[0].header;
      var imported := ImportedHeader(compress, s.chunkSize, Previous(sent, m.csid), m);
      var next, sent' := s.(chunkMap := s.chunkMap[m.csid := imported]), sent[m.csid := m];
      var rest := ExportAll(compress, s.chunkSize, sent', out[1..]);
      MessageImported(s, sent, compress, o, rest);
      TimestampRecovered(compress, Previous(sent, m.csid), m);
      if BodyFits(s.chunkSize, o) {
        var tail := Run(next, rest);
        if TimestampFits(compress, Previous(sent, m.csid), m) {
          ExportThenImport(next, sent', compress, out[1..]);
          if tail.Ran? {
            AllSameCons(o, Message(imported, o.body), out[1..], tail.messages);
            assert [o] + out[1..] == out;
          }
        } else if tail.Ran? {
          var messages := [Message(imported, o.body)] + tail.messages;
          assert !Same(out[0], messages[0]);
        }
      }
    }
  }

  lemma AllSameCons(o: Outgoing, m: Message, out: seq<Outgoing>, messages: seq<Message>)
    requires Same(o, m)
    ensures AllSame([o] + out, [m] + messages) <==> AllSame(out, messages)
  {
    var outs, all := [o] + out, [m] + messages;
    if AllSame(outs, all) {
      forall i | 0 <= i < |out|
        ensures Same(out[i], messages[i])
      {
        assert Same(outs[i + 1], all[i + 1]);
      }
    }
  }

  /** A fresh importer and exporter are in step. */
  lemma FreshInSync(chunkSize: ChunkSize)
    ensures InSync(State(Complete, false, map[], chunkSize, AwaitBasic), map[])
  {
  }
}
