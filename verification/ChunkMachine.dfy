/**
  The byte stream of an RTMP connection as a machine: a handshake, then chunks.
  `Step` says what the next bytes do to the state, `Run` iterates it until more
  data is needed. The theorems say that how TCP cut the bytes does not matter.
 */
module ChunkMachine {
  import opened Bytes
  import opened ChunkFormat

  const HANDSHAKE_VERSION: nat := 3
  const HANDSHAKE_PACKET_SIZE: nat := 1536
  const MSGID_SET_CHUNK_SIZE: nat := 1

  datatype Handshake = Uninitialized | AwaitC2 | Complete

  datatype ParserState =
    | AwaitBasic
    | AwaitMessage(basic: BasicHeader)
    | AwaitExtended(basic: BasicHeader, message: MessageHeader)
    | AwaitPayload(header: ChunkHeader)

  type ChunkMap = map<nat, ChunkHeader>

  /** `live` connections act on Set Chunk Size messages; a bare importer only queues them. */
  datatype State = State(
    handshake: Handshake,
    live: bool,
    chunkMap: ChunkMap,
    chunkSize: ChunkSize,
    parser: ParserState)

  datatype StepResult =
    | NeedMore
    | Reject
    | Advance(next: State, consumed: nat, message: Option<Message>)

  function Lookup(m: ChunkMap, csid: nat): Option<ChunkHeader> {
    if csid in m then Some(m[csid]) else None
  }

  // ----- one step -----

  function BasicStep(s: State, d: seq<Byte>): StepResult
    requires d != []
  {
    if |d| < GetBasicHeaderSize(d[0]) then NeedMore
    else Advance(s.(parser := AwaitMessage(ReadBasicHeader(d))), GetBasicHeaderSize(d[0]), None)
  }

  function MessageStep(s: State, basic: BasicHeader, d: seq<Byte>): StepResult {
    var n := basic.format.MessageHeaderSize();
    if |d| < n then NeedMore
    else Advance(s.(parser := AwaitExtended(basic, ReadMessageHeader(basic.format, d))), n, None)
  }

  /** The header is complete: derive its fields and remember it for its chunk stream. */
  function HeaderDone(s: State, basic: BasicHeader, m: MessageHeader, extended: Option<nat>,
                      consumed: nat): StepResult {
    match ProcessChunkHeader(basic, m, extended, Lookup(s.chunkMap, basic.csid), s.chunkSize)
    case None => Reject
    case Some(h) =>
      Advance(s.(chunkMap := s.chunkMap[basic.csid := h], parser := AwaitPayload(h)), consumed, None)
  }

  function ExtendedStep(s: State, basic: BasicHeader, m: MessageHeader, d: seq<Byte>): StepResult {
    if !HasExtended(m, Lookup(s.chunkMap, basic.csid)) then HeaderDone(s, basic, m, None, 0)
    else if |d| < EXTENDED_TIMESTAMP_SIZE then NeedMore
    else HeaderDone(s, basic, m, Some(ReadBE(d[..4])), EXTENDED_TIMESTAMP_SIZE)
  }

  /** The chunk size after a message, or None when the connection refuses the message. */
  function Dispatch(s: State, m: Message): Option<ChunkSize> {
    if !s.live || m.header.completed.typeId != MSGID_SET_CHUNK_SIZE then Some(s.chunkSize)
    else if |m.payload| < 4 then None
    else
      var size := ReadBE(m.payload[..4]);
      if 1 <= size < 0x1_0000_0000 then Some(size) else None
  }

  function PayloadStep(s: State, h: ChunkHeader, d: seq<Byte>): StepResult {
    if |d| < h.expected then NeedMore
    else
      match FinalizeMessage(h, s.chunkSize, d[..h.expected])
      case None => Reject
      case Some(m) =>
        match Dispatch(s, m) {
          case None => Reject
          case Some(size) => Advance(s.(parser := AwaitBasic, chunkSize := size), h.expected, Some(m))
        }
  }

  function HandshakeStep(s: State, d: seq<Byte>): StepResult
    requires d != []
  {
    if s.handshake == Uninitialized then
      if |d| < 1 + HANDSHAKE_PACKET_SIZE then NeedMore
      else if d[0] as int != HANDSHAKE_VERSION then Reject
      else Advance(s.(handshake := AwaitC2), 1 + HANDSHAKE_PACKET_SIZE, None)
    else
      if |d| < HANDSHAKE_PACKET_SIZE then NeedMore
      else Advance(s.(handshake := Complete), HANDSHAKE_PACKET_SIZE, None)
  }

  function Step(s: State, d: seq<Byte>): StepResult {
    if d == [] then NeedMore
    else if s.handshake != Complete then HandshakeStep(s, d)
    else
      match s.parser
      case AwaitBasic => BasicStep(s, d)
      case AwaitMessage(basic) => MessageStep(s, basic, d)
      case AwaitExtended(basic, m) => ExtendedStep(s, basic, m, d)
      case AwaitPayload(h) => PayloadStep(s, h, d)
  }

  // ----- whole runs -----

  datatype RunResult =
    | Rejected
    | Ran(state: State, rest: seq<Byte>, messages: seq<Message>)

  function Rank(p: ParserState): nat {
    match p
    case AwaitBasic => 3
    case AwaitMessage(_) => 2
    case AwaitExtended(_, _) => 1
    case AwaitPayload(_) => 0
  }

  lemma StepProgress(s: State, d: seq<Byte>)
    ensures var r := Step(s, d);
            r.Advance? ==> r.consumed <= |d| && (r.consumed == 0 ==> Rank(r.next.parser) < Rank(s.parser))
  {
  }

  function Emit(m: Option<Message>, r: RunResult): RunResult {
    if r.Rejected? || m.None? then r else r.(messages := [m.value] + r.messages)
  }

  function Run(s: State, d: seq<Byte>): RunResult
    decreases |d|, Rank(s.parser)
  {
    StepProgress(s, d);
    match Step(s, d)
    case NeedMore => Ran(s, d, [])
    case Reject => Rejected
    case Advance(next, n, m) => Emit(m, Run(next, d[n..]))
  }

  /** What follows when message `m` is complete in state `s` and `rest` is still unread. */
  function Delivered(s: State, m: Message, rest: seq<Byte>): RunResult {
    match Dispatch(s, m)
    case None => Rejected
    case Some(size) => Emit(Some(m), Run(s.(chunkSize := size), rest))
  }

  lemma StepNothing(s: State)
    ensures Step(s, []).NeedMore?
  {
  }

  lemma RunStopped(s: State, d: seq<Byte>)
    requires Step(s, d).NeedMore?
    ensures Run(s, d) == Ran(s, d, [])
  {
  }

  lemma RunBasic(s: State, d: seq<Byte>)
    requires s.handshake == Complete && s.parser == AwaitBasic && d != [] && GetBasicHeaderSize(d[0]) <= |d|
    ensures Run(s, d) == Run(s.(parser := AwaitMessage(ReadBasicHeader(d))), d[GetBasicHeaderSize(d[0])..])
  {
  }

  lemma RunMessage(s: State, basic: BasicHeader, d: seq<Byte>)
    requires s.handshake == Complete && s.parser == AwaitMessage(basic) && d != []
    requires basic.format.MessageHeaderSize() <= |d|
    ensures Run(s, d) == Run(s.(parser := AwaitExtended(basic, ReadMessageHeader(basic.format, d))),
                             d[basic.format.MessageHeaderSize()..])
  {
  }

  /** A run over a complete header goes on with what the header means, or is refused. */
  lemma RunExtended(s: State, basic: BasicHeader, m: MessageHeader, extended: Option<nat>, d: seq<Byte>, n: nat)
    requires s.handshake == Complete && d != []
    requires if HasExtended(m, Lookup(s.chunkMap, basic.csid))
             then n == EXTENDED_TIMESTAMP_SIZE <= |d| && extended == Some(ReadBE(d[..4]))
             else n == 0 && extended == None
    ensures Run(s.(parser := AwaitExtended(basic, m)), d) == Headed(HeaderDone(s, basic, m, extended, 0), d[n..])
  {
    var waiting := s.(parser := AwaitExtended(basic, m));
    assert Step(waiting, d) == HeaderDone(waiting, basic, m, extended, n);
  }

  /** The run after a header step that leaves `rest` unread. */
  function Headed(r: StepResult, rest: seq<Byte>): RunResult {
    if r.Advance? then Run(r.next, rest) else Rejected
  }

  lemma StepShortPayload(s: State, h: ChunkHeader, d: seq<Byte>)
    requires s.handshake == Complete && s.parser == AwaitPayload(h) && |d| < h.expected
    ensures Step(s, d).NeedMore?
  {
  }

  /** A run that waits for a whole payload delivers it, or refuses it. */
  lemma RunPayload(s: State, h: ChunkHeader, d: seq<Byte>)
    requires s.handshake == Complete && s.parser == AwaitPayload(h) && h.expected <= |d|
    ensures Run(s, d) == match FinalizeMessage(h, s.chunkSize, d[..h.expected])
                         case None => Rejected
                         case Some(m) => Delivered(s.(parser := AwaitBasic), m, d[h.expected..])
  {
    assert Step(s, d) == PayloadStep(s, h, d);
  }

  /** A run stops only for want of data, and keeps exactly the bytes it has not used. */
  lemma {:induction false} RunQuiescent(s: State, d: seq<Byte>)
    requires Run(s, d).Ran?
    ensures var r := Run(s, d); Step(r.state, r.rest).NeedMore?
    ensures var r := Run(s, d); |r.rest| <= |d| && r.rest == d[|d| - |r.rest|..]
    decreases |d|, Rank(s.parser)
  {
    StepProgress(s, d);
    match Step(s, d) {
      case NeedMore =>
      case Advance(next, n, _) =>
        RunQuiescent(next, d[n..]);
    }
  }

  /** The messages `ms`, then whatever `r` says. */
  function Prepend(ms: seq<Message>, r: RunResult): RunResult {
    if r.Rejected? then r else r.(messages := ms + r.messages)
  }

  /** A step that decides on some bytes decides the same when more follow. */
  lemma StepMonotone(s: State, d: seq<Byte>, more: seq<Byte>)
    requires !Step(s, d).NeedMore?
    ensures Step(s, d + more) == Step(s, d)
  {
    var all := d + more;
    assert forall n: nat | n <= |d| :: all[..n] == d[..n];
    if s.handshake == Complete && s.parser.AwaitMessage? {
      var t := s.parser.basic.format;
      if t.T0? {
        assert all[3..6] == d[3..6] && all[7..11] == d[7..11];
      } else if t.T1? {
        assert all[3..6] == d[3..6];
      }
    }
  }

  /** What `r` becomes when `more` bytes arrive. */
  function Continue(r: RunResult, more: seq<Byte>): RunResult {
    match r
    case Rejected => Rejected
    case Ran(s, rest, ms) => Prepend(ms, Run(s, rest + more))
  }

  lemma PrependNothing(r: RunResult)
    ensures Prepend([], r) == r
  {
    if r.Ran? { assert [] + r.messages == r.messages; }
  }

  lemma EmitContinue(m: Option<Message>, r: RunResult, more: seq<Byte>)
    ensures Continue(Emit(m, r), more) == Emit(m, Continue(r, more))
  {
    if r.Ran? && m.Some? {
      var tail := Run(r.state, r.rest + more);
      if tail.Ran? {
        assert [m.value] + (r.messages + tail.messages) == [m.value] + r.messages + tail.messages;
      }
    }
  }

  /** Stopping for data and going on when it arrives is the same as having had it all along. */
  lemma {:induction false} RunSplit(s: State, a: seq<Byte>, b: seq<Byte>)
    ensures Run(s, a + b) == Continue(Run(s, a), b)
    decreases |a|, Rank(s.parser)
  {
    match Step(s, a) {
      case NeedMore =>
        PrependNothing(Run(s, a + b));
      case Reject =>
        StepMonotone(s, a, b);
      case Advance(next, n, m) =>
        StepMonotone(s, a, b);
        StepProgress(s, a);
        assert (a + b)[n..] == a[n..] + b;
        RunSplit(next, a[n..], b);
        EmitContinue(m, Run(next, a[n..]), b);
    }
  }

  // ----- segmentation independence -----

  /** The connection as the parse thread drives it: each arriving segment joins the unparsed rest. */
  function Feed(s: State, rest: seq<Byte>, segments: seq<seq<Byte>>): RunResult
    decreases |segments|
  {
    if segments == [] then Ran(s, rest, [])
    else
      match Run(s, rest + segments[0])
      case Rejected => Rejected
      case Ran(s', rest', ms) => Prepend(ms, Feed(s', rest', segments[1..]))
  }

  /** Feeding segments one by one is one run over their concatenation, refusals included. */
  lemma {:induction false} SegmentationIndependence(s: State, rest: seq<Byte>, segments: seq<seq<Byte>>)
    requires Step(s, rest).NeedMore?
    ensures Feed(s, rest, segments) == Run(s, rest + Concat(segments))
    decreases |segments|
  {
    if segments == [] {
      assert rest + [] == rest;
    } else {
      var a, b := rest + segments[0], Concat(segments[1..]);
      assert a + b == rest + Concat(segments);
      RunSplit(s, a, b);
      match Run(s, a) {
        case Rejected =>
        case Ran(s', rest', ms) =>
          RunQuiescent(s, a);
          SegmentationIndependence(s', rest', segments[1..]);
      }
    }
  }

  /** Two cuts of the same bytes give the same messages, chunk map, chunk size, parser state and unparsed rest. */
  lemma CutsAgree(s: State, one: seq<seq<Byte>>, other: seq<seq<Byte>>)
    requires Concat(one) == Concat(other)
    ensures Feed(s, [], one) == Feed(s, [], other)
  {
    SegmentationIndependence(s, [], one);
    SegmentationIndependence(s, [], other);
  }

  // ----- the handshake -----

  function Connection(chunkSize: ChunkSize): State {
    State(Uninitialized, true, map[], chunkSize, AwaitBasic)
  }

  /** A connection of version 3 that is long enough runs its chunks from byte 3073 on; another version is refused. */
  lemma ChunksStartAfterHandshake(chunkSize: ChunkSize, d: seq<Byte>)
    requires 3073 <= |d|
    ensures Run(Connection(chunkSize), d)
         == if d[0] == 3 then Run(Connection(chunkSize).(handshake := Complete), d[3073..])
            else Rejected
  {
    var s := Connection(chunkSize);
    if d[0] as int == HANDSHAKE_VERSION {
      var s1, d1 := s.(handshake := AwaitC2), d[1 + HANDSHAKE_PACKET_SIZE..];
      assert Run(s, d) == Run(s1, d1);
      assert d1[HANDSHAKE_PACKET_SIZE..] == d[3073..];
    }
  }
}
