/** The objects that write transport packets: streams with their counters, and samples as PES packets. */
module TsStreams {
  import opened Bytes
  import opened BitFields
  import opened BitWriters
  import opened TsPackets
  import Pes

  const WRAP: nat := 0x1_0000_0000

  /** The output file or memory buffer. */
  class ByteLog {
    var bytes: seq<Byte>

    constructor ()
      ensures bytes == []
    {
      bytes := [];
    }

    method Write(s: seq<Byte>)
      modifies this
      ensures bytes == old(bytes) + s
    {
      bytes := bytes + s;
    }
  }

  function RoomFor(size: nat, pcr: Option<nat>): (r: nat)
    ensures r + PcrRoom(pcr) <= PAYLOAD_SIZE
  {
    if size + PcrRoom(pcr) > PAYLOAD_SIZE then PAYLOAD_SIZE - PcrRoom(pcr) else size
  }

  method WriteAdaptation(size: nat, pcr: Option<nat>, output: ByteLog)
    requires PcrRoom(pcr) <= size <= PAYLOAD_SIZE
    modifies output
    ensures output.bytes == old(output.bytes) + Adaptation(size, pcr)
  {
    hide Pack, FieldBits, PcrFields;
    if size == 1 {
      output.Write([0]);
    } else if size > 1 {
      output.Write([size - 1, if pcr.Some? then 0x10 else 0]);
      var pcrSize := 0;
      if pcr.Some? {
        pcrSize := PCR_SIZE;
        var clock := WritePcr(pcr.value);
        output.Write(clock);
      }
      if size > 2 {
        output.Write(Stuffing(size - pcrSize - 2));
      }
    }
  }

  /** A sample in the form the stream wants, with its times at 90 kHz. */
  datatype Sample = Sample(trackId: int, data: seq<Byte>, dts: nat, pts: nat)

  datatype Kind = Aac | H264 | Unsupported

  function StreamType(kind: Kind): Byte {
    if kind == H264 then 0x1B else 0x0F
  }

  /** A stream of packets with one PID; table streams have no kind of samples. */
  class Stream {
    const pid: Pid
    const kind: Kind
    const streamType: Byte := StreamType(kind)
    var counter: nat

    constructor (pid: Pid, kind: Kind)
      ensures this.pid == pid && this.kind == kind && counter == 0
    {
      this.pid, this.kind := pid, kind;
      counter := 0;
    }

    /** Writes everything in front of the payload; cuts the payload to what fits and fills up what is left. */
    method WritePacketHeader(start: bool, payload: nat, pcr: Option<nat>, output: ByteLog) returns (size: nat)
      modifies this`counter, output
      ensures size == RoomFor(payload, pcr)
      ensures output.bytes == old(output.bytes) + HeaderBytes(pid, start, old(counter), pcr, size)
      ensures counter == Wrapped(old(counter) + 1)
    {
      hide Adaptation;
      size := payload;
      var adaptation := PcrRoom(pcr);
      if size + adaptation > PAYLOAD_SIZE {
        size := PAYLOAD_SIZE - adaptation;
      }
      if adaptation + size < PAYLOAD_SIZE {
        adaptation := PAYLOAD_SIZE - size;
      }
      var control: Byte := if adaptation == 0 then 0x10 else 0x30;
      output.Write([SYNC_BYTE, (if start then 0x40 else 0) + pid / 256, pid % 256, control + counter % 16]);
      counter := Wrapped(counter + 1);
      WriteAdaptation(adaptation, pcr, output);
    }

    /** A header and as much of `rest` as fits; `n` is the number of packets written before. */
    method WritePacket(start: bool, rest: seq<Byte>, pcr: Option<nat>, output: ByteLog, ghost n: nat)
      returns (size: nat)
      requires counter == Wrapped(n)
      modifies this`counter, output
      ensures size == RoomFor(|rest|, pcr) && size <= |rest|
      ensures output.bytes == old(output.bytes) + RawBytes(Raw(pid, start, n, pcr, rest[..size]))
      ensures counter == Wrapped(n + 1)
    {
      hide HeaderBytes;
      CounterWraps(n);
      SameCounter(pid, start, counter, n, pcr, RoomFor(|rest|, pcr));
      size := WritePacketHeader(start, if |rest| > PAYLOAD_SIZE then PAYLOAD_SIZE else |rest|, pcr, output);
      output.Write(rest[..size]);
    }

    /** Empty packets until the counter is a multiple of 16; `n` is the number of packets written before. */
    method WriteMPEG2PacketCCTO16(output: ByteLog, ghost n: nat)
      requires counter == Wrapped(n)
      modifies this`counter, output
      ensures output.bytes == old(output.bytes) + StreamBytes(PadTo16(pid, n))
      ensures counter == Wrapped(n + |PadTo16(pid, n)|) && counter % 16 == 0
    {
      hide StreamBytes, RawBytes, PadTo16, Wrapped, ToGo;
      ghost var m: nat, goal := n, old(output.bytes) + StreamBytes(PadTo16(pid, n));
      CounterWraps(m);
      while counter % 16 != 0
        invariant counter == Wrapped(m) && counter % 16 == m % 16 && m + |PadTo16(pid, m)| == n + |PadTo16(pid, n)|
        invariant output.bytes + StreamBytes(PadTo16(pid, m)) == goal
        decreases ToGo(m)
      {
        PadOne(pid, m);
        CounterWraps(m + 1);
        ToGoNext(m);
        var size := WritePacket(false, [], Some(0), output, m);
        m := m + 1;
      }
      PadNone(pid, m);
    }

    /** Cuts a PES packet into transport packets; `n` is the number of packets of the stream before. */
    method WritePES(streamId: Byte, data: seq<Byte>, dts: nat, withDts: bool, pts: nat, withPcr: bool, output: ByteLog,
                    ghost n: nat)
      requires |data| < WRAP - 19 && counter == Wrapped(n)
      modifies this`counter, output
      ensures var unit := Pes.PacketBytes(streamId, data, dts, withDts, pts);
              var clock := if withPcr then Some(Clock(if withDts then dts else pts)) else None;
              var packets := Chop(pid, n, true, unit, clock);
              output.bytes == old(output.bytes) + StreamBytes(packets) && counter == Wrapped(n + |packets|)
    {
      hide StreamBytes, Clock, Pes.Header, RawBytes, Chop, Wrapped;
      var header := WritePesHeader(streamId, |data|, dts, withDts, pts);
      var unit := header + data;
      var pcr := if withPcr then Some(Clock(if withDts then dts else pts)) else None;
      ghost var packets := Chop(pid, n, true, unit, pcr);
      ghost var m, goal := n, old(output.bytes) + StreamBytes(packets);
      var first, at := true, 0;
      assert unit[0..] == unit;
      while at < |unit|
        invariant 0 <= at <= |unit| && n <= m && counter == Wrapped(m)
        invariant output.bytes + StreamBytes(Chop(pid, m, first, unit[at..], pcr)) == goal
        invariant m + |Chop(pid, m, first, unit[at..], pcr)| == n + |packets|
      {
        ChopOne(pid, m, first, unit, at, pcr);
        var size := WritePacket(first, unit[at..], pcr, output, m);
        at := at + size;
        m := m + 1;
        first := false;
        pcr := None;
      }
      ChopNone(pid, m, first, unit[at..], pcr);
    }

    /** One sample, always with a clock. */
    method WriteSample(s: Sample, output: ByteLog, ghost n: nat)
      requires |s.data| < WRAP - 25 && counter == Wrapped(n) && kind != Unsupported
      modifies this`counter, output
      ensures var packets := Chop(pid, n, true, PesUnit(kind, s), Some(Clock(s.dts)));
              output.bytes == old(output.bytes) + StreamBytes(packets) && counter == Wrapped(n + |packets|)
    {
      hide Chop, StreamBytes, Pes.PacketBytes;
      if kind == H264 {
        WritePES(Pes.VIDEO_STREAM_ID, DELIMITER + s.data, s.dts, true, s.pts, true, output, n);
      } else {
        WritePES(Pes.AUDIO_STREAM_ID, s.data, s.dts, false, s.dts, true, output, n);
      }
    }
  }

  lemma ToGoNext(m: nat)
    requires m % 16 != 0
    ensures ToGo(m + 1) < ToGo(m)
  {
  }

  lemma PadOne(pid: Pid, m: nat)
    requires m % 16 != 0
    ensures StreamBytes(PadTo16(pid, m)) == RawBytes(Raw(pid, false, m, Some(0), [])) + StreamBytes(PadTo16(pid, m + 1))
    ensures |PadTo16(pid, m)| == 1 + |PadTo16(pid, m + 1)|
  {
    hide RawBytes, StreamBytes;
    FirstPacket(Raw(pid, false, m, Some(0), []), PadTo16(pid, m + 1));
  }

  lemma PadNone(pid: Pid, m: nat)
    requires m % 16 == 0
    ensures StreamBytes(PadTo16(pid, m)) == [] && PadTo16(pid, m) == []
  {
  }

  /** The counter variable is a 32-bit integer. */
  function Wrapped(n: nat): (r: nat)
    ensures r < WRAP
  {
    n % WRAP
  }

  lemma CounterWraps(n: nat)
    ensures Wrapped(n) % 16 == n % 16 && Wrapped(Wrapped(n) + 1) == Wrapped(n + 1)
  {
    SamePhase(n);
    WrappedNext(n);
  }

  lemma SamePhase(n: nat)
    ensures Wrapped(n) % 16 == n % 16
  {
    var q, r := n / WRAP, n % WRAP;
    var h, l := r / 16, r % 16;
    DivideUnique(n, 16, 0x1000_0000 * q + h, l);
  }

  lemma WrappedNext(n: nat)
    ensures Wrapped(Wrapped(n) + 1) == Wrapped(n + 1)
  {
  }

  lemma SameCounter(pid: Pid, start: bool, c: nat, n: nat, pcr: Option<nat>, size: nat)
    requires c == Wrapped(n) && size + PcrRoom(pcr) <= PAYLOAD_SIZE
    ensures HeaderBytes(pid, start, c, pcr, size) == HeaderBytes(pid, start, n, pcr, size)
  {
    hide Adaptation;
    CounterWraps(n);
  }

  lemma FirstPacket(p: Raw, rest: seq<Raw>)
    requires Fits(p) && forall i :: 0 <= i < |rest| ==> Fits(rest[i])
    ensures StreamBytes([p] + rest) == RawBytes(p) + StreamBytes(rest)
  {
    hide RawBytes;
    assert ([p] + rest)[1..] == rest;
  }

  method WritePcr(pcr: nat) returns (s: seq<Byte>)
    ensures s == Pack(FieldBits(PcrFields(pcr)))
  {
    hide FieldBits, Pack;
    var fields := PcrFields(pcr);
    WritablePcr(pcr);
    var writer := new BitWriter(PCR_SIZE);
    writer.WriteFields(fields);
    assert [] + FieldBits(fields) == FieldBits(fields);
    s := writer.GetData();
  }

  lemma WritablePcr(pcr: nat)
    ensures Writable(PcrFields(pcr)) && Total(Widths(PcrFields(pcr))) == 48
  {
    hide Low, Total;
    PcrWritable(pcr);
    PcrTotal();
    assert Widths(PcrFields(pcr)) == PCR_WIDTHS;
  }

  lemma PcrWritable(pcr: nat)
    ensures Writable(PcrFields(pcr))
  {
    hide Low, Shr;
    Pow2Values();
  }

  lemma PcrTotal()
    ensures Total(PCR_WIDTHS) == 48
  {
    TotalUnrolled(PCR_WIDTHS);
  }

  // ----- samples -----

  const DELIMITER: seq<Byte> := [0, 0, 0, 1, 9, 0xF0]

  /** The clock that goes with a time stamp, as a 64-bit integer. */
  function Clock(time: nat): nat {
    time * 300 % 0x1_0000_0000_0000_0000
  }

  /** The payload unit a sample becomes: for video behind an access unit delimiter and with both times. */
  function PesUnit(kind: Kind, s: Sample): seq<Byte> {
    if kind == H264 then Pes.PacketBytes(Pes.VIDEO_STREAM_ID, DELIMITER + s.data, s.dts, true, s.pts)
    else Pes.PacketBytes(Pes.AUDIO_STREAM_ID, s.data, s.dts, false, s.dts)
  }

  lemma StartGroup(streamId: Byte, dataSize: nat, withDts: bool)
    requires dataSize < WRAP - 19
    ensures var fields := Pes.StartFields(streamId, dataSize, withDts);
            Writable(fields) && Total(Widths(fields)) == 48
  {
    Pes.StartTotal();
    assert Widths(Pes.StartFields(streamId, dataSize, withDts)) == Pes.START_WIDTHS;
  }

  lemma FlagGroup(withDts: bool)
    ensures Writable(Pes.FlagFields(withDts)) && Total(Widths(Pes.FlagFields(withDts))) == 24
  {
    hide Pes.FlagFields, Pes.FLAG_WIDTHS, Total, Widths;
    Pes.FlagTotal();
    Pes.FlagsKept(withDts);
    FlagsWritable(withDts);
  }

  lemma FlagsWritable(withDts: bool)
    ensures Writable(Pes.FlagFields(withDts))
  {
  }

  lemma StampGroup(prefix: nat, time: nat)
    requires prefix < 16
    ensures var fields := Pes.StampFields(prefix, time); Writable(fields) && Total(Widths(fields)) == 40
  {
    hide Low, Shr, Total;
    Pes.StampTotal();
    StampsWritable(prefix, time);
    assert Widths(Pes.StampFields(prefix, time)) == Pes.STAMP_WIDTHS;
  }

  lemma StampsWritable(prefix: nat, time: nat)
    requires prefix < 16
    ensures Writable(Pes.StampFields(prefix, time))
  {
    hide Low, Shr;
    Pow2Values();
  }

  method WritePesHeader(streamId: Byte, dataSize: nat, dts: nat, withDts: bool, pts: nat) returns (s: seq<Byte>)
    requires dataSize < WRAP - 19
    ensures s == Pes.Header(streamId, dataSize, dts, withDts, pts) && |s| == Pes.HeaderSize(withDts)
  {
    hide Group, Pack, BytesBits, Pes.StartFields, Pes.FlagFields, Pes.StampFields, Writable, Total, Widths;
    var start, flags := Pes.StartFields(streamId, dataSize, withDts), Pes.FlagFields(withDts);
    var first, second := Pes.StampFields(if withDts then 3 else 2, pts), Pes.StampFields(1, dts);
    StartGroup(streamId, dataSize, withDts);
    FlagGroup(withDts);
    StampGroup(if withDts then 3 else 2, pts);
    StampGroup(1, dts);
    ghost var a, b, c := Group(start), Group(flags), Group(first);
    GroupSize(start);
    GroupSize(flags);
    GroupSize(first);
    GroupSize(second);
    var writer := new BitWriter(Pes.HeaderSize(withDts));
    NoBytes();
    writer.WriteGroup(start, []);
    writer.WriteGroup(flags, [] + a);
    writer.WriteGroup(first, [] + a + b);
    assert [] + a + b + c == a + b + c;
    if withDts {
      writer.WriteGroup(second, a + b + c);
    }
    ghost var all := a + b + c + if withDts then Group(second) else [];
    assert a + b + c + [] == a + b + c;
    PackUnpack(all);
    s := writer.GetData();
  }

  lemma GroupSize(fields: seq<Field>)
    requires Total(Widths(fields)) % 8 == 0
    ensures 8 * |Group(fields)| == Total(Widths(fields))
  {
    FieldBitsLength(fields);
  }

  lemma ChopOne(pid: Pid, m: nat, start: bool, unit: seq<Byte>, at: nat, pcr: Option<nat>)
    requires at < |unit|
    ensures var size := RoomFor(|unit| - at, pcr);
            var all, rest := Chop(pid, m, start, unit[at..], pcr), Chop(pid, m + 1, false, unit[at + size..], None);
            0 < size <= |unit| - at && |all| == 1 + |rest| &&
            StreamBytes(all) == RawBytes(Raw(pid, start, m, pcr, unit[at..][..size])) + StreamBytes(rest)
  {
    hide RawBytes, StreamBytes;
    var size := RoomFor(|unit| - at, pcr);
    assert unit[at..][size..] == unit[at + size..];
    FirstPacket(Raw(pid, start, m, pcr, unit[at..][..size]), Chop(pid, m + 1, false, unit[at + size..], None));
  }

  lemma ChopNone(pid: Pid, m: nat, start: bool, unit: seq<Byte>, pcr: Option<nat>)
    requires unit == []
    ensures Chop(pid, m, start, unit, pcr) == [] && StreamBytes(Chop(pid, m, start, unit, pcr)) == []
  {
  }
}
