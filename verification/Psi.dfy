/**
  The program tables: a PAT and a PMT fill one packet payload each, and a standard section reader
  finds their length, their CRC and their entries right.
 */
module Psi {
  import opened Bytes
  import opened BitFields
  import opened TsPackets
  import opened Crc

  const PAT_ID: Byte := 0
  const PMT_ID: Byte := 2
  const PMT_PID: Pid := 0x100
  const HEAD_WIDTHS: seq<nat> := [8, 1, 1, 2, 12]
  const TABLE_WIDTHS: seq<nat> := [16, 2, 5, 1, 8, 8]
  const PROGRAM_WIDTHS: seq<nat> := [16, 3, 13]
  const PCR_PID_WIDTHS: seq<nat> := [3, 13, 4, 12]
  const STREAM_WIDTHS: seq<nat> := [8, 3, 13, 4, 12]

  /** A stream in a PMT; its descriptor is empty. */
  datatype StreamInfo = StreamInfo(streamType: Byte, pid: Pid)

  /** table id, syntax indicator, '0', reserved, section length */
  function HeadFields(tableId: Byte, length: nat): seq<Field> {
    [Field(8, tableId), Field(1, 1), Field(1, 0), Field(2, 3), Field(12, length)]
  }

  /** stream or program number, reserved, version, current, section number, last section */
  function TableFields(): seq<Field> {
    [Field(16, 1), Field(2, 3), Field(5, 0), Field(1, 1), Field(8, 0), Field(8, 0)]
  }

  /** program number, reserved, program map PID */
  function ProgramFields(pid: Pid): seq<Field> {
    [Field(16, 1), Field(3, 7), Field(13, pid)]
  }

  /** reserved, PCR PID, reserved, program info length */
  function PcrPidFields(pid: Pid): seq<Field> {
    [Field(3, 7), Field(13, pid), Field(4, 0xF), Field(12, 0)]
  }

  /** stream type, reserved, elementary PID, reserved, descriptor length */
  function StreamFields(s: StreamInfo): seq<Field> {
    [Field(8, s.streamType), Field(3, 7), Field(13, s.pid), Field(4, 0xF), Field(12, 0)]
  }

  function PmtLength(streams: seq<StreamInfo>): nat {
    13 + 5 * |streams|
  }

  function PatSection(): seq<Byte> {
    Group(HeadFields(PAT_ID, 13)) + Group(TableFields()) + Group(ProgramFields(PMT_PID))
  }

  function StreamGroups(streams: seq<StreamInfo>): seq<Byte> {
    if streams == [] then [] else Group(StreamFields(streams[0])) + StreamGroups(streams[1..])
  }

  /** The clock is carried by the last stream. */
  function PcrPid(streams: seq<StreamInfo>): Pid {
    if streams == [] then 0 else streams[|streams| - 1].pid
  }

  function PmtSection(streams: seq<StreamInfo>): seq<Byte> {
    Group(HeadFields(PMT_ID, PmtLength(streams))) + Group(TableFields()) + Group(PcrPidFields(PcrPid(streams)))
    + StreamGroups(streams)
  }

  /** A payload unit: pointer, section, CRC, and stuffing to the end of the packet. */
  function Unit(section: seq<Byte>): seq<Byte>
    requires |section| + 5 <= PAYLOAD_SIZE
  {
    [0] + section + CrcBytes(Divide(INITIAL, section)) + Stuffing(PAYLOAD_SIZE - (|section| + 5))
  }

  // ----- reading -----

  datatype Section = Section(tableId: nat, number: nat, body: seq<Byte>)

  /** The section of a payload unit, if its length fits, its CRC leaves no remainder and only stuffing follows. */
  function ReadSection(unit: seq<Byte>): Option<Section> {
    if |unit| < 9 || unit[0] != 0 then None
    else
      var (tableId, length) := ReadHead(unit[1..4]);
      if length < 9 || |unit| < 4 + length then None
      else if Divide(INITIAL, unit[1..4 + length]) != 0 then None
      else if exists i :: 4 + length <= i < |unit| && unit[i] != STUFFING then None
      else Some(Section(tableId, ReadTable(unit[4..9]), unit[9..length]))
  }

  function ReadHead(b: seq<Byte>): (nat, nat)
    requires |b| == 3
  {
    Totals();
    var f := Fields(b, HEAD_WIDTHS);
    (f[0], f[4])
  }

  function ReadTable(b: seq<Byte>): nat
    requires |b| == 5
  {
    Totals();
    Fields(b, TABLE_WIDTHS)[0]
  }

  /** The program number and program map PID of a PAT with one program. */
  function ReadPat(unit: seq<Byte>): Option<(nat, nat)> {
    match ReadSection(unit)
    case None => None
    case Some(section) =>
      if section.tableId != PAT_ID || |section.body| != 4 then None
      else
        Totals();
        var f := Fields(section.body, PROGRAM_WIDTHS);
        Some((f[0], f[2]))
  }

  /** The clock PID and the streams of a PMT. */
  function ReadPmt(unit: seq<Byte>): Option<(nat, seq<(nat, nat)>)> {
    match ReadSection(unit)
    case None => None
    case Some(section) =>
      if section.tableId != PMT_ID || |section.body| < 4 then None
      else
        Totals();
        var f := Fields(section.body[..4], PCR_PID_WIDTHS);
        if f[3] != 0 then None
        else
          match ReadStreams(section.body[4..])
          case None => None
          case Some(streams) => Some((f[1], streams))
  }

  function ReadStreams(b: seq<Byte>): Option<seq<(nat, nat)>> {
    if b == [] then Some([])
    else if |b| < 5 then None
    else
      var (streamType, pid, descriptor) := ReadStream(b[..5]);
      if |b| < 5 + descriptor then None
      else
        match ReadStreams(b[5 + descriptor..])
        case None => None
        case Some(rest) => Some([(streamType, pid)] + rest)
  }

  function ReadStream(b: seq<Byte>): (nat, nat, nat)
    requires |b| == 5
  {
    Totals();
    var f := Fields(b, STREAM_WIDTHS);
    (f[0], f[2], f[4])
  }

  lemma Totals()
    ensures Total(HEAD_WIDTHS) == 24 && Total(TABLE_WIDTHS) == 40 && Total(PROGRAM_WIDTHS) == 32
    ensures Total(PCR_PID_WIDTHS) == 32 && Total(STREAM_WIDTHS) == 40
  {
    TotalUnrolled(HEAD_WIDTHS);
    TotalUnrolled(TABLE_WIDTHS);
    TotalUnrolled(PROGRAM_WIDTHS);
    TotalUnrolled(PCR_PID_WIDTHS);
    TotalUnrolled(STREAM_WIDTHS);
  }

  // ----- what a reader finds -----

  lemma HeadRead(tableId: Byte, length: nat)
    requires length < 0x1000
    ensures |Group(HeadFields(tableId, length))| == 3
    ensures ReadHead(Group(HeadFields(tableId, length))) == (tableId, length)
  {
    hide Group, Fields, Low;
    Totals();
    GroupParsed(HeadFields(tableId, length), HEAD_WIDTHS);
    Powers();
    LowOfSmall(tableId, 8);
    LowOfSmall(length, 12);
  }

  lemma TableRead()
    ensures |Group(TableFields())| == 5 && ReadTable(Group(TableFields())) == 1
  {
    hide Group, Fields, Low;
    Totals();
    GroupParsed(TableFields(), TABLE_WIDTHS);
    Powers();
    LowOfSmall(1, 16);
  }

  lemma ProgramRead(pid: Pid)
    ensures var b := Group(ProgramFields(pid));
            |b| == 4 && Total(PROGRAM_WIDTHS) == 32 && Fields(b, PROGRAM_WIDTHS) == [1, 7, pid]
  {
    hide Group, Fields, Low;
    Totals();
    GroupParsed(ProgramFields(pid), PROGRAM_WIDTHS);
    Powers();
    LowOfSmall(1, 16);
    LowOfSmall(7, 3);
    LowOfSmall(pid, 13);
  }

  lemma PcrPidRead(pid: Pid)
    ensures var b := Group(PcrPidFields(pid));
            |b| == 4 && Total(PCR_PID_WIDTHS) == 32 && Fields(b, PCR_PID_WIDTHS) == [7, pid, 0xF, 0]
  {
    hide Group, Fields, Low;
    Totals();
    GroupParsed(PcrPidFields(pid), PCR_PID_WIDTHS);
    Powers();
    LowOfSmall(7, 3);
    LowOfSmall(pid, 13);
    LowOfSmall(0xF, 4);
    LowOfSmall(0, 12);
  }

  lemma StreamRead(s: StreamInfo)
    ensures var b := Group(StreamFields(s)); |b| == 5 && ReadStream(b) == (s.streamType, s.pid, 0)
  {
    hide Group, Fields, Low;
    Totals();
    GroupParsed(StreamFields(s), STREAM_WIDTHS);
    Powers();
    LowOfSmall(s.streamType, 8);
    LowOfSmall(s.pid, 13);
    LowOfSmall(0, 12);
  }

  function Infos(streams: seq<StreamInfo>): seq<(nat, nat)> {
    seq(|streams|, i requires 0 <= i < |streams| => (streams[i].streamType, streams[i].pid))
  }

  lemma {:induction false} StreamsRead(streams: seq<StreamInfo>)
    ensures |StreamGroups(streams)| == 5 * |streams|
    ensures ReadStreams(StreamGroups(streams)) == Some(Infos(streams))
  {
    hide Group, ReadStream, StreamFields;
    if streams != [] {
      StreamRead(streams[0]);
      StreamsRead(streams[1..]);
      var b := StreamGroups(streams);
      var descriptor := ReadStream(b[..5]).2;
      assert b[..5] == Group(StreamFields(streams[0])) && b[5 + descriptor..] == StreamGroups(streams[1..]);
      assert [(streams[0].streamType as nat, streams[0].pid as nat)] + Infos(streams[1..]) == Infos(streams);
    } else {
      assert Infos(streams) == [];
    }
  }

  /** A section whose head announces its length is read whole. */
  lemma SectionRead(tableId: Byte, body: seq<Byte>)
    requires |body| + 13 <= PAYLOAD_SIZE
    ensures var section := Group(HeadFields(tableId, |body| + 9)) + Group(TableFields()) + body;
            |section| == |body| + 8 && |Unit(section)| == PAYLOAD_SIZE &&
            ReadSection(Unit(section)) == Some(Section(tableId, 1, body))
  {
    hide Group, ReadHead, ReadTable, Divide, CrcBytes, HeadFields, TableFields;
    var length := |body| + 9;
    HeadRead(tableId, length);
    TableRead();
    var head, table := Group(HeadFields(tableId, length)), Group(TableFields());
    var section := head + table + body;
    ResidueZero(section);
    var crc := CrcBytes(Divide(INITIAL, section));
    SlicedUnit(head, table, body, crc, Stuffing(PAYLOAD_SIZE - (|section| + 5)));
  }

  lemma SlicedUnit(head: seq<Byte>, table: seq<Byte>, body: seq<Byte>, crc: seq<Byte>, rest: seq<Byte>)
    requires |head| == 3 && |table| == 5 && |crc| == 4
    ensures var u := [0] + (head + table + body) + crc + rest;
            u[1..4] == head && u[4..9] == table && u[9..9 + |body|] == body && u[13 + |body|..] == rest &&
            u[1..13 + |body|] == head + table + body + crc
  {
  }

  /** A PAT is read back: its one program and where its map is. */
  lemma PatRead()
    ensures |PatSection()| == 12 && |Unit(PatSection())| == PAYLOAD_SIZE
    ensures ReadPat(Unit(PatSection())) == Some((1, PMT_PID))
  {
    hide Group, ReadSection, Unit, HeadFields, TableFields, ProgramFields, Fields;
    ProgramRead(PMT_PID);
    SectionRead(PAT_ID, Group(ProgramFields(PMT_PID)));
  }

  /** A PMT that fits one packet is read back: the clock PID and every stream in order. */
  lemma PmtRead(streams: seq<StreamInfo>)
    requires PmtLength(streams) + 4 <= PAYLOAD_SIZE
    ensures |PmtSection(streams)| == PmtLength(streams) - 1 && |Unit(PmtSection(streams))| == PAYLOAD_SIZE
    ensures ReadPmt(Unit(PmtSection(streams))) == Some((PcrPid(streams), Infos(streams)))
  {
    hide Group, ReadSection, Unit, HeadFields, TableFields, PcrPidFields, Fields, StreamGroups, ReadStreams;
    PcrPidRead(PcrPid(streams));
    StreamsRead(streams);
    var first, rest := Group(PcrPidFields(PcrPid(streams))), StreamGroups(streams);
    SectionRead(PMT_ID, first + rest);
    assert (first + rest)[..4] == first && (first + rest)[4..] == rest;
    var head, table := Group(HeadFields(PMT_ID, PmtLength(streams))), Group(TableFields());
    assert head + table + (first + rest) == head + table + first + rest;
  }

  function PatUnit(): (unit: seq<Byte>)
    ensures |unit| == PAYLOAD_SIZE
  {
    PatRead();
    Unit(PatSection())
  }

  function PmtUnit(streams: seq<StreamInfo>): (unit: seq<Byte>)
    requires |streams| <= 33
    ensures |unit| == PAYLOAD_SIZE
  {
    PmtRead(streams);
    Unit(PmtSection(streams))
  }

  // ----- byte by byte -----

  /** The bytes of both tables in front of their CRC. */
  lemma PatBytes()
    ensures PatSection() == [0, 0xB0, 13, 0, 1, 0xC1, 0, 0, 0, 1, 0xE1, 0]
  {
    hide Group, HeadFields, TableFields, ProgramFields;
    HeadBytes(0, 13);
    VersionBytes();
    ProgramBytes(PMT_PID);
  }

  lemma PmtBytes(streams: seq<StreamInfo>)
    requires |streams| <= 33
    ensures var pcr: nat := if streams == [] then 0 else streams[|streams| - 1].pid;
            PmtSection(streams) ==
            [2, 0xB0, 13 + 5 * |streams|, 0, 1, 0xC1, 0, 0, 0xE0 + pcr / 256, pcr % 256, 0xF0, 0]
            + StreamGroups(streams)
  {
    hide Group, HeadFields, TableFields, PcrPidFields, StreamGroups;
    HeadBytes(2, PmtLength(streams));
    VersionBytes();
    PcrPidBytes(PcrPid(streams));
  }

  lemma EntryBytes(s: StreamInfo, more: seq<StreamInfo>)
    ensures StreamGroups([]) == []
    ensures StreamGroups([s] + more) ==
            [s.streamType, 0xE0 + s.pid / 256, s.pid % 256, 0xF0, 0] + StreamGroups(more)
  {
    hide Group, StreamFields;
    StreamBytes(s);
    assert ([s] + more)[1..] == more;
  }

  /** A unit: a pointer of zero, the section, its CRC, and ones. */
  lemma UnitBytes(section: seq<Byte>)
    requires |section| <= 179
    ensures |Unit(section)| == 184
    ensures Unit(section)[..|section| + 5] == [0] + section + CrcBytes(Divide(0xFFFF_FFFF, section))
    ensures forall i :: |section| + 5 <= i < 184 ==> Unit(section)[i] == 255
  {
    hide Divide, CrcBytes;
  }

  lemma HeadBytes(tableId: Byte, length: nat)
    requires length < 256
    ensures Group(HeadFields(tableId, length)) == [tableId, 0xB0, length]
  {
    hide Group, Joint, Pow2, WriteBE;
    var f := HeadFields(tableId, length);
    Totals();
    assert Widths(f) == HEAD_WIDTHS;
    GroupNumber(f, 3);
    Powers();
    JointOne(f, 0, 256);
    JointOne(f, 1, 2);
    JointOne(f, 2, 2);
    JointOne(f, 3, 4);
    JointOne(f, 4, 0x1000);
    WriteBEByte(tableId);
    WriteBEJoin(tableId, 0xB0, 1);
    WriteBEJoin(256 * tableId + 0xB0, length, 2);
  }

  lemma VersionBytes()
    ensures Group(TableFields()) == [0, 1, 0xC1, 0, 0]
  {
    hide Group, Joint, Pow2, WriteBE;
    var f := TableFields();
    Totals();
    assert Widths(f) == TABLE_WIDTHS;
    GroupNumber(f, 5);
    Powers();
    JointOne(f, 0, 0x1_0000);
    JointOne(f, 1, 4);
    JointOne(f, 2, 32);
    JointOne(f, 3, 2);
    JointOne(f, 4, 256);
    JointOne(f, 5, 256);
    WriteBEByte(0);
    WriteBEJoin(0, 1, 1);
    WriteBEJoin(1, 0xC1, 2);
    WriteBEJoin(0x1C1, 0, 3);
    WriteBEJoin(0x1_C100, 0, 4);
  }

  /** Three ones and a PID. */
  lemma PidBytes(pid: Pid)
    ensures WriteBE(0xE000 + pid, 2) == [0xE0 + pid / 256, pid % 256]
  {
    hide WriteBE;
    WriteBEByte(0xE0 + pid / 256);
    WriteBEJoin(0xE0 + pid / 256, pid % 256, 1);
  }

  lemma ProgramBytes(pid: Pid)
    ensures Group(ProgramFields(pid)) == [0, 1, 0xE0 + pid / 256, pid % 256]
  {
    hide Group, Joint, Pow2, WriteBE;
    var f := ProgramFields(pid);
    Totals();
    assert Widths(f) == PROGRAM_WIDTHS;
    GroupNumber(f, 4);
    Powers();
    JointOne(f, 0, 0x1_0000);
    JointOne(f, 1, 8);
    JointOne(f, 2, 0x2000);
    WriteBEByte(0);
    WriteBEJoin(0, 1, 1);
    WriteBEJoin(1, 0xE0 + pid / 256, 2);
    WriteBEJoin(256 + 0xE0 + pid / 256, pid % 256, 3);
  }

  lemma PcrPidBytes(pid: Pid)
    ensures Group(PcrPidFields(pid)) == [0xE0 + pid / 256, pid % 256, 0xF0, 0]
  {
    hide Group, Joint, Pow2, WriteBE;
    var f := PcrPidFields(pid);
    Totals();
    assert Widths(f) == PCR_PID_WIDTHS;
    GroupNumber(f, 4);
    Powers();
    JointOne(f, 0, 8);
    JointOne(f, 1, 0x2000);
    JointOne(f, 2, 16);
    JointOne(f, 3, 0x1000);
    PidBytes(pid);
    WriteBEJoin(0xE000 + pid, 0xF0, 2);
    WriteBEJoin(256 * (0xE000 + pid) + 0xF0, 0, 3);
  }

  lemma StreamBytes(s: StreamInfo)
    ensures Group(StreamFields(s)) == [s.streamType, 0xE0 + s.pid / 256, s.pid % 256, 0xF0, 0]
  {
    hide Group, Joint, WriteBE;
    var f := StreamFields(s);
    Totals();
    assert Widths(f) == STREAM_WIDTHS;
    GroupNumber(f, 5);
    StreamJoint(s);
    var high, low := 0xE0 + s.pid / 256, s.pid % 256;
    WriteBEByte(s.streamType);
    WriteBEJoin(s.streamType, high, 1);
    WriteBEJoin(256 * s.streamType + high, low, 2);
    WriteBEJoin(256 * (256 * s.streamType + high) + low, 0xF0, 3);
    WriteBEJoin(256 * (256 * (256 * s.streamType + high) + low) + 0xF0, 0, 4);
  }

  lemma StreamJoint(s: StreamInfo)
    ensures |StreamFields(s)| == 5
    ensures Joint(StreamFields(s), 5) == 0x1_0000_0000 * s.streamType + 0x1_0000 * (0xE000 + s.pid) + 0xF000
  {
    hide Joint, Pow2;
    var f := StreamFields(s);
    Powers();
    JointOne(f, 0, 256);
    JointOne(f, 1, 8);
    JointOne(f, 2, 0x2000);
    JointOne(f, 3, 16);
    JointOne(f, 4, 0x1000);
  }
}
