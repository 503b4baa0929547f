/** PES packets: the header in front of a sample, written as bit fields and read back. */
module Pes {
  import opened Bytes
  import opened BitFields

  const VIDEO_STREAM_ID: Byte := 0xE0
  const AUDIO_STREAM_ID: Byte := 0xC0

  const START_WIDTHS: seq<nat> := [24, 8, 16]
  const FLAG_WIDTHS: seq<nat> := [2, 2, 1, 1, 1, 1, 2, 1, 1, 1, 1, 1, 1, 8]
  const STAMP_WIDTHS: seq<nat> := [4, 3, 1, 15, 1, 15, 1]

  function HeaderSize(withDts: bool): nat {
    14 + if withDts then 5 else 0
  }

  /** start code prefix, stream id, packet length (zero for video) */
  function StartFields(streamId: Byte, dataSize: nat, withDts: bool): seq<Field> {
    [Field(24, 1), Field(8, streamId),
     Field(16, if streamId == VIDEO_STREAM_ID then 0 else dataSize + HeaderSize(withDts) - 6)]
  }

  /** '10', scrambling, priority, alignment, copyright, original, which stamps, six flags, header length */
  function FlagFields(withDts: bool): seq<Field> {
    [Field(2, 2), Field(2, 0), Field(1, 0), Field(1, 1), Field(1, 0), Field(1, 0), Field(2, if withDts then 3 else 2),
     Field(1, 0), Field(1, 0), Field(1, 0), Field(1, 0), Field(1, 0), Field(1, 0), Field(8, HeaderSize(withDts) - 9)]
  }

  /** A 33-bit time in three pieces with marker bits between them. */
  function StampFields(prefix: nat, time: nat): seq<Field> {
    [Field(4, prefix), Field(3, Low(Shr(time, 30), 32)), Field(1, 1), Field(15, Low(Shr(time, 15), 32)), Field(1, 1),
     Field(15, Low(time, 32)), Field(1, 1)]
  }

  function Header(streamId: Byte, dataSize: nat, dts: nat, withDts: bool, pts: nat): seq<Byte> {
    Group(StartFields(streamId, dataSize, withDts))
    + Group(FlagFields(withDts))
    + Group(StampFields(if withDts then 3 else 2, pts))
    + if withDts then Group(StampFields(1, dts)) else []
  }

  /** A PES packet: header and data. */
  function PacketBytes(streamId: Byte, data: seq<Byte>, dts: nat, withDts: bool, pts: nat): seq<Byte> {
    Header(streamId, |data|, dts, withDts, pts) + data
  }

  // ----- reading -----

  datatype Packet = Packet(streamId: nat, length: nat, pts: nat, dts: Option<nat>, data: seq<Byte>)

  function Joined(high: nat, middle: nat, low: nat): nat {
    Shl(Shl(high, 15) + middle, 15) + low
  }

  /** Prefix, stream id and length. */
  function ReadStart(b: seq<Byte>): (nat, nat, nat)
    requires |b| == 6
  {
    StartTotal();
    var f := Fields(b, START_WIDTHS);
    (f[0], f[1], f[2])
  }

  /** The leading marker, which stamps there are, and how much header follows. */
  function ReadFlags(b: seq<Byte>): (nat, nat, nat)
    requires |b| == 3
  {
    FlagTotal();
    var f := Fields(b, FLAG_WIDTHS);
    (f[0], f[6], f[13])
  }

  /** A time stamp, if its prefix is the expected one and its marker bits are set. */
  function ReadStamp(b: seq<Byte>, prefix: nat): Option<nat>
    requires |b| == 5
  {
    StampTotal();
    var f := Fields(b, STAMP_WIDTHS);
    if f[0] == prefix && f[2] == 1 && f[4] == 1 && f[6] == 1 then Some(Joined(f[1], f[3], f[5])) else None
  }

  /** Where a packet ends by its length field; a length of zero leaves it open, which only video may. */
  function End(streamId: nat, length: nat, size: nat): Option<nat> {
    if length != 0 then Some(6 + length)
    else if streamId == VIDEO_STREAM_ID then Some(size)
    else None
  }

  /**
    Reads a PES packet with a PTS by the layout of ISO/IEC 13818-1, section 2.4.3.6; what lies behind its
    length is not part of it.
   */
  function Parse(b: seq<Byte>): Option<Packet> {
    if |b| < 14 then None
    else
      var (prefix, streamId, length) := ReadStart(b[..6]);
      var (marker, stamps, size) := ReadFlags(b[6..9]);
      var end := End(streamId, length, |b|);
      if prefix != 1 || marker != 2 || stamps < 2 || size < (if stamps == 3 then 10 else 5) then None
      else if end.None? || end.value < 9 + size || |b| < end.value then None
      else
        var pts := ReadStamp(b[9..14], stamps);
        var dts := if stamps == 3 then ReadStamp(b[14..19], 1) else None;
        if pts.None? || (stamps == 3 && dts.None?) then None
        else Some(Packet(streamId, length, pts.value, dts, b[9 + size..end.value]))
  }

  lemma StartTotal()
    ensures Total(START_WIDTHS) == 48
  {
    TotalUnrolled(START_WIDTHS);
  }

  lemma FlagTotal()
    ensures Total(FLAG_WIDTHS) == 24
  {
    TotalUnrolled(FLAG_WIDTHS);
  }

  lemma StampTotal()
    ensures Total(STAMP_WIDTHS) == 40
  {
    TotalUnrolled(STAMP_WIDTHS);
  }

  lemma StartParsed(streamId: Byte, dataSize: nat, withDts: bool)
    ensures var b := Group(StartFields(streamId, dataSize, withDts));
            |b| == 6 &&
            ReadStart(b) ==
            (1, streamId, Low(if streamId == VIDEO_STREAM_ID then 0 else dataSize + HeaderSize(withDts) - 6, 16))
  {
    hide Group, Fields, Low;
    StartTotal();
    GroupParsed(StartFields(streamId, dataSize, withDts), START_WIDTHS);
    Powers();
    LowOfSmall(1, 24);
    LowOfSmall(streamId, 8);
  }

  lemma FlagsParsed(withDts: bool)
    ensures |Group(FlagFields(withDts))| == 3
    ensures ReadFlags(Group(FlagFields(withDts))) == (2, if withDts then 3 else 2, HeaderSize(withDts) - 9)
  {
    hide Group, Fields, Low, FlagFields, Kept, Widths, Total;
    FlagTotal();
    FlagsKept(withDts);
    GroupParsed(FlagFields(withDts), FLAG_WIDTHS);
  }

  lemma FlagsKept(withDts: bool)
    ensures Widths(FlagFields(withDts)) == FLAG_WIDTHS
    ensures var kept := Kept(FlagFields(withDts));
            kept[0] == 2 && kept[6] == (if withDts then 3 else 2) && kept[13] == HeaderSize(withDts) - 9
  {
    hide Low;
    Powers();
    LowOfSmall(2, 2);
    LowOfSmall(3, 2);
    LowOfSmall(HeaderSize(withDts) - 9, 8);
  }

  /** The three pieces of a time make up its low 33 bits. */
  lemma PiecesJoined(time: nat)
    ensures Joined(Low(Shr(time, 30), 3), Low(Shr(time, 15), 15), Low(time, 15)) == Low(time, 33)
  {
    hide Bits, Shr, Shl, Low, Number;
    BitsSplit(time, 18, 15);
    BitsSplit(Shr(time, 15), 3, 15);
    ShrTwice(time, 15, 15);
    var high, middle, low := Bits(Shr(time, 30), 3), Bits(Shr(time, 15), 15), Bits(time, 15);
    NumberOfBits(Shr(time, 30), 3);
    NumberOfBits(Shr(time, 15), 15);
    NumberOfBits(time, 15);
    NumberAppend(high, middle);
    NumberAppend(high + middle, low);
    NumberOfBits(time, 33);
  }

  lemma {:induction false} ShrTwice(v: nat, a: nat, b: nat)
    ensures Shr(Shr(v, a), b) == Shr(v, a + b)
  {
    if a > 0 {
      ShrTwice(v / 2, a - 1, b);
    }
  }

  lemma StampParsed(prefix: nat, time: nat)
    requires prefix < 16
    ensures |Group(StampFields(prefix, time))| == 5
    ensures ReadStamp(Group(StampFields(prefix, time)), prefix) == Some(Low(time, 33))
  {
    hide Group, Fields, Joined;
    StampTotal();
    var fields := StampFields(prefix, time);
    GroupParsed(fields, STAMP_WIDTHS);
    Powers();
    LowOfSmall(prefix, 4);
    LowOfSmall(1, 1);
    LowTwice(Shr(time, 30), 3);
    LowTwice(Shr(time, 15), 15);
    LowTwice(time, 15);
    PiecesJoined(time);
  }

  /** A conversion to 32 bits keeps narrower fields. */
  lemma LowTwice(v: nat, n: nat)
    requires n <= 32
    ensures Low(Low(v, 32), n) == Low(v, n)
  {
    LowKeepsBits(v, n, 32);
    NumberOfBits(Low(v, 32), n);
    NumberOfBits(v, n);
  }

  /** What the length field should count: everything behind it. */
  function LengthNeeded(dataSize: nat, withDts: bool): nat {
    dataSize + HeaderSize(withDts) - 6
  }

  /** What a reader makes of a packet: its length is taken modulo 2^16, and only as much data as that allows. */
  function Seen(streamId: Byte, data: seq<Byte>, dts: nat, withDts: bool, pts: nat): Option<Packet> {
    var needed := LengthNeeded(|data|, withDts);
    var times := (Low(pts, 33), if withDts then Some(Low(dts, 33)) else None);
    if streamId == VIDEO_STREAM_ID then Some(Packet(streamId, 0, times.0, times.1, data))
    else if needed % 0x1_0000 < HeaderSize(withDts) - 6 then None
    else
      var length := needed % 0x1_0000;
      Some(Packet(streamId, length, times.0, times.1, data[..length - (HeaderSize(withDts) - 6)]))
  }

  /** What is read at each place of a packet. */
  lemma HeaderRead(streamId: Byte, data: seq<Byte>, dts: nat, withDts: bool, pts: nat)
    ensures var b, hs := PacketBytes(streamId, data, dts, withDts, pts), HeaderSize(withDts);
            && |Header(streamId, |data|, dts, withDts, pts)| == hs && |b| == hs + |data| && b[hs..] == data
            && ReadStart(b[..6]) ==
               (1, streamId, if streamId == VIDEO_STREAM_ID then 0 else LengthNeeded(|data|, withDts) % 0x1_0000)
            && ReadFlags(b[6..9]) == (2, if withDts then 3 else 2, hs - 9)
            && ReadStamp(b[9..14], if withDts then 3 else 2) == Some(Low(pts, 33))
            && (withDts ==> ReadStamp(b[14..19], 1) == Some(Low(dts, 33)))
  {
    hide Group, ReadStart, ReadFlags, ReadStamp, Low, StartFields, FlagFields, StampFields;
    StartParsed(streamId, |data|, withDts);
    FlagsParsed(withDts);
    StampParsed(if withDts then 3 else 2, pts);
    StampParsed(1, dts);
    var start, flags := Group(StartFields(streamId, |data|, withDts)), Group(FlagFields(withDts));
    var stamp := Group(StampFields(if withDts then 3 else 2, pts));
    var other := if withDts then Group(StampFields(1, dts)) else [];
    Sliced(start, flags, stamp, other, data);
    LengthField(streamId, LengthNeeded(|data|, withDts));
  }

  /** A PES packet as a reader that honours its length sees it, times modulo 2^33. */
  lemma RoundTrip(streamId: Byte, data: seq<Byte>, dts: nat, withDts: bool, pts: nat)
    ensures |Header(streamId, |data|, dts, withDts, pts)| == HeaderSize(withDts)
    ensures Parse(PacketBytes(streamId, data, dts, withDts, pts)) == Seen(streamId, data, dts, withDts, pts)
  {
    hide Header, PacketBytes, ReadStart, ReadFlags, ReadStamp, Low;
    HeaderRead(streamId, data, dts, withDts, pts);
    UpTo(PacketBytes(streamId, data, dts, withDts, pts), HeaderSize(withDts), data);
  }

  lemma LengthField(streamId: Byte, needed: nat)
    ensures Low(if streamId == VIDEO_STREAM_ID then 0 else needed, 16) ==
            if streamId == VIDEO_STREAM_ID then 0 else needed % 0x1_0000
  {
    hide Low;
    Powers();
    ShrDivides(needed, 16);
    LowOfSmall(0, 16);
  }

  lemma UpTo(b: seq<Byte>, size: nat, data: seq<Byte>)
    requires size <= |b| && b[size..] == data
    ensures b[size..|b|] == data
    ensures forall end :: size <= end <= |b| ==> b[size..end] == data[..end - size]
  {
  }

  /**
    A packet gives exactly its data back if and only if it is video or its length fits 16 bits; longer
    audio is cut short or refused.
   */
  lemma DataRecovered(streamId: Byte, data: seq<Byte>, dts: nat, withDts: bool, pts: nat)
    ensures var packet := Parse(PacketBytes(streamId, data, dts, withDts, pts));
            packet.Some? && packet.value.data == data <==>
            streamId == VIDEO_STREAM_ID || LengthNeeded(|data|, withDts) < 0x1_0000
  {
    hide PacketBytes, Parse, Low;
    RoundTrip(streamId, data, dts, withDts, pts);
    var needed := LengthNeeded(|data|, withDts);
    if streamId != VIDEO_STREAM_ID && needed < 0x1_0000 {
      assert data[..|data|] == data;
    }
  }

  /** 65528 bytes of audio make the length field zero. */
  lemma LongAudioRefused(data: seq<Byte>, pts: nat)
    requires |data| == 65528
    ensures Parse(PacketBytes(AUDIO_STREAM_ID, data, 0, false, pts)) == None
  {
    hide PacketBytes, Parse, Low;
    RoundTrip(AUDIO_STREAM_ID, data, 0, false, pts);
  }

  /** 70000 bytes of audio are cut to 4464. */
  lemma LongAudioCut(data: seq<Byte>, pts: nat)
    requires |data| == 70000
    ensures var packet := Parse(PacketBytes(AUDIO_STREAM_ID, data, 0, false, pts));
            packet.Some? && packet.value.data == data[..4464]
  {
    assert LengthNeeded(|data|, false) % 0x1_0000 == 4472 && HeaderSize(false) == 14;
    hide PacketBytes, Parse, Low, LengthNeeded, HeaderSize;
    RoundTrip(AUDIO_STREAM_ID, data, 0, false, pts);
  }

  lemma Sliced(a: seq<Byte>, b: seq<Byte>, c: seq<Byte>, d: seq<Byte>, e: seq<Byte>)
    requires |a| == 6 && |b| == 3 && |c| == 5
    ensures var s := a + b + c + d + e;
            s[..6] == a && s[6..9] == b && s[9..14] == c && s[14..14 + |d|] == d && s[14 + |d|..] == e
  {
  }

  // ----- byte by byte -----

  /** A PES header: start code, stream id, length, the flags of one or two time stamps, and the stamps. */
  lemma HeaderBytes(streamId: Byte, dataSize: nat, dts: nat, withDts: bool, pts: nat)
    ensures Header(streamId, dataSize, dts, withDts, pts) ==
            WriteBE(0x100_0000 + 65536 * streamId
                    + (if streamId == 0xE0 then 0 else LengthNeeded(dataSize, withDts) % 65536), 6)
            + (if withDts then [0x84, 0xC0, 10] else [0x84, 0x80, 5])
            + WriteBE(StampNumber(if withDts then 3 else 2, pts), 5)
            + (if withDts then WriteBE(StampNumber(1, dts), 5) else [])
    ensures LengthNeeded(dataSize, withDts) == dataSize + if withDts then 13 else 8
  {
    hide Group, WriteBE, StartFields, FlagFields, StampFields;
    StartBytes(streamId, dataSize, withDts);
    FlagBytes(withDts);
    StampBytes(if withDts then 3 else 2, pts);
    StampBytes(1, dts);
  }

  /** A time stamp: four bits of prefix, and 3, 15 and 15 bits of the time, each with a marker behind it. */
  function StampNumber(prefix: nat, time: nat): nat {
    prefix * 0x10_0000_0000 + time / 0x4000_0000 % 8 * 0x2_0000_0000 + 0x1_0000_0000
    + time / 0x8000 % 0x8000 * 0x2_0000 + 0x1_0000 + time % 0x8000 * 2 + 1
  }

  lemma StartBytes(streamId: Byte, dataSize: nat, withDts: bool)
    ensures Group(StartFields(streamId, dataSize, withDts)) ==
            WriteBE(0x100_0000 + 65536 * streamId
                    + (if streamId == 0xE0 then 0 else LengthNeeded(dataSize, withDts) % 65536), 6)
  {
    hide Group, WriteBE, Joint, Pow2;
    var f := StartFields(streamId, dataSize, withDts);
    StartTotal();
    assert Widths(f) == START_WIDTHS;
    GroupNumber(f, 6);
    Powers();
    JointOne(f, 0, 0x100_0000);
    JointOne(f, 1, 0x100);
    JointOne(f, 2, 0x1_0000);
  }

  lemma FlagBytes(withDts: bool)
    ensures Group(FlagFields(withDts)) == if withDts then [0x84, 0xC0, 10] else [0x84, 0x80, 5]
  {
    hide Group, WriteBE, Joint, Pow2, FlagFields, FLAG_WIDTHS, Widths, Total, Kept, Low;
    var f := FlagFields(withDts);
    FlagTotal();
    FlagsKept(withDts);
    GroupNumber(f, 3);
    FlagsJoint(withDts);
    WriteBE3(Joint(f, 14));
  }

  lemma FlagsJoint(withDts: bool)
    ensures var f := FlagFields(withDts);
            |f| == 14 && Joint(f, 14) == if withDts then 0x84_C00A else 0x84_8005
  {
    hide Joint, Pow2;
    var f := FlagFields(withDts);
    Powers();
    FirstFlags(withDts);
    JointOne(f, 8, 2);
    JointOne(f, 9, 2);
    JointOne(f, 10, 2);
    JointOne(f, 11, 2);
    JointOne(f, 12, 2);
    JointOne(f, 13, 256);
  }

  lemma FirstFlags(withDts: bool)
    ensures var f := FlagFields(withDts);
            |f| == 14 && Joint(f, 8) == if withDts then 0x84 * 8 + 6 else 0x84 * 8 + 4
  {
    hide Joint, Pow2;
    var f := FlagFields(withDts);
    Powers();
    JointOne(f, 0, 4);
    JointOne(f, 1, 4);
    JointOne(f, 2, 2);
    JointOne(f, 3, 2);
    JointOne(f, 4, 2);
    JointOne(f, 5, 2);
    JointOne(f, 6, 4);
    JointOne(f, 7, 2);
  }

  lemma StampBytes(prefix: nat, time: nat)
    requires prefix < 16
    ensures Group(StampFields(prefix, time)) == WriteBE(StampNumber(prefix, time), 5)
  {
    hide Group, WriteBE, Joint, Pow2, Low, Shr;
    var f := StampFields(prefix, time);
    StampTotal();
    assert Widths(f) == STAMP_WIDTHS;
    GroupNumber(f, 5);
    StampJoint(prefix, time);
  }

  lemma StampJoint(prefix: nat, time: nat)
    requires prefix < 16
    ensures |StampFields(prefix, time)| == 7 && Joint(StampFields(prefix, time), 7) == StampNumber(prefix, time)
  {
    hide Joint, Pow2, Low, Shr;
    var f := StampFields(prefix, time);
    StampPowers();
    FirstStamps(prefix, time);
    PieceIs(time, 0, 15);
    assert Shr(time, 0) == time by { ShrDivides(time, 0); }
    JointOne(f, 4, 2);
    JointOne(f, 5, 0x8000);
    JointOne(f, 6, 2);
  }

  lemma FirstStamps(prefix: nat, time: nat)
    requires prefix < 16
    ensures |StampFields(prefix, time)| == 7
    ensures Joint(StampFields(prefix, time), 4) ==
            prefix * 0x8_0000 + time / 0x4000_0000 % 8 * 0x1_0000 + 0x8000 + time / 0x8000 % 0x8000
  {
    hide Joint, Pow2, Low, Shr;
    var f := StampFields(prefix, time);
    StampPowers();
    PieceIs(time, 30, 3);
    PieceIs(time, 15, 15);
    JointOne(f, 0, 16);
    JointOne(f, 1, 8);
    JointOne(f, 2, 2);
    JointOne(f, 3, 0x8000);
  }

  lemma StampPowers()
    ensures Pow2(0) == 1 && Pow2(1) == 2 && Pow2(3) == 8 && Pow2(4) == 16 && Pow2(15) == 0x8000
    ensures Pow2(30) == 0x4000_0000
  {
    Powers();
    assert Pow2(15) == 2 * Pow2(14) && Pow2(14) == 2 * Pow2(13);
    assert Pow2(26) == 4 * Pow2(24) && Pow2(30) == 4 * Pow2(28) && Pow2(28) == 4 * Pow2(26);
  }

  lemma PieceIs(time: nat, n: nat, width: nat)
    requires width <= 32
    ensures Low(Shr(time, n), 32) % Pow2(width) == time / Pow2(n) % Pow2(width)
  {
    hide Low, Shr, Pow2;
    LowTwice(Shr(time, n), width);
    ShrDivides(time, n);
    ShrDivides(Shr(time, n), width);
    ShrDivides(Low(Shr(time, n), 32), width);
  }
}
