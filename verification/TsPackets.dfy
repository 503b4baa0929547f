/**
  Transport stream packets: how payload units are cut into them, and what a standard depacketizer
  gets back.
 */
module TsPackets {
  import opened Bytes
  import opened BitFields

  const SYNC_BYTE: Byte := 0x47
  const PACKET_SIZE: nat := 188
  const PAYLOAD_SIZE: nat := 184
  const PCR_SIZE: nat := 6
  const STUFFING: Byte := 0xFF
  const PCR_WIDTHS: seq<nat> := [1, 32, 6, 9]

  type Pid = x: int | 0 <= x < 0x2000

  /** A packet before it is written; the counter is not yet reduced to its four bits. */
  datatype Raw = Raw(pid: Pid, start: bool, counter: nat, pcr: Option<nat>, payload: seq<Byte>)

  function PcrRoom(pcr: Option<nat>): nat {
    if pcr.Some? then 2 + PCR_SIZE else 0
  }

  predicate Fits(p: Raw) {
    |p.payload| + PcrRoom(p.pcr) <= PAYLOAD_SIZE
  }

  /** The clock as a 33-bit base at 90 kHz and a 9-bit extension at 27 MHz. */
  function PcrFields(pcr: nat): seq<Field> {
    [Field(1, Low(Shr(pcr / 300, 32), 32)), Field(32, Low(pcr / 300, 32)), Field(6, 0x3F), Field(9, pcr % 300)]
  }

  function Stuffing(n: nat): (s: seq<Byte>)
    ensures |s| == n
  {
    seq(n, i => STUFFING)
  }

  /** An adaptation field of `size` bytes. */
  function Adaptation(size: nat, pcr: Option<nat>): seq<Byte>
    requires PcrRoom(pcr) <= size <= PAYLOAD_SIZE
  {
    if size == 0 then []
    else if size == 1 then [0]
    else
      [size - 1, if pcr.Some? then 0x10 else 0]
      + (if pcr.Some? then Pack(FieldBits(PcrFields(pcr.value))) else [])
      + Stuffing(size - 2 - if pcr.Some? then PCR_SIZE else 0)
  }

  /** The header of a packet with a payload of `size` bytes, adaptation field included. */
  function HeaderBytes(pid: Pid, start: bool, counter: nat, pcr: Option<nat>, size: nat): seq<Byte>
    requires size + PcrRoom(pcr) <= PAYLOAD_SIZE
  {
    [SYNC_BYTE, (if start then 0x40 else 0) + pid / 256, pid % 256,
     (if size == PAYLOAD_SIZE then 0x10 else 0x30) + counter % 16] + Adaptation(PAYLOAD_SIZE - size, pcr)
  }

  function RawBytes(p: Raw): seq<Byte>
    requires Fits(p)
  {
    HeaderBytes(p.pid, p.start, p.counter, p.pcr, |p.payload|) + p.payload
  }

  // ----- the depacketizer -----

  datatype Packet = Packet(pid: nat, start: bool, counter: nat, pcr: Option<(nat, nat)>, payload: seq<Byte>)

  /** A clock reference as its base and its extension. */
  function ParsePcr(b: seq<Byte>): (nat, nat)
    requires |b| == PCR_SIZE
  {
    var bits := BytesBits(b);
    (Number(bits[..33]), Number(bits[39..]))
  }

  /**
    A packet by the layout of ISO/IEC 13818-1, section 2.4.3: an adaptation field beside a payload has at
    most 182 bytes behind its length, and one without a payload exactly 183.
   */
  function ParsePacket(b: seq<Byte>): Option<Packet> {
    if |b| != PACKET_SIZE || b[0] != SYNC_BYTE || b[1] >= 0x80 || b[3] >= 0x40 then None
    else
      var pid, start, counter := (b[1] as int) % 32 * 256 + b[2] as int, b[1] / 64 % 2 == 1, b[3] % 16;
      var control, length := b[3] / 16, b[4] as int;
      if control == 0 || (control == 2 && length != 183) || (control == 3 && length > 182) then None
      else if control == 1 then Some(Packet(pid, start, counter, None, b[4..]))
      else
        var clock := length >= 1 && b[5] / 16 % 2 == 1;
        if clock && length < 1 + PCR_SIZE then None
        else Some(Packet(pid, start, counter, if clock then Some(ParsePcr(b[6..12])) else None, b[5 + length..]))
  }

  /** A stream is a whole number of packets. */
  function Depacketize(stream: seq<Byte>): Option<seq<Packet>> {
    if stream == [] then Some([])
    else if |stream| < PACKET_SIZE then None
    else
      match ParsePacket(stream[..PACKET_SIZE])
      case None => None
      case Some(p) =>
        match Depacketize(stream[PACKET_SIZE..])
        case None => None
        case Some(rest) => Some([p] + rest)
  }

  /** A clock as a base of 33 bits and an extension. */
  function SeenClock(pcr: Option<nat>): Option<(nat, nat)> {
    if pcr.Some? then Some((Low(pcr.value / 300, 33), pcr.value % 300)) else None
  }

  /** The fields of a packet as they are on the wire. */
  function Seen(p: Raw): Packet {
    Packet(p.pid, p.start, p.counter % 16, SeenClock(p.pcr), p.payload)
  }

  lemma PcrParsed(pcr: nat)
    ensures |Pack(FieldBits(PcrFields(pcr)))| == PCR_SIZE
    ensures ParsePcr(Pack(FieldBits(PcrFields(pcr)))) == (Low(pcr / 300, 33), pcr % 300)
  {
    hide Bits, Number, Pack, Low, Shr;
    var base, fields := pcr / 300, PcrFields(pcr);
    var bits := FieldBits(fields);
    FourFields(fields[0], fields[1], fields[2], fields[3]);
    LowKeepsBits(Shr(base, 32), 1, 32);
    LowKeepsBits(base, 32, 32);
    assert bits == Bits(Shr(base, 32), 1) + Bits(base, 32) + Bits(0x3F, 6) + Bits(pcr % 300, 9);
    UnpackPack(bits);
    assert bits + Zeros(0) == bits;
    BitsSplit(base, 1, 32);
    assert bits[..33] == Bits(base, 33) && bits[39..] == Bits(pcr % 300, 9);
    NumberOfBits(base, 33);
    NumberOfBits(pcr % 300, 9);
    LowOfSmall(pcr % 300, 9) by { assert Pow2(9) == 512 by { assert Pow2(5) == 32; } }
  }

  /** What a reader finds in an adaptation field. */
  lemma AdaptationParts(size: nat, pcr: Option<nat>)
    requires PcrRoom(pcr) <= size <= PAYLOAD_SIZE
    ensures var a := Adaptation(size, pcr);
            && |a| == size && (size >= 1 ==> a[0] == size - 1)
            && (size >= 2 ==> (a[1] / 16 % 2 == 1 <==> pcr.Some?))
            && (pcr.Some? ==> ParsePcr(a[2..8]) == (Low(pcr.value / 300, 33), pcr.value % 300))
  {
    hide FieldBits, Pack, ParsePcr, Low, Stuffing, PcrFields;
    if pcr.Some? {
      PcrParsed(pcr.value);
      assert Adaptation(size, pcr)[2..8] == Pack(FieldBits(PcrFields(pcr.value)));
    }
  }

  /** Every packet is 188 bytes, and is read back if and only if it has a payload. */
  lemma PacketParsed(p: Raw)
    requires Fits(p)
    ensures |RawBytes(p)| == PACKET_SIZE
    ensures ParsePacket(RawBytes(p)) == if p.payload == [] then None else Some(Seen(p))
  {
    hide ParsePcr, Low, Adaptation;
    var size, b := PAYLOAD_SIZE - |p.payload|, RawBytes(p);
    var a := Adaptation(size, p.pcr);
    AdaptationParts(size, p.pcr);
    HeadDigits(p.pid, p.start);
    assert b[4..4 + size] == a && b[4 + size..] == p.payload;
    assert size >= 1 ==> b[4] == a[0];
    assert size >= 2 ==> b[5] == a[1];
    assert size >= 8 ==> b[6..12] == a[2..8];
    hide RawBytes, HeaderBytes;
  }

  lemma HeadDigits(pid: Pid, start: bool)
    ensures var first := (if start then 0x40 else 0) + pid / 256;
            && first < 0x80 && first % 32 * 256 + pid % 256 == pid && (first / 64 % 2 == 1 <==> start)
  {
  }

  function StreamBytes(packets: seq<Raw>): seq<Byte>
    requires forall i :: 0 <= i < |packets| ==> Fits(packets[i])
  {
    if packets == [] then [] else RawBytes(packets[0]) + StreamBytes(packets[1..])
  }

  function AllSeen(packets: seq<Raw>): seq<Packet> {
    seq(|packets|, i requires 0 <= i < |packets| => Seen(packets[i]))
  }

  /** No packet is without a payload. */
  predicate AllCarry(packets: seq<Raw>) {
    forall i :: 0 <= i < |packets| ==> packets[i].payload != []
  }

  /** A stream is read back if and only if every packet of it carries a payload. */
  lemma {:induction false} StreamParsed(packets: seq<Raw>)
    requires forall i :: 0 <= i < |packets| ==> Fits(packets[i])
    ensures Depacketize(StreamBytes(packets)) == if AllCarry(packets) then Some(AllSeen(packets)) else None
    ensures |StreamBytes(packets)| == PACKET_SIZE * |packets|
  {
    hide RawBytes, ParsePacket, Seen;
    if packets != [] {
      PacketParsed(packets[0]);
      StreamParsed(packets[1..]);
      CarryFirst(packets);
      var s := StreamBytes(packets);
      assert s[..PACKET_SIZE] == RawBytes(packets[0]) && s[PACKET_SIZE..] == StreamBytes(packets[1..]);
      assert [Seen(packets[0])] + AllSeen(packets[1..]) == AllSeen(packets);
    }
  }

  lemma CarryFirst(packets: seq<Raw>)
    requires packets != []
    ensures AllCarry(packets) <==> packets[0].payload != [] && AllCarry(packets[1..])
  {
    assert forall i :: 1 <= i < |packets| ==> packets[i] == packets[1..][i - 1];
  }

  lemma {:induction false} StreamBytesAppend(a: seq<Raw>, b: seq<Raw>)
    requires forall i :: 0 <= i < |a| ==> Fits(a[i])
    requires forall i :: 0 <= i < |b| ==> Fits(b[i])
    ensures StreamBytes(a + b) == StreamBytes(a) + StreamBytes(b)
  {
    hide RawBytes;
    if a == [] {
      assert a + b == b;
    } else {
      StreamBytesAppend(a[1..], b);
      assert (a + b)[1..] == a[1..] + b;
    }
  }

  // ----- cutting -----

  /** The packets of a payload unit; only the first one starts a unit and carries the clock. */
  function Chop(pid: Pid, counter: nat, start: bool, unit: seq<Byte>, pcr: Option<nat>): (packets: seq<Raw>)
    ensures forall i :: 0 <= i < |packets| ==> Fits(packets[i])
    decreases |unit|
  {
    if unit == [] then []
    else
      var size := Min(|unit|, PAYLOAD_SIZE - PcrRoom(pcr));
      [Raw(pid, start, counter, pcr, unit[..size])] + Chop(pid, counter + 1, false, unit[size..], None)
  }

  /** How far a counter is from the next multiple of 16. */
  function ToGo(counter: nat): (n: nat)
    ensures n == 0 <==> counter % 16 == 0
    ensures n > 0 ==> (16 - (counter + 1) % 16) % 16 == n - 1
  {
    (16 - counter % 16) % 16
  }

  /** Empty packets until the counter is a multiple of 16. */
  function PadTo16(pid: Pid, counter: nat): (packets: seq<Raw>)
    ensures forall i :: 0 <= i < |packets| ==> Fits(packets[i])
    decreases ToGo(counter)
  {
    if counter % 16 == 0 then [] else [Raw(pid, false, counter, Some(0), [])] + PadTo16(pid, counter + 1)
  }

  /** What is written: a payload unit, or padding of one stream. */
  datatype Event =
    | Unit(pid: Pid, bytes: seq<Byte>, pcr: Option<nat>)
    | Padding(pid: Pid)

  /** How many packets of a stream there are. */
  function Count(packets: seq<Raw>, pid: Pid): nat {
    if packets == [] then 0
    else Count(packets[..|packets| - 1], pid) + if packets[|packets| - 1].pid == pid then 1 else 0
  }

  function Emit(e: Event, counter: nat): (packets: seq<Raw>)
    ensures forall i :: 0 <= i < |packets| ==> Fits(packets[i])
  {
    match e
    case Unit(pid, bytes, pcr) => Chop(pid, counter, true, bytes, pcr)
    case Padding(pid) => PadTo16(pid, counter)
  }

  /** All packets of a run, each stream counting its own. */
  function Packets(events: seq<Event>): (packets: seq<Raw>)
    ensures forall i :: 0 <= i < |packets| ==> Fits(packets[i])
  {
    if events == [] then []
    else
      var e, before := events[|events| - 1], Packets(events[..|events| - 1]);
      before + Emit(e, Count(before, e.pid))
  }

  lemma {:induction false} CountAppend(a: seq<Raw>, b: seq<Raw>, pid: Pid)
    ensures Count(a + b, pid) == Count(a, pid) + Count(b, pid)
  {
    if b == [] {
      assert a + b == a;
    } else {
      var init := b[..|b| - 1];
      CountAppend(a, init, pid);
      assert (a + b)[..|a + b| - 1] == a + init;
    }
  }

  lemma {:induction false} CountOwn(packets: seq<Raw>, own: Pid, pid: Pid)
    requires forall i :: 0 <= i < |packets| ==> packets[i].pid == own
    ensures Count(packets, pid) == if own == pid then |packets| else 0
  {
    if packets != [] {
      CountOwn(packets[..|packets| - 1], own, pid);
    }
  }

  lemma {:induction false} ChopOwn(pid: Pid, counter: nat, start: bool, unit: seq<Byte>, pcr: Option<nat>)
    ensures forall p :: p in Chop(pid, counter, start, unit, pcr) ==> p.pid == pid
    decreases |unit|
  {
    if unit != [] {
      ChopOwn(pid, counter + 1, false, unit[Min(|unit|, PAYLOAD_SIZE - PcrRoom(pcr))..], None);
    }
  }

  lemma {:induction false} PaddingOwn(pid: Pid, counter: nat)
    ensures forall p :: p in PadTo16(pid, counter) ==> p.pid == pid
    decreases ToGo(counter)
  {
    if counter % 16 != 0 {
      PaddingOwn(pid, counter + 1);
    }
  }

  /** One more event: its packets come last, and only its own stream counts on. */
  lemma Appended(events: seq<Event>, e: Event)
    ensures var before, next := Packets(events), Packets(events + [e]);
            var more := Emit(e, Count(before, e.pid));
            StreamBytes(next) == StreamBytes(before) + StreamBytes(more) &&
            forall pid: Pid :: Count(next, pid) == Count(before, pid) + if pid == e.pid then |more| else 0
  {
    hide Count, StreamBytes;
    assert (events + [e])[..|events|] == events;
    var before := Packets(events);
    var more := Emit(e, Count(before, e.pid));
    StreamBytesAppend(before, more);
    match e {
      case Unit(own, bytes, pcr) => ChopOwn(own, Count(before, own), true, bytes, pcr);
      case Padding(own) => PaddingOwn(own, Count(before, own));
    }
    forall pid: Pid
      ensures Count(before + more, pid) == Count(before, pid) + if pid == e.pid then |more| else 0
    {
      CountAppend(before, more, pid);
      CountOwn(more, e.pid, pid);
    }
  }

  // ----- continuity -----

  /** On every stream the counter goes up by one, modulo 16, starting at zero. */
  predicate Continuous(packets: seq<Raw>) {
    packets == []
    || (var last := packets[|packets| - 1];
        last.counter == Count(packets[..|packets| - 1], last.pid) && Continuous(packets[..|packets| - 1]))
  }

  /** How many packets with a payload a stream has, for the depacketizer. */
  function CountSeen(packets: seq<Packet>, pid: nat): nat {
    if packets == [] then 0
    else
      var last := packets[|packets| - 1];
      CountSeen(packets[..|packets| - 1], pid) + if last.pid == pid && last.payload != [] then 1 else 0
  }

  /** On every stream the counter of the packets with a payload goes 0, 1, ... 15, 0, ... */
  predicate InStep(packets: seq<Packet>) {
    forall i :: 0 <= i < |packets| && packets[i].payload != [] ==>
      packets[i].counter == CountSeen(packets[..i], packets[i].pid) % 16
  }

  lemma {:induction false} CountIsSeen(packets: seq<Raw>, pid: Pid)
    requires AllCarry(packets)
    ensures CountSeen(AllSeen(packets), pid) == Count(packets, pid)
  {
    if packets != [] {
      var init := packets[..|packets| - 1];
      CountIsSeen(init, pid);
      assert AllSeen(packets)[..|packets| - 1] == AllSeen(init);
    }
  }

  lemma {:induction false} ContinuousIsInStep(packets: seq<Raw>)
    requires Continuous(packets) && AllCarry(packets)
    ensures InStep(AllSeen(packets))
  {
    hide Count, CountSeen;
    if packets != [] {
      var init, last, all := packets[..|packets| - 1], packets[|packets| - 1], AllSeen(packets);
      ContinuousIsInStep(init);
      CountIsSeen(init, last.pid);
      assert all[..|init|] == AllSeen(init);
      forall i | 0 <= i < |init|
        ensures all[i].counter == CountSeen(all[..i], all[i].pid) % 16
      {
        assert all[..i] == AllSeen(init)[..i] && all[i] == AllSeen(init)[i];
        assert AllSeen(init)[i].payload != [];
      }
    }
  }

  lemma ContinuousOne(packets: seq<Raw>, p: Raw)
    requires Continuous(packets) && p.counter == Count(packets, p.pid)
    ensures Continuous(packets + [p])
    ensures forall pid: Pid :: Count(packets + [p], pid) == Count(packets, pid) + if p.pid == pid then 1 else 0
  {
    var next := packets + [p];
    assert next[..|next| - 1] == packets;
  }

  lemma {:induction false} ContinuousChop(packets: seq<Raw>, pid: Pid, start: bool, unit: seq<Byte>, pcr: Option<nat>)
    requires Continuous(packets)
    ensures Continuous(packets + Chop(pid, Count(packets, pid), start, unit, pcr))
    decreases |unit|
  {
    hide Continuous, Count;
    if unit == [] {
      assert packets + [] == packets;
    } else {
      var n, size := Count(packets, pid), Min(|unit|, PAYLOAD_SIZE - PcrRoom(pcr));
      var p, rest := Raw(pid, start, n, pcr, unit[..size]), Chop(pid, n + 1, false, unit[size..], None);
      ContinuousOne(packets, p);
      ContinuousChop(packets + [p], pid, false, unit[size..], None);
      assert (packets + [p]) + rest == packets + ([p] + rest);
    }
  }

  lemma {:induction false} ContinuousPadding(packets: seq<Raw>, pid: Pid)
    requires Continuous(packets)
    ensures var all := packets + PadTo16(pid, Count(packets, pid));
            Continuous(all) && Count(all, pid) % 16 == 0
    decreases ToGo(Count(packets, pid))
  {
    hide Continuous, Count;
    var n := Count(packets, pid);
    if ToGo(n) == 0 {
      assert packets + [] == packets;
    } else {
      var p, rest := Raw(pid, false, n, Some(0), []), PadTo16(pid, n + 1);
      ContinuousOne(packets, p);
      ContinuousPadding(packets + [p], pid);
      assert (packets + [p]) + rest == packets + ([p] + rest);
    }
  }

  lemma {:induction false} RunIsContinuous(events: seq<Event>)
    ensures Continuous(Packets(events))
  {
    hide Continuous, Count;
    if events == [] {
      assert Continuous([]) by { ContinuousNone(); }
    } else {
      var e, init := events[|events| - 1], events[..|events| - 1];
      RunIsContinuous(init);
      match e {
        case Unit(pid, bytes, pcr) => ContinuousChop(Packets(init), pid, true, bytes, pcr);
        case Padding(pid) => ContinuousPadding(Packets(init), pid);
      }
    }
  }

  lemma ContinuousNone()
    ensures Continuous([])
  {
  }

  // ----- reassembly -----

  /** A payload unit, with the clock of the packet it starts in. */
  datatype Delivery = Delivery(clock: Option<(nat, nat)>, bytes: seq<Byte>)

  /** The payload units of one stream, as a depacketizer collects them. */
  function Units(packets: seq<Packet>, pid: nat): seq<Delivery> {
    if packets == [] then []
    else
      var p := packets[|packets| - 1];
      Collect(Units(packets[..|packets| - 1], pid), p, pid)
  }

  function Collect(units: seq<Delivery>, p: Packet, pid: nat): seq<Delivery> {
    if p.pid != pid then units
    else if p.start then units + [Delivery(p.pcr, p.payload)]
    else if units == [] then []
    else units[..|units| - 1] + [Longer(units[|units| - 1], p.payload)]
  }

  function Longer(d: Delivery, payload: seq<Byte>): Delivery {
    Delivery(d.clock, d.bytes + payload)
  }

  /** The units given to one stream. */
  function Given(events: seq<Event>, pid: nat): seq<Delivery> {
    if events == [] then []
    else
      var e := events[|events| - 1];
      Given(events[..|events| - 1], pid) + if e.Unit? && e.pid == pid then [Delivery(SeenClock(e.pcr), e.bytes)] else []
  }

  predicate AllFilled(events: seq<Event>) {
    forall i :: 0 <= i < |events| ==> events[i].Unit? ==> events[i].bytes != []
  }

  lemma SeenIsSame(p: Raw)
    ensures Seen(p).start == p.start && Seen(p).payload == p.payload
  {
  }

  lemma SeenFirst(packets: seq<Packet>, p: Raw, rest: seq<Raw>)
    ensures packets + AllSeen([p] + rest) == (packets + [Seen(p)]) + AllSeen(rest)
  {
    SeenAppend([p], rest);
    assert AllSeen([p]) == [Seen(p)];
  }

  lemma SeenAppend(a: seq<Raw>, b: seq<Raw>)
    ensures AllSeen(a + b) == AllSeen(a) + AllSeen(b)
  {
  }

  lemma UnitsOne(packets: seq<Packet>, p: Packet, pid: nat)
    ensures Units(packets + [p], pid) == Collect(Units(packets, pid), p, pid)
  {
    var next := packets + [p];
    assert next[..|next| - 1] == packets;
  }

  lemma LongerByNothing(units: seq<Delivery>)
    requires units != []
    ensures units[..|units| - 1] + [Longer(units[|units| - 1], [])] == units
  {
    AppendNothing(units[|units| - 1].bytes);
  }

  /** Continuation packets extend the last unit of their stream and nothing else. */
  lemma {:induction false} ChopContinues(packets: seq<Packet>, own: Pid, counter: nat, unit: seq<Byte>, pid: nat)
    requires own == pid ==> Units(packets, pid) != []
    ensures var units := Units(packets, pid);
            Units(packets + AllSeen(Chop(own, counter, false, unit, None)), pid) ==
            if own == pid then units[..|units| - 1] + [Longer(units[|units| - 1], unit)] else units
    decreases |unit|
  {
    hide Units;
    var units := Units(packets, pid);
    if unit == [] {
      assert packets + AllSeen([]) == packets;
      if own == pid {
        LongerByNothing(units);
      }
    } else {
      var size := Min(|unit|, PAYLOAD_SIZE);
      var p, rest := Raw(own, false, counter, None, unit[..size]), Chop(own, counter + 1, false, unit[size..], None);
      UnitsOne(packets, Seen(p), pid);
      ChopContinues(packets + [Seen(p)], own, counter + 1, unit[size..], pid);
      SeenFirst(packets, p, rest);
      if own == pid {
        var last := units[|units| - 1];
        assert unit[..size] + unit[size..] == unit;
        AppendTwice(last.bytes, unit[..size], unit[size..]);
      }
    }
  }

  lemma ChopIsOneUnit(packets: seq<Packet>, own: Pid, counter: nat, unit: seq<Byte>, pcr: Option<nat>, pid: nat)
    requires unit != []
    ensures Units(packets + AllSeen(Chop(own, counter, true, unit, pcr)), pid) ==
            Units(packets, pid) + if own == pid then [Delivery(SeenClock(pcr), unit)] else []
  {
    hide Units;
    var size := Min(|unit|, PAYLOAD_SIZE - PcrRoom(pcr));
    var p, rest := Raw(own, true, counter, pcr, unit[..size]), Chop(own, counter + 1, false, unit[size..], None);
    UnitsOne(packets, Seen(p), pid);
    ChopContinues(packets + [Seen(p)], own, counter + 1, unit[size..], pid);
    SeenFirst(packets, p, rest);
    assert unit[..size] + unit[size..] == unit;
  }

  lemma CollectNothing(units: seq<Delivery>, p: Packet, pid: nat)
    requires !p.start && p.payload == []
    ensures Collect(units, p, pid) == units
  {
    if units != [] {
      LongerByNothing(units);
    }
  }

  lemma SeenNothing(packets: seq<Packet>)
    ensures packets + AllSeen([]) == packets
  {
  }

  lemma {:induction false} PaddingIsNoUnit(packets: seq<Packet>, own: Pid, counter: nat, pid: nat)
    ensures Units(packets + AllSeen(PadTo16(own, counter)), pid) == Units(packets, pid)
    decreases ToGo(counter)
  {
    hide Units, Collect, Seen, AllSeen;
    if counter % 16 == 0 {
      assert packets + AllSeen([]) == packets by { SeenNothing(packets); }
    } else {
      var p, rest := Raw(own, false, counter, Some(0), []), PadTo16(own, counter + 1);
      UnitsOne(packets, Seen(p), pid);
      assert !Seen(p).start && Seen(p).payload == [] by { SeenIsSame(p); }
      CollectNothing(Units(packets, pid), Seen(p), pid);
      PaddingIsNoUnit(packets + [Seen(p)], own, counter + 1, pid);
      SeenFirst(packets, p, rest);
    }
  }

  /** Every stream gives back exactly the units it was given, however the streams are interleaved. */
  lemma {:induction false} RunIsReassembled(events: seq<Event>, pid: nat)
    requires AllFilled(events)
    ensures Units(AllSeen(Packets(events)), pid) == Given(events, pid)
  {
    hide Units;
    if events == [] {
      assert AllSeen([]) == [] && Units([], pid) == [] by { NoUnits(pid); }
    } else {
      var e, init := events[|events| - 1], events[..|events| - 1];
      RunIsReassembled(init, pid);
      var before := Packets(init);
      var n := Count(before, e.pid);
      SeenAppend(before, Emit(e, n));
      match e {
        case Unit(own, bytes, pcr) => ChopIsOneUnit(AllSeen(before), own, n, bytes, pcr, pid);
        case Padding(own) => PaddingIsNoUnit(AllSeen(before), own, n, pid);
      }
    }
  }

  lemma NoUnits(pid: nat)
    ensures Units([], pid) == []
  {
  }

  // ----- what a strict receiver accepts -----

  /** Whenever padding was asked for, the counter was already a multiple of 16. */
  predicate Quiet(events: seq<Event>) {
    events == []
    || (var e, init := events[|events| - 1], events[..|events| - 1];
        Quiet(init) && (e.Padding? ==> Count(Packets(init), e.pid) % 16 == 0))
  }

  lemma {:induction false} ChopCarries(pid: Pid, counter: nat, start: bool, unit: seq<Byte>, pcr: Option<nat>)
    ensures AllCarry(Chop(pid, counter, start, unit, pcr))
    decreases |unit|
  {
    if unit != [] {
      ChopCarries(pid, counter + 1, false, unit[Min(|unit|, PAYLOAD_SIZE - PcrRoom(pcr))..], None);
    }
  }

  lemma CarryAppend(a: seq<Raw>, b: seq<Raw>)
    ensures AllCarry(a + b) <==> AllCarry(a) && AllCarry(b)
  {
    assert forall i :: 0 <= i < |b| ==> b[i] == (a + b)[|a| + i];
    assert forall i :: 0 <= i < |a| ==> a[i] == (a + b)[i];
  }

  lemma {:induction false} QuietCarries(events: seq<Event>)
    ensures AllCarry(Packets(events)) <==> Quiet(events)
  {
    hide Count;
    if events != [] {
      var e, init := events[|events| - 1], events[..|events| - 1];
      var n := Count(Packets(init), e.pid);
      QuietCarries(init);
      CarryAppend(Packets(init), Emit(e, n));
      match e {
        case Unit(pid, bytes, pcr) => ChopCarries(pid, n, true, bytes, pcr);
        case Padding(pid) =>
          assert n % 16 != 0 ==> PadTo16(pid, n)[0].payload == [];
      }
    }
  }

  /** A strict receiver accepts a run if and only if no padding packet was written in it. */
  lemma AcceptedIfQuiet(events: seq<Event>)
    ensures Depacketize(StreamBytes(Packets(events))) == if Quiet(events) then Some(AllSeen(Packets(events))) else None
  {
    hide Packets, StreamBytes, Depacketize, AllCarry, Quiet;
    StreamParsed(Packets(events));
    QuietCarries(events);
  }

  /** One packet with its clock and then padding: the padding packets announce a payload and have none. */
  lemma PaddingRefused(bytes: seq<Byte>, clock: nat)
    requires 1 <= |bytes| <= PAYLOAD_SIZE - PcrRoom(Some(clock))
    ensures Depacketize(StreamBytes(Packets([Unit(0x101, bytes, Some(clock)), Padding(0x101)]))) == None
  {
    hide Packets, StreamBytes, Depacketize, Count;
    var first, both := [Unit(0x101, bytes, Some(clock))], [Unit(0x101, bytes, Some(clock)), Padding(0x101)];
    AcceptedIfQuiet(both);
    assert both[..1] == first;
    OnePacket(0x101, bytes, Some(clock));
  }

  /** A short unit is one packet. */
  lemma OnePacket(pid: Pid, bytes: seq<Byte>, pcr: Option<nat>)
    requires 1 <= |bytes| <= PAYLOAD_SIZE - PcrRoom(pcr)
    ensures Count(Packets([Unit(pid, bytes, pcr)]), pid) == 1
  {
    hide StreamBytes, Count;
    var none, unit := [], Unit(pid, bytes, pcr);
    assert none + [unit] == [unit];
    NonePacketized(pid);
    Appended(none, unit);
    assert bytes[|bytes|..] == [];
    assert |Chop(pid, 0, true, bytes, pcr)| == 1;
  }

  lemma NonePacketized(pid: Pid)
    ensures Packets([]) == [] && Count([], pid) == 0
  {
  }

  /** Only the packet a unit starts in has a clock. */
  predicate ClockAtStart(packets: seq<Packet>) {
    forall i :: 0 <= i < |packets| && !packets[i].start ==> packets[i].pcr == None
  }

  lemma {:induction false} ChopClock(pid: Pid, counter: nat, start: bool, unit: seq<Byte>, pcr: Option<nat>)
    requires start || pcr.None?
    ensures ClockAtStart(AllSeen(Chop(pid, counter, start, unit, pcr)))
    decreases |unit|
  {
    if unit != [] {
      var size := Min(|unit|, PAYLOAD_SIZE - PcrRoom(pcr));
      var p, rest := Raw(pid, start, counter, pcr, unit[..size]), Chop(pid, counter + 1, false, unit[size..], None);
      ChopClock(pid, counter + 1, false, unit[size..], None);
      assert AllSeen([p] + rest) == [Seen(p)] + AllSeen(rest);
    }
  }

  lemma {:induction false} QuietClock(events: seq<Event>)
    requires Quiet(events)
    ensures ClockAtStart(AllSeen(Packets(events)))
  {
    hide Count;
    if events != [] {
      var e, init := events[|events| - 1], events[..|events| - 1];
      var n := Count(Packets(init), e.pid);
      QuietClock(init);
      SeenAppend(Packets(init), Emit(e, n));
      match e {
        case Unit(pid, bytes, pcr) => ChopClock(pid, n, true, bytes, pcr);
        case Padding(pid) =>
      }
    }
  }

  /** A run without padding packets: whole packets, counters in step, and every unit recovered with its clock. */
  lemma Conservation(events: seq<Event>)
    requires AllFilled(events)
    ensures Depacketize(StreamBytes(Packets(events))).Some? <==> Quiet(events)
    ensures Quiet(events) ==>
      var packets := Depacketize(StreamBytes(Packets(events))).value;
      InStep(packets) && ClockAtStart(packets) && forall pid: nat :: Units(packets, pid) == Given(events, pid)
  {
    hide Units, Given, Continuous, InStep, AllSeen, StreamBytes, Packets, Depacketize, AllFilled, AllCarry, Quiet,
         ClockAtStart;
    AcceptedIfQuiet(events);
    if Quiet(events) {
      QuietCarries(events);
      QuietClock(events);
      RunIsContinuous(events);
      ContinuousIsInStep(Packets(events));
      forall pid: nat
        ensures Units(AllSeen(Packets(events)), pid) == Given(events, pid)
      {
        RunIsReassembled(events, pid);
      }
    }
  }

  // ----- byte by byte -----

  /** The six bytes of a clock: a base of 33 bits, six ones, and an extension of nine bits. */
  lemma PcrBytes(pcr: nat)
    ensures Pack(FieldBits(PcrFields(pcr))) == WriteBE(pcr / 300 % 0x2_0000_0000 * 32768 + 63 * 512 + pcr % 300, 6)
  {
    hide FieldBits, Pack, Low, Shr, WriteBE;
    var f := PcrFields(pcr);
    TotalUnrolled(PCR_WIDTHS);
    assert Widths(f) == PCR_WIDTHS;
    GroupNumber(f, 6);
    PcrJoint(pcr);
  }

  lemma PcrJoint(pcr: nat)
    ensures var f := PcrFields(pcr);
            |f| == 4 && Joint(f, 4) == pcr / 300 % 0x2_0000_0000 * 32768 + 63 * 512 + pcr % 300
  {
    hide Low, Shr, Pow2, Joint;
    var f, base := PcrFields(pcr), pcr / 300;
    PcrPowers();
    ShrDivides(base, 32);
    ShrDivides(Shr(base, 32), 32);
    ShrDivides(base, 32);
    JointOne(f, 0, 2);
    JointOne(f, 1, 0x1_0000_0000);
    JointOne(f, 2, 64);
    JointOne(f, 3, 512);
    BaseSplit(base);
  }

  lemma BaseSplit(base: nat)
    ensures base / 0x1_0000_0000 % 0x1_0000_0000 % 2 * 0x1_0000_0000 + base % 0x1_0000_0000 % 0x1_0000_0000 ==
            base % 0x2_0000_0000
  {
    var q, r := base / 0x1_0000_0000, base % 0x1_0000_0000;
    DivideUnique(base, 0x2_0000_0000, q / 2, q % 2 * 0x1_0000_0000 + r);
    var k, m := q / 0x1_0000_0000, q % 0x1_0000_0000;
    DivideUnique(q, 2, k * 0x8000_0000 + m / 2, m % 2);
    DivideUnique(r, 0x1_0000_0000, 0, r);
  }

  lemma PcrPowers()
    ensures Pow2(1) == 2 && Pow2(6) == 64 && Pow2(9) == 512
    ensures Pow2(32) == 0x1_0000_0000 && Pow2(33) == 0x2_0000_0000
  {
    assert Pow2(9) == 512 by { assert Pow2(5) == 32; }
    assert Pow2(17) == 0x2_0000 by { assert Pow2(13) == 0x2000; }
    assert Pow2(25) == 0x200_0000 by { assert Pow2(21) == 0x20_0000; }
    assert Pow2(33) == 0x2_0000_0000 by { assert Pow2(29) == 0x2000_0000; }
  }

  /** Every byte of a packet. */
  lemma PacketBytes(p: Raw)
    requires Fits(p)
    ensures var b, n := RawBytes(p), |p.payload|;
            && |b| == 188 && b[0] == 0x47 && b[1] == (if p.start then 64 else 0) + p.pid / 256 && b[2] == p.pid % 256
            && b[3] == (if n == 184 then 16 else 48) + p.counter % 16
            && (n < 184 ==> b[4] == 183 - n) && (n < 183 ==> b[5] == if p.pcr.Some? then 16 else 0)
            && (p.pcr.Some? ==> b[6..12] == Pack(FieldBits(PcrFields(p.pcr.value))))
            && (forall i :: (if p.pcr.Some? then 12 else 6) <= i < 188 - n ==> b[i] == 255)
            && b[188 - n..] == p.payload
  {
    hide FieldBits, Pack, PcrFields;
    if p.pcr.Some? {
      PcrParsed(p.pcr.value);
    }
  }

  /** What padding is made of: packets without payload, with a clock of zero, as many as the counter lacks. */
  lemma {:induction false} PaddingIs(pid: Pid, counter: nat)
    ensures var p := PadTo16(pid, counter);
            && |p| == (16 - counter % 16) % 16
            && forall i :: 0 <= i < |p| ==> p[i] == Raw(pid, false, counter + i, Some(0), [])
    decreases ToGo(counter)
  {
    if counter % 16 != 0 {
      PaddingIs(pid, counter + 1);
    }
  }
}
