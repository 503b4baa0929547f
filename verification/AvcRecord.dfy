/**
  The AVC decoder configuration record (ISO/IEC 14496-15): parsing and serializing, and exactly which
  records survive both.
 */
module AvcRecord {
  import opened Bytes
  import opened BitFields
  import opened BitWriters
  import opened BitReaders

  const MIN_SIZE: nat := 7
  const BUFFER_SIZE: nat := 512

  /** A record; the last three fields are the optional tail of the high profiles. */
  datatype Record = Record(version: Byte, profile: Byte, compatibility: Byte, level: Byte, lengthMinusOne: nat,
                           sps: seq<seq<Byte>>, pps: seq<seq<Byte>>,
                           chromaFormat: nat, bitDepth: nat, spsExt: seq<seq<Byte>>)

  predicate HighProfile(profile: Byte) {
    profile == 100 || profile == 110 || profile == 122 || profile == 144
  }

  /** Parameter sets, each behind its 16-bit length. */
  function Sets(sets: seq<seq<Byte>>): seq<Byte> {
    if sets == [] then [] else WriteBE(|sets[0]|, 2) + sets[0] + Sets(sets[1..])
  }

  function Head(r: Record): (b: seq<Byte>)
    ensures |b| == 6
  {
    [r.version, r.profile, r.compatibility, r.level, 0xFC + r.lengthMinusOne % 4, 0xE0 + |r.sps| % 32]
  }

  /** What is serialized when the buffer is large enough. */
  function Image(r: Record): seq<Byte> {
    Head(r) + Sets(r.sps) + ([|r.pps| % 256] + Sets(r.pps))
  }

  // ----- parsing -----

  datatype Parsed = Parsed(sets: seq<seq<Byte>>, next: nat)

  /** `n` parameter sets at `at`; a missing length reads as zero, and zero is refused. */
  function ReadSets(d: seq<Byte>, at: nat, n: nat): (r: Option<Parsed>)
    ensures r.Some? ==> at <= r.value.next && |r.value.sets| == n && (n > 0 ==> r.value.next <= |d|)
    decreases n
  {
    if n == 0 then Some(Parsed([], at))
    else if |d| < at + 2 then None
    else
      var length := ReadBE(d[at..at + 2]);
      if length == 0 || |d| < at + 2 + length then None
      else
        match ReadSets(d, at + 2 + length, n - 1)
        case None => None
        case Some(rest) => Some(Parsed([d[at + 2..at + 2 + length]] + rest.sets, rest.next))
  }

  /** The byte at `at`; zero past the end. */
  function ByteAt(d: seq<Byte>, at: nat): Byte {
    if at < |d| then d[at] else 0
  }

  function After(d: seq<Byte>, at: nat): nat {
    if at < |d| then at + 1 else at
  }

  /** Reads a record; a number that is missing at the end reads as zero. */
  function Parse(d: seq<Byte>): Option<Record> {
    if |d| < MIN_SIZE || d[4] / 4 != 0x3F || d[5] / 32 != 7 then None
    else
      match ReadSets(d, 6, d[5] % 32)
      case None => None
      case Some(sps) =>
        match ReadSets(d, After(d, sps.next), ByteAt(d, sps.next))
        case None => None
        case Some(pps) =>
          var r := Record(d[0], d[1], d[2], d[3], d[4] % 4, sps.sets, pps.sets, 0, 0, []);
          if !HighProfile(d[1]) then Some(r) else ParseTail(d, pps.next, r)
  }

  /** The tail of the high profiles: two bytes of bit fields, then more sets. */
  function ParseTail(d: seq<Byte>, at: nat, r: Record): Option<Record> {
    var second := After(d, at);
    var third := After(d, second);
    match ReadSets(d, After(d, third), ByteAt(d, third))
    case None => None
    case Some(ext) =>
      Some(r.(chromaFormat := ByteAt(d, at) % 4, bitDepth := ByteAt(d, second) % 8, spsExt := ext.sets))
  }

  // ----- what survives -----

  predicate SetsFit(sets: seq<seq<Byte>>) {
    forall i :: 0 <= i < |sets| ==> 1 <= |sets[i]| < 0x1_0000
  }

  predicate NoEmptySet(sets: seq<seq<Byte>>) {
    forall i :: 0 <= i < |sets| ==> sets[i] != []
  }

  lemma {:induction false} SetsRead(pre: seq<Byte>, sets: seq<seq<Byte>>, rest: seq<Byte>)
    requires SetsFit(sets)
    ensures ReadSets(pre + (Sets(sets) + rest), |pre|, |sets|) == Some(Parsed(sets, |pre| + |Sets(sets)|))
    decreases sets
  {
    hide WriteBE, ReadBE, Sets;
    if sets != [] {
      var unit, more := sets[0], sets[1..];
      var head := WriteBE(|unit|, 2);
      SetsUnfold(sets);
      LengthRead(|unit|);
      SetsParts(pre, head, unit, Sets(more), rest);
      SetsRead(pre + head + unit, more, rest);
      SetsReadOne(pre + (Sets(sets) + rest), |pre|, |sets|, unit);
      assert [unit] + more == sets;
    } else {
      NoSets();
    }
  }

  lemma SetsReadOne(d: seq<Byte>, at: nat, n: nat, unit: seq<Byte>)
    requires n > 0 && at + 2 + |unit| <= |d| && 1 <= |unit| && ReadBE(d[at..at + 2]) == |unit|
    requires d[at + 2..at + 2 + |unit|] == unit
    ensures ReadSets(d, at, n) ==
            match ReadSets(d, at + 2 + |unit|, n - 1)
            case None => None
            case Some(rest) => Some(Parsed([unit] + rest.sets, rest.next))
  {
    hide ReadBE;
  }

  lemma SetsUnfold(sets: seq<seq<Byte>>)
    requires sets != []
    ensures Sets(sets) == WriteBE(|sets[0]|, 2) + sets[0] + Sets(sets[1..])
  {
  }

  lemma LengthRead(n: nat)
    requires n < 0x1_0000
    ensures |WriteBE(n, 2)| == 2 && ReadBE(WriteBE(n, 2)) == n
  {
    Pow256Values();
    ReadWriteBE(n, 2);
  }

  lemma SetsParts(pre: seq<Byte>, head: seq<Byte>, unit: seq<Byte>, more: seq<Byte>, rest: seq<Byte>)
    ensures var d, at := pre + ((head + unit + more) + rest), |pre| + |head|;
            d[|pre|..at] == head && d[at..at + |unit|] == unit && d == (pre + head + unit) + (more + rest)
  {
  }

  /** What was read fits in the data. */
  lemma {:induction false} SetsReadSize(d: seq<Byte>, at: nat, n: nat)
    requires ReadSets(d, at, n).Some?
    ensures var r := ReadSets(d, at, n).value; r.next == at + |Sets(r.sets)| && NoEmptySet(r.sets)
    decreases n
  {
    if n > 0 {
      hide WriteBE, ReadBE, Sets;
      var length := ReadBE(d[at..at + 2]);
      var unit, rest := d[at + 2..at + 2 + length], ReadSets(d, at + 2 + length, n - 1).value;
      SetsReadSize(d, at + 2 + length, n - 1);
      SetsUnfold([unit] + rest.sets);
      assert ([unit] + rest.sets)[1..] == rest.sets;
      assert |WriteBE(length, 2)| == 2 by { WriteLength(length); }
    } else {
      assert Sets([]) == [] by { NoSets(); }
    }
  }

  lemma WriteLength(n: nat)
    ensures |WriteBE(n, 2)| == 2
  {
  }

  lemma NoSets()
    ensures Sets([]) == []
  {
  }

  /** How much of the image a parser needs: a missing count of PPS reads as zero. */
  function Needed(r: Record): nat {
    6 + |Sets(r.sps)| + if r.pps == [] then 0 else 1 + |Sets(r.pps)|
  }

  /** Length size and SPS count fit their fields, no set is empty, and what is needed fits the buffer. */
  predicate Keeps(r: Record) {
    r.lengthMinusOne < 4 && |r.sps| <= 31 && NoEmptySet(r.sps) && NoEmptySet(r.pps) && Needed(r) <= BUFFER_SIZE
  }

  /** A record as it can be built: counts and the length size are bytes, and there is no tail. */
  predicate Buildable(r: Record) {
    r.lengthMinusOne < 256 && |r.sps| < 256 && |r.pps| < 256 && r.chromaFormat == 0 && r.bitDepth == 0 && r.spsExt == []
  }

  lemma {:induction false} SetsLonger(sets: seq<seq<Byte>>, i: nat)
    requires i < |sets|
    ensures |sets[i]| <= |Sets(sets)|
  {
    if i > 0 {
      SetsLonger(sets[1..], i - 1);
    }
  }

  lemma FitIfShort(sets: seq<seq<Byte>>)
    requires NoEmptySet(sets) && |Sets(sets)| <= BUFFER_SIZE
    ensures SetsFit(sets)
  {
    forall i | 0 <= i < |sets|
      ensures 1 <= |sets[i]| < 0x1_0000
    {
      SetsLonger(sets, i);
    }
  }

  /** Kept records are parsed back from their image, even without its last byte when that is a zero count. */
  lemma ImageParsed(r: Record, d: seq<Byte>)
    requires Buildable(r) && Keeps(r) && |d| >= MIN_SIZE
    requires d == Image(r) || (r.pps == [] && d == Head(r) + Sets(r.sps))
    ensures Parse(d) == Some(r)
  {
    hide Sets, ReadSets, NoEmptySet, Head;
    var head, count := Head(r), [|r.pps| as Byte];
    NoSets();
    FitIfShort(r.sps);
    FitIfShort(r.pps);
    var rest := if d == Image(r) then count + Sets(r.pps) else [];
    SetsRead(head, r.sps, rest);
    AppendTwice(head, Sets(r.sps), rest);
    AppendNothing(Sets(r.sps));
    assert d == head + (Sets(r.sps) + rest);
    HeadParsed(r, d);
    if d == Image(r) {
      PpsParsed(r, d);
    } else {
      NoMoreSets(d, |d|);
    }
    NothingBehind(d);
  }

  lemma NoMoreSets(d: seq<Byte>, at: nat)
    ensures ReadSets(d, at, 0) == Some(Parsed([], at))
  {
  }

  lemma HeadParsed(r: Record, d: seq<Byte>)
    requires r.lengthMinusOne < 4 && |r.sps| < 32 && 6 <= |d| && d[..6] == Head(r)
    ensures d[0] == r.version && d[1] == r.profile && d[2] == r.compatibility && d[3] == r.level
    ensures d[4] / 4 == 0x3F && d[4] % 4 == r.lengthMinusOne && d[5] / 32 == 7 && d[5] % 32 == |r.sps|
  {
    assert forall i :: 0 <= i < 6 ==> d[i] == d[..6][i];
  }

  lemma PpsParsed(r: Record, d: seq<Byte>)
    requires SetsFit(r.pps) && |r.pps| < 256 && d == Image(r)
    ensures var at := 6 + |Sets(r.sps)|;
            at < |d| && d[at] == |r.pps| && ReadSets(d, at + 1, |r.pps|) == Some(Parsed(r.pps, |d|))
  {
    hide Sets, ReadSets, Head;
    var pre, count := Head(r) + Sets(r.sps), [|r.pps| as Byte];
    SetsRead(pre + count, r.pps, []);
    AppendNothing(Sets(r.pps));
    AppendTwice(pre, count, Sets(r.pps));
  }

  /** Past the end there is no tail. */
  lemma NothingBehind(d: seq<Byte>)
    ensures forall r: Record :: r.chromaFormat == 0 && r.bitDepth == 0 && r.spsExt == [] ==>
              ParseTail(d, |d|, r) == Some(r)
  {
  }

  /** What is parsed was there: few enough sets, none of them empty, and no longer than the data. */
  lemma ParsedKeeps(d: seq<Byte>)
    requires Parse(d).Some?
    ensures var r := Parse(d).value;
            r.lengthMinusOne < 4 && |r.sps| <= 31 && NoEmptySet(r.sps) && NoEmptySet(r.pps) && Needed(r) <= |d|
  {
    hide Sets, ReadSets, NoEmptySet;
    NoSets();
    var sps := ReadSets(d, 6, d[5] % 32).value;
    SetsReadSize(d, 6, d[5] % 32);
    SetsReadSize(d, After(d, sps.next), ByteAt(d, sps.next));
  }

  // ----- serializing -----

  /** Single bytes, as far as there is room. */
  function Filled(done: seq<Byte>, s: seq<Byte>): (r: seq<Byte>)
    requires |done| <= BUFFER_SIZE
    ensures |done| <= |r| <= BUFFER_SIZE
  {
    done + s[..Min(|s|, BUFFER_SIZE - |done|)]
  }

  /** A length of two bytes, whole or not at all. */
  function WithLength(done: seq<Byte>, n: nat): (r: seq<Byte>)
    requires |done| <= BUFFER_SIZE
    ensures |done| <= |r| <= BUFFER_SIZE
  {
    WriteLength(n);
    if |done| + 2 > BUFFER_SIZE then done else done + WriteBE(n, 2)
  }

  function WithSets(done: seq<Byte>, sets: seq<seq<Byte>>): (r: seq<Byte>)
    requires |done| <= BUFFER_SIZE
    ensures |done| <= |r| <= BUFFER_SIZE
    decreases |sets|
  {
    if sets == [] then done else WithSets(Filled(WithLength(done, |sets[0]|), sets[0]), sets[1..])
  }

  /** What reaches the buffer, whatever the size of the record. */
  function Serialized(r: Record): (s: seq<Byte>)
    ensures |s| <= BUFFER_SIZE
  {
    WithSets(Filled(WithSets(Head(r), r.sps), [|r.pps| % 256]), r.pps)
  }

  lemma {:induction false} SetsFitIn(done: seq<Byte>, sets: seq<seq<Byte>>)
    requires |done| + |Sets(sets)| <= BUFFER_SIZE
    ensures WithSets(done, sets) == done + Sets(sets)
    decreases |sets|
  {
    hide WriteBE;
    if sets != [] {
      var unit, head := sets[0], WriteBE(|sets[0]|, 2);
      WriteLength(|unit|);
      assert unit[..|unit|] == unit;
      SetsFitIn(done + head + unit, sets[1..]);
      assert done + head + unit + Sets(sets[1..]) == done + (head + unit + Sets(sets[1..]));
    } else {
      AppendNothing(done);
    }
  }

  /** The same, or the same up to the last byte of a buffer that is full or lacks one byte. */
  predicate Alike(written: seq<Byte>, image: seq<Byte>) {
    written == image
    || (BUFFER_SIZE - 1 <= |written| && BUFFER_SIZE - 1 <= |image|
        && written[..BUFFER_SIZE - 1] == image[..BUFFER_SIZE - 1])
  }

  lemma AlikeFilled(written: seq<Byte>, image: seq<Byte>, s: seq<Byte>)
    requires Alike(written, image) && |written| <= BUFFER_SIZE
    ensures Alike(Filled(written, s), image + s)
  {
    if |written| + |s| <= BUFFER_SIZE {
      assert s[..|s|] == s;
    }
  }

  lemma AlikeLength(written: seq<Byte>, image: seq<Byte>, n: nat)
    requires Alike(written, image) && |written| <= BUFFER_SIZE
    ensures Alike(WithLength(written, n), image + WriteBE(n, 2))
  {
    hide WriteBE;
    WriteLength(n);
  }

  lemma {:induction false} AlikeSets(written: seq<Byte>, image: seq<Byte>, sets: seq<seq<Byte>>)
    requires Alike(written, image) && |written| <= BUFFER_SIZE
    ensures Alike(WithSets(written, sets), image + Sets(sets))
    decreases |sets|
  {
    hide WriteBE, Alike, Filled, WithLength;
    if sets != [] {
      var unit, head := sets[0], WriteBE(|sets[0]|, 2);
      AlikeLength(written, image, |unit|);
      RoomKept(written, |unit|, unit);
      AlikeFilled(WithLength(written, |unit|), image + head, unit);
      AlikeSets(Filled(WithLength(written, |unit|), unit), image + head + unit, sets[1..]);
      assert image + head + unit + Sets(sets[1..]) == image + (head + unit + Sets(sets[1..]));
    } else {
      AppendNothing(image);
    }
  }

  lemma RoomKept(done: seq<Byte>, n: nat, unit: seq<Byte>)
    requires |done| <= BUFFER_SIZE
    ensures |WithLength(done, n)| <= BUFFER_SIZE && |Filled(WithLength(done, n), unit)| <= BUFFER_SIZE
  {
  }

  /**
    A record that fits is written whole, and of any record the first 511 bytes are those of its image. The last
    byte is not when a length would begin there: it is left out, and the first byte behind it takes its place.
   */
  lemma SerializedIsImage(r: Record)
    ensures |Image(r)| <= BUFFER_SIZE ==> Serialized(r) == Image(r)
    ensures Alike(Serialized(r), Image(r))
    ensures r.pps == [] && |Image(r)| == BUFFER_SIZE + 1 ==> Serialized(r) == Head(r) + Sets(r.sps)
  {
    hide Sets, Head, Alike, WithSets;
    var head, count := Head(r), [(|r.pps| % 256) as Byte];
    var done := head + Sets(r.sps);
    AlikeStart(head);
    AlikeSets(head, head, r.sps);
    AlikeFilled(WithSets(head, r.sps), done, count);
    AlikeSets(Filled(WithSets(head, r.sps), count), done + count, r.pps);
    AppendTwice(done, count, Sets(r.pps));
    if |done| <= BUFFER_SIZE {
      SetsFitIn(head, r.sps);
      if |Image(r)| <= BUFFER_SIZE {
        SetsFitIn(done + count, r.pps);
      } else if r.pps == [] {
        NoSets();
        SetsFitIn(done, []);
        AppendNothing(done);
      }
    }
  }

  lemma AlikeStart(s: seq<Byte>)
    ensures Alike(s, s)
  {
  }

  /** Writing bytes one at a time; `done` is what was written before. */
  method WriteBytes(writer: BitWriter, s: seq<Byte>, ghost done: seq<Byte>)
    requires writer.Valid() && |done| <= writer.data.Length == BUFFER_SIZE && writer.Written() == BytesBits(done)
    modifies writer`bitCount, writer.data
    ensures writer.Valid() && writer.Written() == BytesBits(Filled(done, s))
  {
    hide BytesBits, Bits, BitWriter.Written;
    AppendNothing(done);
    for i := 0 to |s|
      invariant writer.Valid() && writer.Written() == BytesBits(Filled(done, s[..i]))
    {
      ghost var before := Filled(done, s[..i]);
      ByteWritten(before, s[i]);
      BytesBitsLength(before);
      FilledOn(done, s, i);
      AppendNothing(BytesBits(before));
      writer.Write(8, s[i]);
    }
    assert s[..|s|] == s;
  }

  lemma FilledOn(done: seq<Byte>, s: seq<Byte>, i: nat)
    requires |done| <= BUFFER_SIZE && i < |s|
    ensures var before := Filled(done, s[..i]);
            Filled(done, s[..i + 1]) == if |before| < BUFFER_SIZE then before + [s[i]] else before
  {
  }

  lemma ByteWritten(done: seq<Byte>, b: Byte)
    ensures BytesBits(done + [b]) == BytesBits(done) + Bits(b, 8)
  {
    BytesBitsAppend(done, [b]);
    BytesBitsOne(b);
  }

  method WriteSets(writer: BitWriter, sets: seq<seq<Byte>>, ghost done: seq<Byte>)
    requires writer.Valid() && |done| <= writer.data.Length == BUFFER_SIZE && writer.Written() == BytesBits(done)
    requires forall i :: 0 <= i < |sets| ==> |sets[i]| < 0x1_0000_0000
    modifies writer`bitCount, writer.data
    ensures writer.Valid() && writer.Written() == BytesBits(WithSets(done, sets))
  {
    hide BytesBits, Bits, BitWriter.Written, WriteBE, Filled, WithLength;
    ghost var was, goal := done, WithSets(done, sets);
    assert sets[0..] == sets;
    for i := 0 to |sets|
      invariant writer.Valid() && |was| <= BUFFER_SIZE && writer.Written() == BytesBits(was)
      invariant WithSets(was, sets[i..]) == goal
    {
      var unit := sets[i];
      assert sets[i..][1..] == sets[i + 1..];
      WriteLengthField(writer, |unit|, was);
      RoomKept(was, |unit|, unit);
      WriteBytes(writer, unit, WithLength(was, |unit|));
      was := Filled(WithLength(was, |unit|), unit);
    }
  }

  method WriteLengthField(writer: BitWriter, n: Uint32, ghost done: seq<Byte>)
    requires writer.Valid() && |done| <= writer.data.Length == BUFFER_SIZE && writer.Written() == BytesBits(done)
    modifies writer`bitCount, writer.data
    ensures writer.Valid() && writer.Written() == BytesBits(WithLength(done, n))
  {
    hide BytesBits, Bits, BitWriter.Written, WriteBE;
    LengthWritten(done, n);
    BytesBitsLength(done);
    AppendNothing(BytesBits(done));
    writer.Write(16, n);
  }

  lemma LengthWritten(done: seq<Byte>, n: nat)
    ensures |WriteBE(n, 2)| == 2 && BytesBits(done + WriteBE(n, 2)) == BytesBits(done) + Bits(n, 16)
  {
    hide Bits, BytesBits;
    BytesBitsAppend(done, WriteBE(n, 2));
    WriteLength(n);
    WholeBytes(n, 2);
  }

  function HeadFields(r: Record): seq<Field> {
    [Field(8, r.version), Field(8, r.profile), Field(8, r.compatibility), Field(8, r.level)]
    + [Field(6, 0x3F), Field(2, r.lengthMinusOne), Field(3, 7), Field(5, |r.sps|)]
  }

  /** Two fields of one byte. */
  lemma ByteOfTwo(high: nat, n: nat, low: nat, m: nat, b: Byte)
    requires n + m == 8 && b == Shl(high, m) + low % Pow2(m)
    ensures Bits(high, n) + Bits(low, m) == Bits(b, 8)
  {
    ShrDivides(low, m);
    BitsJoin(high, n, Low(low, m), m);
    LowKeepsBits(low, m, m);
  }

  lemma HeadGroup(r: Record)
    requires Buildable(r)
    ensures Writable(HeadFields(r)) && Total(Widths(HeadFields(r))) == 48 && Group(HeadFields(r)) == Head(r)
  {
    hide Bits, BytesBits, Pack, FieldBits;
    var f := HeadFields(r);
    FourFields(f[0], f[1], f[2], f[3]);
    FourFields(f[4], f[5], f[6], f[7]);
    FieldBitsAppend([f[0], f[1], f[2], f[3]], [f[4], f[5], f[6], f[7]]);
    HeadBits(r);
    PackUnpack(Head(r));
    FieldBitsLength(f);
  }

  lemma HeadBits(r: Record)
    requires Buildable(r)
    ensures BytesBits(Head(r)) == Bits(r.version, 8) + Bits(r.profile, 8) + Bits(r.compatibility, 8) + Bits(r.level, 8)
                                  + (Bits(0x3F, 6) + Bits(r.lengthMinusOne, 2) + Bits(7, 3) + Bits(|r.sps|, 5))
  {
    hide Bits, BytesBits;
    var h := Head(r);
    Powers();
    ByteOfTwo(0x3F, 6, r.lengthMinusOne, 2, h[4]) by { assert Shl(0x3F, 2) == 2 * Shl(0x3F, 1) == 0xFC; }
    ByteOfTwo(7, 3, |r.sps|, 5, h[5]) by { assert Shl(7, 5) == 8 * Shl(7, 2) == 0xE0; }
    SixBytes(h);
  }

  lemma SixBytes(h: seq<Byte>)
    requires |h| == 6
    ensures BytesBits(h) == Bits(h[0], 8) + Bits(h[1], 8) + Bits(h[2], 8) + Bits(h[3], 8)
                            + (Bits(h[4], 8) + Bits(h[5], 8))
  {
    hide Bits, BytesBits;
    ByteWritten(h[..5], h[5]);
    ByteWritten(h[..4], h[4]);
    ByteWritten(h[..3], h[3]);
    ByteWritten(h[..2], h[2]);
    ByteWritten(h[..1], h[1]);
    BytesBitsOne(h[0]);
    assert h[..5] + [h[5]] == h && h[..4] + [h[4]] == h[..5] && h[..3] + [h[3]] == h[..4];
    assert h[..2] + [h[2]] == h[..3] && h[..1] + [h[1]] == h[..2] && h[..1] == [h[0]];
  }

  /** `AVCDecoderConfigurationRecord::Serialize`: what does not fit the buffer is dropped. */
  method Serialize(r: Record) returns (s: seq<Byte>)
    requires Buildable(r)
    requires forall i :: 0 <= i < |r.sps| ==> |r.sps[i]| < 0x1_0000_0000
    requires forall i :: 0 <= i < |r.pps| ==> |r.pps[i]| < 0x1_0000_0000
    ensures s == Serialized(r)
  {
    hide BytesBits, Bits, BitWriter.Written, Sets, Head, Pack, WithSets, Filled;
    var writer := new BitWriter(BUFFER_SIZE);
    NoBytes();
    HeadGroup(r);
    writer.WriteGroup(HeadFields(r), []);
    ghost var head := Head(r);
    AppendNothing(head);
    assert [] + head == head;
    WriteSets(writer, r.sps, head);
    ghost var done, count := WithSets(head, r.sps), [(|r.pps| % 256) as Byte];
    Stays(head, r.sps, count);
    WriteBytes(writer, [|r.pps|], done);
    WriteSets(writer, r.pps, Filled(done, count));
    PackUnpack(Serialized(r));
    s := writer.GetData();
  }

  lemma Stays(done: seq<Byte>, sets: seq<seq<Byte>>, more: seq<Byte>)
    requires |done| <= BUFFER_SIZE
    ensures |WithSets(done, sets)| <= BUFFER_SIZE && |Filled(WithSets(done, sets), more)| <= BUFFER_SIZE
  {
  }

  // ----- the parser -----

  lemma ByteOf(s: seq<Byte>, at: nat)
    requires at < |s|
    ensures ReadBE(s[at..at + 1]) == s[at]
  {
    assert s[at..at + 1][..0] == [];
  }

  /** One byte in two fields; nothing is read at the end of the data. */
  method ReadPair(reader: BitReader, n: nat, m: nat) returns (high: nat, low: nat)
    requires reader.Valid() && reader.bitOffset == 0 && n + m == 8 && n >= 1 && m >= 1
    modifies reader`position, reader`bitOffset
    ensures reader.Valid() && reader.bitOffset == 0 && reader.position == After(reader.buffer, old(reader.position))
    ensures var b := ByteAt(reader.buffer, old(reader.position)); high == Shr(b, m) && low == Low(b, m)
  {
    hide Bits, BytesBits, Number, Shr, Low;
    PairHere(reader.buffer, reader.position, n, m);
    var ok;
    ok, high := reader.ReadBits(n, 8);
    ok, low := reader.ReadBits(m, 8);
  }

  /** The two numbers of the byte at `at`; zeros at the end. */
  lemma PairHere(s: seq<Byte>, at: nat, n: nat, m: nat)
    requires at <= |s| && n + m == 8
    ensures at < |s| ==>
      var rest := BytesBits(s)[8 * at..];
      Number(rest[..n]) == Shr(ByteAt(s, at), m) && Number(rest[n..][..m]) == Low(ByteAt(s, at), m)
    ensures at == |s| ==> Shr(ByteAt(s, at), m) == 0 && Low(ByteAt(s, at), m) == 0
  {
    hide Bits, BytesBits, Number, Shr, Low;
    if at < |s| {
      PairInByte(s, at, n, m);
    }
    ZeroParts(m);
  }

  lemma ZeroParts(m: nat)
    ensures Shr(0, m) == 0 && Low(0, m) == 0
  {
  }

  lemma PairInByte(s: seq<Byte>, at: nat, n: nat, m: nat)
    requires at < |s| && n + m == 8
    ensures var rest := BytesBits(s)[8 * at..];
            Number(rest[..n]) == Shr(s[at], m) && Number(rest[n..][..m]) == Low(s[at], m)
  {
    hide Bits, BytesBits, Number;
    NextByte(s, at, 0, 8);
    var bits := Bits(s[at], 8);
    BitsSplit(s[at], n, m);
    NumberOfBits(Shr(s[at], m), n);
    NumberOfBits(s[at], m);
    ShrBound(s[at], n, m);
    LowOfSmall(Shr(s[at], m), n);
    var rest := BytesBits(s)[8 * at..];
    assert rest[..8] == bits[0..8] == bits;
    assert rest[..n] == bits[..n] && rest[n..][..m] == bits[n..];
  }

  lemma {:induction false} ShrBoundAt(v: nat, n: nat, m: nat)
    requires v < Pow2(n + m)
    ensures Shr(v, m) < Pow2(n)
  {
    if m > 0 {
      ShrBoundAt(v / 2, n, m - 1);
    }
  }

  lemma ShrBound(b: Byte, n: nat, m: nat)
    requires n + m == 8
    ensures Shr(b, m) < Pow2(n)
  {
    Powers();
    ShrBoundAt(b, n, m);
  }

  /** The loop over parameter sets. */
  method ReadSetList(reader: BitReader, n: nat) returns (r: Option<seq<seq<Byte>>>)
    requires reader.Valid() && reader.bitOffset == 0
    modifies reader`position, reader`bitOffset
    ensures reader.Valid()
    ensures var spec := ReadSets(reader.buffer, old(reader.position), n);
            if spec.None? then r.None?
            else r == Some(spec.value.sets) && reader.position == spec.value.next && reader.bitOffset == 0
  {
    var sets := [];
    ghost var d, start := reader.buffer, reader.position;
    NothingJoined(ReadSets(d, start, n));
    hide ReadSets, Joined;
    for i := 0 to n
      invariant reader.Valid() && reader.bitOffset == 0
      invariant ReadSets(d, start, n) == Joined(sets, ReadSets(d, reader.position, n - i))
    {
      ghost var at := reader.position;
      var unit := ReadSet(reader, n - i);
      if unit.None? {
        JoinedNone(sets);
        return None;
      }
      JoinedOne(sets, unit.value, ReadSets(d, reader.position, n - i - 1));
      sets := sets + [unit.value];
    }
    NoMoreSets(d, reader.position);
    JoinedLast(sets, reader.position);
    return Some(sets);
  }

  /** One set behind its length, the first of `n`. */
  method ReadSet(reader: BitReader, ghost n: nat) returns (unit: Option<seq<Byte>>)
    requires reader.Valid() && reader.bitOffset == 0 && n > 0
    modifies reader`position, reader`bitOffset
    ensures reader.Valid() && (unit.Some? ==> reader.bitOffset == 0)
    ensures var spec := ReadSets(reader.buffer, old(reader.position), n);
            match unit
            case None => spec == None
            case Some(s) => spec == Joined([s], ReadSets(reader.buffer, reader.position, n - 1))
  {
    hide ReadSets, ReadBE, Joined;
    SetsReadNext(reader.buffer, reader.position, n);
    var ok, length := reader.ReadBytes(2);
    if length == 0 || |reader.buffer| - reader.position < length {
      return None;
    }
    unit := Some(reader.buffer[reader.position..reader.position + length]);
    ok := reader.SkipBytes(length);
  }

  lemma JoinedNone(first: seq<seq<Byte>>)
    ensures Joined(first, None) == None
  {
  }

  lemma JoinedLast(first: seq<seq<Byte>>, next: nat)
    ensures Joined(first, Some(Parsed([], next))) == Some(Parsed(first, next))
  {
    AppendNothing(first);
  }

  function Joined(first: seq<seq<Byte>>, rest: Option<Parsed>): Option<Parsed> {
    match rest
    case None => None
    case Some(p) => Some(Parsed(first + p.sets, p.next))
  }

  lemma NothingJoined(rest: Option<Parsed>)
    ensures Joined([], rest) == rest
  {
    if rest.Some? {
      assert [] + rest.value.sets == rest.value.sets;
    }
  }

  lemma JoinedOne(first: seq<seq<Byte>>, unit: seq<Byte>, rest: Option<Parsed>)
    ensures Joined(first, Joined([unit], rest)) == Joined(first + [unit], rest)
  {
    if rest.Some? {
      AppendTwice(first, [unit], rest.value.sets);
    }
  }

  /** What the next step of the loop does. */
  lemma SetsReadNext(d: seq<Byte>, at: nat, n: nat)
    requires n > 0
    ensures |d| < at + 2 ==> ReadSets(d, at, n).None?
    ensures |d| >= at + 2 ==>
      var length := ReadBE(d[at..at + 2]);
      if length == 0 || |d| < at + 2 + length then ReadSets(d, at, n).None?
      else ReadSets(d, at, n) == Joined([d[at + 2..at + 2 + length]], ReadSets(d, at + 2 + length, n - 1))
  {
    hide ReadBE;
  }

  /** `AVCDecoderConfigurationRecord::Parse`. */
  method ParseRecord(d: seq<Byte>) returns (r: Option<Record>)
    ensures r == Parse(d)
  {
    hide ReadSets, Shr, Low, BytesBits, ParseTail;
    if |d| < MIN_SIZE {
      return None;
    }
    var reader := new BitReader(d);
    var start := ReadHead(reader);
    match start {
      case None => return None;
      case Some((record, spsCount)) => r := ReadRest(reader, record, spsCount);
    }
  }

  /** The first six bytes: a record without sets, and how many SPS follow. */
  method ReadHead(reader: BitReader) returns (r: Option<(Record, nat)>)
    requires reader.Valid() && reader.bitOffset == 0 && reader.position == 0 && |reader.buffer| >= MIN_SIZE
    modifies reader`position, reader`bitOffset
    ensures reader.Valid()
    ensures var d := reader.buffer;
            if d[4] / 4 != 0x3F || d[5] / 32 != 7 then r.None?
            else r == Some((Record(d[0], d[1], d[2], d[3], d[4] % 4, [], [], 0, 0, []), d[5] % 32 as nat)) &&
                 reader.position == 6 && reader.bitOffset == 0
  {
    hide Shr, Low, BytesBits, Bits, ReadBE;
    var d := reader.buffer;
    ByteOf(d, 0);
    ByteOf(d, 1);
    ByteOf(d, 2);
    ByteOf(d, 3);
    FieldsOfByte(d[4]);
    FieldsOfByte(d[5]);
    var ok, version := reader.ReadBytes(1);
    var profile, compatibility, level;
    ok, profile := reader.ReadBytes(1);
    ok, compatibility := reader.ReadBytes(1);
    ok, level := reader.ReadBytes(1);
    var reserved, lengthMinusOne := ReadPair(reader, 6, 2);
    if reserved != 0x3F {
      return None;
    }
    var reserved2, spsCount := ReadPair(reader, 3, 5);
    if reserved2 != 7 {
      return None;
    }
    return Some((Record(version, profile, compatibility, level, lengthMinusOne, [], [], 0, 0, []), spsCount));
  }

  /** What `Parse` does behind the first six bytes. */
  function ParseRest(d: seq<Byte>, r: Record, spsCount: nat): Option<Record> {
    match ReadSets(d, 6, spsCount)
    case None => None
    case Some(sps) =>
      match ReadSets(d, After(d, sps.next), ByteAt(d, sps.next))
      case None => None
      case Some(pps) =>
        var full := r.(sps := sps.sets, pps := pps.sets);
        if !HighProfile(r.profile) then Some(full) else ParseTail(d, pps.next, full)
  }

  method ReadRest(reader: BitReader, record: Record, spsCount: nat) returns (r: Option<Record>)
    requires reader.Valid() && reader.bitOffset == 0 && reader.position == 6
    modifies reader`position, reader`bitOffset
    ensures r == ParseRest(reader.buffer, record, spsCount)
  {
    hide ReadSets, ParseTail, BytesBits, ReadBE;
    var d := reader.buffer;
    var sps := ReadSetList(reader, spsCount);
    if sps.None? {
      return None;
    }
    if reader.position < |d| {
      ByteOf(d, reader.position);
    }
    var ok, ppsCount := reader.ReadBytes(1);
    var pps := ReadSetList(reader, ppsCount);
    if pps.None? {
      return None;
    }
    var full := record.(sps := sps.value, pps := pps.value);
    if !HighProfile(record.profile) {
      return Some(full);
    }
    r := ReadTail(reader, full);
  }

  method ReadTail(reader: BitReader, record: Record) returns (r: Option<Record>)
    requires reader.Valid() && reader.bitOffset == 0
    modifies reader`position, reader`bitOffset
    ensures r == ParseTail(reader.buffer, old(reader.position), record)
  {
    hide ReadSets, Shr, Low, BytesBits;
    var d := reader.buffer;
    FieldsOfByte(ByteAt(d, reader.position));
    FieldsOfByte(ByteAt(d, After(d, reader.position)));
    var reserved3, chroma := ReadPair(reader, 6, 2);
    var reserved4, depth := ReadPair(reader, 5, 3);
    if reader.position < |d| {
      ByteOf(d, reader.position);
    }
    var ok, count := reader.ReadBytes(1);
    var ext := ReadSetList(reader, count);
    if ext.None? {
      return None;
    }
    return Some(record.(chromaFormat := chroma, bitDepth := depth, spsExt := ext.value));
  }

  lemma FieldsOfByte(b: Byte)
    ensures Shr(b, 2) == b / 4 && Low(b, 2) == b % 4 && Low(b, 3) == b % 8 && Shr(b, 5) == b / 32 && Low(b, 5) == b % 32
  {
    hide Shr, Low;
    Powers();
    ShrDivides(b, 2);
    ShrDivides(b, 3);
    ShrDivides(b, 5);
  }

  /** A record comes back from its serialized form if and only if it keeps. */
  method SerializeAndParse(r: Record) returns (back: Option<Record>)
    requires Buildable(r)
    requires forall i :: 0 <= i < |r.sps| ==> |r.sps[i]| < 0x1_0000_0000
    requires forall i :: 0 <= i < |r.pps| ==> |r.pps[i]| < 0x1_0000_0000
    ensures back == Some(r) <==> Keeps(r)
  {
    hide Sets, Parse, Head, NoEmptySet;
    var s := Serialize(r);
    back := ParseRecord(s);
    if Keeps(r) {
      NoSets();
      SerializedIsImage(r);
      ImageParsed(r, s);
    }
    if back.Some? {
      ParsedKeeps(s);
    }
  }

  // ----- byte by byte -----

  /** The image of a record: four bytes, length size and count beside ones, and the sets behind their lengths. */
  lemma RecordBytes(r: Record)
    ensures Image(r) ==
            [r.version, r.profile, r.compatibility, r.level, 0xFC + r.lengthMinusOne % 4, 0xE0 + |r.sps| % 32]
            + Sets(r.sps) + ([|r.pps| % 256] + Sets(r.pps))
  {
  }

  lemma SetBytes(unit: seq<Byte>, more: seq<seq<Byte>>)
    ensures Sets([]) == []
    ensures Sets([unit] + more) == [|unit| / 256 % 256, |unit| % 256] + unit + Sets(more)
  {
    hide WriteBE;
    TwoBytes(|unit|);
    assert ([unit] + more)[1..] == more;
  }

  lemma TwoBytes(n: nat)
    ensures WriteBE(n, 2) == [n / 256 % 256, n % 256]
  {
    assert WriteBE(n / 256, 1) == WriteBE(n / 256 / 256, 0) + [n / 256 % 256];
  }

  /** What a parser refuses by its first bytes, and what it takes from them. */
  lemma HeadRead(d: seq<Byte>)
    ensures |d| < 7 || d[4] < 0xFC || d[5] < 0xE0 ==> Parse(d) == None
    ensures Parse(d).Some? ==>
      var r := Parse(d).value;
      && r.version == d[0] && r.profile == d[1] && r.compatibility == d[2] && r.level == d[3]
      && r.lengthMinusOne == d[4] - 0xFC && |r.sps| == d[5] - 0xE0
  {
    hide ReadSets;
    if |d| >= 7 {
      SetsCounted(d, 6, d[5] % 32);
    }
  }

  lemma SetsCounted(d: seq<Byte>, at: nat, n: nat)
    ensures ReadSets(d, at, n).Some? ==> |ReadSets(d, at, n).value.sets| == n
  {
  }

  /**
    Behind the PPS of the profiles 100, 110, 122 and 144 there is a tail: the chroma format in two bits, the bit
    depth in three, and more sets. Behind those of any other profile it is not read.
   */
  lemma TailParsed(r: Record, chroma: Byte, depth: Byte, ext: seq<seq<Byte>>)
    requires Buildable(r) && r.lengthMinusOne < 4 && |r.sps| <= 31 && |ext| < 256
    requires SetsFit(r.sps) && SetsFit(r.pps) && SetsFit(ext)
    ensures Parse(Image(r) + ([chroma, depth, |ext|] + Sets(ext))) ==
            Some(if r.profile in {100, 110, 122, 144}
                 then r.(chromaFormat := chroma % 4, bitDepth := depth % 8, spsExt := ext)
                 else r)
  {
    hide Sets, ReadSets, Head, Parse, ParseTail, Image, SetsFit, Parts;
    var tail: seq<Byte> := [chroma, depth, |ext|];
    var d := Image(r) + (tail + Sets(ext));
    var at := 6 + |Sets(r.sps)|;
    IsParts(r, tail, ext);
    HeadSize(r);
    TailSets(Head(r), r.sps, |r.pps|, r.pps, tail, ext);
    TailPlaces(Head(r), Sets(r.sps), |r.pps|, Sets(r.pps), tail, Sets(ext));
    HeadParsed(r, d);
    ParseParts(d, Parsed(r.sps, at), Parsed(r.pps, at + 1 + |Sets(r.pps)|));
    ParseTailParts(d, at + 1 + |Sets(r.pps)|, r, Parsed(ext, |d|));
  }

  /** An image with a tail, by its parts. */
  function Parts(head: seq<Byte>, sps: seq<Byte>, count: Byte, pps: seq<Byte>, tail: seq<Byte>,
                 ext: seq<Byte>): seq<Byte> {
    head + sps + ([count] + pps) + (tail + ext)
  }

  lemma TailSets(head: seq<Byte>, sps: seq<seq<Byte>>, count: Byte, pps: seq<seq<Byte>>, tail: seq<Byte>,
                 ext: seq<seq<Byte>>)
    requires |head| == 6 && |tail| == 3 && SetsFit(sps) && SetsFit(pps) && SetsFit(ext)
    ensures var d, at := Parts(head, Sets(sps), count, Sets(pps), tail, Sets(ext)), 6 + |Sets(sps)|;
            var to := at + 1 + |Sets(pps)|;
            && |d| == to + 3 + |Sets(ext)|
            && ReadSets(d, 6, |sps|) == Some(Parsed(sps, at))
            && ReadSets(d, at + 1, |pps|) == Some(Parsed(pps, to))
            && ReadSets(d, to + 3, |ext|) == Some(Parsed(ext, |d|))
  {
    hide Sets, ReadSets, SetsFit, Parts;
    TailPlaces(head, Sets(sps), count, Sets(pps), tail, Sets(ext));
    SpsInFront(head, sps, count, Sets(pps), tail, Sets(ext));
    PpsBehind(head, Sets(sps), count, pps, tail, Sets(ext));
    ExtBehind(head, Sets(sps), count, Sets(pps), tail, ext);
  }

  lemma IsParts(r: Record, tail: seq<Byte>, ext: seq<seq<Byte>>)
    requires Buildable(r)
    ensures Image(r) + (tail + Sets(ext)) == Parts(Head(r), Sets(r.sps), |r.pps|, Sets(r.pps), tail, Sets(ext))
  {
    hide Sets, Head;
  }

  lemma SpsInFront(head: seq<Byte>, sps: seq<seq<Byte>>, count: Byte, pps: seq<Byte>, tail: seq<Byte>, ext: seq<Byte>)
    requires SetsFit(sps)
    ensures ReadSets(Parts(head, Sets(sps), count, pps, tail, ext), |head|, |sps|) ==
            Some(Parsed(sps, |head| + |Sets(sps)|))
  {
    hide Sets, ReadSets, SetsFit;
    var more := [count] + pps + (tail + ext);
    assert Parts(head, Sets(sps), count, pps, tail, ext) == head + (Sets(sps) + more);
    SetsRead(head, sps, more);
  }

  lemma PpsBehind(head: seq<Byte>, sps: seq<Byte>, count: Byte, pps: seq<seq<Byte>>, tail: seq<Byte>, ext: seq<Byte>)
    requires SetsFit(pps)
    ensures var at := |head| + |sps| + 1;
            ReadSets(Parts(head, sps, count, Sets(pps), tail, ext), at, |pps|) == Some(Parsed(pps, at + |Sets(pps)|))
  {
    hide Sets, ReadSets, SetsFit;
    var front := head + sps + [count];
    assert Parts(head, sps, count, Sets(pps), tail, ext) == front + (Sets(pps) + (tail + ext));
    SetsRead(front, pps, tail + ext);
  }

  lemma ExtBehind(head: seq<Byte>, sps: seq<Byte>, count: Byte, pps: seq<Byte>, tail: seq<Byte>, ext: seq<seq<Byte>>)
    requires SetsFit(ext)
    ensures var d := Parts(head, sps, count, pps, tail, Sets(ext));
            ReadSets(d, |head| + |sps| + 1 + |pps| + |tail|, |ext|) == Some(Parsed(ext, |d|))
  {
    hide Sets, ReadSets, SetsFit;
    var front := head + sps + ([count] + pps) + tail;
    assert Parts(head, sps, count, pps, tail, Sets(ext)) == front + Sets(ext);
    AppendNothing(Sets(ext));
    SetsRead(front, ext, []);
  }

  lemma HeadSize(r: Record)
    ensures |Head(r)| == 6
  {
  }

  lemma ParseParts(d: seq<Byte>, sps: Parsed, pps: Parsed)
    requires 7 <= |d| && d[4] / 4 == 0x3F && d[5] / 32 == 7 && sps.next < |d|
    requires ReadSets(d, 6, d[5] % 32) == Some(sps) && ReadSets(d, sps.next + 1, d[sps.next]) == Some(pps)
    ensures var r := Record(d[0], d[1], d[2], d[3], d[4] % 4, sps.sets, pps.sets, 0, 0, []);
            Parse(d) == if d[1] in {100, 110, 122, 144} then ParseTail(d, pps.next, r) else Some(r)
  {
    hide ReadSets, ParseTail;
  }

  lemma ParseTailParts(d: seq<Byte>, at: nat, r: Record, ext: Parsed)
    requires at + 3 <= |d| && ReadSets(d, at + 3, d[at + 2]) == Some(ext)
    ensures ParseTail(d, at, r) == Some(r.(chromaFormat := d[at] % 4, bitDepth := d[at + 1] % 8, spsExt := ext.sets))
  {
    hide ReadSets;
  }

  lemma TailPlaces(head: seq<Byte>, sps: seq<Byte>, count: Byte, pps: seq<Byte>, tail: seq<Byte>, ext: seq<Byte>)
    requires |head| == 6 && |tail| == 3
    ensures var d, at := Parts(head, sps, count, pps, tail, ext), 6 + |sps|;
            && d[..6] == head && |d| == at + 1 + |pps| + 3 + |ext|
            && d[at] == count && d[at + 1 + |pps|] == tail[0] && d[at + 2 + |pps|] == tail[1]
            && d[at + 3 + |pps|] == tail[2]
  {
  }
}
