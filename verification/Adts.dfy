/**
  AAC frames in ADTS: headers are made from an AudioSpecificConfig, and a stream of headers and frames
  is split again; exactly which frames survive.
 */
module Adts {
  import opened Bytes
  import opened BitFields
  import opened BitWriters
  import opened BitReaders

  const HEADER_SIZE: nat := 7
  const MAX_FRAME: nat := 8184
  const CONFIG_WIDTHS: seq<nat> := [5, 4, 4]
  const ADTS_WIDTHS: seq<nat> := [12, 1, 2, 1, 2, 4, 1, 3, 1, 1, 1, 1, 13, 11, 2]

  // ----- the configuration -----

  datatype Config = Config(objectType: nat, rateIndex: nat, channels: nat)

  predicate ConfigFits(c: Config) {
    c.objectType < 32 && c.rateIndex < 16 && c.channels < 16
  }

  function ConfigFields(c: Config): seq<Field> {
    [Field(5, c.objectType), Field(4, c.rateIndex), Field(4, c.channels)]
  }

  function ConfigNumbers(d: seq<Byte>): (f: seq<nat>)
    requires |d| >= 2
    ensures |f| == 3
  {
    ConfigTotal();
    NumbersLength(BytesBits(d), CONFIG_WIDTHS);
    Numbers(BytesBits(d), CONFIG_WIDTHS)
  }

  function ParseConfig(d: seq<Byte>): Option<Config> {
    if |d| < 2 then None
    else
      var f := ConfigNumbers(d);
      Some(Config(f[0], f[1], f[2]))
  }

  lemma ConfigTotal()
    ensures Total(CONFIG_WIDTHS) == 13
  {
    TotalUnrolled(CONFIG_WIDTHS);
  }

  lemma ConfigRead(c: Config, more: seq<bool>)
    requires ConfigFits(c)
    ensures Writable(ConfigFields(c)) && Widths(ConfigFields(c)) == CONFIG_WIDTHS
    ensures Total(CONFIG_WIDTHS) <= |FieldBits(ConfigFields(c)) + more|
    ensures Numbers(FieldBits(ConfigFields(c)) + more, CONFIG_WIDTHS) == [c.objectType, c.rateIndex, c.channels]
  {
    hide FieldBits, Numbers, Low;
    ReadBack(ConfigFields(c), more);
    Powers();
    LowOfSmall(c.objectType, 5);
    LowOfSmall(c.rateIndex, 4);
    LowOfSmall(c.channels, 4);
  }

  /** `AACSpecificConfig::Serialize`, and parsing it gives the configuration back. */
  method SerializeConfig(c: Config) returns (s: seq<Byte>)
    requires ConfigFits(c)
    ensures |s| == 2 && ParseConfig(s) == Some(c)
  {
    hide FieldBits, Pack, Numbers, BytesBits, Bits;
    ConfigTotal();
    ConfigRead(c, Zeros(3));
    FieldBitsLength(ConfigFields(c));
    var writer := new BitWriter(2);
    writer.WriteFields(ConfigFields(c));
    assert [] + FieldBits(ConfigFields(c)) == FieldBits(ConfigFields(c));
    s := writer.GetData();
    UnpackPack(FieldBits(ConfigFields(c)));
  }

  method ReadConfig(d: seq<Byte>) returns (c: Option<Config>)
    ensures c == ParseConfig(d)
  {
    if |d| < 2 {
      return None;
    }
    var f := ReadConfigNumbers(d);
    return Some(Config(f[0], f[1], f[2]));
  }

  method ReadConfigNumbers(d: seq<Byte>) returns (f: seq<nat>)
    requires |d| >= 2
    ensures f == ConfigNumbers(d)
  {
    hide Numbers, BytesBits, Total, CONFIG_WIDTHS;
    ConfigTotal();
    ConfigWidthsFit();
    BytesBitsLength(d);
    var reader := new BitReader(d);
    f := reader.ReadFields(CONFIG_WIDTHS);
  }

  lemma ConfigWidthsFit()
    ensures forall i :: 0 <= i < |CONFIG_WIDTHS| ==> 1 <= CONFIG_WIDTHS[i] <= 32
  {
  }

  function Profile(c: Config): (p: nat)
    ensures p < 4
  {
    match c.objectType
    case 1 => 0
    case 2 => 1
    case 5 => 1
    case 29 => 1
    case 3 => 2
    case _ => 3
  }

  // ----- headers -----

  /** The frame length as the header holds it: 13 bits of a 16-bit sum. */
  function FrameLength(n: nat): nat {
    (n + HEADER_SIZE) % 0x2000
  }

  function AdtsFields(c: Config, length: nat): seq<Field> {
    [Field(12, 0xFFF), Field(1, 0), Field(2, 0), Field(1, 1), Field(2, Profile(c)), Field(4, c.rateIndex), Field(1, 0),
     Field(3, c.channels), Field(1, 0), Field(1, 0), Field(1, 0), Field(1, 0), Field(13, length), Field(11, 0x3F),
     Field(2, 0)]
  }

  /** The header byte by byte. */
  function Header(c: Config, n: nat): (h: seq<Byte>)
    requires ConfigFits(c)
    ensures |h| == HEADER_SIZE
  {
    var length := FrameLength(n);
    [0xFF, 0xF1, Profile(c) * 64 + c.rateIndex * 4 + c.channels / 4 % 2, c.channels % 4 * 64 + length / 2048,
     length / 8 % 256, length % 8 * 32, 0xFC]
  }

  // ----- splitting -----

  function HeaderSize(b1: Byte): nat {
    if b1 % 2 == 1 then 7 else 9
  }

  function LengthIn(d: seq<Byte>): nat
    requires |d| >= HEADER_SIZE
  {
    (d[3] as int) % 4 * 2048 + (d[4] as int) * 8 + (d[5] as int) / 32
  }

  /** Whether a frame with a sound header is at the start of `d`. */
  predicate FrameHere(d: seq<Byte>) {
    && |d| >= HEADER_SIZE && d[0] == 0xFF && d[1] / 16 == 0xF && d[1] / 2 % 4 == 0
    && HeaderSize(d[1]) <= LengthIn(d) <= |d|
  }

  /** The frames of an ADTS stream, if all of it is one. */
  function Frames(d: seq<Byte>): Option<seq<seq<Byte>>>
    decreases |d|
  {
    if d == [] then Some([])
    else if !FrameHere(d) then None
    else
      match Frames(d[LengthIn(d)..])
      case None => None
      case Some(rest) => Some([d[HeaderSize(d[1])..LengthIn(d)]] + rest)
  }

  function Lengths(pieces: seq<seq<Byte>>): seq<nat> {
    seq(|pieces|, i requires 0 <= i < |pieces| => |pieces[i]|)
  }

  /** `ConvertAdtsToLatm`: the frames without their headers, and their lengths. */
  function ToLatm(d: seq<Byte>): Option<(seq<Byte>, seq<nat>)> {
    match Frames(d)
    case None => None
    case Some(frames) => Some((Concat(frames), Lengths(frames)))
  }

  function ToAdts(c: Config, frames: seq<seq<Byte>>): seq<Byte>
    requires ConfigFits(c)
  {
    if frames == [] then [] else Header(c, |frames[0]|) + frames[0] + ToAdts(c, frames[1..])
  }

  predicate AllShort(frames: seq<seq<Byte>>) {
    forall i :: 0 <= i < |frames| ==> |frames[i]| <= MAX_FRAME
  }

  /** What a splitter sees of a header. */
  lemma HeaderSeen(c: Config, n: nat, rest: seq<Byte>)
    requires ConfigFits(c)
    ensures var d := Header(c, n) + rest;
            LengthIn(d) == FrameLength(n) && HeaderSize(d[1]) == 7 &&
            (FrameHere(d) <==> 7 <= FrameLength(n) <= |d|)
  {
    var length := FrameLength(n);
    assert length == length / 2048 * 2048 + length / 8 % 256 * 8 + length % 8;
  }

  lemma ShortLength(n: nat)
    ensures n <= MAX_FRAME <==> FrameLength(n) == n + 7
  {
  }

  lemma {:induction false} FramesBack(c: Config, frames: seq<seq<Byte>>)
    requires ConfigFits(c) && AllShort(frames)
    ensures Frames(ToAdts(c, frames)) == Some(frames)
  {
    hide Header, FrameHere, LengthIn, FrameLength, HeaderSize;
    if frames != [] {
      var f, rest := frames[0], ToAdts(c, frames[1..]);
      var d := Header(c, |f|) + (f + rest);
      HeaderSeen(c, |f|, f + rest);
      ShortLength(|f|);
      HeaderLength(c, |f|);
      AppendTwice(Header(c, |f|), f, rest);
      assert d == ToAdts(c, frames);
      FramesBack(c, frames[1..]);
      assert d[7..7 + |f|] == f && d[7 + |f|..] == rest;
      assert [f] + frames[1..] == frames;
    }
  }

  lemma HeaderLength(c: Config, n: nat)
    requires ConfigFits(c)
    ensures |Header(c, n)| == 7
  {
  }

  /** What a splitter finds first: the first frame, or one of another length. */
  lemma FirstFrame(c: Config, frames: seq<seq<Byte>>)
    requires ConfigFits(c) && frames != [] && Frames(ToAdts(c, frames)).Some?
    ensures var found := Frames(ToAdts(c, frames)).value;
            if |frames[0]| <= MAX_FRAME
            then Frames(ToAdts(c, frames[1..])).Some? && found == [frames[0]] + Frames(ToAdts(c, frames[1..])).value
            else found != [] && |found[0]| != |frames[0]|
  {
    hide Header, FrameHere, LengthIn, FrameLength, HeaderSize;
    var f, rest := frames[0], ToAdts(c, frames[1..]);
    var d := Header(c, |f|) + (f + rest);
    HeaderSeen(c, |f|, f + rest);
    HeaderLength(c, |f|);
    ShortLength(|f|);
    AppendTwice(Header(c, |f|), f, rest);
    assert d == ToAdts(c, frames) && FrameHere(d);
    if |f| <= MAX_FRAME {
      assert d[7..7 + |f|] == f && d[7 + |f|..] == rest;
    }
  }

  /** A frame that is too long is not recovered with its length. */
  lemma {:induction false} LongIsLost(c: Config, frames: seq<seq<Byte>>)
    requires ConfigFits(c) && !AllShort(frames) && Frames(ToAdts(c, frames)).Some?
    ensures Lengths(Frames(ToAdts(c, frames)).value) != Lengths(frames)
  {
    hide Frames, ToAdts;
    FirstFrame(c, frames);
    var found := Frames(ToAdts(c, frames)).value;
    if |frames[0]| <= MAX_FRAME {
      LongIsLost(c, frames[1..]);
      assert Lengths(found)[1..] == Lengths(found[1..]) && Lengths(frames)[1..] == Lengths(frames[1..]);
    } else {
      assert Lengths(found)[0] == |found[0]| && Lengths(frames)[0] == |frames[0]|;
    }
  }

  /** A list of frames comes back, with its lengths, if and only if no frame is longer than 8184 bytes. */
  lemma ListRoundTrip(c: Config, frames: seq<seq<Byte>>)
    requires ConfigFits(c)
    ensures ToLatm(ToAdts(c, frames)) == Some((Concat(frames), Lengths(frames))) <==> AllShort(frames)
  {
    hide ToAdts, Frames, Concat, Lengths, AllShort;
    if AllShort(frames) {
      FramesBack(c, frames);
    } else if Frames(ToAdts(c, frames)).Some? {
      LongIsLost(c, frames);
    }
  }

  // ----- making headers -----

  lemma MorePowers()
    ensures Pow2(1) == 2 && Pow2(2) == 4 && Pow2(3) == 8 && Pow2(4) == 16 && Pow2(11) == 2048 && Pow2(13) == 8192
  {
    Powers();
    assert Pow2(13) == 4 * Pow2(11);
  }

  /** The first 26 bits of a header as a number. */
  lemma FrontBits(p: nat, r: nat, ch: nat)
    requires p < 4 && r < 16
    ensures Bits(0xFFF, 12) + Bits(0, 1) + Bits(0, 2) + Bits(1, 1)
            + (Bits(p, 2) + Bits(r, 4) + Bits(0, 1) + Bits(ch, 3)) ==
            Bits(0xFFF1 * 1024 + p * 256 + r * 16 + ch % 8, 26)
  {
    hide Bits;
    MorePowers();
    FieldBehind(0xFFF, 12, 0, 1, 2);
    FieldBehind(0x1FFE, 13, 0, 2, 4);
    FieldBehind(0x7FF8, 15, 1, 1, 2);
    FieldBehind(0xFFF1, 16, p, 2, 4);
    FieldBehind(0xFFF1 * 4 + p, 18, r, 4, 16);
    FieldBehind(0xFFF1 * 64 + p * 16 + r, 22, 0, 1, 2);
    FieldBehind(0xFFF1 * 128 + p * 32 + r * 2, 23, ch, 3, 8);
    AppendFive(Bits(0xFFF1, 16), Bits(p, 2), Bits(r, 4), Bits(0, 1), Bits(ch, 3));
  }

  lemma AppendFive<T>(a: seq<T>, b: seq<T>, c: seq<T>, d: seq<T>, e: seq<T>)
    ensures a + (b + c + d + e) == a + b + c + d + e
  {
  }

  /** The other 30 bits. */
  lemma BackBits(length: nat)
    ensures Bits(0, 1) + Bits(0, 1) + Bits(0, 1) + Bits(0, 1) + (Bits(length, 13) + Bits(0x3F, 11) + Bits(0, 2)) ==
            Bits(length % 8192 * 8192 + 0xFC, 30)
  {
    hide Bits;
    MorePowers();
    FieldBehind(0, 1, 0, 1, 2);
    FieldBehind(0, 2, 0, 1, 2);
    FieldBehind(0, 3, 0, 1, 2);
    FieldBehind(0, 4, length, 13, 8192);
    FieldBehind(length % 8192, 17, 0x3F, 11, 2048);
    FieldBehind(length % 8192 * 2048 + 0x3F, 28, 0, 2, 4);
    AppendFour([], Bits(0, 4), Bits(length, 13), Bits(0x3F, 11));
    AppendFive([], Bits(0, 4), Bits(length, 13), Bits(0x3F, 11), Bits(0, 2));
    assert [] + Bits(0, 4) == Bits(0, 4);
  }

  lemma SevenBytes(b: seq<Byte>)
    requires |b| == 7
    ensures ReadBE(b) == 0x1_0000_0000_0000 * (b[0] as int) + 0x100_0000_0000 * (b[1] as int)
                         + 0x1_0000_0000 * (b[2] as int)
                         + 0x100_0000 * (b[3] as int) + 0x1_0000 * (b[4] as int) + 0x100 * (b[5] as int) + b[6] as int
  {
    BE4(b[..4]);
    ReadBEOne(b[..6], b[6]);
    ReadBEOne(b[..5], b[5]);
    ReadBEOne(b[..4], b[4]);
    assert b == b[..6] + [b[6]] && b[..6] == b[..5] + [b[5]] && b[..5] == b[..4] + [b[4]];
  }

  lemma LengthSplit(length: nat)
    requires length < 8192
    ensures length == length / 2048 * 2048 + length / 8 % 256 * 8 + length % 8
  {
  }

  lemma ChannelSplit(ch: nat)
    ensures ch % 8 == ch / 4 % 2 * 4 + ch % 4
  {
  }

  lemma HeaderNumber(c: Config, n: nat)
    requires ConfigFits(c)
    ensures ReadBE(Header(c, n)) ==
            (0xFFF1 * 1024 + Profile(c) * 256 + c.rateIndex * 16 + c.channels % 8) * 0x4000_0000
            + (FrameLength(n) * 8192 + 0xFC)
  {
    hide Profile, FrameLength, ReadBE;
    LengthBound(n);
    SevenBytes(Header(c, n));
    LengthSplit(FrameLength(n));
    ChannelSplit(c.channels);
  }

  lemma LengthBound(n: nat)
    ensures FrameLength(n) < 8192
  {
  }

  lemma ReadBEOne(s: seq<Byte>, b: Byte)
    ensures ReadBE(s + [b]) == 256 * ReadBE(s) + b
  {
    assert (s + [b])[..|s|] == s;
  }

  lemma HeaderIsGroup(c: Config, n: nat, length: nat)
    requires ConfigFits(c) && length % 8192 == FrameLength(n)
    ensures Group(AdtsFields(c, length)) == Header(c, n)
  {
    hide Bits, BytesBits, Pack, FieldBits, Profile, FrameLength, Header;
    var f := AdtsFields(c, length);
    AdtsBits(c, length);
    FrontBits(Profile(c), c.rateIndex, c.channels);
    BackBits(length);
    ThirtyBits();
    var front := 0xFFF1 * 1024 + Profile(c) * 256 + c.rateIndex * 16 + c.channels % 8;
    var back := length % 8192 * 8192 + 0xFC;
    FieldBehind(front, 26, back, 30, 0x4000_0000);
    HeaderNumber(c, n);
    HeaderLength(c, n);
    WholeBytes(ReadBE(Header(c, n)), 7);
    WriteReadBE(Header(c, n));
    PackUnpack(Header(c, n));
  }

  lemma ThirtyBits()
    ensures Pow2(30) == 0x4000_0000
  {
    Powers();
    assert Pow2(27) == 8 * Pow2(24) && Pow2(30) == 8 * Pow2(27);
  }

  lemma AdtsBits(c: Config, length: nat)
    ensures FieldBits(AdtsFields(c, length)) ==
            (Bits(0xFFF, 12) + Bits(0, 1) + Bits(0, 2) + Bits(1, 1)
             + (Bits(Profile(c), 2) + Bits(c.rateIndex, 4) + Bits(0, 1) + Bits(c.channels, 3)))
            + (Bits(0, 1) + Bits(0, 1) + Bits(0, 1) + Bits(0, 1) + (Bits(length, 13) + Bits(0x3F, 11) + Bits(0, 2)))
  {
    hide Bits, FieldBits, Profile;
    var f := AdtsFields(c, length);
    FourFields(f[0], f[1], f[2], f[3]);
    FourFields(f[4], f[5], f[6], f[7]);
    FourFields(f[8], f[9], f[10], f[11]);
    ThreeFields(f[12], f[13], f[14]);
    FieldBitsAppend(f[..4], f[4..8]);
    FieldBitsAppend(f[8..12], f[12..]);
    FieldBitsAppend(f[..8], f[8..]);
    assert f[..4] == [f[0], f[1], f[2], f[3]] && f[4..8] == [f[4], f[5], f[6], f[7]];
    assert f[8..12] == [f[8], f[9], f[10], f[11]] && f[12..] == [f[12], f[13], f[14]];
    assert f == f[..8] + f[8..] && f[..8] == f[..4] + f[4..8] && f[8..] == f[8..12] + f[12..];
  }

  lemma ThreeFields(a: Field, b: Field, c: Field)
    ensures FieldBits([a, b, c]) == Bits(a.value, a.width) + Bits(b.value, b.width) + Bits(c.value, c.width)
  {
    hide Bits;
    FieldBitsOne(a);
    FieldBitsOne(b);
    FieldBitsOne(c);
    FieldBitsAppend([a], [b]);
    FieldBitsAppend([a, b], [c]);
    assert [a] + [b] == [a, b] && [a, b] + [c] == [a, b, c];
  }

  // ----- the converter -----

  /** A 16-bit signed sum, as the 32-bit integer the writer gets. */
  function LengthArgument(n: nat): Uint32 {
    var length := (n + HEADER_SIZE) % 0x1_0000;
    if length < 0x8000 then length else length + 0xFFFF_0000
  }

  lemma ArgumentLength(n: nat)
    ensures LengthArgument(n) % 8192 == FrameLength(n)
  {
    var m := n + HEADER_SIZE;
    var q, r := m / 0x1_0000, m % 0x1_0000;
    DivideUnique(m, 8192, q * 8 + r / 8192, r % 8192);
    DivideUnique(r + 0xFFFF_0000, 8192, 0x7_FFF8 + r / 8192, r % 8192);
  }

  lemma AdtsWritable(c: Config, length: Uint32)
    requires ConfigFits(c)
    ensures Writable(AdtsFields(c, length)) && Widths(AdtsFields(c, length)) == ADTS_WIDTHS
  {
    hide Profile;
    assert Profile(c) < 4 by { ProfileBound(c); }
  }

  lemma ProfileBound(c: Config)
    ensures Profile(c) < 4
  {
  }

  lemma AdtsTotal()
    ensures Total(ADTS_WIDTHS) == 56
  {
    TotalUnrolled(ADTS_WIDTHS);
  }

  method MakeAdtsHeader(c: Config, n: nat) returns (h: seq<Byte>)
    requires ConfigFits(c)
    ensures h == Header(c, n)
  {
    hide FieldBits, Pack, BytesBits, Header, AdtsFields, Writable, LengthArgument, FrameLength;
    var fields := AdtsFields(c, LengthArgument(n));
    AdtsWritable(c, LengthArgument(n));
    AdtsTotal();
    ArgumentLength(n);
    HeaderIsGroup(c, n, LengthArgument(n));
    var writer := new BitWriter(HEADER_SIZE);
    writer.WriteFields(fields);
    assert [] + FieldBits(fields) == FieldBits(fields);
    h := writer.GetData();
  }

  /** A raw frame gets a header from the extradata; without extradata it stays as it is. */
  method ConvertLatmToAdts(frame: seq<Byte>, extradata: seq<Byte>) returns (r: seq<Byte>)
    requires |extradata| != 1
    ensures extradata == [] ==> r == frame
    ensures extradata != [] ==>
      ParseConfig(extradata).Some? && ConfigFits(ParseConfig(extradata).value) &&
      r == Header(ParseConfig(extradata).value, |frame|) + frame
  {
    hide ParseConfig, Header;
    r := [];
    if |extradata| > 0 {
      var c := ReadConfig(extradata);
      ParsedFits(extradata);
      var header := MakeAdtsHeader(c.value, |frame|);
      r := r + header;
      assert r == header;
    } else {
      assert r + frame == frame;
    }
    r := r + frame;
  }

  lemma ParsedFits(d: seq<Byte>)
    requires |d| >= 2
    ensures ParseConfig(d).Some? && ConfigFits(ParseConfig(d).value)
  {
    hide BytesBits, Number;
    ConfigTotal();
    BytesBitsLength(d);
    var bits := BytesBits(d);
    NumbersStep(bits, CONFIG_WIDTHS, 0);
    NumbersStep(bits[5..], CONFIG_WIDTHS, 1);
    NumbersStep(bits[5..][4..], CONFIG_WIDTHS, 2);
    assert CONFIG_WIDTHS[0..] == CONFIG_WIDTHS;
    Powers();
    BitsOfNumber(bits[..5]);
    BitsOfNumber(bits[5..][..4]);
    BitsOfNumber(bits[5..][4..][..4]);
  }

  /** `ConvertAdtsToLatm`. */
  method ConvertAdtsToLatm(d: seq<Byte>) returns (r: Option<(seq<Byte>, seq<nat>)>)
    ensures r == ToLatm(d)
  {
    hide FrameHere, LengthIn, HeaderSize;
    var at, latm, lengths := 0, [], [];
    ghost var frames: seq<seq<Byte>> := [];
    assert d[0..] == d && Lengths([]) == [];
    NothingBefore(Frames(d));
    while at < |d|
      invariant 0 <= at <= |d|
      invariant Frames(d) == Before(frames, Frames(d[at..]))
      invariant latm == Concat(frames) && lengths == Lengths(frames)
    {
      var rest := d[at..];
      if !FrameHere(rest) {
        return None;
      }
      FrameBounds(rest);
      var payload := rest[HeaderSize(rest[1])..LengthIn(rest)];
      assert rest[LengthIn(rest)..] == d[at + LengthIn(rest)..];
      BeforeOne(frames, payload, Frames(rest[LengthIn(rest)..]));
      ConcatOne(frames, payload);
      assert Lengths(frames + [payload]) == Lengths(frames) + [|payload|];
      frames := frames + [payload];
      latm := latm + payload;
      lengths := lengths + [|payload|];
      at := at + LengthIn(rest);
    }
    assert d[at..] == [];
    AppendNothing(frames);
    return Some((latm, lengths));
  }

  lemma FrameBounds(d: seq<Byte>)
    requires FrameHere(d)
    ensures 7 <= HeaderSize(d[1]) <= LengthIn(d) <= |d|
  {
  }

  // ----- reading headers -----

  /** The fields of a header that are used. */
  datatype AdtsHeader =
    AdtsHeader(protectionAbsent: bool, profile: nat, rateIndex: nat, channels: nat, frameLength: nat)

  function HeaderFields(d: seq<Byte>): (f: seq<nat>)
    requires |d| >= HEADER_SIZE
    ensures |f| == 15
  {
    AdtsTotal();
    NumbersLength(BytesBits(d), ADTS_WIDTHS);
    Numbers(BytesBits(d), ADTS_WIDTHS)
  }

  function ParseHeader(d: seq<Byte>): Option<AdtsHeader> {
    if |d| < HEADER_SIZE then None
    else
      var f := HeaderFields(d);
      if f[0] != 0xFFF then None else Some(AdtsHeader(f[3] == 1, f[4] + 1, f[5], f[7], f[12]))
  }

  /** `AACAdts::Parse`. */
  method ReadHeader(d: seq<Byte>) returns (r: Option<AdtsHeader>)
    ensures r == ParseHeader(d)
  {
    if |d| < HEADER_SIZE {
      return None;
    }
    var f := ReadHeaderFields(d);
    if f[0] != 0xFFF {
      return None;
    }
    return Some(AdtsHeader(f[3] == 1, f[4] + 1, f[5], f[7], f[12]));
  }

  method ReadHeaderFields(d: seq<Byte>) returns (f: seq<nat>)
    requires |d| >= HEADER_SIZE
    ensures f == HeaderFields(d)
  {
    hide Numbers, BytesBits, Total, ADTS_WIDTHS;
    AdtsTotal();
    AdtsWidthsFit();
    BytesBitsLength(d);
    var reader := new BitReader(d);
    f := reader.ReadFields(ADTS_WIDTHS);
  }

  lemma AdtsWidthsFit()
    ensures forall i :: 0 <= i < |ADTS_WIDTHS| ==> 1 <= ADTS_WIDTHS[i] <= 32
  {
  }

  /** A header that was made is read back: profile, rate index, the low three channel bits, and the length. */
  lemma HeaderRead(c: Config, n: nat, rest: seq<Byte>)
    requires ConfigFits(c)
    ensures ParseHeader(Header(c, n) + rest) ==
            Some(AdtsHeader(true, Profile(c) + 1, c.rateIndex, c.channels % 8, FrameLength(n)))
  {
    hide FieldBits, Pack, BytesBits, Numbers, Header, Low, Profile, FrameLength, Total, LengthArgument;
    var length := LengthArgument(n);
    AdtsWritable(c, length);
    AdtsTotal();
    ArgumentLength(n);
    HeaderIsGroup(c, n, length);
    var fields := AdtsFields(c, length);
    FieldBitsLength(fields);
    UnpackPack(FieldBits(fields));
    HeaderLength(c, n);
    AppendNothing(FieldBits(fields));
    BytesBitsAppend(Header(c, n), rest);
    ReadBack(fields, BytesBits(rest));
    NumbersLength(FieldBits(fields) + BytesBits(rest), ADTS_WIDTHS);
    KeptValues(c, length);
  }

  lemma KeptValues(c: Config, length: nat)
    requires ConfigFits(c)
    ensures var k := Kept(AdtsFields(c, length));
            |k| == 15 && k[0] == 0xFFF && k[3] == 1 && k[4] == Profile(c) && k[5] == c.rateIndex &&
            k[7] == c.channels % 8 && k[12] == length % 8192
  {
    hide Low, Profile;
    Powers();
    ProfileBound(c);
    LowOfSmall(0xFFF, 12);
    LowOfSmall(1, 1);
    LowOfSmall(Profile(c), 2);
    LowOfSmall(c.rateIndex, 4);
    ShrDivides(c.channels, 3);
    ShrDivides(length, 13);
  }

  /** Frames converted one by one and split again: all come back with their lengths if and only if none is too long. */
  method ConvertAndSplit(frames: seq<seq<Byte>>, extradata: seq<Byte>) returns (r: Option<(seq<Byte>, seq<nat>)>)
    requires |extradata| >= 2
    ensures r == Some((Concat(frames), Lengths(frames))) <==> AllShort(frames)
  {
    hide ParseConfig, Header, ToLatm, AllShort, Lengths, Concat;
    ParsedFits(extradata);
    ghost var c := ParseConfig(extradata).value;
    var stream: seq<Byte> := [];
    assert frames[0..] == frames && [] + ToAdts(c, frames) == ToAdts(c, frames);
    for i := 0 to |frames|
      invariant stream + ToAdts(c, frames[i..]) == ToAdts(c, frames)
    {
      var adts := ConvertLatmToAdts(frames[i], extradata);
      assert frames[i..][1..] == frames[i + 1..];
      AppendTwice(stream, adts, ToAdts(c, frames[i + 1..]));
      stream := stream + adts;
    }
    AppendNothing(stream);
    ListRoundTrip(c, frames);
    r := ConvertAdtsToLatm(stream);
  }

  // ----- byte by byte -----

  /** A configuration in its two bytes: five bits of object type, four of rate index, four of channels. */
  lemma ConfigBytes(d: seq<Byte>)
    requires |d| >= 2
    ensures ParseConfig(d) == Some(Config(d[0] / 8, d[0] % 8 * 2 + d[1] / 128, d[1] / 8 % 16))
  {
    hide FieldBits, Numbers, BytesBits, Pack, Total, Widths;
    var c := Config(d[0] / 8, d[0] % 8 * 2 + d[1] / 128, d[1] / 8 % 16);
    var f, spare := ConfigFields(c), Field(3, d[1] % 8);
    ConfigSpare(c, d[0], d[1]);
    UnpackPack(FieldBits(f + [spare]));
    FieldBitsLength(f + [spare]);
    AppendNothing(FieldBits(f + [spare]));
    assert d == [d[0], d[1]] + d[2..];
    BytesBitsAppend([d[0], d[1]], d[2..]);
    FieldBitsAppend(f, [spare]);
    AppendTwice(FieldBits(f), FieldBits([spare]), BytesBits(d[2..]));
    ConfigRead(c, FieldBits([spare]) + BytesBits(d[2..]));
  }

  lemma ConfigSpare(c: Config, a: Byte, b: Byte)
    requires c == Config(a / 8, a % 8 * 2 + b / 128, b / 8 % 16)
    ensures var f := ConfigFields(c) + [Field(3, b % 8)];
            Total(Widths(f)) == 16 && Group(f) == [a, b]
  {
    hide Group, WriteBE, Joint, Pow2, Low;
    var f := ConfigFields(c) + [Field(3, b % 8)];
    SpareTotal();
    assert Widths(f) == [5, 4, 4, 3];
    hide Total, Widths;
    GroupNumber(f, 2);
    ConfigDigits(a, b);
    SpareJoint(c, b % 8);
    WriteBEByte(a);
    WriteBEJoin(a, b, 1);
  }

  lemma SpareTotal()
    ensures Total([5, 4, 4, 3]) == 16
  {
    TotalUnrolled([5, 4, 4, 3]);
  }

  lemma SpareJoint(c: Config, spare: nat)
    requires ConfigFits(c) && spare < 8
    ensures var f := ConfigFields(c) + [Field(3, spare)];
            |f| == 4 && Joint(f, 4) == ((c.objectType * 16 + c.rateIndex) * 16 + c.channels) * 8 + spare
  {
    hide Joint, Pow2, Low;
    var f := ConfigFields(c) + [Field(3, spare)];
    Powers();
    JointOne(f, 0, 32);
    JointOne(f, 1, 16);
    JointOne(f, 2, 16);
    JointOne(f, 3, 8);
  }

  lemma ConfigDigits(a: Byte, b: Byte)
    ensures a / 8 < 32 && a % 8 * 2 + b / 128 < 16
    ensures (((a / 8) as int * 16 + (a % 8 * 2 + b / 128)) * 16 + b / 8 % 16) * 8 + b % 8 == 256 * (a as int) + b
  {
    var x, y: nat := a, b;
    assert x == x / 8 * 8 + x % 8;
    assert y == y / 128 * 128 + y / 8 % 16 * 8 + y % 8;
  }

  /** The header of a frame of `n` bytes, by the numbers of the configuration. */
  lemma HeaderBytes(c: Config, n: nat)
    requires ConfigFits(c)
    ensures var profile := if c.objectType == 1 then 0 else if c.objectType in {2, 5, 29} then 1
                           else if c.objectType == 3 then 2 else 3;
            var length := (n + 7) % 8192;
            Header(c, n) ==
            [0xFF, 0xF1, profile * 64 + c.rateIndex * 4 + c.channels / 4 % 2, c.channels % 4 * 64 + length / 2048,
             length / 8 % 256, length % 8 * 32, 0xFC]
  {
  }

  /** Cutting off the first frame: its sync word and layer, its header of seven or nine bytes, its length of 13 bits. */
  lemma FrameCut(d: seq<Byte>)
    ensures Frames([]) == Some([])
    ensures d != [] ==>
      if |d| < 7 || d[0] != 0xFF || d[1] / 16 != 15 || d[1] / 2 % 4 != 0 then Frames(d) == None
      else
        var size := if d[1] % 2 == 1 then 7 else 9;
        var length := (d[3] as int) % 4 * 2048 + (d[4] as int) * 8 + (d[5] as int) / 32;
        if length < size || |d| < length then Frames(d) == None
        else
          match Frames(d[length..])
          case None => Frames(d) == None
          case Some(rest) => Frames(d) == Some([d[size..length]] + rest)
  {
    hide Frames;
    FramesOne(d);
  }

  lemma FramesOne(d: seq<Byte>)
    ensures Frames([]) == Some([])
    ensures d != [] && !FrameHere(d) ==> Frames(d) == None
    ensures FrameHere(d) ==>
      match Frames(d[LengthIn(d)..])
      case None => Frames(d) == None
      case Some(rest) => Frames(d) == Some([d[HeaderSize(d[1])..LengthIn(d)]] + rest)
  {
  }

  /** The fields a parser takes from any seven bytes, as digits of the number they make. */
  lemma HeaderDigits(d: seq<Byte>)
    requires |d| >= 7
    ensures var n, h := ReadBE(d[..7]), ParseHeader(d);
            && (h.Some? <==> n / 0x1000_0000_0000 % 0x1000 == 0xFFF)
            && (h.Some? ==>
                  && h.value.protectionAbsent == (n / 0x100_0000_0000 % 2 == 1)
                  && h.value.profile == n / 0x40_0000_0000 % 4 + 1 && h.value.rateIndex == n / 0x4_0000_0000 % 16
                  && h.value.channels == n / 0x4000_0000 % 8 && h.value.frameLength == n / 0x2000 % 0x2000)
  {
    hide Numbers, BytesBits, ReadBE, Pow2, Total;
    AdtsTotal();
    AdtsSuffixes();
    HeaderPowers();
    assert d == d[..7] + d[7..];
    FieldOfBytes(d[..7], d[7..], ADTS_WIDTHS, 0);
    FieldOfBytes(d[..7], d[7..], ADTS_WIDTHS, 3);
    FieldOfBytes(d[..7], d[7..], ADTS_WIDTHS, 4);
    FieldOfBytes(d[..7], d[7..], ADTS_WIDTHS, 5);
    FieldOfBytes(d[..7], d[7..], ADTS_WIDTHS, 7);
    FieldOfBytes(d[..7], d[7..], ADTS_WIDTHS, 12);
  }

  lemma AdtsSuffixes()
    ensures Total(ADTS_WIDTHS[1..]) == 44 && Total(ADTS_WIDTHS[4..]) == 40 && Total(ADTS_WIDTHS[5..]) == 38
    ensures Total(ADTS_WIDTHS[6..]) == 34 && Total(ADTS_WIDTHS[8..]) == 30 && Total(ADTS_WIDTHS[13..]) == 13
  {
    hide Total;
    TotalUnrolled(ADTS_WIDTHS);
    var w := ADTS_WIDTHS;
    assert Total(w[14..]) == 2 + Total(w[15..]) == 2 && Total(w[13..]) == 11 + Total(w[14..]);
    assert Total(w[11..]) == 1 + Total(w[12..]) && Total(w[12..]) == 13 + Total(w[13..]);
    assert Total(w[9..]) == 1 + Total(w[10..]) && Total(w[10..]) == 1 + Total(w[11..]);
    assert Total(w[7..]) == 3 + Total(w[8..]) && Total(w[8..]) == 1 + Total(w[9..]);
    assert Total(w[5..]) == 4 + Total(w[6..]) && Total(w[6..]) == 1 + Total(w[7..]);
    assert Total(w[3..]) == 1 + Total(w[4..]) && Total(w[4..]) == 2 + Total(w[5..]);
    assert Total(w[1..]) == 1 + Total(w[2..]) && Total(w[2..]) == 2 + Total(w[3..]);
  }

  lemma HeaderPowers()
    ensures Pow2(1) == 2 && Pow2(2) == 4 && Pow2(3) == 8 && Pow2(4) == 16 && Pow2(12) == 0x1000 && Pow2(13) == 0x2000
    ensures Pow2(30) == 0x4000_0000 && Pow2(34) == 0x4_0000_0000 && Pow2(38) == 0x40_0000_0000
    ensures Pow2(40) == 0x100_0000_0000 && Pow2(44) == 0x1000_0000_0000
  {
    Powers();
    ThirtyBits();
    assert Pow2(34) == 0x4_0000_0000;
    assert Pow2(38) == 0x40_0000_0000;
    assert Pow2(40) == 0x100_0000_0000;
    assert Pow2(44) == 0x1000_0000_0000;
  }
}
