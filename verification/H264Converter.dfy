/** The converter between the two framings of H.264 packets. */
module H264Converter {
  import opened Bytes
  import opened NalUnits
  import opened NalFraming
  import AvcRecord

  datatype PacketType = SequenceHeader | Nalu | OtherPacket

  predicate IsIdr(nal: seq<Byte>) {
    nal != [] && nal[0] < 0x80 && nal[0] % 32 == IDR_SLICE
  }

  predicate HasIdr(nals: seq<seq<Byte>>) {
    exists i :: 0 <= i < |nals| && IsIdr(nals[i])
  }

  /** The packet in Annex B form, or None where the conversion fails and leaves the packet as it is. */
  function ToAnnexb(t: PacketType, d: seq<Byte>, extradata: seq<Byte>): Option<seq<Byte>> {
    match t
    case SequenceHeader =>
      (match AvcRecord.Parse(d)
       case None => None
       case Some(r) => Some(Annexb(r.sps + r.pps)))
    case Nalu =>
      (match AvccNals(d)
       case None => None
       case Some(nals) =>
         if extradata == [] || !HasIdr(nals) then Some(Annexb(nals))
         else
           match AvcRecord.Parse(extradata)
           case None => None
           case Some(r) => Some(Annexb(r.sps + r.pps + nals)))
    case OtherPacket => Some([])
  }

  method AppendAll(data: seq<Byte>, nals: seq<seq<Byte>>) returns (r: seq<Byte>)
    ensures r == data + Annexb(nals)
  {
    r := data;
    assert nals[..0] == [] && data + Annexb([]) == data;
    for i := 0 to |nals|
      invariant r == data + Annexb(nals[..i])
    {
      assert nals[..i + 1] == nals[..i] + [nals[i]];
      AnnexbAppend(nals[..i], [nals[i]]);
      AnnexbOne(nals[i]);
      AppendTwice(data, Annexb(nals[..i]), START_CODE + nals[i]);
      AppendTwice(data + Annexb(nals[..i]), START_CODE, nals[i]);
      r := r + START_CODE;
      r := r + nals[i];
    }
    assert nals[..|nals|] == nals;
  }

  /** The reading loop for AVCC packets. */
  method ReframeNals(d: seq<Byte>) returns (r: Option<(seq<Byte>, bool)>)
    ensures match AvccNals(d)
            case None => r.None?
            case Some(nals) => r == Some((Annexb(nals), HasIdr(nals)))
  {
    hide ReadBE, HasIdr;
    var at, annexb, hasIdr := 0, [], false;
    ghost var nals: seq<seq<Byte>> := [];
    assert d[0..] == d;
    NothingBefore(AvccNals(d));
    NoIdr();
    while at < |d|
      invariant 0 <= at <= |d|
      invariant AvccNals(d) == Before(nals, AvccNals(d[at..]))
      invariant annexb == Annexb(nals) && hasIdr == HasIdr(nals)
    {
      var rest := d[at..];
      if |rest| < 4 {
        return None;
      }
      var length := ReadBE(rest[..4]);
      if |rest| < 4 + length {
        return None;
      }
      var nal := rest[4..4 + length];
      assert rest[4 + length..] == d[at + 4 + length..];
      if IsIdr(nal) {
        hasIdr := true;
      }
      BeforeOne(nals, nal, AvccNals(rest[4 + length..]));
      AnnexbAppend(nals, [nal]);
      AnnexbOne(nal);
      OneMoreIdr(nals, nal);
      nals := nals + [nal];
      annexb := annexb + START_CODE + nal;
      at := at + 4 + length;
    }
    assert d[at..] == [];
    AppendNothing(nals);
    return Some((annexb, hasIdr));
  }

  lemma NoIdr()
    ensures !HasIdr([])
  {
  }

  lemma OneMoreIdr(nals: seq<seq<Byte>>, nal: seq<Byte>)
    ensures HasIdr(nals + [nal]) == (HasIdr(nals) || IsIdr(nal))
  {
    var all := nals + [nal];
    if HasIdr(nals) {
      var i :| 0 <= i < |nals| && IsIdr(nals[i]);
      assert IsIdr(all[i]);
    }
    if IsIdr(nal) {
      assert IsIdr(all[|nals|]);
    }
  }

  method ConvertAvccToAnnexb(t: PacketType, d: seq<Byte>, extradata: seq<Byte>) returns (r: Option<seq<Byte>>)
    ensures r == ToAnnexb(t, d, extradata)
  {
    hide AvccNals, AvcRecord.Parse, HasIdr, Annexb;
    match t {
      case SequenceHeader =>
        var config := AvcRecord.ParseRecord(d);
        if config.None? {
          return None;
        }
        var sets := SetsInFront(config.value);
        r := Some(sets);
      case Nalu =>
        var reframed := ReframeNals(d);
        if reframed.None? {
          return None;
        }
        var (annexb, hasIdr) := reframed.value;
        if |extradata| > 0 && hasIdr {
          var config := AvcRecord.ParseRecord(extradata);
          if config.None? {
            return None;
          }
          var sets := SetsInFront(config.value);
          AnnexbAppend(config.value.sps + config.value.pps, AvccNals(d).value);
          annexb := sets + annexb;
        }
        r := Some(annexb);
      case OtherPacket => r := Some([]);
    }
  }

  /** All parameter sets of a record, each behind a start code. */
  method SetsInFront(config: AvcRecord.Record) returns (r: seq<Byte>)
    ensures r == Annexb(config.sps + config.pps)
  {
    hide Annexb;
    r := AppendAll([], config.sps);
    r := AppendAll(r, config.pps);
    AnnexbAppend(config.sps, config.pps);
    assert [] + Annexb(config.sps) == Annexb(config.sps);
  }

  /** The probing form: the longer pattern is looked for first, and only where the byte is zero. */
  function StartPatternSize(s: seq<Byte>, i: nat): int
    requires i < |s|
  {
    var remained := |s| - i;
    if s[i] != 0 then -1
    else if remained >= 4 && s[i] == 0 && s[i + 1] == 0 && s[i + 2] == 0 && s[i + 3] == 1 then 4
    else if remained >= 3 && s[i] == 0 && s[i + 1] == 0 && s[i + 2] == 1 then 3
    else -1
  }

  /** The probe finds what the other scanners find. */
  lemma SamePattern(s: seq<Byte>, i: nat)
    requires i < |s|
    ensures (if StartPatternSize(s, i) > 0 then StartPatternSize(s, i) else 0) == CodeSize(s, i)
  {
  }

  /** The nonempty pieces a scan from `last` still finds. */
  function Pieces(s: seq<Byte>, last: nat): seq<seq<Byte>>
    requires last <= |s|
  {
    NonEmpty(Cut(s, UnitsFrom(s, last)))
  }

  method ConvertAnnexbToAvcc(s: seq<Byte>) returns (avcc: seq<Byte>)
    ensures avcc == Avcc(AnnexbNals(s))
  {
    hide CodeSize, NextCode, Pieces, Avcc, StartPatternSize, AnnexbNals, Framed;
    avcc := [];
    var offset, last := 0, 0;
    ghost var goal := Avcc(AnnexbNals(s));
    PrefixIsPiece(s);
    assert [] + goal == goal;
    while offset < |s|
      invariant last <= offset <= |s| && NextCode(s, last) == NextCode(s, offset)
      invariant avcc + Avcc(Pieces(s, last)) == goal
    {
      SamePattern(s, offset);
      CodeInside(s, offset);
      var size := StartPatternSize(s, offset);
      if size > 0 {
        CodeHere(s, offset);
        PieceCut(s, last, offset);
        AppendTwice(avcc, Framed(s[last..offset]), Avcc(Pieces(s, offset + size)));
        avcc := AppendPiece(avcc, s, last, offset);
        offset := offset + size;
        last := offset;
      } else {
        NextCodeStep(s, offset);
        offset := offset + 1;
      }
    }
    AtEnd(s);
    LastPiece(s, last);
    avcc := AppendPiece(avcc, s, last, offset);
  }

  /** A piece behind its length; an empty one leaves no trace. */
  method AppendPiece(avcc: seq<Byte>, s: seq<Byte>, last: nat, offset: nat) returns (r: seq<Byte>)
    requires last <= offset <= |s|
    ensures r == avcc + Framed(s[last..offset])
  {
    if last < offset {
      r := avcc + (WriteBE(offset - last, 4) + s[last..offset]);
    } else {
      AppendNothing(avcc);
      r := avcc;
    }
  }

  /** A piece behind its length; nothing for an empty one. */
  function Framed(piece: seq<Byte>): seq<Byte> {
    if piece == [] then [] else WriteBE(|piece|, 4) + piece
  }

  lemma OnePiece(piece: seq<Byte>)
    ensures Avcc(NonEmpty([piece])) == Framed(piece)
  {
    NonEmptyOne(piece);
    AvccOne(piece);
  }

  lemma PieceCut(s: seq<Byte>, last: nat, end: nat)
    requires last <= end < |s| && end == NextCode(s, last)
    ensures Avcc(Pieces(s, last)) == Framed(s[last..end]) + Avcc(Pieces(s, end + CodeSize(s, end)))
  {
    hide CodeSize, NextCode, UnitsFrom, Cut, NonEmpty, Avcc;
    CutOne(s, last, end);
    var rest := Cut(s, UnitsFrom(s, end + CodeSize(s, end)));
    NonEmptyAppend([s[last..end]], rest);
    AvccAppend(NonEmpty([s[last..end]]), NonEmpty(rest));
    OnePiece(s[last..end]);
  }

  lemma LastPiece(s: seq<Byte>, last: nat)
    requires last <= |s| == NextCode(s, last)
    ensures Avcc(Pieces(s, last)) == Framed(s[last..]) && s[last..|s|] == s[last..]
  {
    hide NextCode, UnitsFrom, Cut, NonEmpty, Avcc;
    CutLast(s, last);
    OnePiece(s[last..]);
  }

  /** What lies in front of the first start code is treated like a unit. */
  lemma PrefixIsPiece(s: seq<Byte>)
    ensures Pieces(s, 0) == AnnexbNals(s)
  {
    hide CodeSize, NextCode, UnitsFrom, Cut, NonEmpty;
    var first := NextCode(s, 0);
    NoUnits(s);
    assert s[0..first] == s[..first];
    if first == |s| {
      CutLast(s, 0);
      assert s[0..] == s[..first];
      AppendNothing([s[..first]]);
    } else {
      CutOne(s, 0, first);
    }
  }

  // ----- there and back -----

  lemma {:induction false} NonEmptyShort(nals: seq<seq<Byte>>, n: nat)
    requires forall i :: 0 <= i < |nals| ==> |nals[i]| <= n
    ensures forall i :: 0 <= i < |NonEmpty(nals)| ==> |NonEmpty(nals)[i]| <= n
  {
    if nals != [] {
      NonEmptyShort(nals[1..], n);
    }
  }

  lemma FoundShort(s: seq<Byte>)
    requires |s| < 0x1_0000_0000
    ensures Short(AnnexbNals(s))
  {
    NonEmptyShort([s[..NextCode(s, 0)]] + Cut(s, Units(s)), |s|);
  }

  /** A packet comes back from Annex B if and only if its units are not empty and free of start codes. */
  method ThereAndBack(nals: seq<seq<Byte>>) returns (back: seq<Byte>)
    requires Short(nals) && |Annexb(nals)| < 0x1_0000_0000
    ensures back == Avcc(nals) <==> AllFree(nals)
  {
    hide AnnexbNals, AllFree, Annexb, Avcc, AvccNals, Short, HasIdr;
    AvccRead(nals);
    var annexb := ConvertAvccToAnnexb(Nalu, Avcc(nals), []);
    back := ConvertAnnexbToAvcc(annexb.value);
    FoundAgain(nals);
    FoundShort(annexb.value);
    AvccRead(AnnexbNals(annexb.value));
  }

  /** With extradata, an IDR packet splits into the parameter sets and then its own units. */
  lemma SetsInFrontOfIdr(nals: seq<seq<Byte>>, extradata: seq<Byte>)
    requires Short(nals) && HasIdr(nals) && AvcRecord.Parse(extradata).Some?
    ensures var r := AvcRecord.Parse(extradata).value;
            var all, annexb := r.sps + r.pps + nals, ToAnnexb(Nalu, Avcc(nals), extradata);
            && annexb.Some?
            && (AnnexbNals(annexb.value) == all <==> AllFree(all))
            && (AllFree(all) ==> Cut(annexb.value, Units(annexb.value)) == all)
  {
    hide AnnexbNals, AllFree, Annexb, Avcc, AvccNals, Short, HasIdr, Cut, UnitsFrom, NextCode;
    AvccRead(nals);
    NothingParsed();
    var r := AvcRecord.Parse(extradata).value;
    FoundAgain(r.sps + r.pps + nals);
    if AllFree(r.sps + r.pps + nals) {
      FreeUnitsFound(r.sps + r.pps + nals);
    }
  }

  lemma NothingParsed()
    ensures AvcRecord.Parse([]).None?
  {
  }

  /** The three scanners see the same units; the converter passes on the nonempty ones, and what is in front. */
  method ScanThreeWays(s: seq<Byte>) returns (units: seq<seq<Byte>>, offsets: seq<nat>, lengths: seq<nat>,
                                              avcc: seq<Byte>)
    ensures |units| == |offsets| == |lengths|
    ensures forall i :: 0 <= i < |units| ==>
      offsets[i] + lengths[i] <= |s| && units[i] == s[offsets[i]..offsets[i] + lengths[i]]
    ensures avcc == Avcc(NonEmpty([s[..NextCode(s, 0)]] + units))
  {
    hide CodeSize, NextCode, UnitsFrom, Avcc, NonEmpty;
    units := Split(s);
    offsets, lengths := ParseFragments(s);
    avcc := ConvertAnnexbToAvcc(s);
    ghost var slices := Units(s);
    forall i | 0 <= i < |units|
      ensures offsets[i] + lengths[i] <= |s| && units[i] == s[offsets[i]..offsets[i] + lengths[i]]
    {
      assert Slice(offsets[i], lengths[i]) == slices[i];
    }
  }

  /** A unit header of type 5 with its forbidden bit clear. */
  lemma IdrHeader(nal: seq<Byte>)
    ensures IsIdr(nal) <==> nal != [] && nal[0] < 128 && nal[0] % 32 == 5
  {
  }

  /**
    What a packet becomes: a sequence header its SPS and then its PPS; other video its own units, behind the sets
    of the extradata when there is one and a unit is an IDR slice; anything else nothing.
   */
  lemma Becomes(t: PacketType, nals: seq<seq<Byte>>, d: seq<Byte>, extradata: seq<Byte>)
    requires t.Nalu? ==> Short(nals) && d == Avcc(nals)
    ensures var r := ToAnnexb(t, d, extradata);
            match t
            case SequenceHeader =>
              (match AvcRecord.Parse(d)
               case None => r == None
               case Some(sets) => r == Some(Annexb(sets.sps) + Annexb(sets.pps)))
            case Nalu =>
              if extradata == [] || forall i :: 0 <= i < |nals| ==> !IsIdr(nals[i]) then r == Some(Annexb(nals))
              else
                (match AvcRecord.Parse(extradata)
                 case None => r == None
                 case Some(sets) => r == Some(Annexb(sets.sps) + Annexb(sets.pps) + Annexb(nals)))
            case OtherPacket => r == Some([])
  {
    hide Annexb, Avcc, AvccNals, AvcRecord.Parse, IsIdr;
    if t.Nalu? {
      AvccRead(nals);
    }
    var record := AvcRecord.Parse(if t.Nalu? then extradata else d);
    if record.Some? {
      AnnexbAppend(record.value.sps, record.value.pps);
      AnnexbAppend(record.value.sps + record.value.pps, nals);
    }
  }
}
