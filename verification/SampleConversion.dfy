/**
  What the transport stream muxer does to a sample before it writes it: packets with lengths get start
  codes, raw audio frames get headers.
 */
module SampleConversion {
  import opened Bytes
  import opened TsStreams
  import opened NalUnits
  import opened NalFraming
  import H264Converter
  import AvcRecord
  import Adts

  datatype Format = H264Avcc | H264Annexb | AacLatm | AacAdts | OtherFormat

  /** A sample as it arrives. */
  datatype MediaSample = MediaSample(trackId: int, format: Format, data: seq<Byte>, dts: nat, pts: nat)

  /**
    The data in the form the stream wants; None where a conversion fails, and for an audio configuration of
    one byte, which no caller may pass.
   */
  function Converted(m: MediaSample, extradata: seq<Byte>): Option<seq<Byte>> {
    match m.format
    case H264Avcc => H264Converter.ToAnnexb(H264Converter.Nalu, m.data, extradata)
    case AacLatm =>
      if extradata == [] then Some(m.data)
      else if |extradata| == 1 then None
      else
        Adts.ParsedFits(extradata);
        Some(Adts.Header(Adts.ParseConfig(extradata).value, |m.data|) + m.data)
    case _ => Some(m.data)
  }

  /** The two conversions in sequence; a failed one leaves the sample as it is. */
  method Convert(m: MediaSample, extradata: seq<Byte>) returns (r: Option<seq<Byte>>)
    requires m.format.AacLatm? ==> |extradata| != 1
    ensures r == Converted(m, extradata)
  {
    hide H264Converter.ToAnnexb, Adts.ParseConfig, Adts.Header;
    var data := m.data;
    if m.format.H264Avcc? {
      var annexb := H264Converter.ConvertAvccToAnnexb(H264Converter.Nalu, data, extradata);
      if annexb.None? {
        return None;
      }
      data := annexb.value;
    }
    if m.format.AacLatm? {
      data := Adts.ConvertLatmToAdts(data, extradata);
    }
    return Some(data);
  }

  const DELIMITER_UNIT: seq<Byte> := [9, 0xF0]

  /** The units of a converted video packet: parameter sets in front of an IDR slice, then the packet's own. */
  function VideoUnits(nals: seq<seq<Byte>>, extradata: seq<Byte>): seq<seq<Byte>> {
    if extradata == [] || !H264Converter.HasIdr(nals) then nals
    else
      match AvcRecord.Parse(extradata)
      case None => nals
      case Some(r) => r.sps + r.pps + nals
  }

  /** What a scan of `written` finds of a packet: the delimiter and all its units, exactly when these are free. */
  predicate VideoIn(packet: seq<Byte>, extradata: seq<Byte>, written: seq<Byte>) {
    match AvccNals(packet)
    case None => false
    case Some(nals) =>
      var units := VideoUnits(nals, extradata);
      && (AnnexbNals(written) == [[9, 0xF0]] + units <==> AllFree(units))
      && (AllFree(units) ==> Cut(written, Units(written)) == [[9, 0xF0]] + units)
  }

  /**
    A receiver that scans what was written for a video packet finds the delimiter, the parameter sets in
    front of an IDR slice, and the units of the packet, if and only if all of these are free of start codes.
   */
  lemma VideoUnitsFound(m: MediaSample, extradata: seq<Byte>)
    requires m.format.H264Avcc? && Converted(m, extradata).Some?
    ensures VideoIn(m.data, extradata, [0, 0, 0, 1, 9, 0xF0] + Converted(m, extradata).value)
  {
    hide AnnexbNals, Annexb, AvccNals, Cut, UnitsFrom, NextCode, AllFree, H264Converter.HasIdr, AvcRecord.Parse;
    var nals := AvccNals(m.data).value;
    var units := VideoUnits(nals, extradata);
    var all := [DELIMITER_UNIT] + units;
    DelimiterIsUnit(units);
    FoundAgain(all);
    DelimiterFree(units);
    if AllFree(units) {
      FreeUnitsFound(all);
    }
  }

  lemma DelimiterIsUnit(units: seq<seq<Byte>>)
    ensures Annexb([DELIMITER_UNIT] + units) == DELIMITER + Annexb(units)
  {
    AnnexbAppend([DELIMITER_UNIT], units);
    AnnexbOne(DELIMITER_UNIT);
  }

  lemma DelimiterFree(units: seq<seq<Byte>>)
    ensures AllFree([DELIMITER_UNIT] + units) <==> AllFree(units)
  {
    var all := [DELIMITER_UNIT] + units;
    assert Free(DELIMITER_UNIT);
    assert forall i :: 0 <= i < |units| ==> units[i] == all[i + 1];
    assert forall i :: 1 <= i < |all| ==> all[i] == units[i - 1];
  }

  // ----- audio -----

  /**
    What a parser finds in `written` of an audio frame: the fields of its configuration, with only three bits of the
    channels and thirteen of the length, and the frame itself exactly when it has at most 8184 bytes.
   */
  predicate AudioIn(frame: seq<Byte>, extradata: seq<Byte>, written: seq<Byte>)
    requires 2 <= |extradata|
  {
    var objectType, rateIndex := extradata[0] / 8, extradata[0] % 8 * 2 + extradata[1] / 128;
    var profile := if objectType == 1 then 1 else if objectType in {2, 5, 29} then 2
                   else if objectType == 3 then 3 else 4;
    && (Adts.Frames(written) == Some([frame]) <==> |frame| <= 8184)
    && Adts.ParseHeader(written) ==
       Some(Adts.AdtsHeader(true, profile, rateIndex, extradata[1] / 8 % 8, (|frame| + 7) % 8192))
    && |written| == |frame| + 7 && written[7..] == frame
  }

  lemma AudioFramesFound(m: MediaSample, extradata: seq<Byte>)
    requires m.format.AacLatm? && 2 <= |extradata|
    ensures Converted(m, extradata).Some?
    ensures AudioIn(m.data, extradata, Converted(m, extradata).value)
  {
    hide Adts.Header, Adts.ParseConfig, Adts.Frames, Adts.ParseHeader, Adts.ToAdts;
    var frame := m.data;
    Adts.ParsedFits(extradata);
    Adts.ConfigBytes(extradata);
    var c := Adts.ParseConfig(extradata).value;
    Adts.HeaderRead(c, |frame|, frame);
    Adts.HeaderLength(c, |frame|);
    OneFrame(c, frame);
  }

  lemma OneFrame(c: Adts.Config, frame: seq<Byte>)
    requires Adts.ConfigFits(c)
    ensures Adts.Frames(Adts.Header(c, |frame|) + frame) == Some([frame]) <==> |frame| <= 8184
  {
    hide Adts.Header, Adts.Frames;
    var adts := Adts.ToAdts(c, [frame]);
    assert [frame][1..] == [] && Adts.ToAdts(c, []) == [];
    AppendNothing(Adts.Header(c, |frame|) + frame);
    if |frame| <= 8184 {
      Adts.FramesBack(c, [frame]);
    } else if Adts.Frames(adts).Some? {
      assert !Adts.AllShort([frame]) by { assert |[frame][0]| > 8184; }
      Adts.LongIsLost(c, [frame]);
    }
  }
}
