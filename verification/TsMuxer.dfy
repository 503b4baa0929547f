/**
  The transport stream muxer: tracks and their PIDs, the two tables, and runs over several tracks.
 */
module TsMuxer {
  import opened Bytes
  import opened BitFields
  import opened BitWriters
  import opened TsPackets
  import opened TsStreams
  import opened Crc
  import opened SampleConversion
  import Psi

  // ----- tracks -----

  datatype Track = Track(id: int, kind: Kind, extradata: seq<Byte>)

  /** A track that got a stream. */
  datatype Assigned = Assigned(id: int, kind: Kind, pid: nat)

  const AUDIO_PID: nat := 0x101
  const VIDEO_PID: nat := 0x201

  /** The map of tracks in key order; a track id that is there already is kept. */
  function Inserted(tracks: seq<Track>, t: Track): seq<Track> {
    if tracks == [] || t.id < tracks[0].id then [t] + tracks
    else if t.id == tracks[0].id then tracks
    else [tracks[0]] + Inserted(tracks[1..], t)
  }

  /** The streams of the supported tracks, each kind numbered on from its first PID. */
  function Assign(tracks: seq<Track>, audio: nat, video: nat): seq<Assigned> {
    if tracks == [] then []
    else
      var t, rest := tracks[0], tracks[1..];
      match t.kind
      case Aac => [Assigned(t.id, Aac, audio)] + Assign(rest, audio + 1, video)
      case H264 => [Assigned(t.id, H264, video)] + Assign(rest, audio, video + 1)
      case Unsupported => Assign(rest, audio, video)
  }

  /** As long as the audio PIDs do not run into the video ones, every stream has its own. */
  lemma {:induction false} AssignDistinct(tracks: seq<Track>, audio: nat, video: nat)
    requires AUDIO_PID <= audio && VIDEO_PID <= video && audio + |Assign(tracks, audio, video)| <= VIDEO_PID
    ensures var a := Assign(tracks, audio, video);
            && (forall i :: 0 <= i < |a| ==>
                  audio <= a[i].pid < VIDEO_PID || video <= a[i].pid < video + |a|)
            && (forall i, j :: 0 <= i < j < |a| ==> a[i].pid != a[j].pid)
  {
    if tracks != [] {
      var t, rest := tracks[0], tracks[1..];
      match t.kind {
        case Aac => AssignDistinct(rest, audio + 1, video);
        case H264 => AssignDistinct(rest, audio, video + 1);
        case Unsupported => AssignDistinct(rest, audio, video);
      }
    }
  }

  function Find(tracks: seq<Track>, id: int): Option<Track> {
    if tracks == [] then None
    else if tracks[0].id == id then Some(tracks[0])
    else Find(tracks[1..], id)
  }

  function Position(streams: seq<Assigned>, id: int): (i: nat)
    ensures i <= |streams|
    ensures i < |streams| ==> streams[i].id == id
  {
    if streams == [] || streams[0].id == id then 0 else 1 + Position(streams[1..], id)
  }

  /** A supported track has a stream of its kind. */
  lemma {:induction false} SupportedHasStream(tracks: seq<Track>, audio: nat, video: nat, id: int)
    requires Find(tracks, id).Some? && Find(tracks, id).value.kind != Unsupported
    ensures var a := Assign(tracks, audio, video);
            Position(a, id) < |a|
  {
    var t, rest := tracks[0], tracks[1..];
    if t.id != id {
      match t.kind {
        case Aac => SupportedHasStream(rest, audio + 1, video, id);
        case H264 => SupportedHasStream(rest, audio, video + 1, id);
        case Unsupported => SupportedHasStream(rest, audio, video, id);
      }
    }
  }

  // ----- what the map holds -----

  /** Ids go up, as in the engine's map. */
  predicate Sorted(tracks: seq<Track>) {
    forall i, j :: 0 <= i < j < |tracks| ==> tracks[i].id < tracks[j].id
  }

  lemma {:induction false} SmallerIsAbsent(tracks: seq<Track>, id: int)
    requires Sorted(tracks) && (tracks == [] || id < tracks[0].id)
    ensures Find(tracks, id).None?
  {
    if tracks != [] {
      SmallerIsAbsent(tracks[1..], id);
    }
  }

  /** A new id gets the track, an id that is taken keeps its own, and every other id stays as it was. */
  lemma {:induction false} InsertedFinds(tracks: seq<Track>, t: Track, id: int)
    requires Sorted(tracks)
    ensures Sorted(Inserted(tracks, t))
    ensures Find(Inserted(tracks, t), id) ==
            if id == t.id && Find(tracks, id).None? then Some(t) else Find(tracks, id)
  {
    if tracks != [] && tracks[0].id < t.id {
      InsertedFinds(tracks[1..], t, id);
      InsertedAbove(tracks[1..], t, tracks[0].id);
    } else if tracks == [] || t.id < tracks[0].id {
      SmallerIsAbsent(tracks, t.id);
      assert ([t] + tracks)[1..] == tracks;
    }
  }

  lemma {:induction false} InsertedAbove(tracks: seq<Track>, t: Track, id: int)
    requires id < t.id && forall i :: 0 <= i < |tracks| ==> id < tracks[i].id
    ensures forall i :: 0 <= i < |Inserted(tracks, t)| ==> id < Inserted(tracks, t)[i].id
  {
    if tracks != [] && tracks[0].id < t.id {
      InsertedAbove(tracks[1..], t, id);
    }
  }

  /** What is found under every id determines the tracks. */
  lemma {:induction false} FoundDetermine(a: seq<Track>, b: seq<Track>)
    requires Sorted(a) && Sorted(b) && forall id :: Find(a, id) == Find(b, id)
    ensures a == b
  {
    if a == [] || b == [] {
      assert a != [] ==> Find(a, a[0].id) == Find(b, a[0].id);
      assert b != [] ==> Find(a, b[0].id) == Find(b, b[0].id);
    } else {
      assert Find(a, a[0].id) == Find(b, a[0].id) && Find(a, b[0].id) == Find(b, b[0].id);
      if a[0].id < b[0].id { SmallerIsAbsent(b, a[0].id); }
      if b[0].id < a[0].id { SmallerIsAbsent(a, b[0].id); }
      SmallerIsAbsent(a[1..], a[0].id);
      SmallerIsAbsent(b[1..], a[0].id);
      assert forall id :: Find(a, id) == if id == a[0].id then Some(a[0]) else Find(a[1..], id);
      FoundDetermine(a[1..], b[1..]);
      assert a == [a[0]] + a[1..] && b == [b[0]] + b[1..];
    }
  }

  function AllInserted(tracks: seq<Track>): seq<Track> {
    if tracks == [] then [] else Inserted(AllInserted(tracks[..|tracks| - 1]), tracks[|tracks| - 1])
  }

  lemma {:induction false} FindAppend(tracks: seq<Track>, t: Track, id: int)
    ensures Find(tracks + [t], id) ==
            if Find(tracks, id).None? && t.id == id then Some(t) else Find(tracks, id)
  {
    if tracks != [] {
      FindAppend(tracks[1..], t, id);
      assert (tracks + [t])[1..] == tracks[1..] + [t];
    }
  }

  /** Of the tracks that were given, every id has the first one with it. */
  lemma {:induction false} FirstIsKept(tracks: seq<Track>)
    ensures Sorted(AllInserted(tracks))
    ensures forall id :: Find(AllInserted(tracks), id) == Find(tracks, id)
  {
    if tracks != [] {
      var init, t := tracks[..|tracks| - 1], tracks[|tracks| - 1];
      FirstIsKept(init);
      forall id
        ensures Sorted(AllInserted(tracks)) && Find(AllInserted(tracks), id) == Find(tracks, id)
      {
        InsertedFinds(AllInserted(init), t, id);
        FindAppend(init, t, id);
        assert tracks == init + [t];
      }
      assert Find(AllInserted(tracks), 0) == Find(tracks, 0);
    }
  }

  /** An id whose first track is of a kind the engine has a stream for. */
  predicate Supported(tracks: seq<Track>, id: int) {
    Find(tracks, id).Some? && Find(tracks, id).value.kind != Unsupported
  }

  function SupportedIds(tracks: seq<Track>): set<int> {
    set t | t in tracks && Supported(tracks, t.id) :: t.id
  }

  /** How many streams of a kind there are. */
  function OfKind(streams: seq<Assigned>, kind: Kind): nat {
    if streams == [] then 0 else (if streams[0].kind == kind then 1 else 0) + OfKind(streams[1..], kind)
  }

  function FirstPid(kind: Kind, audio: nat, video: nat): nat {
    if kind == Aac then audio else video
  }

  predicate IdsRise(streams: seq<Assigned>) {
    forall i, j :: 0 <= i < j < |streams| ==> streams[i].id < streams[j].id
  }

  predicate HasId(streams: seq<Assigned>, id: int) {
    exists i :: 0 <= i < |streams| && streams[i].id == id
  }

  ghost predicate Covers(tracks: seq<Track>, streams: seq<Assigned>) {
    forall id :: HasId(streams, id) <==> Supported(tracks, id)
  }

  predicate SameKinds(tracks: seq<Track>, streams: seq<Assigned>) {
    forall i :: 0 <= i < |streams| ==>
      Find(tracks, streams[i].id).Some? && Find(tracks, streams[i].id).value.kind == streams[i].kind
  }

  predicate Numbered(streams: seq<Assigned>, audio: nat, video: nat) {
    forall i :: 0 <= i < |streams| ==>
      streams[i].pid == FirstPid(streams[i].kind, audio, video) + OfKind(streams[..i], streams[i].kind)
  }

  /**
    The streams for the tracks that were given: one for every id whose first track is supported, of that track's kind,
    in the order of the ids, each kind numbered on from its first PID.
   */
  ghost predicate Chosen(tracks: seq<Track>, streams: seq<Assigned>, audio: nat, video: nat) {
    IdsRise(streams) && Covers(tracks, streams) && SameKinds(tracks, streams) && Numbered(streams, audio, video)
  }

  /** Ids behind the first track are larger. */
  lemma LaterIsLarger(tracks: seq<Track>, id: int)
    requires Sorted(tracks) && tracks != [] && Find(tracks[1..], id).Some?
    ensures tracks[0].id < id && Find(tracks, id) == Find(tracks[1..], id)
  {
    if id <= tracks[0].id {
      SmallerIsAbsent(tracks[1..], id);
    }
  }

  lemma ChosenSkip(tracks: seq<Track>, streams: seq<Assigned>, audio: nat, video: nat)
    requires Sorted(tracks) && tracks != [] && tracks[0].kind == Unsupported
    requires Chosen(tracks[1..], streams, audio, video)
    ensures Chosen(tracks, streams, audio, video)
  {
    forall id
      ensures Supported(tracks, id) <==> Supported(tracks[1..], id)
      ensures Find(tracks[1..], id).Some? ==> Find(tracks, id) == Find(tracks[1..], id)
    {
      if Find(tracks[1..], id).Some? {
        LaterIsLarger(tracks, id);
      }
    }
  }

  lemma NumberedFirst(s: Assigned, more: seq<Assigned>, audio: nat, video: nat)
    requires s.kind != Unsupported && s.pid == FirstPid(s.kind, audio, video)
    requires forall i :: 0 <= i < |more| ==> more[i].kind != Unsupported
    requires Numbered(more, audio + if s.kind == Aac then 1 else 0, video + if s.kind == H264 then 1 else 0)
    ensures Numbered([s] + more, audio, video)
  {
    var all := [s] + more;
    forall i | 0 <= i < |all|
      ensures all[i].pid == FirstPid(all[i].kind, audio, video) + OfKind(all[..i], all[i].kind)
    {
      if i > 0 {
        assert all[i] == more[i - 1] && all[..i][1..] == more[..i - 1];
      }
    }
  }

  lemma CoversFirst(tracks: seq<Track>, s: Assigned, more: seq<Assigned>)
    requires Sorted(tracks) && tracks != [] && tracks[0].kind != Unsupported && s.id == tracks[0].id
    requires Covers(tracks[1..], more)
    ensures Covers(tracks, [s] + more)
  {
    var all, rest := [s] + more, tracks[1..];
    forall id
      ensures HasId(all, id) <==> Supported(tracks, id)
    {
      if id == s.id {
        assert all[0].id == id;
      } else {
        assert forall i :: 0 <= i < |more| ==> all[i + 1] == more[i];
        assert HasId(all, id) <==> HasId(more, id);
        assert Supported(tracks, id) <==> Supported(rest, id);
      }
    }
  }

  lemma ChosenFirst(tracks: seq<Track>, s: Assigned, more: seq<Assigned>, audio: nat, video: nat)
    requires Sorted(tracks) && tracks != [] && tracks[0].kind != Unsupported
    requires s == Assigned(tracks[0].id, tracks[0].kind, FirstPid(tracks[0].kind, audio, video))
    requires Chosen(tracks[1..], more, audio + if s.kind == Aac then 1 else 0, video + if s.kind == H264 then 1 else 0)
    ensures Chosen(tracks, [s] + more, audio, video)
  {
    hide Numbered, Find;
    CoversFirst(tracks, s, more);
    forall i | 0 <= i < |more|
      ensures s.id < more[i].id && Find(tracks, more[i].id) == Find(tracks[1..], more[i].id)
      ensures more[i].kind != Unsupported
    {
      LaterIsLarger(tracks, more[i].id);
      assert Supported(tracks[1..], more[i].id);
    }
    NumberedFirst(s, more, audio, video);
    assert Find(tracks, s.id) == Some(tracks[0]) by { FoundFirst(tracks); }
  }

  lemma FoundFirst(tracks: seq<Track>)
    requires tracks != []
    ensures Find(tracks, tracks[0].id) == Some(tracks[0])
  {
  }

  lemma {:induction false} AssignChooses(tracks: seq<Track>, audio: nat, video: nat)
    requires Sorted(tracks)
    ensures Chosen(tracks, Assign(tracks, audio, video), audio, video)
  {
    if tracks != [] {
      var t, rest := tracks[0], tracks[1..];
      SmallerIsAbsent(rest, t.id);
      match t.kind {
        case Aac =>
          AssignChooses(rest, audio + 1, video);
          ChosenFirst(tracks, Assigned(t.id, Aac, audio), Assign(rest, audio + 1, video), audio, video);
        case H264 =>
          AssignChooses(rest, audio, video + 1);
          ChosenFirst(tracks, Assigned(t.id, H264, video), Assign(rest, audio, video + 1), audio, video);
        case Unsupported =>
          AssignChooses(rest, audio, video);
          ChosenSkip(tracks, Assign(rest, audio, video), audio, video);
      }
    }
  }

  lemma {:induction false} CountIds(streams: seq<Assigned>, ids: set<int>)
    requires IdsRise(streams) && forall id :: HasId(streams, id) <==> id in ids
    ensures |streams| == |ids|
  {
    if streams == [] {
      forall id
        ensures id !in ids
      {
        assert HasId(streams, id) <==> id in ids;
      }
      assert ids == {};
    } else {
      var init, last := streams[..|streams| - 1], streams[|streams| - 1];
      assert HasId(streams, last.id) by { assert streams[|streams| - 1].id == last.id; }
      forall id
        ensures HasId(init, id) <==> id in ids - {last.id}
      {
        assert HasId(streams, id) <==> id in ids;
        if i :| 0 <= i < |streams| && streams[i].id == id {
          assert i < |init| ==> init[i] == streams[i];
        }
      }
      CountIds(init, ids - {last.id});
    }
  }

  /** The streams for any tracks that were given, and how many there are. */
  lemma GivenTracksChoose(tracks: seq<Track>, audio: nat, video: nat)
    ensures var streams := Assign(AllInserted(tracks), audio, video);
            Chosen(tracks, streams, audio, video) && |streams| == |SupportedIds(tracks)|
  {
    hide Find, Numbered, IdsRise, AllInserted, HasId;
    var streams := Assign(AllInserted(tracks), audio, video);
    FirstIsKept(tracks);
    AssignChooses(AllInserted(tracks), audio, video);
    forall id
      ensures HasId(streams, id) <==> Supported(tracks, id)
      ensures Supported(tracks, id) <==> id in SupportedIds(tracks)
    {
      assert Supported(AllInserted(tracks), id) <==> Supported(tracks, id);
      if Supported(tracks, id) {
        FoundIsGiven(tracks, id);
      }
    }
    CountIds(streams, SupportedIds(tracks));
  }

  lemma {:induction false} FoundIsGiven(tracks: seq<Track>, id: int)
    requires Find(tracks, id).Some?
    ensures Find(tracks, id).value in tracks && Find(tracks, id).value.id == id
  {
    if tracks[0].id != id {
      FoundIsGiven(tracks[1..], id);
    }
  }

  // ----- tables -----

  function Groups(groups: seq<seq<Field>>): seq<Byte> {
    if groups == [] then [] else Groups(groups[..|groups| - 1]) + Group(groups[|groups| - 1])
  }

  predicate WholeGroups(groups: seq<seq<Field>>) {
    forall i :: 0 <= i < |groups| ==> Writable(groups[i]) && Total(Widths(groups[i])) % 8 == 0
  }

  /** The pointer, the fields of a section, its CRC, and stuffing. */
  method BuildUnit(groups: seq<seq<Field>>) returns (unit: seq<Byte>)
    requires WholeGroups(groups) && |Groups(groups)| + 5 <= PAYLOAD_SIZE
    ensures unit == Psi.Unit(Groups(groups))
  {
    hide BitWriter.Written, Group, BytesBits, Divide, CrcBytes, Writable, Total, Widths, Pack;
    var writer := new BitWriter(1024);
    NoBytes();
    PointerGroup();
    writer.WriteGroup([Field(8, 0)], []);
    assert groups[..0] == [] && [] + [0] == [0] + Groups([]) == [0];
    for i := 0 to |groups|
      invariant writer.Valid() && fresh(writer.data) && writer.data.Length == 1024
      invariant writer.Written() == BytesBits([0] + Groups(groups[..i]))
    {
      assert groups[..i + 1][..i] == groups[..i];
      GroupsPrefix(groups, i + 1);
      GroupSize(groups[i]);
      writer.WriteGroup(groups[i], [0] + Groups(groups[..i]));
      assert [0] + Groups(groups[..i]) + Group(groups[i]) == [0] + Groups(groups[..i + 1]);
    }
    assert groups[..|groups|] == groups;
    ghost var section := Groups(groups);
    PackUnpack([0] + section);
    var data := writer.GetData();
    assert data[1..] == section;
    var crc := ComputeCRC(data[1..]);
    CrcGroup(crc);
    writer.WriteGroup([Field(32, ReadBE(CrcBytes(crc)))], [0] + section);
    PackUnpack([0] + section + CrcBytes(crc));
    data := writer.GetData();
    unit := data + Stuffing(PAYLOAD_SIZE - |data|);
  }

  lemma GroupsPrefix(groups: seq<seq<Field>>, i: nat)
    requires i <= |groups|
    ensures |Groups(groups[..i])| <= |Groups(groups)|
    decreases |groups|
  {
    if i < |groups| {
      GroupsPrefix(groups[..|groups| - 1], i);
      assert groups[..|groups| - 1][..i] == groups[..i];
    } else {
      assert groups[..i] == groups;
    }
  }

  lemma PointerGroup()
    ensures Writable([Field(8, 0)]) && Total(Widths([Field(8, 0)])) == 8 && Group([Field(8, 0)]) == [0]
  {
    hide Group;
    NumberGroup([0]);
    assert ReadBE([0]) == 0;
    FieldBitsOne(Field(8, 0));
    FieldBitsLength([Field(8, 0)]);
  }

  lemma CrcGroup(crc: bv32)
    ensures var fields := [Field(32, ReadBE(CrcBytes(crc)))];
            Writable(fields) && Total(Widths(fields)) == 32 && Group(fields) == CrcBytes(crc)
  {
    hide Group, CrcBytes;
    NumberGroup(CrcBytes(crc));
    ReadBEBound(CrcBytes(crc));
    Pow256Values();
    FieldBitsOne(Field(32, ReadBE(CrcBytes(crc))));
    FieldBitsLength([Field(32, ReadBE(CrcBytes(crc)))]);
  }

  lemma {:induction false} GroupsAppend(a: seq<seq<Field>>, b: seq<seq<Field>>)
    ensures Groups(a + b) == Groups(a) + Groups(b)
  {
    hide Group, Groups;
    if b == [] {
      AppendNothing(a);
      AppendNothing(Groups(a));
      NoGroups();
    } else {
      var init, last := b[..|b| - 1], b[|b| - 1];
      assert a + b == (a + init) + [last] && b == init + [last];
      GroupsAppend(a, init);
      GroupsOne(a + init, last);
      GroupsOne(init, last);
      AppendTwice(Groups(a), Groups(init), Group(last));
    }
  }

  lemma NoGroups()
    ensures Groups([]) == []
  {
  }

  lemma GroupsOne(groups: seq<seq<Field>>, last: seq<Field>)
    ensures Groups(groups + [last]) == Groups(groups) + Group(last)
  {
    hide Group;
    assert (groups + [last])[..|groups|] == groups;
  }

  lemma ThreeGroups(a: seq<Field>, b: seq<Field>, c: seq<Field>)
    ensures Groups([a, b, c]) == Group(a) + Group(b) + Group(c)
  {
    hide Group;
    assert [a, b, c][..2] == [a, b] && [a, b][..1] == [a] && [a][..0] == [];
    assert Groups([a]) == Groups([]) + Group(a) == Group(a);
    assert Groups([a, b]) == Groups([a]) + Group(b);
  }

  function PatGroups(): seq<seq<Field>> {
    [Psi.HeadFields(Psi.PAT_ID, 13), Psi.TableFields(), Psi.ProgramFields(Psi.PMT_PID)]
  }

  lemma PatGroupsFit()
    ensures WholeGroups(PatGroups()) && Groups(PatGroups()) == Psi.PatSection()
  {
    hide Group;
    Psi.Totals();
    assert Widths(PatGroups()[0]) == Psi.HEAD_WIDTHS;
    assert Widths(PatGroups()[1]) == Psi.TABLE_WIDTHS;
    assert Widths(PatGroups()[2]) == Psi.PROGRAM_WIDTHS;
    ThreeGroups(PatGroups()[0], PatGroups()[1], PatGroups()[2]);
  }

  function StreamFieldGroups(infos: seq<Psi.StreamInfo>): seq<seq<Field>> {
    seq(|infos|, i requires 0 <= i < |infos| => Psi.StreamFields(infos[i]))
  }

  function PmtGroups(length: nat, pcrPid: Pid, infos: seq<Psi.StreamInfo>): seq<seq<Field>> {
    [Psi.HeadFields(Psi.PMT_ID, length), Psi.TableFields(), Psi.PcrPidFields(pcrPid)] + StreamFieldGroups(infos)
  }

  lemma {:induction false} StreamGroupsAgree(infos: seq<Psi.StreamInfo>)
    ensures Groups(StreamFieldGroups(infos)) == Psi.StreamGroups(infos)
  {
    hide Group, Psi.StreamFields;
    if infos != [] {
      var first := Psi.StreamFields(infos[0]);
      StreamGroupsAgree(infos[1..]);
      assert StreamFieldGroups(infos) == [first] + StreamFieldGroups(infos[1..]);
      GroupsAppend([first], StreamFieldGroups(infos[1..]));
      assert Groups([first]) == Group(first) by { assert Groups([first][..0]) == []; }
    }
  }

  lemma PmtGroupsFit(infos: seq<Psi.StreamInfo>)
    requires Psi.PmtLength(infos) + 4 <= PAYLOAD_SIZE
    ensures var groups := PmtGroups(Psi.PmtLength(infos), Psi.PcrPid(infos), infos);
            WholeGroups(groups) && Groups(groups) == Psi.PmtSection(infos)
  {
    hide Group, Groups;
    var groups := PmtGroups(Psi.PmtLength(infos), Psi.PcrPid(infos), infos);
    PmtHeadFits(Psi.PmtLength(infos), Psi.PcrPid(infos));
    forall i | 0 <= i < |infos|
      ensures Writable(Psi.StreamFields(infos[i])) && Total(Widths(Psi.StreamFields(infos[i]))) == 40
    {
      StreamFits(infos[i]);
    }
    ThreeGroups(groups[0], groups[1], groups[2]);
    StreamGroupsAgree(infos);
    GroupsAppend([groups[0], groups[1], groups[2]], StreamFieldGroups(infos));
  }

  lemma PmtHeadFits(length: nat, pcrPid: Pid)
    requires length < 0x1000
    ensures WholeGroups([Psi.HeadFields(Psi.PMT_ID, length), Psi.TableFields(), Psi.PcrPidFields(pcrPid)])
  {
    Psi.Totals();
    assert Widths(Psi.HeadFields(Psi.PMT_ID, length)) == Psi.HEAD_WIDTHS;
    assert Widths(Psi.TableFields()) == Psi.TABLE_WIDTHS;
    assert Widths(Psi.PcrPidFields(pcrPid)) == Psi.PCR_PID_WIDTHS;
  }

  lemma StreamFits(info: Psi.StreamInfo)
    ensures Writable(Psi.StreamFields(info)) && Total(Widths(Psi.StreamFields(info))) == 40
  {
    Psi.Totals();
    assert Widths(Psi.StreamFields(info)) == Psi.STREAM_WIDTHS;
  }

  method BuildPat() returns (unit: seq<Byte>)
    ensures unit == Psi.PatUnit()
  {
    hide Groups, Psi.Unit;
    PatGroupsFit();
    Psi.PatRead();
    unit := BuildUnit(PatGroups());
  }

  method BuildPmt(length: nat, pcrPid: Pid, infos: seq<Psi.StreamInfo>) returns (unit: seq<Byte>)
    requires |infos| <= 33 && length == Psi.PmtLength(infos) && pcrPid == Psi.PcrPid(infos)
    ensures unit == Psi.PmtUnit(infos)
  {
    hide Groups, Psi.Unit;
    PmtGroupsFit(infos);
    Psi.PmtRead(infos);
    unit := BuildUnit(PmtGroups(length, pcrPid, infos));
  }

  // ----- runs -----

  /** What a sample adds to the stream; a sample of an unknown track adds nothing. */
  function SampleEvents(streams: seq<Assigned>, s: Sample): seq<Event> {
    var i := Position(streams, s.trackId);
    if i < |streams| && streams[i].pid < 0x2000
    then [Unit(streams[i].pid, PesUnit(streams[i].kind, s), Some(Clock(s.dts)))]
    else []
  }

  function AllSampleEvents(streams: seq<Assigned>, samples: seq<Sample>): seq<Event> {
    if samples == [] then []
    else AllSampleEvents(streams, samples[..|samples| - 1]) + SampleEvents(streams, samples[|samples| - 1])
  }

  lemma OneSample(streams: seq<Assigned>, s: Sample)
    ensures AllSampleEvents(streams, [s]) == SampleEvents(streams, s)
  {
    assert [s][..0] == [] && [] + SampleEvents(streams, s) == SampleEvents(streams, s);
  }

  lemma {:induction false} AllEventsAppend(streams: seq<Assigned>, a: seq<Sample>, b: seq<Sample>)
    ensures AllSampleEvents(streams, a + b) == AllSampleEvents(streams, a) + AllSampleEvents(streams, b)
  {
    hide SampleEvents, AllSampleEvents;
    if b == [] {
      AppendNothing(a);
      AppendNothing(AllSampleEvents(streams, a));
      NoSampleEvents(streams);
    } else {
      var init, last := b[..|b| - 1], b[|b| - 1];
      assert a + b == (a + init) + [last] && b == init + [last];
      AllEventsAppend(streams, a, init);
      AllEventsOne(streams, a + init, last);
      AllEventsOne(streams, init, last);
      AppendTwice(AllSampleEvents(streams, a), AllSampleEvents(streams, init), SampleEvents(streams, last));
    }
  }

  lemma NoSampleEvents(streams: seq<Assigned>)
    ensures AllSampleEvents(streams, []) == []
  {
  }

  lemma AllEventsOne(streams: seq<Assigned>, samples: seq<Sample>, last: Sample)
    ensures AllSampleEvents(streams, samples + [last]) ==
            AllSampleEvents(streams, samples) + SampleEvents(streams, last)
  {
    hide SampleEvents;
    assert (samples + [last])[..|samples|] == samples;
  }

  /**
    What a caller owes: a known track is supported, an audio configuration is not a single byte, and the
    sample stays small.
   */
  predicate Acceptable(tracks: seq<Track>, m: MediaSample) {
    match Find(tracks, m.trackId)
    case None => true
    case Some(t) =>
      && t.kind != Unsupported && (m.format.AacLatm? ==> |t.extradata| != 1)
      && (Converted(m, t.extradata).Some? ==> |Converted(m, t.extradata).value| < WRAP - 25)
  }

  predicate AllAcceptable(tracks: seq<Track>, samples: seq<MediaSample>) {
    forall i :: 0 <= i < |samples| ==> Acceptable(tracks, samples[i])
  }

  /** The sample that is written for `m`: none for an unknown track and none where the conversion fails. */
  function Ready(tracks: seq<Track>, m: MediaSample): seq<Sample> {
    match Find(tracks, m.trackId)
    case None => []
    case Some(t) =>
      match Converted(m, t.extradata)
      case None => []
      case Some(data) => [Sample(m.trackId, data, m.dts, m.pts)]
  }

  function AllReady(tracks: seq<Track>, samples: seq<MediaSample>): seq<Sample> {
    if samples == [] then []
    else AllReady(tracks, samples[..|samples| - 1]) + Ready(tracks, samples[|samples| - 1])
  }

  /** A sample's payload unit and its clock. */
  function DeliveryOf(kind: Kind, s: Sample): Delivery {
    Delivery(SeenClock(Some(Clock(s.dts))), PesUnit(kind, s))
  }

  /** The samples that go to stream `i`, in order. */
  function SamplesOf(streams: seq<Assigned>, i: nat, samples: seq<Sample>): seq<Sample> {
    if samples == [] then []
    else
      var s := samples[|samples| - 1];
      SamplesOf(streams, i, samples[..|samples| - 1]) + if Position(streams, s.trackId) == i then [s] else []
  }

  function Deliveries(kind: Kind, samples: seq<Sample>): seq<Delivery> {
    seq(|samples|, i requires 0 <= i < |samples| => DeliveryOf(kind, samples[i]))
  }

  /** The payload units of the samples that go to stream `i`, in order. */
  function UnitsOf(streams: seq<Assigned>, i: nat, samples: seq<Sample>): seq<Delivery>
    requires i < |streams|
  {
    Deliveries(streams[i].kind, SamplesOf(streams, i, samples))
  }

  lemma UnitsOfOne(streams: seq<Assigned>, i: nat, samples: seq<Sample>)
    requires i < |streams| && samples != []
    ensures var init, s := samples[..|samples| - 1], samples[|samples| - 1];
            UnitsOf(streams, i, samples) ==
            UnitsOf(streams, i, init)
            + if Position(streams, s.trackId) == i then [DeliveryOf(streams[i].kind, s)] else []
  {
    hide Position, DeliveryOf, Deliveries;
    var init, s := samples[..|samples| - 1], samples[|samples| - 1];
    DeliveriesOne(streams[i].kind, SamplesOf(streams, i, init), s);
    AppendNothing(SamplesOf(streams, i, init));
    AppendNothing(UnitsOf(streams, i, init));
  }

  lemma DeliveriesOne(kind: Kind, samples: seq<Sample>, s: Sample)
    ensures Deliveries(kind, samples + [s]) == Deliveries(kind, samples) + [DeliveryOf(kind, s)]
  {
    hide DeliveryOf;
  }

  predicate DistinctPids(streams: seq<Assigned>) {
    && (forall i :: 0 <= i < |streams| ==> Psi.PMT_PID < streams[i].pid < 0x2000)
    && forall i, j :: 0 <= i < j < |streams| ==> streams[i].pid != streams[j].pid
  }

  lemma GivenSample(streams: seq<Assigned>, events: seq<Event>, s: Sample, pid: nat)
    requires DistinctPids(streams)
    ensures var i := Position(streams, s.trackId);
            Given(events + SampleEvents(streams, s), pid) ==
            Given(events, pid) + if i < |streams| && streams[i].pid == pid then [DeliveryOf(streams[i].kind, s)] else []
  {
    hide PesUnit, Clock, SeenClock;
    if SampleEvents(streams, s) == [] {
      assert events + [] == events;
    } else {
      GivenOne(events, SampleEvents(streams, s)[0], pid);
    }
  }

  /** Behind two tables, the samples of every stream are what its PID was given, and the table PIDs get nothing more. */
  lemma {:induction false} GivenSamples(streams: seq<Assigned>, events: seq<Event>, samples: seq<Sample>, i: nat)
    requires DistinctPids(streams) && i < |streams|
    ensures var all := events + AllSampleEvents(streams, samples);
            && Given(all, streams[i].pid) == Given(events, streams[i].pid) + UnitsOf(streams, i, samples)
            && Given(all, 0) == Given(events, 0) && Given(all, Psi.PMT_PID) == Given(events, Psi.PMT_PID)
  {
    hide Given, SampleEvents, PesUnit, Position, UnitsOf;
    if samples == [] {
      assert events + [] == events && UnitsOf(streams, i, []) == [] by { NoUnitsOf(streams, i); }
    } else {
      var init, s := samples[..|samples| - 1], samples[|samples| - 1];
      UnitsOfOne(streams, i, samples);
      GivenSamples(streams, events, init, i);
      var before := events + AllSampleEvents(streams, init);
      GivenSample(streams, before, s, streams[i].pid);
      GivenSample(streams, before, s, 0);
      GivenSample(streams, before, s, Psi.PMT_PID);
      assert before + SampleEvents(streams, s) == events + AllSampleEvents(streams, samples);
    }
  }

  lemma NoUnitsOf(streams: seq<Assigned>, i: nat)
    requires i < |streams|
    ensures UnitsOf(streams, i, []) == []
  {
  }

  lemma FilledOn(events: seq<Event>, e: Event)
    requires AllFilled(events) && (e.Unit? ==> e.bytes != [])
    ensures AllFilled(events + [e])
  {
  }

  lemma WholeUnit(pid: Pid, n: nat, unit: seq<Byte>)
    requires |unit| == PAYLOAD_SIZE
    ensures |Chop(pid, n, true, unit, None)| == 1
    ensures StreamBytes(Chop(pid, n, true, unit, None)) == RawBytes(Raw(pid, true, n, None, unit))
  {
    hide StreamBytes, RawBytes;
    ChopOne(pid, n, true, unit, 0, None);
    assert unit[0..] == unit && unit[..PAYLOAD_SIZE] == unit;
    ChopNone(pid, n + 1, false, unit[PAYLOAD_SIZE..], None);
  }

  /** The table streams come first, and no two streams are the same object or have the same PID. */
  ghost predicate Apart(ids: seq<int>, all: seq<Stream>) {
    && |all| == 2 + |ids| && all[0].pid == 0 && all[1].pid == Psi.PMT_PID
    && forall i, j :: 0 <= i < j < |all| ==> all[i] != all[j] && all[i].pid != all[j].pid
  }

  /** Different objects that have written nothing yet. */
  ghost predicate Unused(all: seq<Stream>)
    reads all
  {
    && (forall j :: 0 <= j < |all| ==> all[j].counter == 0)
    && forall j, k :: 0 <= j < k < |all| ==> all[j] != all[k]
  }

  /** The PID of every track that has a stream. */
  function Assignment(ids: seq<int>, all: seq<Stream>): (a: seq<Assigned>)
    requires |all| == 2 + |ids|
  {
    seq(|ids|, i requires 0 <= i < |ids| => Assigned(ids[i], all[2 + i].kind, all[2 + i].pid))
  }

  /** Every supported track has its stream, and the table of them fits a packet. */
  predicate Opened(tracks: seq<Track>, ids: seq<int>, all: seq<Stream>) {
    |all| == 2 + |ids| && Assignment(ids, all) == Assign(tracks, AUDIO_PID, VIDEO_PID) && 0 < |ids| <= 33
  }

  function Infos(all: seq<Stream>): (infos: seq<Psi.StreamInfo>)
    requires 2 <= |all|
  {
    seq(|all| - 2, i requires 0 <= i < |all| - 2 => Psi.StreamInfo(all[2 + i].streamType, all[2 + i].pid))
  }

  /** The tracks, the streams they got behind the two table streams, and the output. */
  class Muxer {
    var tracks: seq<Track>
    var ids: seq<int>
    var all: seq<Stream>
    var output: ByteLog
    ghost var events: seq<Event>

    constructor ()
      ensures Valid() && ids == [] && tracks == [] && events == [] && fresh(all) && fresh(output)
    {
      hide Packets, StreamBytes, Count, Wrapped, Assign;
      var pat := new Stream(0, Unsupported);
      var pmt := new Stream(Psi.PMT_PID, Unsupported);
      all := [pat, pmt];
      output := new ByteLog();
      tracks, ids, events := [], [], [];
      new;
      FirstCounters();
      NothingWritten();
    }

    /** Every stream's counter is the number of packets it has. */
    ghost predicate Counted()
      reads this, all
    {
      forall i :: 0 <= i < |all| ==> all[i].counter == Wrapped(Count(Packets(events), all[i].pid))
    }

    /** The output is the packets of everything written so far. */
    ghost predicate Valid()
      reads this, output, all
    {
      && Sorted(tracks) && Apart(ids, all) && Counted() && AllFilled(events)
      && output.bytes == StreamBytes(Packets(events))
    }

    /** Records the event a stream has just written. */
    ghost method Record(k: nat, e: Event, was: seq<nat>)
      requires k < |all| == |was| && all[k].pid == e.pid && (e.Unit? ==> e.bytes != [])
      requires Sorted(tracks) && Apart(ids, all) && AllFilled(events)
      requires forall i :: 0 <= i < |all| ==> was[i] == Wrapped(Count(Packets(events), all[i].pid))
      requires forall i :: 0 <= i < |all| && i != k ==> all[i].counter == was[i]
      requires var n := Count(Packets(events), e.pid);
               all[k].counter == Wrapped(n + |Emit(e, n)|) &&
               output.bytes == StreamBytes(Packets(events)) + StreamBytes(Emit(e, n))
      modifies this`events
      ensures Valid() && events == old(events) + [e]
    {
      hide Packets, Count, Emit, Wrapped, StreamBytes, AllFilled;
      Appended(events, e);
      FilledOn(events, e);
      forall i | 0 <= i < |all|
        ensures all[i].counter == Wrapped(Count(Packets(events + [e]), all[i].pid))
      {
        assert i != k ==> all[i].pid != all[k].pid;
      }
      events := events + [e];
    }

    /** A payload unit that fills one packet, on the PAT or the PMT stream. */
    method WriteUnit(k: nat, unit: seq<Byte>)
      requires Valid() && k < 2 && |unit| == PAYLOAD_SIZE
      modifies this`events, output, all[k]
      ensures Valid() && events == old(events) + [Unit(if k == 0 then 0 else Psi.PMT_PID, unit, None)]
      ensures all[k].counter == Wrapped(old(all[k].counter) + 1)
    {
      hide Packets, Count, Wrapped, Chop, StreamBytes, AllFilled, RawBytes;
      ghost var n := Count(Packets(events), all[k].pid);
      ghost var was: seq<nat> := seq(|all|, i requires 0 <= i < |all| reads this, all => all[i].counter);
      WholeUnit(all[k].pid, n, unit);
      assert unit[..PAYLOAD_SIZE] == unit;
      CounterWraps(n);
      var size := all[k].WritePacket(true, unit, None, output, n);
      Record(k, Unit(all[k].pid, unit, None), was);
    }

    method WritePAT()
      requires Valid()
      modifies this`events, output, all[0]
      ensures Valid() && events == old(events) + [Unit(0, Psi.PatUnit(), None)]
      ensures all[0].counter == Wrapped(old(all[0].counter) + 1)
    {
      hide Packets, Count, StreamBytes, AllFilled, Psi.PatUnit, Wrapped;
      var unit := BuildPat();
      WriteUnit(0, unit);
    }

    /** The table of all streams. */
    method WritePMT()
      requires Valid() && Opened(tracks, ids, all)
      modifies this`events, output, all[1]
      ensures Valid() && Opened(tracks, ids, all)
      ensures events == old(events) + [Unit(Psi.PMT_PID, Psi.PmtUnit(Infos(all)), None)]
      ensures all[1].counter == Wrapped(old(all[1].counter) + 1)
    {
      hide Packets, Count, StreamBytes, AllFilled, Assign, Psi.PmtUnit, Wrapped;
      var unit := BuildInfos();
      WriteUnit(1, unit);
    }

    /** The section length, the clock PID and the entries, collected from the streams. */
    method BuildInfos() returns (unit: seq<Byte>)
      requires Valid() && Opened(tracks, ids, all)
      ensures unit == Psi.PmtUnit(Infos(all))
    {
      var length, pcrPid: Pid, infos := 13, 0, [];
      for i := 0 to |ids|
        invariant length == 13 + 5 * i && |infos| == i && infos == Infos(all)[..i]
        invariant pcrPid == Psi.PcrPid(infos)
      {
        length := length + 5;
        pcrPid := all[2 + i].pid;
        infos := infos + [Psi.StreamInfo(all[2 + i].streamType, all[2 + i].pid)];
      }
      assert infos == Infos(all);
      unit := BuildPmt(length, pcrPid, infos);
    }

    /** Adds a track unless its id is taken. */
    method AddMediaTrack(t: Track)
      requires Valid()
      modifies this`tracks
      ensures Valid() && tracks == Inserted(old(tracks), t)
      ensures forall id ::
        Find(tracks, id) == if id == t.id && Find(old(tracks), id).None? then Some(t) else Find(old(tracks), id)
    {
      hide Inserted, Find, AllFilled, Packets, Count, Wrapped, StreamBytes;
      forall id
        ensures var after := Inserted(tracks, t);
                Sorted(after) &&
                Find(after, id) == if id == t.id && Find(tracks, id).None? then Some(t) else Find(tracks, id)
      {
        InsertedFinds(tracks, t, id);
      }
      InsertedFinds(tracks, t, t.id);
      tracks := Inserted(tracks, t);
    }

    /** Gives every supported track a stream, then writes the two tables; fails when there is none. */
    method Open() returns (ok: bool)
      requires Valid() && events == [] && ids == [] && |Assign(tracks, AUDIO_PID, VIDEO_PID)| <= 33
      modifies this, output, all
      ensures Valid() && tracks == old(tracks) && (output == old(output) || fresh(output))
      ensures (forall j :: 2 <= j < |all| ==> fresh(all[j])) && all[..2] == old(all)
      ensures |all| == 2 + |ids| && Assignment(ids, all) == Assign(tracks, AUDIO_PID, VIDEO_PID)
      ensures ok == (Assign(tracks, AUDIO_PID, VIDEO_PID) != [])
      ensures ok ==> JustOpened()
    {
      hide Assign, AllFilled, Count, Wrapped, StreamBytes, Packets, Psi.PatUnit, Psi.PmtUnit;
      if |tracks| == 0 {
        NothingAssigned(tracks);
        assert Assignment(ids, all) == [];
        return false;
      }
      CreateStreams();
      if |ids| == 0 {
        return false;
      }
      output := new ByteLog();
      NothingWritten();
      WriteTables();
      ok := true;
    }

    method WriteTables()
      requires Valid() && Opened(tracks, ids, all) && events == [] && 2 <= |all|
      modifies this`events, output, all[0], all[1]
      ensures Valid() && JustOpened()
    {
      hide Valid, Opened, Psi.PatUnit, Psi.PmtUnit;
      WritePAT();
      WritePMT();
    }

    method CreateStreams()
      requires Valid() && events == [] && ids == [] && |Assign(tracks, AUDIO_PID, VIDEO_PID)| <= VIDEO_PID - AUDIO_PID
      modifies this`ids, this`all
      ensures Valid() && (forall j :: 2 <= j < |all| ==> fresh(all[j])) && all[..2] == old(all)
      ensures Assignment(ids, all) == Assign(tracks, AUDIO_PID, VIDEO_PID)
    {
      hide AllFilled, StreamBytes, Wrapped, Count, Assign, Packets;
      FirstCounters();
      AddStreams();
      AssignedApart(tracks, ids, all);
    }

    /** The loop over the tracks; each kind is numbered on from its first PID. */
    method AddStreams()
      requires ids == [] && |all| == 2 && Unused(all)
      requires |Assign(tracks, AUDIO_PID, VIDEO_PID)| <= VIDEO_PID - AUDIO_PID
      modifies this`ids, this`all
      ensures |all| == 2 + |ids| && all[..2] == old(all) && forall j :: 2 <= j < |all| ==> fresh(all[j])
      ensures Unused(all) && Assignment(ids, all) == Assign(tracks, AUDIO_PID, VIDEO_PID)
    {
      hide Assign, Assignment, Unused;
      NothingAssignedYet(all);
      var audioPid: nat, videoPid: nat := AUDIO_PID, VIDEO_PID;
      ghost var goal := Assign(tracks, AUDIO_PID, VIDEO_PID);
      assert tracks[0..] == tracks && [] + goal == goal;
      for i := 0 to |tracks|
        invariant |all| == 2 + |ids| && all[..2] == old(all) && forall j :: 2 <= j < |all| ==> fresh(all[j])
        invariant Unused(all) && |Assignment(ids, all)| == |ids|
        invariant goal == Assignment(ids, all) + Assign(tracks[i..], audioPid, videoPid)
        invariant audioPid <= AUDIO_PID + |ids| && videoPid <= VIDEO_PID + |ids|
      {
        AssignOne(tracks, i, audioPid, videoPid);
        ghost var before, rest := Assignment(ids, all), tracks[i + 1..];
        if tracks[i].kind == Aac {
          AppendTwice(before, [Assigned(tracks[i].id, Aac, audioPid)], Assign(rest, audioPid + 1, videoPid));
          AddStream(tracks[i], audioPid);
          audioPid := audioPid + 1;
        } else if tracks[i].kind == H264 {
          AppendTwice(before, [Assigned(tracks[i].id, H264, videoPid)], Assign(rest, audioPid, videoPid + 1));
          AddStream(tracks[i], videoPid);
          videoPid := videoPid + 1;
        }
      }
      NothingAssigned(tracks[|tracks|..]);
      AppendNothing(Assignment(ids, all));
    }

    method AddStream(t: Track, pid: Pid)
      requires |all| == 2 + |ids| && Unused(all)
      modifies this`ids, this`all
      ensures |all| == 2 + |ids| && all == old(all) + [all[|all| - 1]] && fresh(all[|all| - 1])
      ensures Unused(all) && |Assignment(ids, all)| == |ids|
      ensures Assignment(ids, all) == Assignment(old(ids), old(all)) + [Assigned(t.id, t.kind, pid)]
    {
      var stream := new Stream(pid, t.kind);
      ids := ids + [t.id];
      all := all + [stream];
    }

    /** Converts a sample and writes it on its track's stream; a sample of an unknown track is no error. */
    method WriteSample(m: MediaSample) returns (ok: bool)
      requires Valid() && Opened(tracks, ids, all) && Acceptable(tracks, m)
      modifies this`events, output, all
      ensures Valid() && ok == (Find(tracks, m.trackId).None? || Ready(tracks, m) != [])
      ensures events == old(events) + AllSampleEvents(Assignment(ids, all), Ready(tracks, m))
    {
      hide Assign, AllFilled, Count, Wrapped, StreamBytes, Packets, PesUnit, Clock, SampleEvents, Converted;
      var track := Find(tracks, m.trackId);
      if track.None? {
        return true;
      }
      var data := Convert(m, track.value.extradata);
      if data.None? {
        return false;
      }
      var s := Sample(m.trackId, data.value, m.dts, m.pts);
      OneSample(Assignment(ids, all), s);
      WriteReady(s);
      ok := true;
    }

    /** Writes a converted sample. */
    method WriteReady(s: Sample)
      requires Valid() && Opened(tracks, ids, all) && |s.data| < WRAP - 25
      requires Find(tracks, s.trackId).Some? && Find(tracks, s.trackId).value.kind != Unsupported
      modifies this`events, output, all
      ensures Valid() && events == old(events) + SampleEvents(Assignment(ids, all), s)
    {
      hide Assign, AllFilled, Count, Wrapped, StreamBytes, Packets, PesUnit, Clock;
      SupportedHasStream(tracks, AUDIO_PID, VIDEO_PID, s.trackId);
      AssignSupported(tracks, AUDIO_PID, VIDEO_PID);
      var i := Position(Assignment(ids, all), s.trackId);
      WriteSampleOn(2 + i, s);
    }

    method WriteSampleOn(k: nat, s: Sample)
      requires Valid() && k < |all| && |s.data| < WRAP - 25 && all[k].kind != Unsupported
      modifies this`events, output, all[k]
      ensures Valid()
      ensures events == old(events) + [Unit(all[k].pid, PesUnit(all[k].kind, s), Some(Clock(s.dts)))]
    {
      hide AllFilled, Count, Wrapped, StreamBytes, Packets, PesUnit, Clock, Chop;
      ghost var n := Count(Packets(events), all[k].pid);
      ghost var was: seq<nat> := seq(|all|, i requires 0 <= i < |all| reads this, all => all[i].counter);
      PesUnitFilled(all[k].kind, s);
      all[k].WriteSample(s, output, n);
      Record(k, Unit(all[k].pid, PesUnit(all[k].kind, s), Some(Clock(s.dts))), was);
    }

    /** Fills one stream up with empty packets until its counter is a multiple of 16. */
    method PadStream(k: nat)
      requires Valid() && k < |all|
      modifies this`events, output, all[k]
      ensures Valid() && events == old(events) + [Padding(all[k].pid)] && all[k].counter % 16 == 0
      ensures Quiet(events) <==> Quiet(old(events)) && old(all[k].counter) % 16 == 0
    {
      hide AllFilled, Count, Wrapped, StreamBytes, Packets, PadTo16, Quiet;
      ghost var n := Count(Packets(events), all[k].pid);
      CounterWraps(n);
      QuietOne(events, Padding(all[k].pid));
      ghost var was: seq<nat> := seq(|all|, i requires 0 <= i < |all| reads this, all => all[i].counter);
      all[k].WriteMPEG2PacketCCTO16(output, n);
      Record(k, Padding(all[k].pid), was);
    }

    /** The two tables are written, and nothing else. */
    ghost predicate JustOpened()
      reads this
    {
      Opened(tracks, ids, all) &&
      events == [Unit(0, Psi.PatUnit(), None), Unit(Psi.PMT_PID, Psi.PmtUnit(Infos(all)), None)]
    }

    /** What a receiver finds in `bytes` are these samples. */
    ghost predicate Carries(bytes: seq<Byte>, samples: seq<Sample>)
      reads this
    {
      |all| == 2 + |ids| && Received(bytes, Assignment(ids, all), Infos(all), samples)
    }

    /** The samples of a run. */
    method WriteAll(samples: seq<MediaSample>) returns (bytes: seq<Byte>)
      requires Valid() && JustOpened() && AllAcceptable(tracks, samples)
      modifies this`events, output, all
      ensures Carries(bytes, AllReady(tracks, samples))
    {
      hide Assign, AllFilled, Count, Wrapped, StreamBytes, Packets, Psi.PatUnit, Psi.PmtUnit, SampleEvents, Received,
           Acceptable, Ready;
      var streams := Assignment(ids, all);
      ghost var start := events;
      assert samples[..0] == [] && start + [] == start;
      for i := 0 to |samples|
        invariant Valid() && events == start + AllSampleEvents(streams, AllReady(tracks, samples[..i]))
      {
        assert samples[..i + 1][..i] == samples[..i];
        AllEventsAppend(streams, AllReady(tracks, samples[..i]), Ready(tracks, samples[i]));
        AppendTwice(start, AllSampleEvents(streams, AllReady(tracks, samples[..i])),
                    AllSampleEvents(streams, Ready(tracks, samples[i])));
        var ok := WriteSample(samples[i]);
      }
      assert samples[..|samples|] == samples;
      bytes := output.bytes;
      AssignmentDistinct(tracks, ids, all);
      RunReceived(streams, Infos(all), AllReady(tracks, samples), events);
    }

    /**
      Pads the sample streams, then repeats the tables, until every counter is a multiple of 16. A strict receiver
      accepts what comes out if and only if it did before and no sample stream needed padding.
     */
    method WriteMPEG2PacketCCTO16()
      requires Valid() && Opened(tracks, ids, all)
      modifies this`events, output, all
      ensures Valid() && SameSamples(events, old(events))
      ensures forall i :: 0 <= i < |all| ==> all[i].counter % 16 == 0
      ensures Depacketize(output.bytes).Some? <==>
              old(Depacketize(output.bytes)).Some? && forall i :: 2 <= i < |all| ==> old(all[i].counter) % 16 == 0
    {
      hide Given, Packets, Count, StreamBytes, AllFilled, Assign, Wrapped, Quiet, Depacketize, SameSamples;
      AcceptedIfQuiet(events);
      PadSampleStreams();
      RepeatPat();
      RepeatPmt();
      AcceptedIfQuiet(events);
    }

    method PadSampleStreams()
      requires Valid() && Opened(tracks, ids, all)
      modifies this`events, output, all
      ensures Valid() && SameSamples(events, old(events))
      ensures forall i :: 2 <= i < |all| ==> all[i].counter % 16 == 0
      ensures Quiet(events) <==> Quiet(old(events)) && forall i :: 2 <= i < |all| ==> old(all[i].counter) % 16 == 0
    {
      hide Given, Packets, Count, StreamBytes, AllFilled, Assign, Wrapped, Quiet, SameSamples;
      SameItself(events);
      for i := 2 to |all|
        invariant Valid() && SameSamples(events, old(events))
        invariant forall j :: 2 <= j < i ==> all[j].counter % 16 == 0
        invariant forall j :: i <= j < |all| ==> all[j].counter == old(all[j].counter)
        invariant Quiet(events) <==> Quiet(old(events)) && forall j :: 2 <= j < i ==> old(all[j].counter) % 16 == 0
      {
        SameAfter(events, old(events), Padding(all[i].pid));
        PadStream(i);
      }
    }

    method RepeatPat()
      requires Valid() && Opened(tracks, ids, all)
      modifies this`events, output, all[0]
      ensures Valid() && all[0].counter % 16 == 0
      ensures forall before :: SameSamples(old(events), before) ==> SameSamples(events, before)
      ensures Quiet(events) == Quiet(old(events))
    {
      hide Valid, Given, Assign, Psi.PatUnit, SameSamples, Wrapped, ToGo, Quiet;
      while all[0].counter % 16 != 0
        invariant Valid() && Quiet(events) == Quiet(old(events))
        invariant forall before :: SameSamples(old(events), before) ==> SameSamples(events, before)
        decreases ToGo(all[0].counter)
      {
        StillSame(events, Unit(0, Psi.PatUnit(), None));
        QuietOne(events, Unit(0, Psi.PatUnit(), None));
        WrappedToGo(all[0].counter);
        WritePAT();
      }
    }

    method RepeatPmt()
      requires Valid() && Opened(tracks, ids, all)
      modifies this`events, output, all[1]
      ensures Valid() && all[1].counter % 16 == 0
      ensures forall before :: SameSamples(old(events), before) ==> SameSamples(events, before)
      ensures Quiet(events) == Quiet(old(events))
    {
      hide Valid, Given, Assign, Psi.PmtUnit, SameSamples, Wrapped, ToGo, Quiet;
      while all[1].counter % 16 != 0
        invariant Valid() && Quiet(events) == Quiet(old(events))
        invariant forall before :: SameSamples(old(events), before) ==> SameSamples(events, before)
        decreases ToGo(all[1].counter)
      {
        StillSame(events, Unit(Psi.PMT_PID, Psi.PmtUnit(Infos(all)), None));
        QuietOne(events, Unit(Psi.PMT_PID, Psi.PmtUnit(Infos(all)), None));
        WrappedToGo(all[1].counter);
        WritePMT();
      }
    }
  }

  lemma QuietOne(events: seq<Event>, e: Event)
    ensures Quiet(events + [e]) <==> Quiet(events) && (e.Padding? ==> Count(Packets(events), e.pid) % 16 == 0)
  {
    assert (events + [e])[..|events|] == events;
  }

  lemma StillSame(events: seq<Event>, e: Event)
    requires e.Padding? || e.pid == 0 || e.pid == Psi.PMT_PID
    ensures forall before :: SameSamples(events, before) ==> SameSamples(events + [e], before)
  {
    hide SameSamples;
    forall before | SameSamples(events, before)
      ensures SameSamples(events + [e], before)
    {
      SameAfter(events, before, e);
    }
  }

  /** The same payload units on every stream but the two table streams. */
  ghost predicate SameSamples(a: seq<Event>, b: seq<Event>) {
    forall pid: nat :: pid != 0 && pid != Psi.PMT_PID ==> Given(a, pid) == Given(b, pid)
  }

  lemma SameItself(events: seq<Event>)
    ensures SameSamples(events, events)
  {
  }

  lemma GivenOne(events: seq<Event>, e: Event, pid: nat)
    ensures Given(events + [e], pid) ==
            Given(events, pid) + if e.Unit? && e.pid == pid then [Delivery(SeenClock(e.pcr), e.bytes)] else []
  {
    assert (events + [e])[..|events|] == events;
  }

  lemma SameAfter(events: seq<Event>, before: seq<Event>, e: Event)
    requires SameSamples(events, before) && (e.Padding? || e.pid == 0 || e.pid == Psi.PMT_PID)
    ensures SameSamples(events + [e], before)
  {
    hide Given;
    forall pid: nat | pid != 0 && pid != Psi.PMT_PID
      ensures Given(events + [e], pid) == Given(before, pid)
    {
      GivenOne(events, e, pid);
    }
  }

  lemma WrappedToGo(c: nat)
    requires c % 16 != 0
    ensures ToGo(Wrapped(c + 1)) < ToGo(c)
  {
    CounterWraps(c + 1);
    SameToGo(Wrapped(c + 1), c + 1);
    ToGoNext(c);
  }

  lemma SameToGo(a: nat, b: nat)
    requires a % 16 == b % 16
    ensures ToGo(a) == ToGo(b)
  {
  }

  lemma NothingAssignedYet(all: seq<Stream>)
    requires |all| == 2
    ensures Assignment([], all) == []
  {
  }

  lemma NothingAssigned(tracks: seq<Track>)
    requires tracks == []
    ensures forall audio, video :: Assign(tracks, audio, video) == []
  {
  }

  lemma AssignOne(tracks: seq<Track>, i: nat, audio: nat, video: nat)
    requires i < |tracks|
    ensures var t, rest := tracks[i], tracks[i + 1..];
            Assign(tracks[i..], audio, video) ==
            match t.kind
            case Aac => [Assigned(t.id, Aac, audio)] + Assign(rest, audio + 1, video)
            case H264 => [Assigned(t.id, H264, video)] + Assign(rest, audio, video + 1)
            case Unsupported => Assign(rest, audio, video)
  {
    assert tracks[i..][1..] == tracks[i + 1..];
  }

  lemma FirstCounters()
    ensures Wrapped(0) == 0 && forall pid: Pid :: Count(Packets([]), pid) == 0
  {
  }

  lemma NothingWritten()
    ensures StreamBytes(Packets([])) == []
  {
  }

  lemma AssignedApart(tracks: seq<Track>, ids: seq<int>, all: seq<Stream>)
    requires |all| == 2 + |ids| <= 2 + VIDEO_PID - AUDIO_PID && all[0].pid == 0 && all[1].pid == Psi.PMT_PID
    requires Assignment(ids, all) == Assign(tracks, AUDIO_PID, VIDEO_PID)
    requires forall j, k :: 0 <= j < k < |all| ==> all[j] != all[k]
    ensures Apart(ids, all)
  {
    hide Assign;
    AssignDistinct(tracks, AUDIO_PID, VIDEO_PID);
    var a := Assignment(ids, all);
    assert forall j :: 2 <= j < |all| ==> all[j].pid == a[j - 2].pid;
  }

  /** What a receiver should find in a sample's unit. */
  function SampleData(kind: Kind, s: Sample): seq<Byte> {
    if kind == H264 then [0, 0, 0, 1, 9, 0xF0] + s.data else s.data
  }

  /** Audio must fit the 16-bit length of its PES packet; video packets have no length. */
  predicate LengthFits(kind: Kind, s: Sample) {
    kind == H264 || |s.data| + 8 < 0x1_0000
  }

  /** A sample's bytes and its times modulo 2^33. */
  predicate CarriesSample(kind: Kind, s: Sample, unit: seq<Byte>) {
    var packet := Pes.Parse(unit);
    && packet.Some? && packet.value.data == SampleData(kind, s)
    && packet.value.streamId == (if kind == H264 then 0xE0 else 0xC0)
    && packet.value.pts == Low(if kind == H264 then s.pts else s.dts, 33)
    && packet.value.dts == if kind == H264 then Some(Low(s.dts, 33)) else None
  }

  /** A receiver finds a sample in its payload unit if and only if its length fits. */
  lemma SampleRecovered(kind: Kind, s: Sample)
    ensures CarriesSample(kind, s, PesUnit(kind, s)) <==> LengthFits(kind, s)
  {
    hide Pes.PacketBytes, Pes.Parse, Low;
    Pes.RoundTrip(Pes.VIDEO_STREAM_ID, DELIMITER + s.data, s.dts, true, s.pts);
    Pes.RoundTrip(Pes.AUDIO_STREAM_ID, s.data, s.dts, false, s.dts);
    Pes.DataRecovered(Pes.AUDIO_STREAM_ID, s.data, s.dts, false, s.dts);
  }

  /** Whether the time at 27 MHz keeps its remainder of 300 when it wraps at 64 bits. */
  predicate ClockFits(time: nat) {
    time % 0x4000_0000_0000_0000 * 300 < 0x1_0000_0000_0000_0000
  }

  /** The clock seen is the sample's time modulo 2^33 if and only if 27 MHz do not overflow a turn of 2^62 ticks. */
  lemma ClockRecovered(time: nat)
    ensures SeenClock(Some(Clock(time))) == Some((Low(time, 33), 0)) <==> ClockFits(time)
  {
    hide Low, Clock;
    var turns, u := time / 0x4000_0000_0000_0000, time % 0x4000_0000_0000_0000;
    ClockOfTurn(turns, u);
    LowOfTurn(turns, u);
    if ClockFits(time) {
      InTurn(u);
    } else {
      NoRemainder(u);
    }
  }

  /** At 2^60 ticks, a time of some four hundred thousand years, the clock that is seen is another one. */
  lemma ClockLost()
    ensures var time := 0x1000_0000_0000_0000; SeenClock(Some(Clock(time))) != Some((Low(time, 33), 0))
  {
    hide Low, Clock;
    ClockRecovered(0x1000_0000_0000_0000);
  }

  lemma InTurn(u: nat)
    requires u * 300 < 0x1_0000_0000_0000_0000
    ensures u * 300 % 0x1_0000_0000_0000_0000 == u * 300 && u * 300 / 300 == u && u * 300 % 300 == 0
  {
  }

  lemma ClockOfTurn(turns: nat, u: nat)
    requires u < 0x4000_0000_0000_0000
    ensures Clock(turns * 0x4000_0000_0000_0000 + u) == u * 300 % 0x1_0000_0000_0000_0000
  {
    var q, r := u * 300 / 0x1_0000_0000_0000_0000, u * 300 % 0x1_0000_0000_0000_0000;
    DivideUnique((turns * 0x4000_0000_0000_0000 + u) * 300, 0x1_0000_0000_0000_0000, turns * 75 + q, r);
  }

  lemma LowOfTurn(turns: nat, u: nat)
    ensures Low(turns * 0x4000_0000_0000_0000 + u, 33) == Low(u, 33)
  {
    Pow2Of33();
    ShrDivides(turns * 0x4000_0000_0000_0000 + u, 33);
    ShrDivides(u, 33);
    var q, r := u / 0x2_0000_0000, u % 0x2_0000_0000;
    DivideUnique(turns * 0x4000_0000_0000_0000 + u, 0x2_0000_0000, turns * 0x2000_0000 + q, r);
  }

  lemma Pow2Of33()
    ensures Pow2(33) == 0x2_0000_0000
  {
    Pow2Values();
    assert Pow2(33) == 2 * Pow2(32);
  }

  /** 2^64 is 16 modulo 300, so fewer than 75 overflows never cancel. */
  lemma NoRemainder(u: nat)
    requires u < 0x4000_0000_0000_0000 && u * 300 >= 0x1_0000_0000_0000_0000
    ensures u * 300 % 0x1_0000_0000_0000_0000 % 300 != 0
  {
    var k, r := u * 300 / 0x1_0000_0000_0000_0000, u * 300 % 0x1_0000_0000_0000_0000;
    assert 1 <= k < 75 && u * 300 == k * 0x1_0000_0000_0000_0000 + r;
  }

  lemma PesUnitFilled(kind: Kind, s: Sample)
    ensures |PesUnit(kind, s)| >= 14
  {
    hide Group;
    Pes.RoundTrip(Pes.VIDEO_STREAM_ID, DELIMITER + s.data, s.dts, true, s.pts);
    Pes.RoundTrip(Pes.AUDIO_STREAM_ID, s.data, s.dts, false, s.dts);
  }

  lemma {:induction false} AssignSupported(tracks: seq<Track>, audio: nat, video: nat)
    ensures forall i :: 0 <= i < |Assign(tracks, audio, video)| ==> Assign(tracks, audio, video)[i].kind != Unsupported
  {
    if tracks != [] {
      var t, rest := tracks[0], tracks[1..];
      match t.kind {
        case Aac => AssignSupported(rest, audio + 1, video);
        case H264 => AssignSupported(rest, audio, video + 1);
        case Unsupported => AssignSupported(rest, audio, video);
      }
    }
  }

  // ----- a whole run -----

  /**
    The streams of a run and what a standard receiver gets from the bytes: whole packets, counters in step,
    clocks only where units start, both tables, and the units of every track in order. Each unit gives its
    own sample back exactly when the length fits, and its own time exactly when the clock fits.
   */
  predicate Received(bytes: seq<Byte>, streams: seq<Assigned>, infos: seq<Psi.StreamInfo>, samples: seq<Sample>) {
    match Depacketize(bytes)
    case None => false
    case Some(packets) =>
      && InStep(packets) && ClockAtStart(packets) && |infos| <= 33
      && Units(packets, 0) == [Delivery(None, Psi.PatUnit())]
      && Psi.ReadPat(Psi.PatUnit()) == Some((1, 0x100))
      && Units(packets, 0x100) == [Delivery(None, Psi.PmtUnit(infos))]
      && Psi.ReadPmt(Psi.PmtUnit(infos)) == Some((Psi.PcrPid(infos), Psi.Infos(infos)))
      && forall i :: 0 <= i < |streams| ==>
           Units(packets, streams[i].pid) == UnitsOf(streams, i, samples)
           && AllDelivered(streams[i].kind, SamplesOf(streams, i, samples), Units(packets, streams[i].pid))
  }

  predicate Delivered(kind: Kind, s: Sample, d: Delivery) {
    && (CarriesSample(kind, s, d.bytes) <==> LengthFits(kind, s))
    && (d.clock == Some((Low(s.dts, 33), 0)) <==> ClockFits(s.dts))
  }

  predicate AllDelivered(kind: Kind, samples: seq<Sample>, units: seq<Delivery>) {
    |samples| == |units| && forall j :: 0 <= j < |samples| ==> Delivered(kind, samples[j], units[j])
  }

  lemma UnitsDelivered(kind: Kind, samples: seq<Sample>)
    ensures AllDelivered(kind, samples, Deliveries(kind, samples))
  {
    hide CarriesSample, LengthFits, ClockFits, PesUnit, SeenClock, Clock;
    forall j | 0 <= j < |samples|
      ensures Delivered(kind, samples[j], DeliveryOf(kind, samples[j]))
    {
      SampleRecovered(kind, samples[j]);
      ClockRecovered(samples[j].dts);
    }
  }

  // ----- what the samples of a run hold -----

  /** The samples of stream `i` as they were given, without those that could not be converted. */
  function OwnSamples(tracks: seq<Track>, streams: seq<Assigned>, i: nat, samples: seq<MediaSample>): seq<MediaSample> {
    if samples == [] then []
    else
      var m := samples[|samples| - 1];
      OwnSamples(tracks, streams, i, samples[..|samples| - 1])
      + if Position(streams, m.trackId) == i && Ready(tracks, m) != [] then [m] else []
  }

  /**
    What a receiver finds in the unit of a sample: its times modulo 2^33 and its bytes, the frame of a raw audio
    sample behind its header, or the delimiter, parameter sets and units of a video packet. An audio sample must
    leave room for its headers in the length of a PES packet.
   */
  predicate HoldsContent(tracks: seq<Track>, kind: Kind, m: MediaSample, unit: seq<Byte>) {
    match Find(tracks, m.trackId)
    case None => false
    case Some(t) =>
      var p := Pes.Parse(unit);
      && (kind == H264 ==> p.Some? && p.value.pts == Low(m.pts, 33) && p.value.dts == Some(Low(m.dts, 33)))
      && (kind == H264 && m.format.H264Avcc? ==> VideoIn(m.data, t.extradata, p.value.data))
      && (kind == H264 && m.format.H264Annexb? ==> p.value.data == [0, 0, 0, 1, 9, 0xF0] + m.data)
      && (kind == Aac && m.format.AacLatm? && 2 <= |t.extradata| && |m.data| + 15 < 65536 ==>
            && p.Some? && AudioIn(m.data, t.extradata, p.value.data)
            && p.value.pts == Low(m.dts, 33) && p.value.dts == None)
      && (kind == Aac && m.format.AacAdts? && |m.data| + 8 < 65536 ==>
            && p.Some? && p.value.data == m.data && p.value.pts == Low(m.dts, 33) && p.value.dts == None)
  }

  predicate ContentReceived(bytes: seq<Byte>, tracks: seq<Track>, streams: seq<Assigned>, samples: seq<MediaSample>) {
    match Depacketize(bytes)
    case None => false
    case Some(packets) =>
      forall i :: 0 <= i < |streams| ==>
        AllHold(tracks, streams[i].kind, OwnSamples(tracks, streams, i, samples), Units(packets, streams[i].pid))
  }

  predicate AllHold(tracks: seq<Track>, kind: Kind, own: seq<MediaSample>, units: seq<Delivery>) {
    |own| == |units| && forall j :: 0 <= j < |own| ==> HoldsContent(tracks, kind, own[j], units[j].bytes)
  }

  /** Sample by sample, what is written for a stream is what was given for it, converted. */
  lemma {:induction false} OwnAreWritten(tracks: seq<Track>, streams: seq<Assigned>, i: nat, samples: seq<MediaSample>)
    requires i < |streams|
    ensures var own := OwnSamples(tracks, streams, i, samples);
            var written := SamplesOf(streams, i, AllReady(tracks, samples));
            |own| == |written| && forall j :: 0 <= j < |own| ==> Ready(tracks, own[j]) == [written[j]]
  {
    hide Ready, Position;
    if samples != [] {
      var init, m := samples[..|samples| - 1], samples[|samples| - 1];
      OwnAreWritten(tracks, streams, i, init);
      ReadyIsOne(tracks, m);
      SamplesOfMore(streams, i, AllReady(tracks, init), Ready(tracks, m));
    }
  }

  lemma ReadyIsOne(tracks: seq<Track>, m: MediaSample)
    ensures var r := Ready(tracks, m); r == [] || (|r| == 1 && r[0].trackId == m.trackId)
  {
    hide Find, Converted;
  }

  lemma SamplesOfMore(streams: seq<Assigned>, i: nat, samples: seq<Sample>, more: seq<Sample>)
    requires |more| <= 1
    ensures SamplesOf(streams, i, samples + more) ==
            SamplesOf(streams, i, samples) + if more != [] && Position(streams, more[0].trackId) == i then more else []
  {
    hide Position;
    if more == [] {
      AppendNothing(samples);
    } else {
      assert (samples + more)[..|samples|] == samples && more == [more[0]];
    }
  }

  /** A unit that gives its sample back holds what the sample was converted from. */
  lemma ContentOfSample(tracks: seq<Track>, kind: Kind, m: MediaSample, s: Sample, unit: seq<Byte>)
    requires Ready(tracks, m) == [s] && (CarriesSample(kind, s, unit) <==> LengthFits(kind, s))
    ensures HoldsContent(tracks, kind, m, unit)
  {
    hide Pes.Parse, Converted, AudioIn, VideoIn, Low, Find;
    var t := Find(tracks, m.trackId).value;
    Unconverted(m, t.extradata);
    if m.format.AacLatm? && 2 <= |t.extradata| {
      AudioFramesFound(m, t.extradata);
      AudioLength(m.data, t.extradata, s.data);
    }
    if m.format.H264Avcc? {
      VideoUnitsFound(m, t.extradata);
    }
  }

  lemma Unconverted(m: MediaSample, extradata: seq<Byte>)
    ensures m.format.H264Annexb? || m.format.AacAdts? ==> Converted(m, extradata) == Some(m.data)
  {
  }

  lemma AudioLength(frame: seq<Byte>, extradata: seq<Byte>, written: seq<Byte>)
    requires 2 <= |extradata| && AudioIn(frame, extradata, written)
    ensures |written| == |frame| + 7
  {
    hide Adts.Frames, Adts.ParseHeader;
  }

  lemma ContentFollows(bytes: seq<Byte>, tracks: seq<Track>, streams: seq<Assigned>, infos: seq<Psi.StreamInfo>,
                       samples: seq<MediaSample>)
    requires Received(bytes, streams, infos, AllReady(tracks, samples))
    ensures ContentReceived(bytes, tracks, streams, samples)
  {
    hide Depacketize, Units, InStep, ClockAtStart, SamplesOf, OwnSamples, AllReady, Ready, CarriesSample, LengthFits,
         HoldsContent, Psi.PatUnit, Psi.PmtUnit, Psi.ReadPat, Psi.ReadPmt, Psi.PcrPid, Psi.Infos, ClockFits, UnitsOf;
    var packets := Depacketize(bytes).value;
    forall i | 0 <= i < |streams|
      ensures AllHold(tracks, streams[i].kind, OwnSamples(tracks, streams, i, samples), Units(packets, streams[i].pid))
    {
      OwnAreWritten(tracks, streams, i, samples);
      var own, written := OwnSamples(tracks, streams, i, samples), SamplesOf(streams, i, AllReady(tracks, samples));
      var units := Units(packets, streams[i].pid);
      assert AllDelivered(streams[i].kind, written, units);
      forall j | 0 <= j < |own|
        ensures HoldsContent(tracks, streams[i].kind, own[j], units[j].bytes)
      {
        assert Delivered(streams[i].kind, written[j], units[j]);
        ContentOfSample(tracks, streams[i].kind, own[j], written[j], units[j].bytes);
      }
    }
  }

  predicate AllUnits(events: seq<Event>) {
    forall i :: 0 <= i < |events| ==> events[i].Unit?
  }

  lemma {:induction false} UnitsAreQuiet(events: seq<Event>)
    requires AllUnits(events)
    ensures Quiet(events)
  {
    hide Packets, Count;
    if events != [] {
      UnitsAreQuiet(events[..|events| - 1]);
    }
  }

  lemma {:induction false} SamplesAreUnits(streams: seq<Assigned>, samples: seq<Sample>)
    ensures AllUnits(AllSampleEvents(streams, samples))
  {
    if samples != [] {
      SamplesAreUnits(streams, samples[..|samples| - 1]);
    }
  }

  lemma RunReceived(streams: seq<Assigned>, infos: seq<Psi.StreamInfo>, samples: seq<Sample>, events: seq<Event>)
    requires DistinctPids(streams) && streams != [] && |infos| <= 33 && AllFilled(events)
    requires events == [Unit(0, Psi.PatUnit(), None), Unit(Psi.PMT_PID, Psi.PmtUnit(infos), None)]
                       + AllSampleEvents(streams, samples)
    ensures Received(StreamBytes(Packets(events)), streams, infos, samples)
  {
    hide Given, Depacketize, StreamBytes, Packets, Units, InStep, ClockAtStart, Quiet, AllSampleEvents, SamplesOf,
         Deliveries, AllDelivered, Psi.PatUnit, Psi.PmtUnit, Psi.ReadPat, Psi.ReadPmt, Psi.PcrPid, Psi.Infos;
    TablesRead(infos);
    var a, b := Unit(0, Psi.PatUnit(), None), Unit(Psi.PMT_PID, Psi.PmtUnit(infos), None);
    SamplesAreUnits(streams, samples);
    UnitsAreQuiet(events);
    Conservation(events);
    forall i | 0 <= i < |streams|
      ensures Given(events, streams[i].pid) == UnitsOf(streams, i, samples)
      ensures AllDelivered(streams[i].kind, SamplesOf(streams, i, samples), UnitsOf(streams, i, samples))
      ensures Given(events, 0) == [Delivery(None, a.bytes)] && Given(events, Psi.PMT_PID) == [Delivery(None, b.bytes)]
    {
      GivenSamples(streams, [a, b], samples, i);
      GivenTables(a, b, streams[i].pid);
      UnitsDelivered(streams[i].kind, SamplesOf(streams, i, samples));
    }
    assert Given(events, streams[0].pid) == UnitsOf(streams, 0, samples);
  }

  /** Both tables are found in their units. */
  lemma TablesRead(infos: seq<Psi.StreamInfo>)
    requires |infos| <= 33
    ensures Psi.ReadPat(Psi.PatUnit()) == Some((1, Psi.PMT_PID))
    ensures Psi.ReadPmt(Psi.PmtUnit(infos)) == Some((Psi.PcrPid(infos), Psi.Infos(infos)))
  {
    hide Psi.ReadPat, Psi.ReadPmt, Psi.PatSection, Psi.PmtSection, Psi.Unit;
    Psi.PatRead();
    Psi.PmtRead(infos);
  }

  lemma GivenTables(a: Event, b: Event, pid: nat)
    requires a.Unit? && b.Unit? && a.pid == 0 && b.pid == Psi.PMT_PID < pid && a.pcr == b.pcr == None
    ensures Given([a, b], 0) == [Delivery(None, a.bytes)] && Given([a, b], Psi.PMT_PID) == [Delivery(None, b.bytes)]
    ensures Given([a, b], pid) == []
  {
    assert [a] + [b] == [a, b] && [] + [a] == [a];
    GivenOne([a], b, 0);
    GivenOne([a], b, Psi.PMT_PID);
    GivenOne([a], b, pid);
    GivenOne([], a, 0);
    GivenOne([], a, Psi.PMT_PID);
    GivenOne([], a, pid);
  }

  /** Adds tracks, opens, writes samples: every stream's samples come out of the transport stream in order. */
  method Mux(tracks: seq<Track>, samples: seq<MediaSample>) returns (ok: bool, bytes: seq<Byte>, streams: seq<Assigned>,
                                                                     infos: seq<Psi.StreamInfo>)
    requires |SupportedIds(tracks)| <= 33 && AllAcceptable(tracks, samples)
    ensures Chosen(tracks, streams, 0x101, 0x201) && ok == (streams != [])
    ensures |infos| == |streams|
    ensures forall i :: 0 <= i < |streams| ==>
      infos[i].pid == streams[i].pid && infos[i].streamType == if streams[i].kind == H264 then 0x1B else 0x0F
    ensures ok ==> Received(bytes, streams, infos, AllReady(tracks, samples))
    ensures ok ==> ContentReceived(bytes, tracks, streams, samples)
  {
    hide Inserted, Assign, AllFilled, Count, Wrapped, StreamBytes, Packets, Psi.PatUnit, Psi.PmtUnit, SampleEvents,
         Received, Acceptable, Ready, Chosen, SupportedIds, Find, Sorted;
    GivenTracksChoose(tracks, AUDIO_PID, VIDEO_PID);
    SameSamplesReady(tracks, samples);
    var muxer := new Muxer();
    assert tracks[..0] == [];
    for i := 0 to |tracks|
      invariant muxer.Valid() && muxer.ids == [] && muxer.events == []
      invariant fresh(muxer) && fresh(muxer.all) && fresh(muxer.output)
      invariant muxer.tracks == AllInserted(tracks[..i])
    {
      assert tracks[..i + 1][..i] == tracks[..i];
      muxer.AddMediaTrack(tracks[i]);
    }
    assert tracks[..|tracks|] == tracks;
    bytes := [];
    ok := muxer.Open();
    streams := Assignment(muxer.ids, muxer.all);
    infos := Infos(muxer.all);
    if ok {
      bytes := muxer.WriteAll(samples);
      ContentFollows(bytes, tracks, streams, infos, samples);
    }
  }

  /** Only the first track given with an id matters to its samples. */
  lemma {:induction false} SameSamplesReady(tracks: seq<Track>, samples: seq<MediaSample>)
    ensures AllAcceptable(AllInserted(tracks), samples) <==> AllAcceptable(tracks, samples)
    ensures AllReady(AllInserted(tracks), samples) == AllReady(tracks, samples)
  {
    hide AllInserted, Find, Converted;
    FirstIsKept(tracks);
    if samples != [] {
      SameSamplesReady(tracks, samples[..|samples| - 1]);
    }
  }

  lemma AssignmentDistinct(tracks: seq<Track>, ids: seq<int>, all: seq<Stream>)
    requires Opened(tracks, ids, all)
    ensures DistinctPids(Assignment(ids, all))
  {
    hide Assign;
    AssignDistinct(tracks, AUDIO_PID, VIDEO_PID);
  }
}
