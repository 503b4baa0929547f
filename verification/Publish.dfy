/**
  From RTMP messages to publisher callbacks: messages are cached until the stream can be published,
  then replayed and passed on; this is what the callbacks see of any run.
 */
module Publish {
  import opened Bytes

  datatype Kind = Video | Audio

  /** What the FLV parser makes of a message. */
  datatype Content =
    | Unparsable
    | SequenceHeader(extradata: Option<seq<Byte>>)
    | EndOfSequence
    | Frame

  datatype Message = Message(kind: Kind, size: nat, content: Content)

  type Tracks = map<Kind, seq<Byte>>

  datatype Callback =
    | AppStreamName
    | TrackInfo(tracks: Tracks)
    | Sample(message: Message)

  const MAX_STREAM_MESSAGE_COUNT: nat := 100
  const MAX_PACKET_SIZE: nat := 20 * 1024 * 1024

  predicate SizeOk(m: Message) {
    (if m.kind == Video then 5 else 2) <= m.size <= MAX_PACKET_SIZE
  }

  // ----- the trace -----

  predicate Complete(tracks: Tracks) {
    forall k :: k in tracks ==> tracks[k] != []
  }

  /** A header that fills in the extradata its track still lacks. */
  predicate FillsIn(tracks: Tracks, m: Message) {
    m.kind in tracks && m.content.SequenceHeader? && m.content.extradata.Some? && tracks[m.kind] == []
  }

  /** A message that gets as far as being sent as a frame. */
  predicate Reaches(tracks: Tracks, m: Message) {
    m.kind in tracks && !m.content.Unparsable? && !m.content.EndOfSequence? && !FillsIn(tracks, m)
  }

  function TracksAfter(kinds: set<Kind>, messages: seq<Message>): (tracks: Tracks)
    ensures tracks.Keys == kinds
  {
    if messages == [] then map k | k in kinds :: []
    else
      var m, tracks := messages[|messages| - 1], TracksAfter(kinds, messages[..|messages| - 1]);
      if FillsIn(tracks, m) then tracks[m.kind := m.content.extradata.value] else tracks
  }

  /** The frames from the first one at which every track has its extradata, in order of arrival. */
  function FramesSent(kinds: set<Kind>, messages: seq<Message>): seq<Message> {
    if messages == [] then []
    else
      var init, m := messages[..|messages| - 1], messages[|messages| - 1];
      var tracks := TracksAfter(kinds, init);
      FramesSent(kinds, init) + if Reaches(tracks, m) && Complete(tracks) then [m] else []
  }

  function Samples(messages: seq<Message>): seq<Callback> {
    seq(|messages|, i requires 0 <= i < |messages| => Sample(messages[i]))
  }

  /** The callbacks of a run: names and tracks once, then nothing but the frames. */
  function Trace(kinds: set<Kind>, messages: seq<Message>): seq<Callback> {
    var frames := FramesSent(kinds, messages);
    if frames == [] then [] else [AppStreamName, TrackInfo(TracksAfter(kinds, messages))] + Samples(frames)
  }

  /** Once complete, the tracks never change. */
  lemma {:induction false} CompleteStays(kinds: set<Kind>, messages: seq<Message>, more: seq<Message>)
    requires Complete(TracksAfter(kinds, messages))
    ensures TracksAfter(kinds, messages + more) == TracksAfter(kinds, messages)
  {
    if more == [] {
      assert messages + more == messages;
    } else {
      var init := more[..|more| - 1];
      CompleteStays(kinds, messages, init);
      assert (messages + more)[..|messages + more| - 1] == messages + init;
    }
  }

  /** Whatever was sent, the tracks reported with it are complete and still the same. */
  lemma {:induction false} SentIsComplete(kinds: set<Kind>, messages: seq<Message>)
    requires FramesSent(kinds, messages) != []
    ensures Complete(TracksAfter(kinds, messages))
  {
    var init, m := messages[..|messages| - 1], messages[|messages| - 1];
    assert messages == init + [m];
    if Complete(TracksAfter(kinds, init)) {
      CompleteStays(kinds, init, [m]);
    } else {
      SentIsComplete(kinds, init);
    }
  }

  lemma OneMore(kinds: set<Kind>, messages: seq<Message>, m: Message)
    ensures var tracks := TracksAfter(kinds, messages);
            && TracksAfter(kinds, messages + [m]) ==
               (if FillsIn(tracks, m) then tracks[m.kind := m.content.extradata.value] else tracks)
            && FramesSent(kinds, messages + [m]) ==
               FramesSent(kinds, messages) + (if Reaches(tracks, m) && Complete(tracks) then [m] else [])
  {
    assert (messages + [m])[..|messages|] == messages;
  }

  lemma SamplesOne(frames: seq<Message>, m: Message)
    ensures Samples(frames + [m]) == Samples(frames) + [Sample(m)] && Samples([m]) == [Sample(m)]
  {
  }

  /** What one more message adds to the trace. */
  lemma TraceOne(kinds: set<Kind>, messages: seq<Message>, m: Message)
    ensures var tracks := TracksAfter(kinds, messages);
            && TracksAfter(kinds, messages + [m]) ==
               (if FillsIn(tracks, m) then tracks[m.kind := m.content.extradata.value] else tracks)
            && (FramesSent(kinds, messages + [m]) != [] <==>
                  FramesSent(kinds, messages) != [] || (Reaches(tracks, m) && Complete(tracks)))
            && (FramesSent(kinds, messages) != [] ==> Complete(tracks))
            && Trace(kinds, messages + [m]) ==
               Trace(kinds, messages) + if !Reaches(tracks, m) || !Complete(tracks) then []
                                        else if FramesSent(kinds, messages) == []
                                        then [AppStreamName, TrackInfo(tracks), Sample(m)]
                                        else [Sample(m)]
  {
    hide TracksAfter, FramesSent, Reaches, FillsIn, Complete, Samples;
    var frames := FramesSent(kinds, messages);
    OneMore(kinds, messages, m);
    SamplesOne(frames, m);
    KindOfReaching(TracksAfter(kinds, messages), m);
    if frames != [] {
      SentIsComplete(kinds, messages);
      CompleteStays(kinds, messages, [m]);
    }
    var tracks, head := TracksAfter(kinds, messages), [AppStreamName, TrackInfo(TracksAfter(kinds, messages))];
    AppendNothing(frames);
    AppendNothing(Trace(kinds, messages));
    if Reaches(tracks, m) && Complete(tracks) {
      AppendTwice(head, Samples(frames), [Sample(m)]);
      if frames == [] {
        assert frames + [m] == [m];
        assert Trace(kinds, messages + [m]) == head + [Sample(m)] == [] + [AppStreamName, TrackInfo(tracks), Sample(m)];
      }
    }
  }

  /** A parsed sequence header that brings extradata for the track of its kind. */
  predicate Announces(m: Message, kind: Kind) {
    m.kind == kind && match m.content
                      case SequenceHeader(extradata) => extradata.Some? && extradata.value != []
                      case _ => false
  }

  predicate Announced(messages: seq<Message>, kind: Kind) {
    exists i :: 0 <= i < |messages| && Announces(messages[i], kind)
  }

  /** A track has the extradata of the first header that brought some. */
  lemma {:induction false} TracksAre(kinds: set<Kind>, messages: seq<Message>, kind: Kind)
    requires kind in kinds
    ensures TracksAfter(kinds, messages)[kind] != [] <==> Announced(messages, kind)
    ensures forall i :: 0 <= i < |messages| && Announces(messages[i], kind) && !Announced(messages[..i], kind) ==>
              TracksAfter(kinds, messages)[kind] == messages[i].content.extradata.value
  {
    if messages != [] {
      var init, m := messages[..|messages| - 1], messages[|messages| - 1];
      TracksAre(kinds, init, kind);
      assert forall i :: 0 <= i < |init| ==> messages[i] == init[i] && messages[..i] == init[..i];
      assert Announced(messages, kind) <==> Announced(init, kind) || Announces(m, kind);
    }
  }

  /**
    Which message is passed on: a frame, or a header that brings nothing new, once a header with extradata came
    for every track; never one of a kind without a track, an unparsable one or an end of sequence.
   */
  lemma SentWhen(kinds: set<Kind>, messages: seq<Message>, m: Message)
    ensures FramesSent(kinds, []) == []
    ensures FramesSent(kinds, messages + [m]) ==
            FramesSent(kinds, messages)
            + if m.kind in kinds && (forall kind :: kind in kinds ==> Announced(messages, kind))
                 && (m.content.Frame? || m.content.SequenceHeader?)
              then [m] else []
  {
    hide TracksAfter, Announced;
    OneMore(kinds, messages, m);
    TracksOf(kinds, messages);
    forall kind | kind in kinds
      ensures TracksAfter(kinds, messages)[kind] != [] <==> Announced(messages, kind)
    {
      TracksAre(kinds, messages, kind);
    }
    NothingTraced(kinds);
  }

  lemma TracksOf(kinds: set<Kind>, messages: seq<Message>)
    ensures TracksAfter(kinds, messages).Keys == kinds
  {
  }

  lemma KindOfReaching(tracks: Tracks, m: Message)
    ensures Reaches(tracks, m) || FillsIn(tracks, m) ==> m.kind in tracks
    ensures !(Reaches(tracks, m) && FillsIn(tracks, m))
  {
  }

  lemma NothingTraced(kinds: set<Kind>)
    ensures TracksAfter(kinds, []) == (map k | k in kinds :: []) && FramesSent(kinds, []) == []
    ensures Trace(kinds, []) == []
  {
  }

  function Flags(video: bool, audio: bool): set<Kind> {
    (if video then {Video} else {}) + (if audio then {Audio} else {})
  }

  // ----- inputs -----

  datatype Input = Media(message: Message) | Delete

  predicate IsAccepted(input: Input) {
    input.Media? && SizeOk(input.message)
  }

  function Accepted(inputs: seq<Input>): seq<Message> {
    if inputs == [] then []
    else
      var init, last := inputs[..|inputs| - 1], inputs[|inputs| - 1];
      Accepted(init) + if IsAccepted(last) then [last.message] else []
  }

  /** Whether a message of the kind came since the last deletion. */
  predicate Heard(inputs: seq<Input>, kind: Kind) {
    inputs != []
    && (var init, last := inputs[..|inputs| - 1], inputs[|inputs| - 1];
        last.Media? && ((SizeOk(last.message) && last.message.kind == kind) || Heard(init, kind)))
  }

  /** When a stream is published: on a message, with both kinds heard, or video and more than 50 messages cached. */
  predicate Ready(inputs: seq<Input>) {
    inputs != []
    && (var init, last := inputs[..|inputs| - 1], inputs[|inputs| - 1];
        Ready(init)
        || (IsAccepted(last) && Heard(inputs, Video)
            && (Heard(inputs, Audio) || |Accepted(init)| > MAX_STREAM_MESSAGE_COUNT / 2)))
  }

  /** The kinds heard when the stream was published get a track; a kind that comes later does not. */
  function KindsAt(inputs: seq<Input>): set<Kind> {
    if inputs == [] then {}
    else
      var init := inputs[..|inputs| - 1];
      if Ready(init) then KindsAt(init) else Flags(Heard(inputs, Video), Heard(inputs, Audio))
  }

  /** Deleted after it was published. */
  predicate Deleted(inputs: seq<Input>) {
    inputs != []
    && (var init, last := inputs[..|inputs| - 1], inputs[|inputs| - 1];
        Deleted(init) || (last.Delete? && Ready(init)))
  }

  /** The messages that are handled: all accepted ones once the stream is published, and none behind its deletion. */
  function Handled(inputs: seq<Input>): seq<Message> {
    if inputs == [] || !Ready(inputs) then []
    else
      var init := inputs[..|inputs| - 1];
      if Deleted(init) then Handled(init) else Accepted(inputs)
  }

  lemma OneMoreInput(inputs: seq<Input>, input: Input)
    ensures var next := inputs + [input];
            && Accepted(next) == Accepted(inputs) + (if IsAccepted(input) then [input.message] else [])
            && (forall k :: Heard(next, k) <==>
                  input.Media? && ((SizeOk(input.message) && input.message.kind == k) || Heard(inputs, k)))
            && (Ready(next) <==>
                  Ready(inputs) || (IsAccepted(input) && Heard(next, Video)
                                    && (Heard(next, Audio) || |Accepted(inputs)| > MAX_STREAM_MESSAGE_COUNT / 2)))
            && KindsAt(next) ==
               (if Ready(inputs) then KindsAt(inputs) else Flags(Heard(next, Video), Heard(next, Audio)))
            && (Deleted(next) <==> Deleted(inputs) || (input.Delete? && Ready(inputs)))
            && Handled(next) == if !Ready(next) then [] else if Deleted(inputs) then Handled(inputs) else Accepted(next)
  {
    assert (inputs + [input])[..|inputs|] == inputs;
  }

  /** What is accepted, by the sizes of the messages. */
  lemma AcceptedBySize(inputs: seq<Input>, m: Message)
    ensures Accepted([]) == [] && Accepted(inputs + [Delete]) == Accepted(inputs)
    ensures Accepted(inputs + [Media(m)]) ==
            Accepted(inputs) + match m.kind
                               case Video => if 5 <= m.size <= 20971520 then [m] else []
                               case Audio => if 2 <= m.size <= 20971520 then [m] else []
  {
    assert (inputs + [Media(m)])[..|inputs|] == inputs && (inputs + [Delete])[..|inputs|] == inputs;
    AppendNothing(Accepted(inputs));
  }

  /** A kind is heard when an accepted message of it has no deletion behind it. */
  lemma {:induction false} HeardWhen(inputs: seq<Input>, kind: Kind)
    ensures Heard(inputs, kind) <==>
            exists i :: 0 <= i < |inputs| && IsAccepted(inputs[i]) && inputs[i].message.kind == kind
                        && Delete !in inputs[i..]
  {
    if inputs != [] {
      var init, last := inputs[..|inputs| - 1], inputs[|inputs| - 1];
      HeardWhen(init, kind);
      assert forall i :: 0 <= i < |init| ==> inputs[i..] == init[i..] + [last];
      assert inputs[|init|..] == [last];
    }
  }

  /**
    The stream is published with the first message that leaves both kinds heard, or video with more than 50
    messages in the cache, and has the tracks of the kinds heard by then.
   */
  lemma {:induction false} ReadyWhen(inputs: seq<Input>)
    ensures Ready(inputs) <==> exists n :: 0 <= n < |inputs| && Enough(inputs, n)
    ensures forall n :: 0 <= n < |inputs| && Enough(inputs, n) && !Ready(inputs[..n]) ==>
              KindsAt(inputs) == {Video} + if Heard(inputs[..n + 1], Audio) then {Audio} else {}
  {
    hide Heard, Enough, Accepted;
    if inputs != [] {
      var init, last := inputs[..|inputs| - 1], inputs[|inputs| - 1];
      ReadyWhen(init);
      EnoughAtEnd(inputs);
      forall n | 0 <= n < |init|
        ensures Enough(inputs, n) == Enough(init, n) && SameBefore(inputs, init, n)
      {
        EnoughBefore(inputs, n);
      }
    }
  }

  predicate SameBefore(a: seq<Input>, b: seq<Input>, n: nat) {
    n < |a| && n < |b| && a[..n] == b[..n] && a[..n + 1] == b[..n + 1]
  }

  lemma EnoughBefore(inputs: seq<Input>, n: nat)
    requires n < |inputs| - 1
    ensures var init := inputs[..|inputs| - 1];
            SameBefore(inputs, init, n) && Enough(inputs, n) == Enough(init, n)
  {
    hide Heard, Accepted;
  }

  lemma EnoughAtEnd(inputs: seq<Input>)
    requires inputs != []
    ensures var n := |inputs| - 1;
            && inputs[..n + 1] == inputs && (Ready(inputs) <==> Ready(inputs[..n]) || Enough(inputs, n))
            && (Enough(inputs, n) ==> Heard(inputs, Video))
  {
    hide Heard, Accepted;
    assert inputs[..|inputs|] == inputs;
  }

  predicate Enough(inputs: seq<Input>, n: nat)
    requires n < |inputs|
  {
    var now := inputs[..n + 1];
    IsAccepted(inputs[n]) && Heard(now, Video) && (Heard(now, Audio) || |Accepted(inputs[..n])| > 50)
  }

  /** The cut is at the first deletion after publishing: whatever follows it changes nothing. */
  lemma {:induction false} CutAtDeletion(a: seq<Input>, b: seq<Input>)
    requires Ready(a) && !Deleted(a)
    ensures var inputs := a + [Delete] + b;
            Ready(inputs) && Deleted(inputs) && KindsAt(inputs) == KindsAt(a) && Handled(inputs) == Accepted(a)
    decreases |b|
  {
    hide Ready, Deleted, KindsAt, Handled, Accepted, Heard;
    if b == [] {
      OneMoreInput(a, Delete);
      assert a + [Delete] + b == a + [Delete];
    } else {
      var init, last := b[..|b| - 1], b[|b| - 1];
      CutAtDeletion(a, init);
      OneMoreInput(a + [Delete] + init, last);
      assert a + [Delete] + b == (a + [Delete] + init) + [last];
    }
  }

  /** Without a deletion every accepted message is handled. */
  lemma {:induction false} NothingCut(inputs: seq<Input>)
    requires Delete !in inputs
    ensures !Deleted(inputs) && (Ready(inputs) ==> Handled(inputs) == Accepted(inputs))
  {
    if inputs != [] {
      NothingCut(inputs[..|inputs| - 1]);
    }
  }

  /** Audio alone is never published, however much of it comes. */
  lemma {:induction false} AudioAloneIsNeverReady(inputs: seq<Input>)
    requires forall i :: 0 <= i < |inputs| && inputs[i].Media? ==> inputs[i].message.kind == Audio
    ensures !Heard(inputs, Video) && !Ready(inputs)
  {
    if inputs != [] {
      AudioAloneIsNeverReady(inputs[..|inputs| - 1]);
    }
  }

  // ----- the stream -----

  class Publisher {
    const named: bool
    var published: bool
    var videoComing: bool
    var audioComing: bool
    var cache: seq<Message>
    var videoCount: nat
    var audioCount: nat
    var tracks: Tracks
    var trackInfoSent: bool
    var log: seq<Callback>
    ghost var kinds: set<Kind>
    ghost var accepted: seq<Message>
    ghost var processed: seq<Message>
    ghost var deleted: bool

    constructor (named: bool)
      ensures Valid() && this.named == named && log == [] && accepted == []
      ensures !published && !deleted && !videoComing && !audioComing
    {
      this.named := named;
      published, videoComing, audioComing, cache, videoCount, audioCount := false, false, false, [], 0, 0;
      tracks, trackInfoSent, log := map[], false, [];
      kinds, accepted, processed, deleted := {}, [], [], false;
    }

    /** The log is the trace of the messages processed, and these are the ones that came, in order. */
    ghost predicate Valid()
      reads this
    {
      && audioCount == 0
      && (!published ==>
            && !deleted && log == [] && !trackInfoSent && tracks == map[]
            && processed == [] && cache == accepted && videoCount == |cache|)
      && (published && !named ==> log == [] && tracks == map[] && !trackInfoSent)
      && (published && named ==> Traced())
    }

    ghost predicate Traced()
      reads this
    {
      && log == Trace(kinds, processed) && processed <= accepted
      && (!deleted ==> LogIsTrace() && processed == accepted)
      && (deleted ==> !videoComing && !audioComing)
    }

    predicate Coming(kind: Kind)
      reads this
    {
      if kind == Video then videoComing else audioComing
    }

    /** Audio messages are counted as video ones, so that audio alone is never enough. */
    function CheckReadyToPublish(): (ready: bool)
      reads this
    {
      if videoComing && audioComing then true
      else if videoComing && videoCount > MAX_STREAM_MESSAGE_COUNT / 2 then true
      else if audioComing && audioCount > MAX_STREAM_MESSAGE_COUNT / 2 then true
      else false
    }

    /** Passes a frame on once every track has its extradata; the first time, the names and tracks go first. */
    method SendFrame(m: Message)
      modifies this`log, this`trackInfoSent
      ensures trackInfoSent == (old(trackInfoSent) || Complete(tracks))
      ensures log == old(log) + if !trackInfoSent then []
                                else if old(trackInfoSent) then [Sample(m)]
                                else [AppStreamName, TrackInfo(tracks), Sample(m)]
    {
      if !trackInfoSent {
        trackInfoSent := true;
        var left := tracks.Keys;
        while left != {}
          invariant left <= tracks.Keys && trackInfoSent
          invariant forall k :: k in tracks && k !in left ==> tracks[k] != []
          invariant log == old(log)
        {
          var k :| k in left;
          if |tracks[k]| == 0 {
            trackInfoSent := false;
            break;
          }
          left := left - {k};
        }
        if trackInfoSent {
          log := log + [AppStreamName];
          log := log + [TrackInfo(tracks)];
        }
      }
      if trackInfoSent {
        log := log + [Sample(m)];
      }
    }

    /** What happens to a message behind the publishing check. */
    method Handle(m: Message) returns (ok: bool)
      modifies this`log, this`trackInfoSent, this`tracks
      ensures ok <==> Coming(m.kind) ==> !m.content.Unparsable? && m.kind in old(tracks)
      ensures !(Coming(m.kind) && (Reaches(old(tracks), m) || FillsIn(old(tracks), m))) ==>
                log == old(log) && tracks == old(tracks) && trackInfoSent == old(trackInfoSent)
      ensures Coming(m.kind) && FillsIn(old(tracks), m) ==>
                log == old(log) && trackInfoSent == old(trackInfoSent) &&
                tracks == old(tracks)[m.kind := m.content.extradata.value]
      ensures Coming(m.kind) && Reaches(old(tracks), m) ==>
                tracks == old(tracks) && trackInfoSent == (old(trackInfoSent) || Complete(tracks)) &&
                log == old(log) + if !trackInfoSent then []
                                  else if old(trackInfoSent) then [Sample(m)]
                                  else [AppStreamName, TrackInfo(tracks), Sample(m)]
    {
      if !Coming(m.kind) {
        return true;
      }
      if m.content.Unparsable? {
        return false;
      }
      if m.kind !in tracks {
        return false;
      }
      if m.content.EndOfSequence? {
        return true;
      }
      if m.content.SequenceHeader? && |tracks[m.kind]| == 0 && m.content.extradata.Some? {
        tracks := tracks[m.kind := m.content.extradata.value];
        return true;
      }
      SendFrame(m);
      ok := true;
    }

    /** The log is the trace of what was processed. */
    ghost predicate LogIsTrace()
      reads this
    {
      && log == Trace(kinds, processed) && tracks == TracksAfter(kinds, processed)
      && (trackInfoSent <==> FramesSent(kinds, processed) != [])
      && (videoComing <==> Video in kinds) && (audioComing <==> Audio in kinds)
    }

    /** Handles one more message; after a deletion and without a name nothing happens. */
    method Process(m: Message) returns (ok: bool)
      requires if named && !deleted then LogIsTrace() else (!videoComing && !audioComing) || tracks == map[]
      modifies this`log, this`trackInfoSent, this`tracks, this`processed
      ensures named && !deleted ==> LogIsTrace() && processed == old(processed) + [m]
      ensures !named || deleted ==>
        log == old(log) && tracks == old(tracks) && trackInfoSent == old(trackInfoSent) && processed == old(processed)
    {
      hide Trace, TracksAfter, FramesSent, Reaches, FillsIn, Complete;
      TraceOne(kinds, processed, m);
      TracksOf(kinds, processed);
      KindOfReaching(tracks, m);
      ok := Handle(m);
      if named && !deleted {
        processed := processed + [m];
      }
    }

    /** `SetTrackInfo` and the replay of the cache. */
    method PublishStream() returns (ok: bool)
      requires Valid() && !published
      modifies this`published, this`tracks, this`log, this`trackInfoSent, this`cache, this`kinds, this`processed
      ensures Valid() && published && ok == named && (named ==> kinds == Flags(videoComing, audioComing))
    {
      hide Trace, TracksAfter, FramesSent;
      published := true;
      if !named {
        return false;
      }
      var coming := Flags(videoComing, audioComing);
      kinds := coming;
      tracks := map k | k in coming :: [];
      NothingTraced(kinds);
      Replay();
      cache := [];
      ok := true;
    }

    /** Every cached message is handled, in order. */
    method Replay()
      requires named && !deleted && LogIsTrace() && processed == []
      modifies this`log, this`trackInfoSent, this`tracks, this`processed
      ensures LogIsTrace() && processed == cache
    {
      hide LogIsTrace;
      for i := 0 to |cache|
        invariant processed == cache[..i] && LogIsTrace()
      {
        var handled := Process(cache[i]);
      }
      assert cache[..|cache|] == cache;
    }

    /** Caches a message, or publishes the stream if it is ready. */
    method CacheOrPublish(m: Message) returns (live: bool, ok: bool)
      requires Valid() && !published
      modifies this
      ensures Valid() && deleted == old(deleted) && (live ==> published && named && !deleted)
      ensures published && named ==> live && kinds == Flags(videoComing, audioComing)
      ensures !live ==> ok == !published && (published ==> !named)
      ensures accepted == old(accepted) + if published then [] else [m]
      ensures published == (videoComing && (audioComing || |old(accepted)| > MAX_STREAM_MESSAGE_COUNT / 2))
      ensures videoComing == (old(videoComing) || m.kind == Video)
      ensures audioComing == (old(audioComing) || m.kind == Audio)
    {
      hide Trace, TracksAfter, FramesSent;
      if m.kind == Video {
        videoComing := true;
      } else {
        audioComing := true;
      }
      if !CheckReadyToPublish() {
        cache := cache + [m];
        videoCount := videoCount + 1;
        accepted := accepted + [m];
        return false, true;
      }
      live := PublishStream();
      ok := live;
    }

    /** A video or an audio message: refused by size, cached, or handled after publishing if that is due. */
    method ReceiveMessage(m: Message) returns (ok: bool)
      requires Valid()
      modifies this
      ensures Valid() && deleted == old(deleted)
      ensures accepted == old(accepted) + if (if m.kind == Video then 5 else 2) <= m.size <= 20971520 then [m] else []
      ensures !SizeOk(m) ==>
        !ok && published == old(published) && videoComing == old(videoComing) && audioComing == old(audioComing)
      ensures old(published) ==> published && kinds == old(kinds)
      ensures deleted ==> processed == old(processed) && log == old(log)
      ensures !old(published) && SizeOk(m) ==>
        && videoComing == (old(videoComing) || m.kind == Video)
        && audioComing == (old(audioComing) || m.kind == Audio)
        && published == (videoComing && (audioComing || |old(accepted)| > 50))
        && (published && named ==> kinds == Flags(videoComing, audioComing))
    {
      hide Trace, TracksAfter, FramesSent;
      if !SizeOk(m) {
        return false;
      }
      if !published {
        var live;
        live, ok := CacheOrPublish(m);
        if !live {
          if published {
            accepted := accepted + [m];
          }
          return;
        }
      }
      accepted := accepted + [m];
      ok := Process(m);
    }

    /** Switches both kinds off: a published stream passes nothing on from then on, any other forgets the kinds seen. */
    method DeleteStream()
      requires Valid()
      modifies this`videoComing, this`audioComing, this`deleted
      ensures Valid() && !videoComing && !audioComing && deleted == published
    {
      hide Trace, TracksAfter, FramesSent;
      videoComing, audioComing := false, false;
      deleted := published;
    }
  }

  // ----- runs -----

  /** Every run is determined by its inputs: what the callbacks see is the trace of the messages handled. */
  method Run(named: bool, inputs: seq<Input>) returns (log: seq<Callback>)
    ensures log == if named && Ready(inputs) then Trace(KindsAt(inputs), Handled(inputs)) else []
  {
    hide Trace, TracksAfter, FramesSent, Ready, KindsAt, Heard, Deleted, Handled, Accepted;
    var publisher := new Publisher(named);
    assert inputs[..0] == [];
    NothingHeard();
    for i := 0 to |inputs|
      invariant publisher.Valid() && fresh(publisher) && publisher.named == named
      invariant Agrees(publisher, inputs[..i])
    {
      assert inputs[..i + 1] == inputs[..i] + [inputs[i]];
      match inputs[i] {
        case Media(m) => Receive(publisher, m, inputs[..i]);
        case Delete =>
          OneMoreInput(inputs[..i], Delete);
          AppendNothing(publisher.accepted);
          publisher.DeleteStream();
      }
    }
    assert inputs[..|inputs|] == inputs;
    log := publisher.log;
  }

  /** The state of a stream by its inputs alone. */
  ghost predicate Agrees(p: Publisher, inputs: seq<Input>)
    reads p
  {
    && p.accepted == Accepted(inputs) && p.published == Ready(inputs) && p.deleted == Deleted(inputs)
    && (!p.published ==> p.videoComing == Heard(inputs, Video) && p.audioComing == Heard(inputs, Audio))
    && (p.published && p.named ==> p.kinds == KindsAt(inputs) && p.processed == Handled(inputs))
  }

  method Receive(p: Publisher, m: Message, ghost inputs: seq<Input>)
    requires p.Valid() && Agrees(p, inputs)
    modifies p
    ensures p.Valid() && Agrees(p, inputs + [Media(m)])
  {
    hide Trace, TracksAfter, FramesSent, Flags, Ready, KindsAt, Heard, Deleted, Handled, Accepted;
    OneMoreInput(inputs, Media(m));
    AppendNothing(p.accepted);
    DeletedIsReady(inputs);
    var ok := p.ReceiveMessage(m);
  }

  lemma {:induction false} DeletedIsReady(inputs: seq<Input>)
    ensures Deleted(inputs) ==> Ready(inputs)
  {
    if inputs != [] {
      DeletedIsReady(inputs[..|inputs| - 1]);
    }
  }

  lemma NothingHeard()
    ensures !Ready([]) && !Deleted([]) && Accepted([]) == [] && Handled([]) == [] && forall k :: !Heard([], k)
  {
  }
}
