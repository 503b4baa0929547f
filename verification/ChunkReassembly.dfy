/** What a message costs on the wire, byte by byte: where each payload byte and each interior header stands. */
module ChunkReassembly {
  import opened Bytes
  import opened ChunkFormat
  import opened ChunkExport

  /** The wire position of payload byte `i`: one header of `gap` bytes stands before every further chunk. */
  function Origin(i: nat, chunkSize: ChunkSize, gap: nat): nat {
    if i < chunkSize then i else chunkSize + gap + Origin(i - chunkSize, chunkSize, gap)
  }

  lemma {:induction false} OriginClosed(i: nat, chunkSize: ChunkSize, gap: nat)
    ensures Origin(i, chunkSize, gap) == i + i / chunkSize * gap
  {
    if i < chunkSize {
      DivideUnique(i, chunkSize, 0, i);
    } else {
      OriginClosed(i - chunkSize, chunkSize, gap);
      DivideStep(i, chunkSize);
      MultiplySuccessor((i - chunkSize) / chunkSize, gap);
    }
  }

  /** The wire position of the header between chunks `k` and `k + 1`. */
  function HeaderPosition(k: nat, chunkSize: ChunkSize, gap: nat): nat {
    if k == 0 then chunkSize else chunkSize + gap + HeaderPosition(k - 1, chunkSize, gap)
  }

  lemma {:induction false} HeaderPositionClosed(k: nat, chunkSize: ChunkSize, gap: nat)
    ensures HeaderPosition(k, chunkSize, gap) == (k + 1) * chunkSize + k * gap
  {
    if k > 0 {
      HeaderPositionClosed(k - 1, chunkSize, gap);
      MultiplySuccessor(k, chunkSize);
      MultiplySuccessor(k - 1, gap);
    }
  }

  lemma WireLength(length: Positive, chunkSize: ChunkSize, gap: Positive)
    ensures ExpectedSize(length, chunkSize, gap) == length + GapBytes(length, chunkSize, gap)
  {
    GapBytesBlocks(length, chunkSize, gap);
    BlocksDivide(length, chunkSize);
  }

  predicate HeaderMatches(raw: seq<Byte>, k: nat, chunkSize: ChunkSize, type3: seq<Byte>, extra: nat) {
    var at := HeaderPosition(k, chunkSize, |type3| + extra);
    at + |type3| <= |raw| && raw[at..at + |type3|] == type3
  }

  /** Every interior header of a message of `length` bytes is the expected one. */
  predicate AllHeadersMatch(raw: seq<Byte>, length: nat, chunkSize: ChunkSize, type3: seq<Byte>, extra: nat) {
    forall k :: 0 <= k < Blocks(length, chunkSize) - 1 ==> HeaderMatches(raw, k, chunkSize, type3, extra)
  }

  /** `payload` is the raw bytes at their origins. */
  predicate IsPayload(payload: seq<Byte>, raw: seq<Byte>, length: nat, chunkSize: ChunkSize, gap: nat) {
    |payload| == length
    && forall i :: 0 <= i < length ==>
         Origin(i, chunkSize, gap) < |raw| && payload[i] == raw[Origin(i, chunkSize, gap)]
  }

  lemma HeaderShift(raw: seq<Byte>, k: nat, chunkSize: ChunkSize, type3: seq<Byte>, extra: nat)
    requires chunkSize + |type3| + extra <= |raw|
    ensures HeaderMatches(raw, k + 1, chunkSize, type3, extra) <==>
            HeaderMatches(raw[chunkSize + |type3| + extra..], k, chunkSize, type3, extra)
  {
    var skip, at := chunkSize + |type3| + extra, HeaderPosition(k, chunkSize, |type3| + extra);
    if skip + at + |type3| <= |raw| {
      assert raw[skip..][at..at + |type3|] == raw[skip + at..skip + at + |type3|];
    }
  }

  lemma HeadersShift(raw: seq<Byte>, length: nat, chunkSize: ChunkSize, type3: seq<Byte>, extra: nat)
    requires chunkSize < length && chunkSize + |type3| + extra <= |raw|
    ensures AllHeadersMatch(raw, length, chunkSize, type3, extra) <==>
            raw[chunkSize..chunkSize + |type3|] == type3
            && AllHeadersMatch(raw[chunkSize + |type3| + extra..], length - chunkSize, chunkSize, type3, extra)
  {
    var rest, more := raw[chunkSize + |type3| + extra..], Blocks(length - chunkSize, chunkSize) - 1;
    assert HeaderMatches(raw, 0, chunkSize, type3, extra) <==> raw[chunkSize..chunkSize + |type3|] == type3;
    forall k | 0 <= k < more
      ensures HeaderMatches(raw, k + 1, chunkSize, type3, extra) <==> HeaderMatches(rest, k, chunkSize, type3, extra)
    {
      HeaderShift(raw, k, chunkSize, type3, extra);
    }
    if AllHeadersMatch(rest, length - chunkSize, chunkSize, type3, extra)
       && raw[chunkSize..chunkSize + |type3|] == type3 {
      forall k | 0 <= k < more + 1
        ensures HeaderMatches(raw, k, chunkSize, type3, extra)
      {
        if k > 0 { assert HeaderMatches(rest, k - 1, chunkSize, type3, extra); }
      }
    }
  }

  lemma PayloadShift(payload: seq<Byte>, raw: seq<Byte>, length: nat, chunkSize: ChunkSize, gap: nat)
    requires chunkSize < length && chunkSize + gap <= |raw|
    requires IsPayload(payload, raw[chunkSize + gap..], length - chunkSize, chunkSize, gap)
    ensures IsPayload(raw[..chunkSize] + payload, raw, length, chunkSize, gap)
  {
    var whole := raw[..chunkSize] + payload;
    forall i | 0 <= i < length
      ensures Origin(i, chunkSize, gap) < |raw| && whole[i] == raw[Origin(i, chunkSize, gap)]
    {
      if i >= chunkSize {
        assert Origin(i - chunkSize, chunkSize, gap) < |raw[chunkSize + gap..]|;
      }
    }
  }

  /**
    Reassembly reads exactly the bytes the size formula promises: it succeeds if and only if every
    interior header matches, and then yields exactly `length` bytes, each from its own wire position.
   */
  lemma {:induction false} Reassembly(raw: seq<Byte>, length: Positive, chunkSize: ChunkSize, type3: seq<Byte>,
                                      extra: nat)
    requires type3 != [] && |raw| == length + GapBytes(length, chunkSize, |type3| + extra)
    ensures var payload := Strip(raw, chunkSize, type3, extra, true);
            (payload.Some? <==> AllHeadersMatch(raw, length, chunkSize, type3, extra))
            && (payload.Some? ==> IsPayload(payload.value, raw, length, chunkSize, |type3| + extra))
    decreases length
  {
    hide Strip;
    var gap := |type3| + extra;
    StripChunk(raw, 0, chunkSize, type3, extra, []);
    assert raw[0..] == raw;
    PrefixNothing(Strip(raw, chunkSize, type3, extra, true));
    if length <= chunkSize {
      StripNothing(chunkSize, type3, extra, false);
      assert raw[|raw|..] == [] && [] + raw[0..|raw|] + [] == raw;
    } else {
      var rest := raw[chunkSize + gap..];
      StripHeader(raw, chunkSize, chunkSize, type3, extra);
      HeadersShift(raw, length, chunkSize, type3, extra);
      Reassembly(rest, length - chunkSize, chunkSize, type3, extra);
      var payload := Strip(rest, chunkSize, type3, extra, true);
      if payload.Some? {
        PayloadShift(payload.value, raw, length, chunkSize, gap);
        assert [] + raw[0..chunkSize] == raw[..chunkSize];
      }
    }
  }

  /** A message completes if and only if all its interior headers match, for every length up to the limit. */
  lemma MessageComplete(h: ChunkHeader, chunkSize: ChunkSize, raw: seq<Byte>)
    requires 1 <= h.completed.length
    requires h.expected == ExpectedSize(h.completed.length, chunkSize, Type3Size(h.basic, h.extended.Some?)) == |raw|
    requires |ExpectedType3(h.basic)| == h.basic.size
    ensures var extra := if h.extended.Some? then EXTENDED_TIMESTAMP_SIZE else 0;
            |raw| == h.completed.length + GapBytes(h.completed.length, chunkSize, h.basic.size + extra)
            && (FinalizeMessage(h, chunkSize, raw).Some? <==>
                AllHeadersMatch(raw, h.completed.length, chunkSize, ExpectedType3(h.basic), extra))
            && (FinalizeMessage(h, chunkSize, raw).Some? ==>
                IsPayload(FinalizeMessage(h, chunkSize, raw).value.payload, raw, h.completed.length, chunkSize,
                          h.basic.size + extra))
  {
    var extra := if h.extended.Some? then EXTENDED_TIMESTAMP_SIZE else 0;
    WireLength(h.completed.length, chunkSize, Type3Size(h.basic, h.extended.Some?));
    Reassembly(raw, h.completed.length, chunkSize, ExpectedType3(h.basic), extra);
  }

  /** A header that announces an empty payload waits for bytes and is then refused: it never completes. */
  lemma EmptyMessageNeverCompletes(h: ChunkHeader, chunkSize: ChunkSize, raw: seq<Byte>)
    requires h.completed.length == 0 && |raw| == h.expected
    ensures FinalizeMessage(h, chunkSize, raw) == None
  {
  }
}
