/**
  Packets of NAL units in their two framings, with lengths (AVCC) and with start codes (Annex B), and
  when converting there and back changes nothing.
 */
module NalFraming {
  import opened Bytes
  import opened NalUnits

  const START_CODE: seq<Byte> := [0, 0, 0, 1]

  /** A unit that is not empty and contains no start code. */
  predicate Free(nal: seq<Byte>) {
    nal != [] && forall i :: 0 <= i && i + 3 <= |nal| ==> !(nal[i] == 0 && nal[i + 1] == 0 && nal[i + 2] == 1)
  }

  predicate AllFree(nals: seq<seq<Byte>>) {
    forall i :: 0 <= i < |nals| ==> Free(nals[i])
  }

  function Annexb(nals: seq<seq<Byte>>): seq<Byte> {
    if nals == [] then [] else START_CODE + nals[0] + Annexb(nals[1..])
  }

  /** Every unit behind its length as a 32-bit integer. */
  function Avcc(nals: seq<seq<Byte>>): seq<Byte> {
    if nals == [] then [] else WriteBE(|nals[0]|, 4) + nals[0] + Avcc(nals[1..])
  }

  function NonEmpty(nals: seq<seq<Byte>>): seq<seq<Byte>> {
    if nals == [] then []
    else (if nals[0] == [] then [] else [nals[0]]) + NonEmpty(nals[1..])
  }

  /** What lies in front of the first start code, and the units, without empty ones. */
  function AnnexbNals(s: seq<Byte>): seq<seq<Byte>> {
    NonEmpty([s[..NextCode(s, 0)]] + Cut(s, Units(s)))
  }

  /** The units of an AVCC packet, if every length is right. */
  function AvccNals(d: seq<Byte>): Option<seq<seq<Byte>>> {
    if d == [] then Some([])
    else if |d| < 4 || |d| < 4 + ReadBE(d[..4]) then None
    else
      var n := ReadBE(d[..4]);
      match AvccNals(d[4 + n..])
      case None => None
      case Some(rest) => Some([d[4..4 + n]] + rest)
  }

  // ----- AVCC -----

  predicate Short(nals: seq<seq<Byte>>) {
    forall i :: 0 <= i < |nals| ==> |nals[i]| < 0x1_0000_0000
  }

  lemma {:induction false} AvccRead(nals: seq<seq<Byte>>)
    requires Short(nals)
    ensures AvccNals(Avcc(nals)) == Some(nals)
  {
    if nals != [] {
      hide ReadBE;
      var n, d := |nals[0]|, Avcc(nals);
      Pow256Values();
      ReadWriteBE(n, 4);
      AvccRead(nals[1..]);
      assert d[..4] == WriteBE(n, 4) && d[4..4 + n] == nals[0] && d[4 + n..] == Avcc(nals[1..]);
      assert [nals[0]] + nals[1..] == nals;
    }
  }

  lemma {:induction false} AvccWritten(d: seq<Byte>)
    requires AvccNals(d).Some?
    ensures Avcc(AvccNals(d).value) == d
  {
    if d != [] {
      hide WriteBE, ReadBE;
      var n := ReadBE(d[..4]);
      AvccWritten(d[4 + n..]);
      WriteReadBE(d[..4]);
      CutInThree(d, 4, 4 + n);
    }
  }

  lemma {:induction false} AvccAppend(a: seq<seq<Byte>>, b: seq<seq<Byte>>)
    ensures Avcc(a + b) == Avcc(a) + Avcc(b)
  {
    hide WriteBE;
    if a == [] {
      assert a + b == b;
    } else {
      AvccAppend(a[1..], b);
      assert (a + b)[1..] == a[1..] + b;
      AppendTwice(WriteBE(|a[0]|, 4) + a[0], Avcc(a[1..]), Avcc(b));
    }
  }

  lemma {:induction false} AnnexbAppend(a: seq<seq<Byte>>, b: seq<seq<Byte>>)
    ensures Annexb(a + b) == Annexb(a) + Annexb(b)
  {
    if a == [] {
      assert a + b == b;
    } else {
      AnnexbAppend(a[1..], b);
      assert (a + b)[1..] == a[1..] + b;
      AppendTwice(START_CODE + a[0], Annexb(a[1..]), Annexb(b));
    }
  }

  lemma {:induction false} NonEmptyAppend(a: seq<seq<Byte>>, b: seq<seq<Byte>>)
    ensures NonEmpty(a + b) == NonEmpty(a) + NonEmpty(b)
  {
    if a == [] {
      assert a + b == b;
    } else {
      NonEmptyAppend(a[1..], b);
      assert (a + b)[1..] == a[1..] + b;
      AppendTwice(if a[0] == [] then [] else [a[0]], NonEmpty(a[1..]), NonEmpty(b));
    }
  }

  lemma AvccOne(nal: seq<Byte>)
    ensures Avcc([nal]) == WriteBE(|nal|, 4) + nal
  {
    hide WriteBE;
    assert Avcc([nal][1..]) == [];
  }

  lemma AnnexbOne(nal: seq<Byte>)
    ensures Annexb([nal]) == START_CODE + nal
  {
    assert Annexb([nal][1..]) == [];
  }

  lemma NonEmptyOne(nal: seq<Byte>)
    ensures NonEmpty([nal]) == if nal == [] then [] else [nal]
  {
    assert NonEmpty([nal][1..]) == [];
  }

  // ----- Annex B -----

  /** A scan reaches `j` if no start code begins before it. */
  lemma NextCodeIs(s: seq<Byte>, i: nat, j: nat)
    requires i <= j <= |s| && (j < |s| ==> CodeSize(s, j) > 0)
    requires forall k :: i <= k < j ==> CodeSize(s, k) == 0
    ensures NextCode(s, i) == j
  {
    hide CodeSize;
  }

  /** What may follow a unit. */
  predicate CodeOrEnd(rest: seq<Byte>) {
    rest == [] || (|rest| >= 4 && rest[..4] == START_CODE)
  }

  /** Three bytes of a unit and what follows it look like a start code only inside the unit. */
  lemma NoCodeHere(nal: seq<Byte>, rest: seq<Byte>, k: nat)
    requires Free(nal) && k < |nal| && CodeOrEnd(rest)
    ensures CodeSize(nal + rest, k) == 0
  {
    var t, n := nal + rest, |nal|;
    if rest != [] {
      assert rest[0] == rest[..4][0] && rest[1] == rest[..4][1] && rest[2] == rest[..4][2];
    }
    assert k + 3 <= |t| && k + 2 >= n ==> t[k + 2] == rest[k + 2 - n] == 0;
    assert k + 4 <= |t| && k + 3 >= n ==> t[k + 3] == rest[k + 3 - n] == 0;
  }

  lemma CodeSizeBehind(pre: seq<Byte>, t: seq<Byte>, k: nat)
    requires k <= |t|
    ensures CodeSize(pre + t, |pre| + k) == CodeSize(t, k)
  {
  }

  predicate NoCodes(s: seq<Byte>, i: nat, j: nat) {
    i <= j <= |s| && forall k :: i <= k < j ==> CodeSize(s, k) == 0
  }

  lemma NoCodeInside(pre: seq<Byte>, nal: seq<Byte>, rest: seq<Byte>)
    requires Free(nal) && CodeOrEnd(rest)
    ensures NoCodes(pre + (nal + rest), |pre|, |pre| + |nal|)
  {
    hide CodeSize, Free;
    forall k | |pre| <= k < |pre| + |nal|
      ensures CodeSize(pre + (nal + rest), k) == 0
    {
      NoCodeHere(nal, rest, k - |pre|);
      CodeSizeBehind(pre, nal + rest, k - |pre|);
    }
  }

  /** Inside a free unit, up to the next start code or the end, nothing looks like a start code. */
  lemma UnitBounds(pre: seq<Byte>, nal: seq<Byte>, rest: seq<Byte>)
    requires Free(nal) && CodeOrEnd(rest)
    ensures var s := pre + (nal + rest);
            NextCode(s, |pre|) == |pre| + |nal| && (rest != [] ==> CodeSize(s, |pre| + |nal|) == 4)
  {
    hide CodeSize, NextCode, Free, NoCodes, CodeOrEnd;
    NoCodeInside(pre, nal, rest);
    if rest != [] {
      CodeBehind(pre, nal, rest);
    }
    Bounded(pre + (nal + rest), |pre|, |pre| + |nal|);
  }

  lemma Bounded(s: seq<Byte>, from: nat, at: nat)
    requires NoCodes(s, from, at) && (at < |s| ==> CodeSize(s, at) > 0)
    ensures NextCode(s, from) == at
  {
    hide CodeSize, NextCode;
    NextCodeIs(s, from, at);
  }

  lemma CodeBehind(pre: seq<Byte>, nal: seq<Byte>, rest: seq<Byte>)
    requires rest != [] && CodeOrEnd(rest)
    ensures CodeSize(pre + (nal + rest), |pre| + |nal|) == 4
  {
    hide CodeSize;
    CodeSizeBehind(pre, nal + rest, |nal|);
    CodeSizeBehind(nal, rest, 0);
    CodeAtStart(rest);
  }

  lemma CodeAtStart(s: seq<Byte>)
    requires |s| >= 4 && s[..4] == START_CODE
    ensures CodeSize(s, 0) == 4
  {
    assert s[0] == s[..4][0] && s[1] == s[..4][1] && s[2] == s[..4][2] && s[3] == s[..4][3];
  }

  lemma AnnexbParts(pre: seq<Byte>, nals: seq<seq<Byte>>)
    requires nals != []
    ensures var s, head, nal, rest := pre + Annexb(nals), pre + START_CODE, nals[0], Annexb(nals[1..]);
            && s == head + (nal + rest) && s == head + nal + rest && |head| == |pre| + 4
            && s[|head|..] == nal + rest && s[|head|..|head| + |nal|] == nal
            && (nals[1..] == [] ==> rest == []) && (nals[1..] != [] ==> |rest| >= 4)
            && CodeOrEnd(rest)
  {
    AppendFour(pre, START_CODE, nals[0], Annexb(nals[1..]));
  }

  /** Cutting off the first unit of a packet that starts behind `pre`. */
  lemma AnnexbFirst(pre: seq<Byte>, nals: seq<seq<Byte>>)
    requires nals != [] && Free(nals[0])
    ensures var s, start := pre + Annexb(nals), |pre| + 4;
            && pre + START_CODE + nals[0] + Annexb(nals[1..]) == s
            && (nals[1..] == [] ==> Cut(s, UnitsFrom(s, start)) == [nals[0]])
            && (nals[1..] != [] ==>
                  Cut(s, UnitsFrom(s, start)) == [nals[0]] + Cut(s, UnitsFrom(s, start + |nals[0]| + 4)))
  {
    hide CodeSize, NextCode, UnitsFrom, Cut, Free, Annexb;
    var s, head, nal := pre + Annexb(nals), pre + START_CODE, nals[0];
    AnnexbParts(pre, nals);
    UnitBounds(head, nal, Annexb(nals[1..]));
    if nals[1..] == [] {
      CutLast(s, |head|);
      AppendNothing(nal);
    } else {
      CutOne(s, |head|, |head| + |nal|);
    }
  }

  lemma {:induction false} AnnexbCut(pre: seq<Byte>, nals: seq<seq<Byte>>)
    requires nals != [] && AllFree(nals)
    ensures var s, start := pre + Annexb(nals), |pre| + 4; Cut(s, UnitsFrom(s, start)) == nals
    decreases nals
  {
    hide CodeSize, NextCode, UnitsFrom, Cut, Free, Annexb;
    AnnexbFirst(pre, nals);
    if nals[1..] != [] {
      AnnexbCut(pre + START_CODE + nals[0], nals[1..]);
    }
  }

  lemma {:induction false} NonEmptyFree(nals: seq<seq<Byte>>)
    requires AllFree(nals)
    ensures NonEmpty(nals) == nals
  {
    if nals != [] {
      assert Free(nals[0]);
      NonEmptyFree(nals[1..]);
    }
  }

  /** Units free of start codes are found again. */
  lemma FreeUnitsFound(nals: seq<seq<Byte>>)
    requires AllFree(nals)
    ensures Cut(Annexb(nals), Units(Annexb(nals))) == nals && AnnexbNals(Annexb(nals)) == nals
  {
    hide CodeSize, NextCode, UnitsFrom, Cut, NonEmpty, Free;
    var s := Annexb(nals);
    NoUnits(s);
    FirstCode(nals);
    if nals != [] {
      AnnexbCut([], nals);
      assert [] + s == s;
    }
    NonEmptyFree(nals);
    NonEmptyOne([]);
    NonEmptyAppend([[]], nals);
    assert s[..0] == [];
  }

  lemma FirstCode(nals: seq<seq<Byte>>)
    ensures NextCode(Annexb(nals), 0) == 0
    ensures nals != [] ==> Annexb(nals) != [] && CodeSize(Annexb(nals), 0) == 4
  {
    if nals != [] {
      CodeAtStart(Annexb(nals));
    }
  }

  /** Whatever the stream, what a scan finds is free of start codes. */
  lemma SpanIsFree(s: seq<Byte>, i: nat)
    requires i <= |s| && i < NextCode(s, i)
    ensures Free(s[i..NextCode(s, i)])
  {
    var nal := s[i..NextCode(s, i)];
    forall k | 0 <= k && k + 3 <= |nal|
      ensures !(nal[k] == 0 && nal[k + 1] == 0 && nal[k + 2] == 1)
    {
      assert CodeSize(s, i + k) == 0;
    }
  }

  lemma {:induction false} UnitsAreFree(s: seq<Byte>, start: nat)
    requires start <= |s|
    ensures AllFree(NonEmpty(Cut(s, UnitsFrom(s, start))))
    decreases |s| - start
  {
    hide CodeSize, NextCode, UnitsFrom, Cut, Free;
    var end := NextCode(s, start);
    if start < end {
      SpanIsFree(s, start);
    }
    NonEmptyOne(s[start..end]);
    if end == |s| {
      CutLast(s, start);
      assert s[start..] == s[start..end];
    } else {
      CutOne(s, start, end);
      UnitsAreFree(s, end + CodeSize(s, end));
      NonEmptyAppend([s[start..end]], Cut(s, UnitsFrom(s, end + CodeSize(s, end))));
    }
  }

  lemma FoundAreFree(s: seq<Byte>)
    ensures AllFree(AnnexbNals(s))
  {
    hide CodeSize, NextCode, UnitsFrom, Cut, Free, NonEmpty;
    var first := NextCode(s, 0);
    NoUnits(s);
    if 0 < first {
      SpanIsFree(s, 0);
    }
    NonEmptyOne(s[..first]);
    assert s[..first] == s[0..first];
    NonEmptyAppend([s[..first]], Cut(s, Units(s)));
    if first < |s| {
      UnitsAreFree(s, first + CodeSize(s, first));
    } else {
      assert NonEmpty([]) == [] by { NonEmptyNone(); }
    }
  }

  lemma NonEmptyNone()
    ensures NonEmpty([]) == []
  {
  }

  /** A packet's units are found again if and only if they are all free of start codes and not empty. */
  lemma FoundAgain(nals: seq<seq<Byte>>)
    ensures AnnexbNals(Annexb(nals)) == nals <==> AllFree(nals)
  {
    hide AnnexbNals, AllFree, Annexb;
    FoundAreFree(Annexb(nals));
    if AllFree(nals) {
      FreeUnitsFound(nals);
    }
  }

  /** Both framings unit by unit: a start code of four bytes, or the length in four bytes, most significant first. */
  lemma FramedUnit(nal: seq<Byte>, more: seq<seq<Byte>>)
    ensures Annexb([]) == [] && Annexb([nal] + more) == [0, 0, 0, 1] + nal + Annexb(more)
    ensures Avcc([]) == []
    ensures Avcc([nal] + more) ==
            [|nal| / 0x100_0000 % 256, |nal| / 0x1_0000 % 256, |nal| / 256 % 256, |nal| % 256] + nal + Avcc(more)
  {
    hide WriteBE;
    WriteBE4(|nal|);
    assert ([nal] + more)[1..] == more;
  }
}
