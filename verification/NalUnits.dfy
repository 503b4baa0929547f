/**
  Start codes: the splitter, the fragment scanner and the keyframe check walk a byte stream the same
  way and find the same units.
 */
module NalUnits {
  import opened Bytes

  /** A slice of the stream: where a unit starts, and how long it is. */
  datatype Slice = Slice(offset: nat, length: nat)

  /** The size of the start code at `i`; 0 if there is none. */
  function CodeSize(s: seq<Byte>, i: nat): (n: nat)
    requires i <= |s|
    ensures n == 0 || n == 3 || n == 4
    ensures i + n <= |s|
  {
    var remaining := |s| - i;
    if remaining >= 3 && s[i] == 0 && s[i + 1] == 0 && s[i + 2] == 1 then 3
    else if remaining >= 4 && s[i] == 0 && s[i + 1] == 0 && s[i + 2] == 0 && s[i + 3] == 1 then 4
    else 0
  }

  /** Where the first start code at or after `i` is; the end of the stream if there is none. */
  function NextCode(s: seq<Byte>, i: nat): (j: nat)
    requires i <= |s|
    ensures i <= j <= |s|
    ensures j < |s| ==> CodeSize(s, j) > 0
    ensures forall k :: i <= k < j ==> CodeSize(s, k) == 0
    decreases |s| - i
  {
    if i == |s| || CodeSize(s, i) > 0 then i else NextCode(s, i + 1)
  }

  /** The units from a unit start: each reaches to the next start code or to the end. */
  function UnitsFrom(s: seq<Byte>, start: nat): (units: seq<Slice>)
    requires start <= |s|
    ensures forall i :: 0 <= i < |units| ==> start <= units[i].offset && units[i].offset + units[i].length <= |s|
    decreases |s| - start
  {
    var end := NextCode(s, start);
    [Slice(start, end - start)] + if end == |s| then [] else UnitsFrom(s, end + CodeSize(s, end))
  }

  /** All units of a stream; what is in front of the first start code belongs to none. */
  function Units(s: seq<Byte>): (units: seq<Slice>)
    ensures forall i :: 0 <= i < |units| ==> units[i].offset + units[i].length <= |s|
  {
    var first := NextCode(s, 0);
    if first == |s| then [] else UnitsFrom(s, first + CodeSize(s, first))
  }

  function Cut(s: seq<Byte>, slices: seq<Slice>): seq<seq<Byte>>
    requires forall i :: 0 <= i < |slices| ==> slices[i].offset + slices[i].length <= |s|
  {
    seq(|slices|, i requires 0 <= i < |slices| => s[slices[i].offset..slices[i].offset + slices[i].length])
  }

  lemma {:induction false} NextCodeStep(s: seq<Byte>, i: nat)
    requires i < |s| && CodeSize(s, i) == 0
    ensures NextCode(s, i) == NextCode(s, i + 1)
  {
  }

  // ----- the three scanners -----

  lemma CutOne(s: seq<Byte>, start: nat, end: nat)
    requires start <= end < |s| && end == NextCode(s, start)
    ensures Cut(s, UnitsFrom(s, start)) == [s[start..end]] + Cut(s, UnitsFrom(s, end + CodeSize(s, end)))
  {
    hide NextCode, CodeSize, Cut;
    UnitsFromOne(s, start);
    CutFirst(s, Slice(start, end - start), UnitsFrom(s, end + CodeSize(s, end)));
  }

  lemma CutFirst(s: seq<Byte>, first: Slice, rest: seq<Slice>)
    requires first.offset + first.length <= |s|
    requires forall i :: 0 <= i < |rest| ==> rest[i].offset + rest[i].length <= |s|
    ensures Cut(s, [first] + rest) == [s[first.offset..first.offset + first.length]] + Cut(s, rest)
  {
    var all := [first] + rest;
    assert forall i :: 1 <= i < |all| ==> all[i] == rest[i - 1];
  }

  lemma CutLast(s: seq<Byte>, start: nat)
    requires start <= |s| == NextCode(s, start)
    ensures Cut(s, UnitsFrom(s, start)) == [s[start..]]
  {
    assert s[start..|s|] == s[start..];
  }

  /** `NalUnitSplitter::Parse`; position 0 stands for "no unit yet". */
  method Split(s: seq<Byte>) returns (units: seq<seq<Byte>>)
    ensures units == Cut(s, Units(s))
  {
    hide Cut, UnitsFrom, CodeSize, NextCode;
    units := [];
    var offset, start := 0, 0;
    ghost var goal := Cut(s, Units(s));
    NoUnits(s);
    while offset < |s|
      invariant offset <= |s| && start <= offset
      invariant offset < |s| && start == 0 ==> NextCode(s, 0) == NextCode(s, offset) && units == []
      invariant offset < |s| && start > 0 ==>
        NextCode(s, start) == NextCode(s, offset) && goal == units + Cut(s, UnitsFrom(s, start))
      invariant offset == |s| ==> units == goal
    {
      var size := CodeSize(s, offset);
      if size > 0 {
        CodeInside(s, offset);
        CodeHere(s, offset);
        if start > 0 {
          CutOne(s, start, offset);
          units := units + [s[start..offset]];
        } else {
          assert goal == Cut(s, UnitsFrom(s, offset + size));
        }
        offset := offset + size;
        start := offset;
      } else {
        NextCodeStep(s, offset);
        offset := offset + 1;
      }
      if offset == |s| {
        AtEnd(s);
        if start > 0 {
          CutLast(s, start);
          units := units + [s[start..]];
        }
      }
    }
  }

  lemma NoUnits(s: seq<Byte>)
    ensures NextCode(s, 0) == |s| ==> Cut(s, Units(s)) == []
    ensures NextCode(s, 0) < |s| ==> Units(s) == UnitsFrom(s, NextCode(s, 0) + CodeSize(s, NextCode(s, 0)))
  {
    hide UnitsFrom, CodeSize, NextCode;
  }

  lemma CodeHere(s: seq<Byte>, i: nat)
    requires i < |s| && CodeSize(s, i) > 0
    ensures NextCode(s, i) == i
  {
  }

  lemma AtEnd(s: seq<Byte>)
    ensures NextCode(s, |s|) == |s|
  {
  }

  /** The first loop of `NalUnitFragmentHeader::Parse`: start codes with their sizes. */
  method FindCodes(s: seq<Byte>) returns (codes: seq<(nat, nat)>)
    ensures codes == Codes(s, 0)
  {
    hide CodeSize;
    codes := [];
    var offset := 0;
    while offset < |s|
      invariant offset <= |s| && Codes(s, 0) == codes + Codes(s, offset)
    {
      var size := CodeSize(s, offset);
      if size > 0 {
        codes := codes + [(offset, size)];
        offset := offset + size;
      } else {
        offset := offset + 1;
      }
    }
  }

  function Codes(s: seq<Byte>, i: nat): (codes: seq<(nat, nat)>)
    requires i <= |s|
    decreases |s| - i
  {
    if i == |s| then []
    else if CodeSize(s, i) > 0 then [(i, CodeSize(s, i))] + Codes(s, i + CodeSize(s, i))
    else Codes(s, i + 1)
  }

  /** Each unit lies between a start code and the next one, or the end. */
  function Between(codes: seq<(nat, nat)>, end: nat): seq<Slice>
    requires Ascending(codes, end)
  {
    if codes == [] then []
    else
      var offset, next := codes[0].0 + codes[0].1, if |codes| == 1 then end else codes[1].0;
      [Slice(offset, next - offset)] + Between(codes[1..], end)
  }

  predicate Ascending(codes: seq<(nat, nat)>, end: nat) {
    codes == []
    || (codes[0].0 + codes[0].1 <= (if |codes| == 1 then end else codes[1].0) && Ascending(codes[1..], end))
  }

  lemma {:induction false} CodesFromNext(s: seq<Byte>, i: nat)
    requires i <= |s|
    ensures Codes(s, i) == Codes(s, NextCode(s, i))
    decreases |s| - i
  {
    if i < |s| && CodeSize(s, i) == 0 {
      CodesFromNext(s, i + 1);
    }
  }

  /** The start codes found are those that bound the units. */
  lemma {:induction false} CodesBoundUnits(s: seq<Byte>, i: nat)
    requires i <= |s|
    ensures Ascending(Codes(s, i), |s|)
    ensures var j := NextCode(s, i);
            && (j == |s| ==> Codes(s, i) == [])
            && (j < |s| ==> Codes(s, i) != [] && Codes(s, i)[0].0 == j
                            && Between(Codes(s, i), |s|) == UnitsFrom(s, j + CodeSize(s, j)))
    decreases |s| - i
  {
    hide CodeSize, UnitsFrom, NextCode;
    var j := NextCode(s, i);
    CodesFromNext(s, i);
    if j < |s| {
      var start := j + CodeSize(s, j);
      CodesBoundUnits(s, start);
      UnitsFromOne(s, start);
      var rest := Codes(s, start);
      assert Codes(s, j) == [(j, CodeSize(s, j))] + rest;
      assert Codes(s, j)[1..] == rest;
      if rest != [] {
        assert rest[0].0 == NextCode(s, start);
      }
    }
  }

  lemma UnitsFromOne(s: seq<Byte>, start: nat)
    requires start <= |s|
    ensures var end := NextCode(s, start);
            UnitsFrom(s, start) ==
            [Slice(start, end - start)] + if end == |s| then [] else UnitsFrom(s, end + CodeSize(s, end))
  {
    hide CodeSize, NextCode;
  }

  /** `NalUnitFragmentHeader::Parse`: offsets and lengths of the units. */
  method ParseFragments(s: seq<Byte>) returns (offsets: seq<nat>, lengths: seq<nat>)
    ensures |offsets| == |lengths| == |Units(s)|
    ensures forall i :: 0 <= i < |Units(s)| ==> Slice(offsets[i], lengths[i]) == Units(s)[i]
  {
    hide CodeSize, NextCode, UnitsFrom, Codes;
    CodesBoundUnits(s, 0);
    var codes := FindCodes(s);
    ghost var units := Units(s);
    BetweenLength(codes, |s|);
    offsets, lengths := [], [];
    for i := 0 to |codes|
      invariant |offsets| == |lengths| == i
      invariant forall j :: 0 <= j < i ==> Slice(offsets[j], lengths[j]) == Between(codes, |s|)[j]
    {
      BetweenAt(codes, |s|, i);
      var offset := codes[i].0 + codes[i].1;
      var length := if i != |codes| - 1 then codes[i + 1].0 - offset else |s| - offset;
      offsets := offsets + [offset];
      lengths := lengths + [length];
    }
    assert Between(codes, |s|) == units;
  }

  lemma {:induction false} BetweenLength(codes: seq<(nat, nat)>, end: nat)
    requires Ascending(codes, end)
    ensures |Between(codes, end)| == |codes|
  {
    if codes != [] {
      BetweenLength(codes[1..], end);
    }
  }

  lemma {:induction false} BetweenAt(codes: seq<(nat, nat)>, end: nat, i: nat)
    requires Ascending(codes, end) && i < |codes|
    ensures |Between(codes, end)| == |codes|
    ensures var offset, next := codes[i].0 + codes[i].1, if i == |codes| - 1 then end else codes[i + 1].0;
            offset <= next && Between(codes, end)[i] == Slice(offset, next - offset)
  {
    BetweenLength(codes, end);
    if i > 0 {
      BetweenAt(codes[1..], end, i - 1);
    }
  }

  // ----- the keyframe check -----

  const IDR_SLICE: nat := 5
  const SPS: nat := 7

  /** A unit header of an IDR slice or a sequence parameter set, with its forbidden bit clear. */
  predicate KeyHeader(b: Byte) {
    b < 0x80 && (b % 32 == IDR_SLICE || b % 32 == SPS)
  }

  /** A unit that starts with at least two bytes left before the end of the stream, and with a key header. */
  predicate KeyUnit(s: seq<Byte>, u: Slice) {
    u.offset + 2 <= |s| && KeyHeader(s[u.offset])
  }

  predicate HasKey(s: seq<Byte>, units: seq<Slice>) {
    units != [] && (KeyUnit(s, units[0]) || HasKey(s, units[1..]))
  }

  lemma {:induction false} HasKeyIs(s: seq<Byte>, units: seq<Slice>)
    ensures HasKey(s, units) <==> exists i :: 0 <= i < |units| && KeyUnit(s, units[i])
  {
    hide KeyUnit;
    if units != [] {
      HasKeyIs(s, units[1..]);
      assert forall i :: 1 <= i < |units| ==> units[i] == units[1..][i - 1];
    }
  }

  /** The units from the next start code on. */
  function Ahead(s: seq<Byte>, i: nat): seq<Slice>
    requires i <= |s|
  {
    var next := NextCode(s, i);
    if next == |s| then [] else UnitsFrom(s, next + CodeSize(s, next))
  }

  /** The unit that begins at `start`. */
  function First(s: seq<Byte>, start: nat): Slice
    requires start <= |s|
  {
    Slice(start, NextCode(s, start) - start)
  }

  lemma AheadOne(s: seq<Byte>, i: nat)
    requires i < |s|
    ensures var n := CodeSize(s, i);
            && i + n <= |s|
            && (n == 0 ==> Ahead(s, i) == Ahead(s, i + 1))
            && (n > 0 ==> Ahead(s, i) == [First(s, i + n)] + Ahead(s, i + n))
  {
    hide CodeSize, NextCode, UnitsFrom;
    CodeInside(s, i);
    if CodeSize(s, i) == 0 {
      NextCodeStep(s, i);
    } else {
      CodeHere(s, i);
      UnitsFromOne(s, i + CodeSize(s, i));
    }
  }

  lemma HasKeyOne(s: seq<Byte>, first: Slice, rest: seq<Slice>)
    ensures HasKey(s, [first] + rest) <==> KeyUnit(s, first) || HasKey(s, rest)
  {
    hide KeyUnit;
    assert ([first] + rest)[1..] == rest;
  }

  lemma NoneAhead(s: seq<Byte>)
    ensures Units(s) == Ahead(s, 0) && !HasKey(s, Ahead(s, |s|))
  {
    hide CodeSize, NextCode, UnitsFrom, KeyUnit;
    AtEnd(s);
  }

  /** `H264Parser::CheckKeyframe`. */
  method CheckKeyframe(s: seq<Byte>) returns (key: bool)
    ensures key <==> exists i :: 0 <= i < |Units(s)| && KeyUnit(s, Units(s)[i])
  {
    hide CodeSize, Ahead, HasKey, Units, KeyUnit;
    NoneAhead(s);
    HasKeyIs(s, Ahead(s, 0));
    var offset := 0;
    while offset < |s|
      invariant offset <= |s| && (HasKey(s, Ahead(s, 0)) <==> HasKey(s, Ahead(s, offset)))
    {
      var size := CodeSize(s, offset);
      AheadOne(s, offset);
      if size > 0 {
        offset := offset + size;
        HasKeyOne(s, First(s, offset), Ahead(s, offset));
        KeyUnitIs(s, First(s, offset));
        if |s| - offset > 1 {
          if KeyHeader(s[offset]) {
            return true;
          }
        }
      } else {
        offset := offset + 1;
      }
    }
    return false;
  }

  /** By the bytes: a header of type 5 or 7 with its forbidden bit clear, and a byte behind it. */
  lemma KeyUnitBytes(s: seq<Byte>, u: Slice)
    ensures KeyUnit(s, u) <==> u.offset + 2 <= |s| && s[u.offset] < 128 && s[u.offset] % 32 in {5, 7}
  {
  }

  lemma KeyUnitIs(s: seq<Byte>, u: Slice)
    ensures KeyUnit(s, u) <==> u.offset + 2 <= |s| && KeyHeader(s[u.offset])
  {
  }

  // ----- what a unit is -----

  /** A start code is two zeros and a one, or three zeros and a one. */
  lemma CodeIs(s: seq<Byte>, i: nat)
    requires i <= |s|
    ensures CodeSize(s, i) == 3 <==> i + 3 <= |s| && s[i..i + 3] == [0, 0, 1]
    ensures CodeSize(s, i) == 4 <==> i + 4 <= |s| && s[i..i + 4] == [0, 0, 0, 1]
    ensures CodeSize(s, i) in {0, 3, 4}
  {
    if i + 3 <= |s| {
      var t := s[i..i + 3];
      assert t[0] == s[i] && t[1] == s[i + 1] && t[2] == s[i + 2];
    }
    if i + 4 <= |s| {
      var t := s[i..i + 4];
      assert t[0] == s[i] && t[1] == s[i + 1] && t[2] == s[i + 2] && t[3] == s[i + 3];
    }
  }

  predicate NoCodeIn(s: seq<Byte>, u: Slice)
    requires u.offset + u.length <= |s|
  {
    forall k :: u.offset <= k < u.offset + u.length ==> CodeSize(s, k) == 0
  }

  /**
    Slices that tile a stream from `start` on: each up to a start code with the next one behind it, the last to
    the end, and no start code inside any of them.
   */
  predicate Tiles(s: seq<Byte>, start: nat, u: seq<Slice>)
    decreases |u|
  {
    && u != [] && u[0].offset == start && u[0].offset + u[0].length <= |s| && NoCodeIn(s, u[0])
    && var end := u[0].offset + u[0].length;
       if |u| == 1 then end == |s| else CodeSize(s, end) > 0 && Tiles(s, end + CodeSize(s, end), u[1..])
  }

  lemma {:induction false} UnitsTile(s: seq<Byte>, start: nat)
    requires start <= |s|
    ensures Tiles(s, start, UnitsFrom(s, start))
    decreases |s| - start
  {
    hide CodeSize, NextCode, UnitsFrom, Tiles;
    UnitsFromOne(s, start);
    NextSpan(s, start);
    var end := NextCode(s, start);
    if end < |s| {
      UnitsTile(s, end + CodeSize(s, end));
      TilesMore(s, Slice(start, end - start), UnitsFrom(s, end + CodeSize(s, end)));
    } else {
      AppendNothing([Slice(start, end - start)]);
      TilesLast(s, Slice(start, end - start));
    }
  }

  lemma NextSpan(s: seq<Byte>, start: nat)
    requires start <= |s|
    ensures var end := NextCode(s, start);
            start <= end <= |s| && NoCodeIn(s, Slice(start, end - start)) &&
            (end < |s| ==> CodeSize(s, end) > 0 && end + CodeSize(s, end) <= |s|)
  {
    hide CodeSize;
    CodeInside(s, NextCode(s, start));
  }

  lemma CodeInside(s: seq<Byte>, i: nat)
    requires i <= |s|
    ensures i + CodeSize(s, i) <= |s|
  {
  }

  lemma TilesMore(s: seq<Byte>, first: Slice, rest: seq<Slice>)
    requires first.offset + first.length <= |s| && NoCodeIn(s, first)
    requires var end := first.offset + first.length;
             CodeSize(s, end) > 0 && Tiles(s, end + CodeSize(s, end), rest)
    ensures Tiles(s, first.offset, [first] + rest)
  {
    hide CodeSize;
    assert ([first] + rest)[1..] == rest;
  }

  lemma TilesLast(s: seq<Byte>, last: Slice)
    requires last.offset + last.length == |s| && NoCodeIn(s, last)
    ensures Tiles(s, last.offset, [last])
  {
  }

  /** The units of a stream are those behind its first start code; a stream without one has none. */
  lemma UnitsBehindCode(s: seq<Byte>)
    ensures if forall i :: 0 <= i < |s| ==> CodeSize(s, i) == 0 then Units(s) == []
            else
              exists i :: 0 <= i < |s| && CodeSize(s, i) > 0 && Units(s) == UnitsFrom(s, i + CodeSize(s, i))
                          && forall k :: 0 <= k < i ==> CodeSize(s, k) == 0
  {
    hide CodeSize, UnitsFrom;
    var first := NextCode(s, 0);
    assert first < |s| ==> CodeSize(s, first) > 0;
  }
}
