/**
  AMF0 documents: the recursive encoder and decoder, and exactly which documents
  survive encoding and decoding.
 */
module Amf0 {
  import opened Bytes

  /** A number is its 8-byte big-endian pattern; strings and names are NUL-free C strings. */
  datatype Value =
    | Null
    | Undefined
    | Number(bits: seq<Byte>)
    | Boolean(truth: bool)
    | Str(text: seq<Byte>)
    | Arr(pairs: seq<Pair>)
    | Obj(pairs: seq<Pair>)

  datatype Pair = Pair(name: seq<Byte>, value: Value)

  const NUMBER_MARKER: Byte := 0
  const BOOLEAN_MARKER: Byte := 1
  const STRING_MARKER: Byte := 2
  const OBJECT_MARKER: Byte := 3
  const NULL_MARKER: Byte := 5
  const UNDEFINED_MARKER: Byte := 6
  const ECMA_ARRAY_MARKER: Byte := 8
  const OBJECT_END: Byte := 9
  const NAME_SIZE: nat := 128

  const END: seq<Byte> := [0, 0, OBJECT_END]

  predicate NoNul(s: seq<Byte>) {
    forall i :: 0 <= i < |s| ==> s[i] != 0
  }

  /** Values the program can hold and the format can describe: pattern, text and name lengths. */
  predicate Representable(v: Value) {
    match v
    case Number(bits) => |bits| == 8
    case Str(text) => |text| < 0x1_0000 && NoNul(text)
    case Arr(pairs) => RepresentablePairs(pairs)
    case Obj(pairs) => RepresentablePairs(pairs)
    case _ => true
  }

  predicate RepresentablePairs(pairs: seq<Pair>) {
    pairs == []
    || (1 <= |pairs[0].name| < NAME_SIZE && NoNul(pairs[0].name)
        && Representable(pairs[0].value) && RepresentablePairs(pairs[1..]))
  }

  predicate IsEmptyContainer(v: Value) {
    (v.Arr? || v.Obj?) && v.pairs == []
  }

  /** No array and no object in `v`, at any depth, is empty. */
  predicate Filled(v: Value) {
    match v
    case Arr(pairs) => pairs != [] && FilledPairs(pairs)
    case Obj(pairs) => pairs != [] && FilledPairs(pairs)
    case _ => true
  }

  predicate FilledPairs(pairs: seq<Pair>) {
    pairs == [] || (Filled(pairs[0].value) && FilledPairs(pairs[1..]))
  }

  // ----- encoding -----

  /** An empty container leaves no trace. */
  function Encode(v: Value): seq<Byte> {
    match v
    case Null => [NULL_MARKER]
    case Undefined => [UNDEFINED_MARKER]
    case Number(bits) => [NUMBER_MARKER] + bits
    case Boolean(truth) => [BOOLEAN_MARKER, if truth then 1 else 0]
    case Str(text) => [STRING_MARKER] + WriteBE(|text|, 2) + text
    case Arr(pairs) => if pairs == [] then [] else [ECMA_ARRAY_MARKER, 0, 0, 0, 0] + EncodePairs(pairs) + END
    case Obj(pairs) => if pairs == [] then [] else [OBJECT_MARKER] + EncodePairs(pairs) + END
  }

  function EncodePair(p: Pair): seq<Byte> {
    WriteBE(|p.name|, 2) + p.name + Encode(p.value)
  }

  function EncodePairs(pairs: seq<Pair>): seq<Byte> {
    if pairs == [] then [] else EncodePair(pairs[0]) + EncodePairs(pairs[1..])
  }

  function EncodeDocument(doc: seq<Value>): seq<Byte> {
    if doc == [] then [] else Encode(doc[0]) + EncodeDocument(doc[1..])
  }

  // ----- decoding -----

  /** The text before the first NUL. */
  function CString(s: seq<Byte>): seq<Byte> {
    if s == [] || s[0] == 0 then [] else [s[0]] + CString(s[1..])
  }

  datatype Decoded = Failed | Got(value: Value, size: nat)

  datatype DecodedPairs = FailedPairs | GotPairs(pairs: seq<Pair>, size: nat)

  /** One value at the start of `d`; a failure wherever the decoder reports one or would read past the data. */
  function Decode(d: seq<Byte>): (r: Decoded)
    ensures r.Got? ==> 1 <= r.size <= |d|
    decreases |d|
  {
    if d == [] then Failed
    else if d[0] == NULL_MARKER then Got(Null, 1)
    else if d[0] == UNDEFINED_MARKER then Got(Undefined, 1)
    else if d[0] == NUMBER_MARKER then if |d| < 9 then Failed else Got(Number(d[1..9]), 9)
    else if d[0] == BOOLEAN_MARKER then if |d| < 2 then Failed else Got(Boolean(d[1] != 0), 2)
    else if d[0] == STRING_MARKER then
      if |d| < 4 then Failed
      else
        var n := ReadBE(d[1..3]);
        if |d| < 3 + n then Failed else Got(Str(CString(d[3..3 + n])), 3 + n)
    else if d[0] == ECMA_ARRAY_MARKER then
      if |d| < 5 then Failed
      else
        match DecodePairs(d[5..])
        case FailedPairs => Failed
        case GotPairs(pairs, n) => Got(Arr(pairs), 5 + n)
    else if d[0] == OBJECT_MARKER then
      match DecodePairs(d[1..])
      case FailedPairs => Failed
      case GotPairs(pairs, n) => Got(Obj(pairs), 1 + n)
    else Failed
  }

  function DecodePairs(d: seq<Byte>): (r: DecodedPairs)
    ensures r.GotPairs? ==> 1 <= r.size <= |d|
    decreases |d|
  {
    if d == [] then FailedPairs
    else if d[0] == OBJECT_END then GotPairs([], 1)
    else if |d| < 2 then FailedPairs
    else
      var n := ReadBE(d[..2]);
      if n == 0 then Skipped([], 2, DecodePairs(d[2..]))
      else if |d| < 2 + n || NAME_SIZE <= n then FailedPairs
      else
        match Decode(d[2 + n..])
        case Failed => FailedPairs
        case Got(v, size) => Skipped([Pair(CString(d[2..2 + n]), v)], 2 + n + size, DecodePairs(d[2 + n + size..]))
  }

  /** What was read before the rest. */
  function Skipped(first: seq<Pair>, size: nat, rest: DecodedPairs): DecodedPairs {
    match rest
    case FailedPairs => FailedPairs
    case GotPairs(pairs, n) => GotPairs(first + pairs, size + n)
  }

  /** Values until one fails or the data ends, with the bytes used. */
  function DecodeDocument(d: seq<Byte>): (seq<Value>, nat)
    decreases |d|
  {
    match Decode(d)
    case Failed => ([], 0)
    case Got(v, n) =>
      var (rest, used) := DecodeDocument(d[n..]);
      ([v] + rest, n + used)
  }

  // ----- what survives -----

  lemma {:induction false} CStringNoNul(s: seq<Byte>)
    requires NoNul(s)
    ensures CString(s) == s
  {
    if s != [] {
      CStringNoNul(s[1..]);
    }
  }

  lemma ReadLength(n: nat, s: seq<Byte>)
    requires n < 0x1_0000 && 2 <= |s| && s[..2] == WriteBE(n, 2)
    ensures ReadBE(s[..2]) == n
    ensures n < 0x100 ==> s[0] == 0
  {
    Pow256Values();
    ReadWriteBE(n, 2);
    assert s[0] == WriteBE(n / 256, 1)[0] == n / 256 % 256;
  }

  lemma DecodePairsNamed(d: seq<Byte>, n: nat)
    requires 2 <= |d| && d[0] != OBJECT_END && n == ReadBE(d[..2]) && 1 <= n < NAME_SIZE && 2 + n <= |d|
    requires NoNul(d[2..2 + n])
    ensures DecodePairs(d) == AfterValue(d[2..2 + n], d[2 + n..])
  {
    hide Decode, CString, ReadBE, NoNul, Skipped;
    CStringNoNul(d[2..2 + n]);
    var name, value := d[2..2 + n], d[2 + n..];
    match Decode(value) {
      case Failed =>
      case Got(v, size) =>
        assert d[2 + n + size..] == value[size..];
        assert DecodePairs(d) == Skipped([Pair(name, v)], 2 + n + size, DecodePairs(value[size..]));
    }
  }

  /** The rest of a container once a name is read and `d` starts with its value. */
  function AfterValue(name: seq<Byte>, d: seq<Byte>): DecodedPairs {
    match Decode(d)
    case Failed => FailedPairs
    case Got(v, n) => Skipped([Pair(name, v)], 2 + |name| + n, DecodePairs(d[n..]))
  }

  /** A pair in front of more bytes: its name is read back, and what happens next is up to its value. */
  lemma DecodePairsStep(p: Pair, more: seq<Byte>)
    requires 1 <= |p.name| < NAME_SIZE && NoNul(p.name)
    ensures DecodePairs(EncodePair(p) + more) == AfterValue(p.name, Encode(p.value) + more)
  {
    hide Encode, Decode, DecodePairs, AfterValue;
    var d, n := EncodePair(p) + more, |p.name|;
    var value := Encode(p.value) + more;
    assert d == WriteBE(n, 2) + (p.name + value);
    assert d[..2] == WriteBE(n, 2);
    ReadLength(n, d);
    assert d[2..2 + n] == p.name && d[2 + n..] == value;
    DecodePairsNamed(d, n);
  }

  lemma DecodePairsEnd(rest: seq<Byte>)
    ensures DecodePairs(END + rest) == GotPairs([], 3)
  {
    var d := END + rest;
    ReadLength(0, d) by { assert WriteBE(0, 2) == [0, 0]; }
    assert d[2..][0] == OBJECT_END;
  }

  lemma DecodeString(text: seq<Byte>, rest: seq<Byte>)
    requires |text| < 0x1_0000 && NoNul(text) && (text == [] ==> rest != [])
    ensures Decode(Encode(Str(text)) + rest) == Got(Str(text), |Encode(Str(text))|)
  {
    var d := Encode(Str(text)) + rest;
    assert d[1..] == WriteBE(|text|, 2) + text + rest;
    assert d[1..][..2] == d[1..3];
    ReadLength(|text|, d[1..]);
    assert d[3..3 + |text|] == text;
    CStringNoNul(text);
  }

  lemma DecodeSimple(v: Value, rest: seq<Byte>)
    requires Representable(v) && (v.Null? || v.Undefined? || v.Number? || v.Boolean?)
    ensures Decode(Encode(v) + rest) == Got(v, |Encode(v)|)
  {
    var d := Encode(v) + rest;
    if v.Number? {
      assert d[1..9] == v.bits;
    }
  }

  /** A container is decoded as its pairs are. */
  lemma DecodeContainer(v: Value, rest: seq<Byte>)
    requires (v.Arr? || v.Obj?) && v.pairs != []
    ensures Decode(Encode(v) + rest) ==
            match DecodePairs(EncodePairs(v.pairs) + (END + rest))
            case FailedPairs => Failed
            case GotPairs(pairs, n) => if v.Arr? then Got(Arr(pairs), 5 + n) else Got(Obj(pairs), 1 + n)
  {
    hide DecodePairs, EncodePairs;
    var d := Encode(v) + rest;
    assert d[if v.Arr? then 5 else 1..] == EncodePairs(v.pairs) + (END + rest);
  }

  /** A filled value in front of other bytes is decoded to itself, from exactly its own bytes. */
  lemma {:induction false} DecodeEncoded(v: Value, rest: seq<Byte>)
    requires Representable(v) && Filled(v) && (v == Str([]) ==> rest != [])
    ensures Decode(Encode(v) + rest) == Got(v, |Encode(v)|)
    decreases v, 1
  {
    hide Decode, DecodePairs;
    match v {
      case Str(text) => DecodeString(text, rest);
      case Arr(pairs) =>
        DecodeEncodedPairs(pairs, rest);
        DecodeContainer(v, rest);
      case Obj(pairs) =>
        DecodeEncodedPairs(pairs, rest);
        DecodeContainer(v, rest);
      case _ => DecodeSimple(v, rest);
    }
  }

  lemma {:induction false} DecodeEncodedPairs(pairs: seq<Pair>, rest: seq<Byte>)
    requires RepresentablePairs(pairs) && FilledPairs(pairs)
    ensures DecodePairs(EncodePairs(pairs) + (END + rest)) == GotPairs(pairs, |EncodePairs(pairs)| + 3)
    decreases pairs, 0
  {
    hide Decode, DecodePairs, Encode;
    if pairs == [] {
      DecodePairsEnd(rest);
      assert [] + (END + rest) == END + rest;
    } else {
      var p, more := pairs[0], EncodePairs(pairs[1..]) + (END + rest);
      assert EncodePairs(pairs) + (END + rest) == EncodePair(p) + more;
      DecodePairsStep(p, more);
      DecodeEncoded(p.value, more);
      DecodeEncodedPairs(pairs[1..], rest);
      assert (Encode(p.value) + more)[|Encode(p.value)|..] == more;
      assert [Pair(p.name, p.value)] + pairs[1..] == pairs;
    }
  }

  /** Bytes that start like a short name length are never taken for a container. */
  lemma ZeroIsNoContainer(d: seq<Byte>)
    requires d != [] && d[0] == 0
    ensures Decode(d).Got? ==> Decode(d).value.Number?
  {
  }

  /** Inside a container the next thing after a value starts with a zero byte. */
  lemma PairsStartWithZero(pairs: seq<Pair>, rest: seq<Byte>)
    requires RepresentablePairs(pairs)
    ensures (EncodePairs(pairs) + (END + rest))[0] == 0
  {
    if pairs != [] {
      var d := EncodePairs(pairs) + (END + rest);
      assert d[..2] == WriteBE(|pairs[0].name|, 2);
      ReadLength(|pairs[0].name|, d);
    }
  }

  /** A value that hides an empty container is never decoded to itself. */
  lemma {:induction false} UnfilledIsLost(v: Value, rest: seq<Byte>)
    requires Representable(v) && !Filled(v) && !IsEmptyContainer(v)
    ensures Decode(Encode(v) + rest).Got? ==> Decode(Encode(v) + rest).value != v
    decreases v, 1
  {
    hide Decode, DecodePairs;
    UnfilledPairsAreLost(v.pairs, rest);
    DecodeContainer(v, rest);
  }

  lemma {:induction false} UnfilledPairsAreLost(pairs: seq<Pair>, rest: seq<Byte>)
    requires RepresentablePairs(pairs) && !FilledPairs(pairs)
    ensures DecodePairs(EncodePairs(pairs) + (END + rest)).GotPairs? ==>
            DecodePairs(EncodePairs(pairs) + (END + rest)).pairs != pairs
    decreases pairs, 0
  {
    hide Decode, DecodePairs, Encode, EncodePair, EncodePairs;
    var p, more := pairs[0], EncodePairs(pairs[1..]) + (END + rest);
    FirstPairBytes(pairs, END + rest);
    DecodePairsStep(p, more);
    if Filled(p.value) {
      DecodeEncoded(p.value, more);
      UnfilledPairsAreLost(pairs[1..], rest);
      assert (Encode(p.value) + more)[|Encode(p.value)|..] == more;
    } else if IsEmptyContainer(p.value) {
      EmptyBytes(p.value, more);
      PairsStartWithZero(pairs[1..], rest);
      ZeroIsNoContainer(more);
    } else {
      UnfilledIsLost(p.value, more);
    }
  }

  lemma FirstPairBytes(pairs: seq<Pair>, more: seq<Byte>)
    requires pairs != []
    ensures EncodePairs(pairs) + more == EncodePair(pairs[0]) + (EncodePairs(pairs[1..]) + more)
  {
    hide EncodePair;
  }

  lemma EmptyBytes(v: Value, more: seq<Byte>)
    requires IsEmptyContainer(v)
    ensures Encode(v) + more == more
  {
  }

  // ----- documents -----

  predicate AllRepresentable(doc: seq<Value>) {
    forall v :: v in doc ==> Representable(v)
  }

  /** No empty container anywhere, and no empty string at the very end. */
  predicate Survives(doc: seq<Value>) {
    && (forall v :: v in doc ==> Filled(v))
    && (doc != [] ==> doc[|doc| - 1] != Str([]))
  }

  /** Bytes of a value are never decoded to an empty container. */
  lemma NeverEmptyContainer(v: Value, rest: seq<Byte>)
    requires Representable(v) && !IsEmptyContainer(v)
    ensures Decode(Encode(v) + rest).Got? ==> !IsEmptyContainer(Decode(Encode(v) + rest).value)
  {
    if v.Arr? || v.Obj? {
      var pairs := v.pairs;
      var more := EncodePairs(pairs[1..]) + (END + rest);
      assert EncodePairs(pairs) + (END + rest) == EncodePair(pairs[0]) + more;
      DecodePairsStep(pairs[0], more);
      DecodeContainer(v, rest);
    }
  }

  lemma {:induction false} FirstIsNoEmptyContainer(doc: seq<Value>)
    requires AllRepresentable(doc)
    ensures var (values, _) := DecodeDocument(EncodeDocument(doc));
            values != [] ==> !IsEmptyContainer(values[0])
  {
    if doc != [] {
      assert doc[0] in doc;
      if IsEmptyContainer(doc[0]) {
        FirstIsNoEmptyContainer(doc[1..]);
        assert EncodeDocument(doc) == EncodeDocument(doc[1..]);
      } else {
        NeverEmptyContainer(doc[0], EncodeDocument(doc[1..]));
      }
    }
  }

  /** A document decodes to itself, using every byte, if and only if it survives. */
  lemma {:induction false} DocumentRoundTrip(doc: seq<Value>)
    requires AllRepresentable(doc)
    ensures DecodeDocument(EncodeDocument(doc)) == (doc, |EncodeDocument(doc)|) <==> Survives(doc)
  {
    if doc != [] {
      var v, tail := doc[0], doc[1..];
      assert v in doc && forall w :: w in doc <==> w == v || w in tail;
      DocumentRoundTrip(tail);
      if Filled(v) && !(v == Str([]) && EncodeDocument(tail) == []) {
        FirstSurvives(doc);
      } else {
        FirstIsLost(doc);
      }
    }
  }

  predicate Recovered(doc: seq<Value>) {
    DecodeDocument(EncodeDocument(doc)) == (doc, |EncodeDocument(doc)|)
  }

  lemma FirstSurvives(doc: seq<Value>)
    requires doc != [] && Representable(doc[0]) && Filled(doc[0])
    requires doc[0] == Str([]) ==> EncodeDocument(doc[1..]) != []
    ensures Recovered(doc) <==> Recovered(doc[1..])
  {
    hide Decode, Encode, Representable, Filled;
    var v, rest := doc[0], EncodeDocument(doc[1..]);
    DecodeEncoded(v, rest);
    assert (Encode(v) + rest)[|Encode(v)|..] == rest;
    assert [v] + doc[1..] == doc;
  }

  lemma FirstIsLost(doc: seq<Value>)
    requires doc != [] && AllRepresentable(doc)
    requires !Filled(doc[0]) || (doc[0] == Str([]) && EncodeDocument(doc[1..]) == [])
    ensures !Recovered(doc) && !Survives(doc)
  {
    assert doc[0] in doc;
    if IsEmptyContainer(doc[0]) {
      EmptyFirstIsLost(doc);
    } else if !Filled(doc[0]) {
      UnfilledFirstIsLost(doc);
    } else {
      EmptyTextIsLost(doc);
    }
  }

  lemma EmptyFirstIsLost(doc: seq<Value>)
    requires doc != [] && AllRepresentable(doc[1..]) && IsEmptyContainer(doc[0])
    ensures !Recovered(doc)
  {
    hide Decode;
    FirstIsNoEmptyContainer(doc[1..]);
    assert EncodeDocument(doc) == EncodeDocument(doc[1..]);
  }

  lemma UnfilledFirstIsLost(doc: seq<Value>)
    requires doc != [] && Representable(doc[0]) && !Filled(doc[0]) && !IsEmptyContainer(doc[0])
    ensures !Recovered(doc)
  {
    hide Decode, Encode;
    UnfilledIsLost(doc[0], EncodeDocument(doc[1..]));
  }

  lemma EmptyTextIsLost(doc: seq<Value>)
    requires doc != [] && doc[0] == Str([]) && EncodeDocument(doc[1..]) == [] && AllRepresentable(doc)
    ensures !Recovered(doc) && !Survives(doc)
  {
    assert EncodeDocument(doc) == [STRING_MARKER, 0, 0];
    if doc[1..] != [] {
      LeftNoTrace(doc[1..]);
      assert doc[1..][0] in doc;
    }
  }

  lemma LeftNoTrace(doc: seq<Value>)
    requires doc != [] && EncodeDocument(doc) == []
    ensures IsEmptyContainer(doc[0])
  {
    assert Encode(doc[0]) == [];
  }

  // ----- the encoder and the decoder -----

  lemma EncodePairsStep(pairs: seq<Pair>, i: nat)
    requires i < |pairs|
    ensures EncodePairs(pairs[i..]) == EncodePair(pairs[i]) + EncodePairs(pairs[i + 1..])
  {
    assert pairs[i..][1..] == pairs[i + 1..];
  }

  /** Writes a value through a moving position. */
  method EncodeProperty(v: Value, out: array<Byte>, at: nat) returns (next: nat)
    requires at + |Encode(v)| <= out.Length
    modifies out
    ensures next == at + |Encode(v)|
    ensures out[..next] == old(out[..at]) + Encode(v)
    decreases v, 3
  {
    match v {
      case Null => next := Put(out, at, [NULL_MARKER]);
      case Undefined => next := Put(out, at, [UNDEFINED_MARKER]);
      case Number(bits) =>
        next := Put(out, at, [NUMBER_MARKER]);
        next := Put(out, next, bits);
      case Boolean(truth) =>
        next := Put(out, at, [BOOLEAN_MARKER]);
        next := Put(out, next, [if truth then 1 else 0]);
      case Str(text) =>
        next := Put(out, at, [STRING_MARKER]);
        next := Put(out, next, WriteBE(|text|, 2));
        next := Put(out, next, text);
      case _ => next := EncodeObjectArray(v, out, at);
    }
  }

  method EncodeObjectArray(v: Value, out: array<Byte>, at: nat) returns (next: nat)
    requires (v.Arr? || v.Obj?) && at + |Encode(v)| <= out.Length
    modifies out
    ensures next == at + |Encode(v)|
    ensures out[..next] == old(out[..at]) + Encode(v)
    decreases v, 2
  {
    if v.pairs == [] {
      return at;
    }
    hide EncodePairs;
    assert Encode(v) == StartOf(v) + EncodePairs(v.pairs) + END;
    next := EncodeStart(v, out, at);
    next := EncodeItems(v, out, next);
    next := Put(out, next, END);
  }

  function StartOf(v: Value): seq<Byte> {
    if v.Arr? then [ECMA_ARRAY_MARKER, 0, 0, 0, 0] else [OBJECT_MARKER]
  }

  /** The start marker, and the count of an array, which is always written as zero. */
  method EncodeStart(v: Value, out: array<Byte>, at: nat) returns (next: nat)
    requires (v.Arr? || v.Obj?) && at + |StartOf(v)| <= out.Length
    modifies out
    ensures next == at + |StartOf(v)| && out[..next] == old(out[..at]) + StartOf(v)
  {
    next := Put(out, at, [if v.Obj? then OBJECT_MARKER else ECMA_ARRAY_MARKER]);
    if v.Arr? {
      next := Put(out, next, [0, 0, 0, 0]);
    }
  }

  method EncodeItems(v: Value, out: array<Byte>, at: nat) returns (next: nat)
    requires (v.Arr? || v.Obj?) && at + |EncodePairs(v.pairs)| <= out.Length
    modifies out
    ensures next == at + |EncodePairs(v.pairs)|
    ensures out[..next] == old(out[..at]) + EncodePairs(v.pairs)
    decreases v, 1
  {
    hide EncodePairs, Encode;
    var pairs := v.pairs;
    ghost var goal := EncodePairs(pairs);
    ghost var written: seq<Byte> := [];
    next := at;
    assert pairs[0..] == pairs;
    for i := 0 to |pairs|
      invariant goal == written + EncodePairs(pairs[i..])
      invariant next == at + |written| && out[..next] == old(out[..at]) + written
    {
      EncodePairsStep(pairs, i);
      next := EncodeItem(v, i, out, next);
      written := written + EncodePair(pairs[i]);
    }
    assert EncodePairs(pairs[|pairs|..]) == [] by { NoPairs(pairs[|pairs|..]); }
  }

  lemma NoPairs(pairs: seq<Pair>)
    requires pairs == []
    ensures EncodePairs(pairs) == []
  {
  }

  method EncodeItem(v: Value, i: nat, out: array<Byte>, at: nat) returns (next: nat)
    requires (v.Arr? || v.Obj?) && i < |v.pairs| && at + |EncodePair(v.pairs[i])| <= out.Length
    modifies out
    ensures next == at + |EncodePair(v.pairs[i])|
    ensures out[..next] == old(out[..at]) + EncodePair(v.pairs[i])
    decreases v, 0
  {
    hide Encode;
    var p := v.pairs[i];
    next := Put(out, at, WriteBE(|p.name|, 2));
    next := Put(out, next, p.name);
    next := EncodeProperty(p.value, out, next);
  }

  method EncodeProperties(doc: seq<Value>, out: array<Byte>) returns (next: nat)
    requires |EncodeDocument(doc)| <= out.Length
    modifies out
    ensures next == |EncodeDocument(doc)| && out[..next] == EncodeDocument(doc)
  {
    hide Encode;
    next := 0;
    ghost var written: seq<Byte> := [];
    assert doc[0..] == doc;
    for i := 0 to |doc|
      invariant EncodeDocument(doc) == written + EncodeDocument(doc[i..])
      invariant next == |written| && out[..next] == written
    {
      assert doc[i..][1..] == doc[i + 1..];
      next := EncodeProperty(doc[i], out, next);
      written := written + Encode(doc[i]);
    }
  }

  /** Reads a value at the start of `d`. */
  method DecodeProperty(d: seq<Byte>) returns (r: Decoded)
    ensures r == Decode(d)
    decreases |d|, 1
  {
    if |d| < 1 {
      return Failed;
    }
    if d[0] == NULL_MARKER {
      return Got(Null, 1);
    } else if d[0] == UNDEFINED_MARKER {
      return Got(Undefined, 1);
    } else if d[0] == NUMBER_MARKER {
      return if |d| < 9 then Failed else Got(Number(d[1..9]), 9);
    } else if d[0] == BOOLEAN_MARKER {
      return if |d| < 2 then Failed else Got(Boolean(d[1] != 0), 2);
    } else if d[0] == STRING_MARKER {
      if |d| < 4 || |d| < 3 + ReadBE(d[1..3]) {
        return Failed;
      }
      return Got(Str(CString(d[3..3 + ReadBE(d[1..3])])), 3 + ReadBE(d[1..3]));
    } else if d[0] == ECMA_ARRAY_MARKER {
      if |d| < 5 {
        return Failed;
      }
      var items := DecodeItems(d, 5);
      return if items.FailedPairs? then Failed else Got(Arr(items.pairs), 5 + items.size);
    } else if d[0] == OBJECT_MARKER {
      var items := DecodeItems(d, 1);
      return if items.FailedPairs? then Failed else Got(Obj(items.pairs), 1 + items.size);
    } else {
      return Failed;
    }
  }

  lemma SkippedTwice(a: seq<Pair>, i: nat, b: seq<Pair>, j: nat, rest: DecodedPairs)
    ensures Skipped(a, i, Skipped(b, j, rest)) == Skipped(a + b, i + j, rest)
  {
    if rest.GotPairs? {
      assert a + (b + rest.pairs) == (a + b) + rest.pairs;
    }
  }

  /** How many bytes an item takes, and what it adds, as one turn of the loop finds it. */
  lemma OneItem(rest: seq<Byte>)
    ensures rest == [] ==> DecodePairs(rest) == FailedPairs
    ensures rest != [] && rest[0] == OBJECT_END ==> DecodePairs(rest) == GotPairs([], 1)
    ensures rest != [] && rest[0] != OBJECT_END && |rest| < 2 ==> DecodePairs(rest) == FailedPairs
    ensures |rest| >= 2 && rest[0] != OBJECT_END ==>
      var n := ReadBE(rest[..2]);
      if n == 0 then DecodePairs(rest) == Skipped([], 2, DecodePairs(rest[2..]))
      else if |rest| < 2 + n || NAME_SIZE <= n then DecodePairs(rest) == FailedPairs
      else
        match Decode(rest[2 + n..])
        case Failed => DecodePairs(rest) == FailedPairs
        case Got(v, size) =>
          DecodePairs(rest) ==
            Skipped([Pair(CString(rest[2..2 + n]), v)], 2 + n + size, DecodePairs(rest[2 + n + size..]))
  {
    hide Decode, CString, ReadBE, Skipped;
  }

  /** The reading loop of a container whose items start at `start`. */
  method DecodeItems(d: seq<Byte>, start: nat) returns (r: DecodedPairs)
    requires 1 <= start <= |d|
    ensures r == DecodePairs(d[start..])
    decreases |d|, 0
  {
    hide Decode, DecodePairs, CString, ReadBE, Skipped;
    var at, pairs := start, [];
    NothingSkipped(d[start..]);
    while true
      invariant start <= at <= |d|
      invariant DecodePairs(d[start..]) == Skipped(pairs, at - start, DecodePairs(d[at..]))
      decreases |d| - at
    {
      var rest := d[at..];
      OneItem(rest);
      SkippedFailed(pairs, at - start);
      SkippedEnd(pairs, at - start);
      if rest == [] {
        return FailedPairs;
      }
      if rest[0] == OBJECT_END {
        return GotPairs(pairs, at + 1 - start);
      }
      if |rest| < 2 {
        return FailedPairs;
      }
      var n := ReadBE(rest[..2]);
      if n == 0 {
        SkippedTwice(pairs, at - start, [], 2, DecodePairs(rest[2..]));
        AppendNothing(pairs);
        assert rest[2..] == d[at + 2..];
        at := at + 2;
        continue;
      }
      if |rest| < 2 + n || NAME_SIZE <= n {
        return FailedPairs;
      }
      var value := DecodeProperty(rest[2 + n..]);
      if value.Failed? {
        return FailedPairs;
      }
      DecodedSize(rest[2 + n..]);
      var p, size := Pair(CString(rest[2..2 + n]), value.value), 2 + n + value.size;
      SkippedTwice(pairs, at - start, [p], size, DecodePairs(rest[size..]));
      assert rest[size..] == d[at + size..];
      pairs := pairs + [p];
      at := at + size;
    }
  }

  lemma DecodedSize(d: seq<Byte>)
    ensures Decode(d).Got? ==> 1 <= Decode(d).size <= |d|
  {
  }

  lemma NothingSkipped(d: seq<Byte>)
    ensures Skipped([], 0, DecodePairs(d)) == DecodePairs(d)
  {
    hide DecodePairs;
    var rest := DecodePairs(d);
    if rest.GotPairs? {
      assert [] + rest.pairs == rest.pairs;
    }
  }

  lemma SkippedFailed(pairs: seq<Pair>, n: nat)
    ensures Skipped(pairs, n, FailedPairs) == FailedPairs
  {
  }

  lemma SkippedEnd(pairs: seq<Pair>, n: nat)
    ensures Skipped(pairs, n, GotPairs([], 1)) == GotPairs(pairs, n + 1)
  {
  }

  method DecodeProperties(d: seq<Byte>) returns (values: seq<Value>, used: nat)
    ensures (values, used) == DecodeDocument(d)
  {
    hide Decode;
    values, used := [], 0;
    assert d[0..] == d && [] + DecodeDocument(d).0 == DecodeDocument(d).0;
    while used < |d|
      invariant used <= |d|
      invariant DecodeDocument(d) == Prepended(values, used, DecodeDocument(d[used..]))
    {
      var r := DecodeProperty(d[used..]);
      if r.Failed? {
        assert values + [] == values;
        return;
      }
      assert d[used..][r.size..] == d[used + r.size..];
      PrependedOne(values, used, r.value, r.size, DecodeDocument(d[used + r.size..]));
      values, used := values + [r.value], used + r.size;
    }
    assert Decode(d[used..]).Failed? by { NothingToDecode(d[used..]); }
    assert values + [] == values;
  }

  lemma NothingToDecode(d: seq<Byte>)
    requires d == []
    ensures Decode(d).Failed?
  {
  }

  lemma PrependedOne(values: seq<Value>, used: nat, v: Value, n: nat, rest: (seq<Value>, nat))
    ensures Prepended(values, used, ([v] + rest.0, n + rest.1)) == Prepended(values + [v], used + n, rest)
  {
    assert values + ([v] + rest.0) == (values + [v]) + rest.0;
  }

  function Prepended(values: seq<Value>, used: nat, rest: (seq<Value>, nat)): (seq<Value>, nat) {
    (values + rest.0, used + rest.1)
  }

  /** A document written to a buffer and read back is the same, to the last byte, if and only if it survives. */
  method EncodeAndDecode(doc: seq<Value>) returns (values: seq<Value>, used: nat, size: nat)
    requires AllRepresentable(doc)
    ensures values == doc && used == size <==> Survives(doc)
  {
    hide Encode, Decode, Survives;
    size := |EncodeDocument(doc)|;
    var buffer := new Byte[size];
    var next := EncodeProperties(doc, buffer);
    values, used := DecodeProperties(buffer[..size]);
    DocumentRoundTrip(doc);
  }

  // ----- byte by byte -----

  function Bytes2(n: nat): seq<Byte> {
    [n / 256 % 256, n % 256]
  }

  /** The bytes of every kind of value, as sections 2.2 to 2.10 of the AMF0 specification lay them out. */
  lemma ValueBytes(v: Value)
    ensures Encode(v) ==
            match v
            case Number(bits) => [0] + bits
            case Boolean(truth) => [1, if truth then 1 else 0]
            case Str(text) => [2] + Bytes2(|text|) + text
            case Obj(pairs) => if pairs == [] then [] else [3] + EncodePairs(pairs) + [0, 0, 9]
            case Null => [5]
            case Undefined => [6]
            case Arr(pairs) => if pairs == [] then [] else [8, 0, 0, 0, 0] + EncodePairs(pairs) + [0, 0, 9]
  {
    if v.Str? {
      WriteBE2(|v.text|);
    }
  }

  lemma ItemBytes(p: Pair, more: seq<Pair>)
    ensures EncodePairs([]) == []
    ensures EncodePairs([p] + more) == Bytes2(|p.name|) + p.name + Encode(p.value) + EncodePairs(more)
  {
    hide Encode, WriteBE;
    WriteBE2(|p.name|);
    assert ([p] + more)[1..] == more;
  }

  lemma WriteBE2(n: nat)
    ensures WriteBE(n, 2) == Bytes2(n)
  {
    assert WriteBE(n / 256, 1) == WriteBE(n / 256 / 256, 0) + [n / 256 % 256];
  }

  /** A text ends at its first zero byte. */
  lemma {:induction false} TextEnds(s: seq<Byte>)
    ensures CString(s) <= s && NoNul(CString(s))
    ensures CString(s) == s || s[|CString(s)|] == 0
  {
    if s != [] && s[0] != 0 {
      TextEnds(s[1..]);
    }
  }

  /** What the decoder makes of any bytes, by the first of them. */
  lemma ValueRead(d: seq<Byte>)
    requires d != []
    ensures var r := Decode(d);
            if d[0] == 0 then r == if |d| < 9 then Failed else Got(Number(d[1..9]), 9)
            else if d[0] == 1 then r == if |d| < 2 then Failed else Got(Boolean(d[1] != 0), 2)
            else if d[0] == 2 then
              if |d| < 4 || |d| < 3 + 256 * (d[1] as int) + d[2] as int then r == Failed
              else
                var n := 256 * (d[1] as int) + d[2] as int;
                r == Got(Str(CString(d[3..3 + n])), 3 + n)
            else if d[0] == 3 then
              match DecodePairs(d[1..])
              case FailedPairs => r == Failed
              case GotPairs(pairs, n) => r == Got(Obj(pairs), 1 + n)
            else if d[0] == 5 then r == Got(Null, 1)
            else if d[0] == 6 then r == Got(Undefined, 1)
            else if d[0] == 8 then
              if |d| < 5 then r == Failed
              else
                match DecodePairs(d[5..])
                case FailedPairs => r == Failed
                case GotPairs(pairs, n) => r == Got(Arr(pairs), 5 + n)
            else r == Failed
  {
    hide ReadBE, CString;
    if 4 <= |d| {
      BE2(d[1..3]);
    }
  }

  /** What it makes of an item: the end, a name of length zero, which it skips, or a name and a value. */
  lemma EndRead(d: seq<Byte>)
    requires d != [] && d[0] == 9
    ensures DecodePairs(d) == GotPairs([], 1)
  {
  }

  lemma NamelessRead(d: seq<Byte>)
    requires 2 <= |d| && d[0] == 0 && d[1] == 0
    ensures match DecodePairs(d[2..])
            case FailedPairs => DecodePairs(d) == FailedPairs
            case GotPairs(pairs, m) => DecodePairs(d) == GotPairs(pairs, 2 + m)
  {
    hide ReadBE, DecodePairs, Skipped;
    BE2(d[..2]);
    OneItem(d);
    SkippedIs([], 2, DecodePairs(d[2..]));
  }

  /** A name of 128 bytes or more, or one that is not all there, is refused. */
  lemma LongNameRead(d: seq<Byte>)
    requires 2 <= |d| && d[0] != 9
    requires var n := 256 * (d[0] as int) + d[1] as int; 128 <= n || (n > 0 && |d| < 2 + n)
    ensures DecodePairs(d) == FailedPairs
  {
    hide ReadBE, DecodePairs, Skipped, Decode;
    BE2(d[..2]);
    OneItem(d);
  }

  lemma NamedRead(d: seq<Byte>, n: nat)
    requires 2 <= |d| && d[0] != 9 && n == 256 * (d[0] as int) + d[1] as int && 1 <= n < 128 && 2 + n <= |d|
    ensures DecodePairs(d) == Item(CString(d[2..2 + n]), 2 + n, d[2 + n..])
  {
    hide Decode, CString, ReadBE, Skipped;
    BE2(d[..2]);
    var value := d[2 + n..];
    match Decode(value) {
      case Failed =>
      case Got(v, size) =>
        assert d[2 + n + size..] == value[size..];
        var item := [Pair(CString(d[2..2 + n]), v)];
        assert DecodePairs(d) == Skipped(item, 2 + n + size, DecodePairs(value[size..]));
        SkippedIs(item, 2 + n + size, DecodePairs(value[size..]));
    }
  }

  /** An item whose name took `used` bytes and whose value starts `d`, in front of the rest of its container. */
  function Item(name: seq<Byte>, used: nat, d: seq<Byte>): DecodedPairs {
    match Decode(d)
    case Failed => FailedPairs
    case Got(v, size) =>
      match DecodePairs(d[size..])
      case FailedPairs => FailedPairs
      case GotPairs(pairs, m) => GotPairs([Pair(name, v)] + pairs, used + size + m)
  }

  lemma SkippedIs(first: seq<Pair>, size: nat, rest: DecodedPairs)
    ensures rest.FailedPairs? ==> Skipped(first, size, rest) == FailedPairs
    ensures rest.GotPairs? ==> Skipped(first, size, rest) == GotPairs(first + rest.pairs, size + rest.size)
    ensures rest.GotPairs? && first == [] ==> first + rest.pairs == rest.pairs
  {
  }

  /** A document is its values one after the other; reading stops at the first that fails and keeps those before it. */
  lemma DocumentRead(v: Value, more: seq<Value>, d: seq<Byte>)
    ensures EncodeDocument([]) == [] && EncodeDocument([v] + more) == Encode(v) + EncodeDocument(more)
    ensures var r := Decode(d);
            if r.Failed? then DecodeDocument(d) == ([], 0)
            else
              r.size <= |d| &&
              var rest := DecodeDocument(d[r.size..]);
              DecodeDocument(d) == ([r.value] + rest.0, r.size + rest.1)
  {
    hide Encode, Decode;
    assert ([v] + more)[1..] == more;
    DecodedSize(d);
    DocumentStep(d);
  }

  lemma DocumentStep(d: seq<Byte>)
    ensures var r := Decode(d);
            if r.Failed? then DecodeDocument(d) == ([], 0)
            else
              r.size <= |d| &&
              var rest := DecodeDocument(d[r.size..]);
              DecodeDocument(d) == ([r.value] + rest.0, r.size + rest.1)
  {
    hide Decode;
    DecodedSize(d);
  }
}
