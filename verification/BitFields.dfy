/** Bit strings: what shifts, masks and ors do to them, and how they are packed into bytes. */
module BitFields {
  import opened Bytes

  function Pow2(n: nat): (p: nat)
    ensures 1 <= p
  {
    if n == 0 then 1 else 2 * Pow2(n - 1)
  }

  /** The low `n` bits of `v`, most significant first. */
  function Bits(v: nat, n: nat): (s: seq<bool>)
    ensures |s| == n
  {
    if n == 0 then [] else Bits(v / 2, n - 1) + [v % 2 == 1]
  }

  function Number(s: seq<bool>): nat {
    if s == [] then 0 else 2 * Number(s[..|s| - 1]) + if s[|s| - 1] then 1 else 0
  }

  function Zeros(n: nat): (s: seq<bool>)
    ensures |s| == n
  {
    seq(n, i => false)
  }

  // ----- the machine's operators -----

  /** v << n */
  function Shl(v: nat, n: nat): nat {
    if n == 0 then v else 2 * Shl(v, n - 1)
  }

  /** v >> n */
  function Shr(v: nat, n: nat): nat {
    if n == 0 then v else Shr(v / 2, n - 1)
  }

  /** v & ((1 << n) - 1) */
  function Low(v: nat, n: nat): (r: nat)
    ensures r < Pow2(n)
  {
    if n == 0 then 0 else 2 * Low(v / 2, n - 1) + v % 2
  }

  /** a | b */
  function Or(a: nat, b: nat): nat {
    if a == 0 then b
    else if b == 0 then a
    else 2 * Or(a / 2, b / 2) + if a % 2 == 1 || b % 2 == 1 then 1 else 0
  }

  /** Conversion to an 8-bit integer. */
  function ToByte(v: nat): Byte {
    assert Pow2(8) == 256 by { assert Pow2(4) == 16; }
    Low(v, 8)
  }

  lemma {:induction false} SplitNumber(v: nat, n: nat)
    ensures v == Pow2(n) * Shr(v, n) + Low(v, n)
  {
    if n > 0 {
      SplitNumber(v / 2, n - 1);
      DoubledProduct(Pow2(n - 1), Shr(v / 2, n - 1));
    }
  }

  lemma DoubledProduct(p: nat, q: nat)
    ensures (2 * p) * q == 2 * (p * q)
  {
  }

  /** Shifts and masks as quotients and remainders. */
  lemma ShrDivides(v: nat, n: nat)
    ensures Shr(v, n) == v / Pow2(n) && Low(v, n) == v % Pow2(n)
  {
    SplitNumber(v, n);
    DivideUnique(v, Pow2(n), Shr(v, n), Low(v, n));
  }

  lemma {:induction false} BitsSplit(v: nat, n: nat, m: nat)
    ensures Bits(v, n + m) == Bits(Shr(v, m), n) + Bits(v, m)
  {
    if m > 0 {
      BitsSplit(v / 2, n, m - 1);
    }
  }

  lemma {:induction false} BitsShl(v: nat, n: nat, m: nat)
    ensures Bits(Shl(v, m), n + m) == Bits(v, n) + Zeros(m)
  {
    if m > 0 {
      BitsShl(v, n, m - 1);
      assert Shl(v, m) / 2 == Shl(v, m - 1);
    }
  }

  lemma {:induction false} BitsZero(n: nat)
    ensures Bits(0, n) == Zeros(n)
  {
    if n > 0 {
      BitsZero(n - 1);
    }
  }

  lemma {:induction false} BitsLow(v: nat, m: nat, n: nat)
    ensures Bits(Low(v, n), m + n) == Zeros(m) + Bits(v, n)
  {
    if n == 0 {
      BitsZero(m);
    } else {
      BitsLow(v / 2, m, n - 1);
      assert Low(v, n) / 2 == Low(v / 2, n - 1);
    }
  }

  lemma {:induction false} BitsOr(a: nat, b: nat, n: nat)
    ensures forall i :: 0 <= i < n ==> Bits(Or(a, b), n)[i] == (Bits(a, n)[i] || Bits(b, n)[i])
  {
    if a == 0 || b == 0 {
      BitsZero(n);
    } else if n > 0 {
      BitsOr(a / 2, b / 2, n - 1);
      assert Or(a, b) / 2 == Or(a / 2, b / 2);
    }
  }

  lemma {:induction false} LowOfSmall(v: nat, n: nat)
    requires v < Pow2(n)
    ensures Low(v, n) == v
  {
    if n > 0 {
      LowOfSmall(v / 2, n - 1);
    }
  }

  lemma {:induction false} NumberOfBits(v: nat, n: nat)
    ensures Number(Bits(v, n)) == Low(v, n)
  {
    if n > 0 {
      NumberOfBits(v / 2, n - 1);
      assert Bits(v, n)[..n - 1] == Bits(v / 2, n - 1);
    }
  }

  lemma {:induction false} BitsOfNumber(s: seq<bool>)
    ensures Bits(Number(s), |s|) == s && Number(s) < Pow2(|s|)
  {
    if s != [] {
      var t := s[..|s| - 1];
      BitsOfNumber(t);
      assert s == t + [s[|s| - 1]] && Number(s) / 2 == Number(t);
    }
  }

  lemma {:induction false} NumberAppend(a: seq<bool>, b: seq<bool>)
    ensures Number(a + b) == Shl(Number(a), |b|) + Number(b)
    ensures Number(b) < Pow2(|b|)
  {
    BitsOfNumber(b);
    if b == [] {
      assert a + b == a;
    } else {
      var c := b[..|b| - 1];
      NumberAppend(a, c);
      assert (a + b)[..|a + b| - 1] == a + c;
    }
  }

  /** A conversion to `w` bits keeps the low bits. */
  lemma LowKeepsBits(v: nat, n: nat, w: nat)
    requires n <= w
    ensures Bits(Low(v, w), n) == Bits(v, n)
  {
    BitsLow(v, 0, w);
    BitsSplit(Low(v, w), w - n, n);
    BitsSplit(v, w - n, n);
  }

  // ----- bytes -----

  /** The bits of a byte string. */
  function BytesBits(s: seq<Byte>): (bits: seq<bool>)
    ensures |bits| == 8 * |s|
  {
    if s == [] then [] else Bits(s[0], 8) + BytesBits(s[1..])
  }

  /** The bytes of a bit string, the last one filled up with zeros. */
  function Pack(bits: seq<bool>): (s: seq<Byte>)
    ensures |s| == (|bits| + 7) / 8
  {
    if bits == [] then []
    else if |bits| < 8 then [ToByte(Number(bits + Zeros(8 - |bits|)))]
    else [ToByte(Number(bits[..8]))] + Pack(bits[8..])
  }

  lemma ToByteBits(v: nat)
    ensures Bits(ToByte(v), 8) == Bits(v, 8)
  {
    BitsLow(v, 0, 8);
    assert Zeros(0) + Bits(v, 8) == Bits(v, 8);
  }

  /** A byte is determined by its bits. */
  lemma ByteFromBits(b: Byte, bits: seq<bool>)
    requires bits == Bits(b, 8)
    ensures ToByte(Number(bits)) == b
  {
    assert Pow2(8) == 256 by { assert Pow2(4) == 16; }
    NumberOfBits(b, 8);
    LowOfSmall(b, 8);
    LowOfSmall(Number(bits), 8);
  }

  lemma {:induction false} BytesBitsAppend(a: seq<Byte>, b: seq<Byte>)
    ensures BytesBits(a + b) == BytesBits(a) + BytesBits(b)
  {
    if a == [] {
      assert a + b == b;
    } else {
      BytesBitsAppend(a[1..], b);
      assert (a + b)[1..] == a[1..] + b;
    }
  }

  lemma BytesBitsOne(b: Byte)
    ensures BytesBits([b]) == Bits(b, 8)
  {
    assert BytesBits([b][1..]) == [];
  }

  /** The bits before, of and after byte `i`. */
  lemma BytesBitsSplit(s: seq<Byte>, i: nat)
    requires i < |s|
    ensures BytesBits(s) == BytesBits(s[..i]) + Bits(s[i], 8) + BytesBits(s[i + 1..])
  {
    hide BytesBits, Bits;
    assert s == s[..i] + s[i..] && s[i..] == [s[i]] + s[i + 1..];
    BytesBitsAppend(s[..i], s[i..]);
    BytesBitsAppend([s[i]], s[i + 1..]);
    BytesBitsOne(s[i]);
    AppendTwice(BytesBits(s[..i]), Bits(s[i], 8), BytesBits(s[i + 1..]));
  }

  /** Packing and unpacking are inverse up to the zeros that fill the last byte. */
  lemma {:induction false} UnpackPack(bits: seq<bool>)
    ensures BytesBits(Pack(bits)) == bits + Zeros(8 * |Pack(bits)| - |bits|)
  {
    if |bits| == 0 {
    } else if |bits| < 8 {
      var full := bits + Zeros(8 - |bits|);
      BitsOfNumber(full);
      ToByteBits(Number(full));
      BytesBitsOne(ToByte(Number(full)));
    } else {
      BitsOfNumber(bits[..8]);
      ToByteBits(Number(bits[..8]));
      UnpackPack(bits[8..]);
      assert bits == bits[..8] + bits[8..];
    }
  }

  lemma {:induction false} PackUnpack(s: seq<Byte>)
    ensures Pack(BytesBits(s)) == s
  {
    if s != [] {
      var bits := BytesBits(s);
      assert bits[..8] == Bits(s[0], 8) && bits[8..] == BytesBits(s[1..]);
      ByteFromBits(s[0], bits[..8]);
      PackUnpack(s[1..]);
    }
  }

  /** A byte string whose bits are `bits` and then fewer than eight zeros is what they pack to. */
  lemma {:induction false} PackUnique(s: seq<Byte>, bits: seq<bool>)
    requires |bits| <= 8 * |s| < |bits| + 8
    requires BytesBits(s) == bits + Zeros(8 * |s| - |bits|)
    ensures s == Pack(bits)
  {
    if s != [] {
      var all := BytesBits(s);
      assert all[..8] == Bits(s[0], 8);
      ByteFromBits(s[0], all[..8]);
      if |bits| < 8 {
        assert all[..8] == bits + Zeros(8 - |bits|);
      } else {
        assert all[..8] == bits[..8] && all[8..] == BytesBits(s[1..]);
        assert BytesBits(s[1..]) == bits[8..] + Zeros(8 * |s[1..]| - |bits[8..]|);
        PackUnique(s[1..], bits[8..]);
      }
    }
  }

  // ----- lists of fields -----

  type Uint32 = x: int | 0 <= x < 0x1_0000_0000

  datatype Field = Field(width: nat, value: nat)

  /** A width the codecs take and a value that fits it. */
  predicate FieldFits(f: Field) {
    1 <= f.width <= 32 && f.value < Pow2(f.width)
  }

  predicate Fit(fields: seq<Field>) {
    forall i :: 0 <= i < |fields| ==> FieldFits(fields[i])
  }

  function FieldBits(fields: seq<Field>): seq<bool> {
    if fields == [] then [] else Bits(fields[0].value, fields[0].width) + FieldBits(fields[1..])
  }

  function Widths(fields: seq<Field>): seq<nat> {
    seq(|fields|, i requires 0 <= i < |fields| => fields[i].width)
  }

  function Values(fields: seq<Field>): seq<nat> {
    seq(|fields|, i requires 0 <= i < |fields| => fields[i].value)
  }

  function Total(widths: seq<nat>): nat {
    if widths == [] then 0 else widths[0] + Total(widths[1..])
  }

  /** The numbers at the front of `bits`, one for each width. */
  function Numbers(bits: seq<bool>, widths: seq<nat>): seq<nat>
    requires Total(widths) <= |bits|
  {
    if widths == [] then [] else [Number(bits[..widths[0]])] + Numbers(bits[widths[0]..], widths[1..])
  }

  lemma {:induction false} FieldBitsAppend(a: seq<Field>, b: seq<Field>)
    ensures FieldBits(a + b) == FieldBits(a) + FieldBits(b)
  {
    if a == [] {
      assert a + b == b;
    } else {
      hide Bits, FieldBits;
      FieldBitsAppend(a[1..], b);
      assert (a + b)[1..] == a[1..] + b;
      FieldBitsFirst(a);
      FieldBitsFirst(a + b);
      AppendTwice(Bits(a[0].value, a[0].width), FieldBits(a[1..]), FieldBits(b));
    }
  }

  lemma FieldBitsFirst(fields: seq<Field>)
    requires fields != []
    ensures FieldBits(fields) == Bits(fields[0].value, fields[0].width) + FieldBits(fields[1..])
  {
  }

  lemma FieldBitsOne(f: Field)
    ensures FieldBits([f]) == Bits(f.value, f.width)
  {
    assert FieldBits([f][1..]) == [];
  }

  lemma FourFields(a: Field, b: Field, c: Field, d: Field)
    ensures FieldBits([a, b, c, d]) ==
            Bits(a.value, a.width) + Bits(b.value, b.width) + Bits(c.value, c.width) + Bits(d.value, d.width)
  {
    hide Bits;
    FieldBitsOne(a);
    FieldBitsOne(b);
    FieldBitsOne(c);
    FieldBitsOne(d);
    FieldBitsAppend([a], [b]);
    FieldBitsAppend([a, b], [c]);
    FieldBitsAppend([a, b, c], [d]);
    assert [a] + [b] == [a, b] && [a, b] + [c] == [a, b, c] && [a, b, c] + [d] == [a, b, c, d];
  }

  lemma {:induction false} FieldBitsLength(fields: seq<Field>)
    ensures |FieldBits(fields)| == Total(Widths(fields))
  {
    if fields != [] {
      FieldBitsLength(fields[1..]);
      assert Widths(fields)[1..] == Widths(fields[1..]);
    }
  }

  /** What is left of the values: the bits that fit their fields. */
  function Kept(fields: seq<Field>): seq<nat> {
    seq(|fields|, i requires 0 <= i < |fields| => Low(fields[i].value, fields[i].width))
  }

  lemma KeptIfFit(fields: seq<Field>)
    requires Fit(fields)
    ensures Kept(fields) == Values(fields)
  {
    forall i | 0 <= i < |fields|
      ensures Kept(fields)[i] == Values(fields)[i]
    {
      assert FieldFits(fields[i]);
      LowOfSmall(fields[i].value, fields[i].width);
    }
  }

  /** Whatever follows the fields, reading their widths gives their values back. */
  lemma {:induction false} ReadBack(fields: seq<Field>, more: seq<bool>)
    ensures Total(Widths(fields)) <= |FieldBits(fields) + more|
    ensures Numbers(FieldBits(fields) + more, Widths(fields)) == Kept(fields)
  {
    hide Low, Bits, Number;
    FieldBitsLength(fields);
    if fields != [] {
      var f, rest := fields[0], fields[1..];
      var bits := FieldBits(fields) + more;
      ReadBack(rest, more);
      assert Widths(fields)[1..] == Widths(rest) && [Low(f.value, f.width)] + Kept(rest) == Kept(fields);
      assert bits[..f.width] == Bits(f.value, f.width) && bits[f.width..] == FieldBits(rest) + more;
      NumberOfBits(f.value, f.width);
    }
  }

  /** A sum of widths, one at a time. */
  lemma TotalUnrolled(widths: seq<nat>)
    ensures widths[0..] == widths && Total(widths[|widths|..]) == 0
    ensures forall i :: 0 <= i < |widths| ==> Total(widths[i..]) == widths[i] + Total(widths[i + 1..])
  {
    forall i | 0 <= i < |widths|
      ensures Total(widths[i..]) == widths[i] + Total(widths[i + 1..])
    {
      assert widths[i..][1..] == widths[i + 1..];
    }
  }

  /** Bit strings of whole bytes are packed one after the other. */
  lemma {:induction false} PackAppend(a: seq<bool>, b: seq<bool>)
    requires |a| % 8 == 0
    ensures Pack(a + b) == Pack(a) + Pack(b)
  {
    hide ToByte, Number;
    if a == [] {
      assert a + b == b;
    } else {
      var head, tail := a[..8], a[8..];
      PackAppend(tail, b);
      assert (a + b)[..8] == head && (a + b)[8..] == tail + b;
      assert Pack(a) == [ToByte(Number(head))] + Pack(tail);
      assert Pack(a + b) == [ToByte(Number(head))] + Pack(tail + b);
    }
  }

  // ----- groups of fields that fill whole bytes -----

  function Group(fields: seq<Field>): seq<Byte> {
    Pack(FieldBits(fields))
  }

  /** The fields of a byte string. */
  function Fields(b: seq<Byte>, widths: seq<nat>): (f: seq<nat>)
    requires Total(widths) == 8 * |b|
    ensures |f| == |widths|
  {
    NumbersLength(BytesBits(b), widths);
    Numbers(BytesBits(b), widths)
  }

  lemma {:induction false} NumbersLength(bits: seq<bool>, widths: seq<nat>)
    requires Total(widths) <= |bits|
    ensures |Numbers(bits, widths)| == |widths|
  {
    if widths != [] {
      NumbersLength(bits[widths[0]..], widths[1..]);
    }
  }

  /** Whole-byte groups of fields are read back. */
  lemma GroupParsed(fields: seq<Field>, widths: seq<nat>)
    requires Widths(fields) == widths && Total(widths) % 8 == 0
    ensures 8 * |Group(fields)| == Total(widths)
    ensures Fields(Group(fields), widths) == Kept(fields)
  {
    hide Pack, FieldBits, Numbers;
    FieldBitsLength(fields);
    UnpackPack(FieldBits(fields));
    ReadBack(fields, Zeros(0));
  }

  lemma Powers()
    ensures Pow2(1) == 2 && Pow2(2) == 4 && Pow2(3) == 8 && Pow2(4) == 0x10 && Pow2(5) == 0x20 && Pow2(8) == 0x100
    ensures Pow2(12) == 0x1000 && Pow2(13) == 0x2000 && Pow2(16) == 0x1_0000 && Pow2(24) == 0x100_0000
  {
    assert Pow2(0) == 1;
    assert Pow2(10) == 4 * Pow2(8);
    assert Pow2(14) == 2 * Pow2(13);
    assert Pow2(18) == 4 * Pow2(16) && Pow2(21) == 8 * Pow2(18);
  }

  // ----- bytes as numbers -----

  lemma {:induction false} BitsJoin(high: nat, n: nat, low: nat, m: nat)
    requires low < Pow2(m)
    ensures Bits(Shl(high, m) + low, n + m) == Bits(high, n) + Bits(low, m)
  {
    if m > 0 {
      BitsJoin(high, n, low / 2, m - 1);
      var v := Shl(high, m) + low;
      assert v / 2 == Shl(high, m - 1) + low / 2 && v % 2 == low % 2;
    }
  }

  lemma ByteJoined(v: nat, n: nat, b: Byte)
    ensures Bits(256 * v + b, n + 8) == Bits(v, n) + Bits(b, 8)
  {
    Powers();
    ShlByte(v);
    BitsJoin(v, n, b, 8);
  }

  /** The low bits of a number are the bits of its low bytes. */
  lemma {:induction false} WholeBytes(v: nat, n: nat)
    ensures Bits(v, 8 * n) == BytesBits(WriteBE(v, n))
  {
    hide Bits, BytesBits;
    if n > 0 {
      WholeBytes(v / 256, n - 1);
      ByteJoined(v / 256, 8 * (n - 1), v % 256);
      BytesBitsAppend(WriteBE(v / 256, n - 1), [v % 256]);
      BytesBitsOne(v % 256);
    } else {
      NoBytes();
      NoBits(v);
    }
  }

  lemma ShlByte(v: nat)
    ensures Shl(v, 8) == 256 * v
  {
    assert Shl(v, 2) == 4 * v by { assert Shl(v, 1) == 2 * Shl(v, 0); }
    assert Shl(v, 4) == 4 * Shl(v, 2);
    assert Shl(v, 6) == 4 * Shl(v, 4);
  }

  /** Bytes written as one number. */
  lemma NumberGroup(s: seq<Byte>)
    ensures Group([Field(8 * |s|, ReadBE(s))]) == s
  {
    hide Bits, BytesBits, Pack;
    FieldBitsOne(Field(8 * |s|, ReadBE(s)));
    WriteReadBE(s);
    WholeBytes(ReadBE(s), |s|);
    PackUnpack(s);
  }

  lemma BytesBitsLength(s: seq<Byte>)
    ensures |BytesBits(s)| == 8 * |s|
  {
  }

  lemma NoBits(v: nat)
    ensures Bits(v, 0) == []
  {
  }

  lemma NoBytes()
    ensures BytesBits([]) == []
  {
  }

  /** One more field of a list. */
  lemma FieldStep(fields: seq<Field>, i: nat)
    requires i < |fields|
    ensures FieldBits(fields[..i + 1]) == FieldBits(fields[..i]) + Bits(fields[i].value, fields[i].width)
    ensures |FieldBits(fields[..i + 1])| <= Total(Widths(fields))
  {
    hide FieldBits, Bits;
    FieldBitsLength(fields);
    assert fields[..i + 1] == fields[..i] + [fields[i]] && fields == fields[..i + 1] + fields[i + 1..];
    FieldBitsAppend(fields[..i], [fields[i]]);
    FieldBitsAppend(fields[..i + 1], fields[i + 1..]);
    FieldBitsOne(fields[i]);
  }

  // ----- byte by byte -----

  /** Bit `i` of `n` bits is a binary digit of the number, the highest first. */
  lemma {:induction false} BitAt(v: nat, n: nat, i: nat)
    requires i < n
    ensures Bits(v, n)[i] == (v / Pow2(n - 1 - i) % 2 == 1)
    ensures Pow2(0) == 1 && Pow2(n) == 2 * Pow2(n - 1)
  {
    if i < n - 1 {
      BitAt(v / 2, n - 1, i);
      HalfDivided(v, Pow2(n - 2 - i));
    }
  }

  lemma HalfDivided(v: nat, p: Positive)
    ensures v / 2 / p == v / (2 * p)
  {
    var q, r := v / 2 / p, v / 2 % p;
    assert v / 2 == p * q + r;
    DivideUnique(v, 2 * p, q, 2 * r + v % 2);
  }

  lemma {:induction false} ShlIs(v: nat, m: nat)
    ensures Shl(v, m) == v * Pow2(m)
  {
    if m > 0 {
      ShlIs(v, m - 1);
      DoubledProduct(v, Pow2(m - 1));
      assert v * Pow2(m) == 2 * (v * Pow2(m - 1)) by { SwapProduct(v, Pow2(m - 1)); }
    }
  }

  lemma SwapProduct(v: nat, p: nat)
    ensures v * (2 * p) == 2 * (v * p)
  {
  }

  /** A field behind the bits of a number. */
  lemma FieldBehind(high: nat, n: nat, low: nat, m: nat, size: nat)
    requires size == Pow2(m)
    ensures Bits(high, n) + Bits(low, m) == Bits(high * size + low % size, n + m)
  {
    ShlIs(high, m);
    ShrDivides(low, m);
    BitsJoin(high, n, Low(low, m), m);
    LowKeepsBits(low, m, m);
  }

  /** The first `n` fields as one number. */
  function Joint(fields: seq<Field>, n: nat): nat
    requires n <= |fields|
  {
    if n == 0 then 0
    else Joint(fields, n - 1) * Pow2(fields[n - 1].width) + Low(fields[n - 1].value, fields[n - 1].width)
  }

  lemma JointOne(fields: seq<Field>, n: nat, p: nat)
    requires n < |fields| && p == Pow2(fields[n].width)
    ensures Joint(fields, 0) == 0 && Joint(fields, n + 1) == Joint(fields, n) * p + fields[n].value % p
  {
    ShrDivides(fields[n].value, fields[n].width);
  }

  lemma {:induction false} JointBits(fields: seq<Field>, n: nat)
    requires n <= |fields|
    ensures FieldBits(fields[..n]) == Bits(Joint(fields, n), |FieldBits(fields[..n])|)
  {
    hide Bits, FieldBits, Low;
    if n > 0 {
      JointBits(fields, n - 1);
      FieldStep(fields, n - 1);
      var f, before := fields[n - 1], Joint(fields, n - 1);
      FieldBehind(before, |FieldBits(fields[..n - 1])|, f.value, f.width, Pow2(f.width));
      ShrDivides(f.value, f.width);
    } else {
      NoFieldBits(fields[..0]);
      NoBits(0);
    }
  }

  lemma NoFieldBits(fields: seq<Field>)
    requires fields == []
    ensures FieldBits(fields) == []
  {
  }

  /** Fields that fill whole bytes are the bytes of one number, most significant first. */
  lemma GroupNumber(fields: seq<Field>, size: nat)
    requires Total(Widths(fields)) == 8 * size
    ensures Group(fields) == WriteBE(Joint(fields, |fields|), size)
  {
    hide Bits, FieldBits, Joint, Pack, WriteBE, BytesBits;
    var n := |fields|;
    assert fields[..n] == fields;
    JointBits(fields, n);
    FieldBitsLength(fields);
    WholeBytes(Joint(fields, n), size);
    PackUnpack(WriteBE(Joint(fields, n), size));
  }

  /** A field is a group of binary digits of the number that all bits make. */
  lemma {:induction false} FieldAt(v: nat, widths: seq<nat>, k: nat)
    requires k < |widths|
    ensures |Numbers(Bits(v, Total(widths)), widths)| == |widths|
    ensures Numbers(Bits(v, Total(widths)), widths)[k] == v / Pow2(Total(widths[k + 1..])) % Pow2(widths[k])
  {
    hide Bits, Pow2, Number;
    var w, rest := widths[0], Total(widths[1..]);
    BitsSplit(v, w, rest);
    NumbersLength(Bits(v, Total(widths)), widths);
    if k == 0 {
      NumberOfBits(Shr(v, rest), w);
      ShrDivides(v, rest);
      ShrDivides(Shr(v, rest), w);
    } else {
      FieldAt(v, widths[1..], k - 1);
      assert widths[1..][k..] == widths[k + 1..];
    }
  }

  /** Bits behind the fields do not matter. */
  lemma {:induction false} NumbersInFront(bits: seq<bool>, more: seq<bool>, widths: seq<nat>)
    requires Total(widths) <= |bits|
    ensures Numbers(bits + more, widths) == Numbers(bits, widths)
  {
    hide Number;
    if widths != [] {
      var w := widths[0];
      NumbersInFront(bits[w..], more, widths[1..]);
      assert (bits + more)[..w] == bits[..w] && (bits + more)[w..] == bits[w..] + more;
    }
  }

  /** The fields of bytes, and of whatever bytes begin with them. */
  lemma FieldOfBytes(s: seq<Byte>, more: seq<Byte>, widths: seq<nat>, k: nat)
    requires Total(widths) == 8 * |s| && k < |widths|
    ensures |Numbers(BytesBits(s + more), widths)| == |widths|
    ensures Numbers(BytesBits(s + more), widths)[k] == ReadBE(s) / Pow2(Total(widths[k + 1..])) % Pow2(widths[k])
  {
    hide Bits, Pow2, Numbers, BytesBits, ReadBE, Total;
    BytesBitsAppend(s, more);
    BytesBitsLength(s);
    WholeBytes(ReadBE(s), |s|);
    WriteReadBE(s);
    NumbersInFront(BytesBits(s), BytesBits(more), widths);
    FieldAt(ReadBE(s), widths, k);
  }
}
