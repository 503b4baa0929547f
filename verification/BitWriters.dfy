/** The two bit writers: one works a byte at a time, the other a bit at a time. */
module BitWriters {
  import opened Bytes
  import opened BitFields

  function Max(a: int, b: int): int {
    if a <= b then b else a
  }

  // ----- writing a byte at a time -----

  lemma {:induction false} ZeroBytes(s: seq<Byte>)
    requires forall i :: 0 <= i < |s| ==> s[i] == 0
    ensures BytesBits(s) == Zeros(8 * |s|)
  {
    if s != [] {
      ZeroBytes(s[1..]);
      BitsZero(8);
    }
  }

  /** The byte a piece of a value is or-ed in as: the piece in the right place, zeros around it. */
  lemma PieceBits(v: nat, n: nat, space: nat)
    requires 1 <= n <= 32 && 1 <= space <= 8
    ensures n <= space ==>
      Bits(ToByte(Shl(Low(v, n), space - n)), 8) == Zeros(8 - space) + Bits(v, n) + Zeros(space - n)
    ensures space < n ==>
      Bits(ToByte(Shr(Low(v, n), n - space)), 8) == Zeros(8 - space) + Bits(v, n)[..space]
  {
    if n <= space {
      ToByteBits(Shl(Low(v, n), space - n));
      BitsShl(Low(v, n), 8 - space + n, space - n);
      BitsLow(v, 8 - space, n);
    } else {
      ToByteBits(Shr(Low(v, n), n - space));
      BitsSplit(Low(v, n), 8, n - space);
      BitsLow(v, 8 - space, n);
      var all := Zeros(8 - space) + Bits(v, n);
      assert Bits(Low(v, n), 8 + (n - space)) == all;
      assert all[..8] == Zeros(8 - space) + Bits(v, n)[..space];
    }
  }

  lemma OrByte(a: Byte, b: Byte)
    ensures Or(a, b) < 256
    ensures forall i :: 0 <= i < 8 ==> Bits(Or(a, b), 8)[i] == (Bits(a, 8)[i] || Bits(b, 8)[i])
  {
    BitsOr(a, b, 8);
    assert Pow2(8) == 256 by { assert Pow2(4) == 16; }
    OrBound(a, b, 8);
  }

  lemma {:induction false} OrBound(a: nat, b: nat, n: nat)
    requires a < Pow2(n) && b < Pow2(n)
    ensures Or(a, b) < Pow2(n)
  {
    if a != 0 && b != 0 {
      OrBound(a / 2, b / 2, n - 1);
    }
  }

  /** What or-ing a piece does to a byte whose last `space` bits are free. */
  lemma OrPiece(a: Byte, space: nat, y: Byte, chunk: seq<bool>)
    requires 1 <= space <= 8 && |chunk| <= space
    requires Bits(a, 8)[8 - space..] == Zeros(space)
    requires Bits(y, 8) == Zeros(8 - space) + chunk + Zeros(space - |chunk|)
    ensures Or(a, y) < 256
    ensures Bits(Or(a, y), 8) == Bits(a, 8)[..8 - space] + chunk + Zeros(space - |chunk|)
  {
    hide Bits, Or;
    OrByte(a, y);
    var bits := Bits(a, 8);
    assert forall j :: 8 - space <= j < 8 ==> bits[j] == bits[8 - space..][j - (8 - space)] == false;
  }

  /** From bit `p` on there are only zeros. */
  predicate FreeFrom(s: seq<Byte>, p: nat)
  {
    p <= 8 * |s| && BytesBits(s)[p..] == Zeros(8 * |s| - p)
  }

  lemma FreeByte(s: seq<Byte>, i: nat, space: nat)
    requires i < |s| && 1 <= space <= 8 && FreeFrom(s, 8 * i + 8 - space)
    ensures Bits(s[i], 8)[8 - space..] == Zeros(space) && BytesBits(s[i + 1..]) == Zeros(8 * |s| - 8 * i - 8)
    ensures BytesBits(s)[..8 * i + 8 - space] == BytesBits(s[..i]) + Bits(s[i], 8)[..8 - space]
  {
    hide Bits, BytesBits;
    BytesBitsSplit(s, i);
    var before, byte, after := BytesBits(s[..i]), Bits(s[i], 8), BytesBits(s[i + 1..]);
    CutMiddle(before, byte, after, 8 - space);
    ZerosSplit(byte[8 - space..], after);
  }

  lemma CutMiddle<T>(a: seq<T>, b: seq<T>, c: seq<T>, k: nat)
    requires k <= |b|
    ensures (a + b + c)[..|a| + k] == a + b[..k] && (a + b + c)[|a| + k..] == b[k..] + c
  {
  }

  lemma ZerosSplit(a: seq<bool>, b: seq<bool>)
    requires a + b == Zeros(|a| + |b|)
    ensures a == Zeros(|a|) && b == Zeros(|b|)
  {
    assert a == (a + b)[..|a|] && b == (a + b)[|a|..];
  }

  /** Bits or-ed into the byte the write position is in. */
  lemma OrInto(s: seq<Byte>, i: nat, space: nat, y: Byte, chunk: seq<bool>)
    requires i < |s| && 1 <= space <= 8 && |chunk| <= space && FreeFrom(s, 8 * i + 8 - space)
    requires Bits(y, 8) == Zeros(8 - space) + chunk + Zeros(space - |chunk|)
    ensures Or(s[i], y) < 256
    ensures var t, p := s[i := Or(s[i], y)], 8 * i + 8 - space;
            BytesBits(t)[..p + |chunk|] == BytesBits(s)[..p] + chunk && FreeFrom(t, p + |chunk|)
  {
    hide Bits, BytesBits, Or;
    FreeByte(s, i, space);
    OrPiece(s[i], space, y, chunk);
    var t, p := s[i := Or(s[i], y)], 8 * i + 8 - space;
    BytesBitsSplit(t, i);
    assert t[..i] == s[..i] && t[i + 1..] == s[i + 1..];
    var front := BytesBits(s)[..p] + chunk;
    assert BytesBits(t) == front + (Zeros(space - |chunk|) + Zeros(8 * |s| - 8 * i - 8));
    assert BytesBits(t)[..p + |chunk|] == front;
  }

  lemma NothingAround(space: nat, chunk: seq<bool>)
    requires |chunk| == space <= 8
    ensures Zeros(8 - space) + chunk + Zeros(0) == Zeros(8 - space) + chunk
  {
  }

  lemma NoFields(fields: seq<Field>)
    requires fields == []
    ensures FieldBits(fields) == []
  {
  }

  /** Fields a writer takes: 32-bit integers, of which the low bits are written. */
  predicate Writable(fields: seq<Field>) {
    forall i :: 0 <= i < |fields| ==> fields[i].width <= 32 && fields[i].value < 0x1_0000_0000
  }

  lemma FitIsWritable(fields: seq<Field>)
    requires Fit(fields)
    ensures Writable(fields)
  {
    forall i | 0 <= i < |fields|
      ensures fields[i].width <= 32 && fields[i].value < 0x1_0000_0000
    {
      assert FieldFits(fields[i]);
      FieldBelow(fields[i]);
    }
  }

  class BitWriter {
    const data: array<Byte>
    var bitCount: nat

    constructor (dataSize: nat)
      ensures Valid() && Written() == [] && data.Length == dataSize && fresh(data)
    {
      data := new Byte[dataSize](i => 0);
      bitCount := 0;
      new;
      ZeroBytes(data[..]);
    }

    /** What was written so far. */
    ghost function Written(): (bits: seq<bool>)
      reads this, data
    {
      if bitCount <= 8 * data.Length then BytesBits(data[..])[..bitCount] else []
    }

    ghost predicate Valid()
      reads this, data
    {
      FreeFrom(data[..], bitCount)
    }

    lemma WrittenLength()
      requires Valid()
      ensures |Written()| == bitCount
    {
    }

    /** Ors a piece of a value into the byte at `at`, which has `space` bits left. */
    method OrAt(at: nat, space: nat, size: nat, piece: Byte, ghost chunk: seq<bool>)
      requires Valid() && at < data.Length && 1 <= space <= 8 && bitCount == 8 * at + 8 - space
      requires |chunk| == size <= space
      requires Bits(piece, 8) == Zeros(8 - space) + chunk + Zeros(space - |chunk|)
      modifies data, this`bitCount
      ensures Valid() && bitCount == old(bitCount) + size
      ensures Written() == old(Written()) + chunk
    {
      hide Bits, BytesBits, Or;
      ghost var was := data[..];
      OrInto(was, at, space, piece, chunk);
      data[at] := Or(data[at], piece);
      bitCount := bitCount + size;
      assert data[..] == was[at := Or(was[at], piece)];
    }

    /** Appends the low bits of a value, or changes nothing if they do not fit. */
    method Write(count: nat, value: Uint32)
      requires Valid() && count <= 32
      modifies this`bitCount, data
      ensures Valid()
      ensures Written() ==
              old(Written()) + if |old(Written())| + count > 8 * data.Length then [] else Bits(value, count)
    {
      hide Written, FreeFrom, Bits, BytesBits, Or, Low, Shl, Shr, ToByte;
      WrittenLength();
      if bitCount + count > 8 * data.Length {
        assert old(Written()) + [] == old(Written());
        return;
      }
      var left: nat, at: nat, space: nat := count, bitCount / 8, 8 - bitCount % 8;
      ghost var goal := Written() + Bits(value, count);
      while left > 0
        invariant Valid() && left <= count && bitCount + left == old(bitCount) + count
        invariant left > 0 ==> bitCount == 8 * at + 8 - space && 1 <= space <= 8
        invariant Written() + Bits(value, left) == goal
      {
        PieceBits(value, left, space);
        ghost var written := Written();
        if left <= space {
          OrAt(at, space, left, ToByte(Shl(Low(value, left), space - left)), Bits(value, left));
          return;
        }
        NothingAround(space, Bits(value, left)[..space]);
        BitsSplit(value, space, left - space);
        AppendTwice(written, Bits(value, left)[..space], Bits(value, left - space));
        OrAt(at, space, space, ToByte(Shr(Low(value, left), left - space)), Bits(value, left)[..space]);
        at, left, space := at + 1, left - space, 8;
      }
      assert Bits(value, 0) == [] && goal == Written();
    }

    /** The bytes written, the last one filled up with zeros. */
    method GetData() returns (s: seq<Byte>)
      requires Valid()
      ensures s == Pack(Written())
    {
      hide BytesBits, Pack;
      var size := (bitCount + 7) / 8;
      s := data[..size];
      assert data[..] == s + data[size..];
      BytesBitsAppend(s, data[size..]);
      ghost var all := BytesBits(data[..]);
      assert forall j :: bitCount <= j < |all| ==> all[j] == all[bitCount..][j - bitCount] == false;
      assert BytesBits(s) == all[..8 * size] && |s| == size;
      assert BytesBits(s) == Written() + Zeros(8 * size - bitCount);
      PackUnique(s, Written());
    }

    method WriteFields(fields: seq<Field>)
      requires Valid() && Writable(fields) && |Written()| + Total(Widths(fields)) <= 8 * data.Length
      modifies this`bitCount, data
      ensures Valid() && Written() == old(Written()) + FieldBits(fields)
    {
      hide Bits, BytesBits, FieldBits;
      NoFields(fields[..0]);
      AppendNothing(Written());
      for i := 0 to |fields|
        invariant Valid() && Written() == old(Written()) + FieldBits(fields[..i])
      {
        FieldStep(fields, i);
        Write(fields[i].width, fields[i].value);
      }
      assert fields[..|fields|] == fields;
    }

    /** Fields that fill whole bytes, behind whole bytes. */
    method WriteGroup(fields: seq<Field>, ghost before: seq<Byte>)
      requires Valid() && Writable(fields) && Total(Widths(fields)) % 8 == 0 && Written() == BytesBits(before)
      requires 8 * |before| + Total(Widths(fields)) <= 8 * data.Length
      modifies this`bitCount, data
      ensures Valid() && Written() == BytesBits(before + Group(fields))
    {
      hide Written, BytesBits, FieldBits, Pack;
      WriteFields(fields);
      FieldBitsLength(fields);
      UnpackPack(FieldBits(fields));
      AppendNothing(FieldBits(fields));
      assert Zeros(0) == [];
      BytesBitsAppend(before, Group(fields));
    }
  }

  lemma {:induction false} Pow2Monotone(a: nat, b: nat)
    requires a <= b
    ensures Pow2(a) <= Pow2(b)
  {
    if a < b {
      Pow2Monotone(a, b - 1);
    }
  }

  /** A field's value is a 32-bit integer. */
  lemma FieldBelow(f: Field)
    requires FieldFits(f)
    ensures f.value < 0x1_0000_0000
  {
    Pow2Monotone(f.width, 32);
    assert Pow2(16) == 0x1_0000 by { assert Pow2(8) == 0x100 by { assert Pow2(4) == 0x10; } }
    assert Pow2(32) == 0x1_0000_0000 by { assert Pow2(24) == 0x100_0000 by { assert Pow2(20) == 0x10_0000; } }
  }

  // ----- writing a bit at a time -----

  /** The sign bit of a shifted value is its next bit. */
  lemma {:induction false} TopBit(v: nat, n: nat)
    requires v < Pow2(n + 1)
    ensures Bits(v, n + 1)[0] == (v >= Pow2(n))
  {
    if n > 0 {
      TopBit(v / 2, n - 1);
    } else {
      assert Bits(v / 2, 0) == [];
    }
  }

  /** Shifting a 32-bit value left drops its top bits. */
  lemma ShiftWithin(v: nat, k: nat)
    requires k <= 32
    ensures Bits(Low(Shl(v, k), 32), 32) == Bits(v, 32 - k) + Zeros(k)
    ensures Bits(v, 32)[k..] == Bits(v, 32 - k)
  {
    hide Bits, Low, Shl, Shr;
    BitsLow(Shl(v, k), 0, 32);
    assert Zeros(0) + Bits(Shl(v, k), 32) == Bits(Shl(v, k), 32);
    BitsShl(v, 32 - k, k);
    BitsSplit(v, k, 32 - k);
  }

  lemma ShiftOne(v: nat, bits: seq<bool>, k: nat)
    requires bits != [] && |bits| + k == 32 && Bits(v, 32) == bits + Zeros(k)
    ensures Bits(Low(Shl(v, 1), 32), 32) == bits[1..] + Zeros(k + 1)
  {
    hide Bits, Low, Shl;
    ShiftWithin(v, 1);
    assert Zeros(k) + Zeros(1) == Zeros(k + 1);
    assert (bits + Zeros(k))[1..] == bits[1..] + Zeros(k);
  }

  const BLOCK_SIZE: nat := 512

  lemma Pow2Values()
    ensures Pow2(8) == 0x100 && Pow2(31) == 0x8000_0000 && Pow2(32) == 0x1_0000_0000
  {
    assert Pow2(8) == 0x100 by { assert Pow2(4) == 0x10; }
    assert Pow2(16) == 0x1_0000 by { assert Pow2(12) == 0x1000; }
    assert Pow2(24) == 0x100_0000 by { assert Pow2(20) == 0x10_0000; }
    assert Pow2(31) == 0x8000_0000 by { assert Pow2(28) == 0x1000_0000; }
  }

  /** What a sink of `capacity` bytes holds of `bits`: the bytes it has room for and the bits of an unfinished byte. */
  function Held(bits: seq<bool>, capacity: nat): (held: seq<bool>)
    ensures |bits| < 8 * (capacity + 1) ==> held == bits
  {
    if |bits| < 8 * (capacity + 1) then bits else bits[..8 * capacity] + bits[|bits| / 8 * 8..]
  }

  /** Whole bytes beyond the capacity leave no trace. */
  lemma HeldBeyond(full: seq<bool>, beyond: seq<bool>, more: seq<bool>, capacity: nat)
    requires |full| == 8 * capacity && |beyond| % 8 == 0
    ensures Held(full + beyond + more, capacity) == full + more[|more| / 8 * 8..]
  {
    var all := full + beyond + more;
    assert |all| / 8 * 8 == |full + beyond| + |more| / 8 * 8;
    assert all[|all| / 8 * 8..] == more[|more| / 8 * 8..];
    assert all[..8 * capacity] == full;
    if |all| < 8 * (capacity + 1) {
      assert all == full + more;
    }
  }

  /** Of whole bytes no bit is left pending. */
  lemma HeldWhole(bits: seq<bool>, capacity: nat, position: nat, pending: nat)
    requires |bits| % 8 == 0 && pending < 8 && |Held(bits, capacity)| == 8 * position + pending
    ensures pending == 0
  {
  }

  /** Holding back twice is holding back once. */
  lemma HeldMore(bits: seq<bool>, more: seq<bool>, capacity: nat)
    ensures Held(Held(bits, capacity) + more, capacity) == Held(bits + more, capacity)
  {
    if 8 * (capacity + 1) <= |bits| {
      var whole := |bits| / 8 * 8;
      var full, beyond, tail := bits[..8 * capacity], bits[8 * capacity..whole], bits[whole..];
      assert full + beyond + (tail + more) == bits + more;
      assert full + [] + (tail + more) == Held(bits, capacity) + more;
      HeldBeyond(full, beyond, tail + more, capacity);
      HeldBeyond(full, [], tail + more, capacity);
    }
  }

  /** One byte, or the beginning of one, behind `n` whole bytes that fit. */
  lemma HeldByte(whole: seq<bool>, n: nat, bits: seq<bool>, capacity: nat)
    requires |whole| == 8 * n && n <= capacity && |bits| <= 8
    ensures Held(whole + bits, capacity) == if |bits| < 8 || n < capacity then whole + bits else whole
  {
    if n == capacity && |bits| == 8 {
      HeldBeyond(whole, bits, [], capacity);
      AppendNothing(whole + bits);
      AppendNothing(whole);
    }
  }

  /** The bit stream in one of its two memory writing modes. */
  class BitSink {
    var original: array<Byte>
    var position: nat
    var size: nat
    var current: nat
    var nbBits: nat
    const dynamic: bool

    /** A fixed buffer of `size` bytes, or one that grows. */
    constructor (size: nat, dynamic: bool)
      ensures Valid() && Written() == [] && fresh(original)
      ensures this.dynamic == dynamic && this.size == size
    {
      this.original := new Byte[if dynamic then size + BLOCK_SIZE else size](i => 0);
      this.position, this.size, this.current, this.nbBits := 0, size, 0, 0;
      this.dynamic := dynamic;
    }

    ghost predicate Valid()
      reads this, original
    {
      Inside() && nbBits < 8 && current < Pow2(nbBits)
    }

    ghost predicate Inside()
      reads this
    {
      position <= size <= original.Length
    }

    /** What was written so far: whole bytes and the bits still pending. */
    ghost function Written(): (bits: seq<bool>)
      reads this, original
    {
      if position <= original.Length then BytesBits(original[..position]) + Bits(current, nbBits) else []
    }

    /** How many bytes the stream can hold. */
    ghost function Capacity(): nat
      reads this
    {
      if dynamic && size < 0x1_0000_0000 then 0x1_0000_0000 else size
    }

    /** The buffer moved to a new place or not at all, and grew no further than the write position. */
    twostate predicate Grown()
      reads this, original
    {
      && (original == old(original) || fresh(original))
      && Capacity() == old(Capacity()) && old(position) <= position && size == Max(old(size), position)
    }

    lemma WrittenIsHeld()
      requires Valid()
      ensures |Written()| == 8 * position + nbBits && Held(Written(), Capacity()) == Written()
    {
      BytesBitsLength(original[..position]);
    }

    /** Appends a byte, growing the buffer if need be; drops it when there is no room. */
    method WriteByte(val: Byte)
      requires Inside()
      modifies this`original, this`position, this`size, original
      ensures Inside() && Grown()
      ensures original[..position] ==
              old(original[..position]) + if old(position) < old(Capacity()) then [val] else []
    {
      if position == size {
        if !dynamic || size > 0xFFFF_FFFF {
          return;
        }
        if size + 1 > original.Length {
          var bigger := new Byte[size + 1 + BLOCK_SIZE](i => 0);
          for i := 0 to position
            modifies bigger
            invariant bigger[..i] == original[..i]
          {
            bigger[i] := original[i];
          }
          original := bigger;
        }
        size := size + 1;
      }
      original[position] := val;
      position := position + 1;
      assert original[..position] == original[..position - 1] + [val];
    }

    method WriteBit(bit: bool)
      requires Valid()
      modifies this`original, this`position, this`size, this`current, this`nbBits, original
      ensures Valid() && Grown()
      ensures Written() == Held(old(Written()) + [bit], Capacity())
    {
      hide BytesBits, Low, Held, Or, Shl, Bits;
      NoBits(0);
      ghost var whole, pending := original[..position], Bits(current, nbBits);
      current := Or(Shl(current, 1), if bit then 1 else 0);
      nbBits := nbBits + 1;
      ghost var bits := Bits(current, nbBits);
      BitAppended(old(current), old(nbBits), bit);
      assert bits == pending + [bit];
      if nbBits == 8 {
        nbBits := 0;
        ToByteBits(current);
        BytesBitsOne(ToByte(current));
        BytesBitsAppend(whole, [ToByte(current)]);
        assert whole + [] == whole;
        WriteByte(ToByte(current));
        current := 0;
      }
      assert BytesBits(whole) + bits == old(Written()) + [bit];
      BytesBitsLength(whole);
      HeldByte(BytesBits(whole), old(position), bits, old(Capacity()));
    }

    /** Appends the low bits of a 32-bit integer, most significant first. */
    method WriteInt(value: Uint32, count: nat)
      requires Valid() && 1 <= count <= 32
      modifies this`original, this`position, this`size, this`current, this`nbBits, original
      ensures Valid() && Grown()
      ensures Written() == Held(old(Written()) + Bits(value, count), Capacity())
    {
      hide Written, Bits, Low, Shl, BytesBits, Held;
      Pow2Values();
      var v := Low(Shl(value, 32 - count), 32);
      var left := count;
      ShiftWithin(value, 32 - count);
      ghost var rest, goal := Bits(value, count), Written() + Bits(value, count);
      while left > 0
        invariant Valid() && Grown()
        invariant 0 <= left <= count && |rest| == left && v < 0x1_0000_0000 && Bits(v, 32) == rest + Zeros(32 - left)
        invariant Held(Written() + rest, Capacity()) == Held(goal, Capacity())
      {
        TopBit(v, 31);
        ShiftOne(v, rest, 32 - left);
        assert rest == [rest[0]] + rest[1..];
        AppendTwice(Written(), [rest[0]], rest[1..]);
        HeldMore(Written() + [rest[0]], rest[1..], Capacity());
        WriteBit(v >= 0x8000_0000);
        v := Low(Shl(v, 1), 32);
        rest := rest[1..];
        left := left - 1;
      }
      AppendNothing(Written());
      WrittenIsHeld();
    }

    method Align()
      requires Valid()
      modifies this`original, this`position, this`size, this`current, this`nbBits, original
      ensures Valid() && Grown()
      ensures Written() == Held(old(Written()) + Zeros((8 - old(nbBits)) % 8), Capacity())
      ensures nbBits == 0 && Written() == BytesBits(original[..position])
    {
      hide Bits, BytesBits, Held, Written;
      BitsZero(8 - nbBits);
      WrittenIsHeld();
      AppendNothing(Written());
      if nbBits > 0 {
        FillByte();
      }
      WrittenWhole();
    }

    method FillByte()
      requires Valid() && nbBits > 0
      modifies this`original, this`position, this`size, this`current, this`nbBits, original
      ensures Valid() && Grown() && nbBits == 0
      ensures Written() == Held(old(Written()) + Bits(0, 8 - old(nbBits)), Capacity())
    {
      hide Bits, BytesBits, Held, Written;
      ghost var bits, capacity := Written() + Bits(0, 8 - nbBits), Capacity();
      WrittenIsHeld();
      assert |bits| == 8 * position + 8;
      WriteInt(0, 8 - nbBits);
      WrittenIsHeld();
      HeldWhole(bits, capacity, position, nbBits);
    }

    lemma WrittenWhole()
      requires Valid() && nbBits == 0
      ensures Written() == BytesBits(original[..position])
    {
      NoBits(current);
      AppendNothing(BytesBits(original[..position]));
    }

    /** A list of fields, one after the other. */
    method WriteInts(fields: seq<Field>)
      requires Valid() && Fit(fields) && |Written()| + Total(Widths(fields)) < 8 * (Capacity() + 1)
      modifies this`original, this`position, this`size, this`current, this`nbBits, original
      ensures Valid() && Grown() && Written() == old(Written()) + FieldBits(fields)
    {
      hide Written, Bits, BytesBits, FieldBits;
      NoFields(fields[..0]);
      AppendNothing(Written());
      FitIsWritable(fields);
      for i := 0 to |fields|
        invariant Valid() && Grown() && Written() == old(Written()) + FieldBits(fields[..i])
      {
        FieldStep(fields, i);
        assert FieldFits(fields[i]);
        WriteInt(fields[i].value, fields[i].width);
      }
      assert fields[..|fields|] == fields;
    }

    /** Hands out the bytes of a growing stream, the last one filled up with zeros, and empties it. */
    method GetContent() returns (s: seq<Byte>)
      requires Valid() && dynamic
      modifies this`original, this`position, this`size, this`current, this`nbBits, original
      ensures Valid() && position == size == 0
      ensures |old(Written())| <= 8 * 0xFFFF_FFFE && old(size) <= 0xFFFF_FFFE ==> s == Pack(old(Written()))
    {
      hide Bits, BytesBits, Pack;
      ghost var written := Written();
      if position == 0 && nbBits == 0 {
        s := [];
        NoBits(current);
        NothingPacked();
        assert original[..0] == [];
      } else {
        Align();
        if !(size == position || size - position == 0xFFFF_FFFF || position >= 0xFFFF_FFFF) {
          size := position;
        }
        s := original[..size];
        if |written| <= 8 * 0xFFFF_FFFE && old(size) <= 0xFFFF_FFFE {
          assert BytesBits(original[..position]) == written + Zeros((8 - old(nbBits)) % 8);
          assert size == position;
          PackUnique(s, written);
        }
      }
      original := new Byte[0];
      position, size := 0, 0;
    }
  }

  lemma NothingPacked()
    ensures BytesBits([]) == [] && Pack([]) == []
  {
  }

  lemma BitAppended(current: nat, n: nat, bit: bool)
    requires current < Pow2(n)
    ensures var next := Or(Shl(current, 1), if bit then 1 else 0);
            Bits(next, n + 1) == Bits(current, n) + [bit] && next < Pow2(n + 1)
  {
    assert Shl(current, 1) == 2 * Shl(current, 0) == 2 * current;
    var b := if bit then 1 else 0;
    assert Or(2 * current, b) == 2 * current + b;
  }
}
