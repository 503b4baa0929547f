/**
  The two bit readers, a byte at a time and a bit at a time, and the agreement of all four bit codecs.
 */
module BitReaders {
  import opened Bytes
  import opened BitFields
  import opened BitWriters

  // ----- reading a byte at a time -----

  lemma {:induction false} OrDisjoint(a: nat, n: nat, b: nat)
    requires b < Pow2(n)
    ensures Or(Shl(a, n), b) == Shl(a, n) + b
  {
    if n > 0 && Shl(a, n) != 0 && b != 0 {
      OrDisjoint(a, n - 1, b / 2);
      assert Shl(a, n) / 2 == Shl(a, n - 1);
    }
  }

  /** Bits of a byte cut out by a shift and a mask. */
  lemma CutOut(b: Byte, offset: nat, n: nat)
    requires offset + n <= 8
    ensures Low(Shr(b, 8 - n - offset), n) == Number(Bits(b, 8)[offset..offset + n])
  {
    var m := 8 - n - offset;
    BitsSplit(b, offset + n, m);
    BitsSplit(Shr(b, m), offset, n);
    NumberOfBits(Shr(b, m), n);
    assert Bits(b, 8)[offset..offset + n] == Bits(Shr(b, m), n);
  }

  /** A value shifted up to make room for more bits. */
  lemma Accumulate(value: nat, seen: seq<bool>, more: seq<bool>, width: nat)
    requires value == Number(seen) && |seen| + |more| <= width
    ensures Low(Or(Shl(value, |more|), Number(more)), width) == Number(seen + more)
  {
    NumberAppend(seen, more);
    OrDisjoint(value, |more|, Number(more));
    BitsOfNumber(seen + more);
    Pow2Monotone(|seen + more|, width);
    LowOfSmall(Number(seen + more), width);
  }

  /** How many of the wanted bits the current byte still has. */
  function FromThisByte(left: nat, offset: nat): (n: nat)
    requires 1 <= left && offset < 8
    ensures 1 <= n <= left && offset + n <= 8
  {
    Min(if left >= 8 then 8 else left % 8, 8 - offset)
  }

  lemma AccumulateNext(all: seq<bool>, done: nat, n: nat, width: nat)
    requires done + n <= |all| && done + n <= width
    ensures all[done..][n..] == all[done + n..]
    ensures Low(Or(Shl(Number(all[..done]), n), Number(all[done..][..n])), width) == Number(all[..done + n])
  {
    hide Number, Low, Or, Shl;
    Accumulate(Number(all[..done]), all[..done], all[done..][..n], width);
    assert all[..done] + all[done..][..n] == all[..done + n];
  }

  class BitReader {
    const buffer: seq<Byte>
    var position: nat
    var bitOffset: nat

    constructor (buffer: seq<Byte>)
      ensures Valid() && Rest() == BytesBits(buffer) && this.buffer == buffer && bitOffset == 0
    {
      this.buffer, position, bitOffset := buffer, 0, 0;
      new;
      assert BytesBits(buffer)[0..] == BytesBits(buffer);
    }

    ghost predicate Valid()
      reads this
    {
      position <= |buffer| && bitOffset < 8 && 8 * position + bitOffset <= 8 * |buffer|
    }

    /** What is still to be read. */
    ghost function Rest(): seq<bool>
      reads this
    {
      if Valid() then BytesBits(buffer)[8 * position + bitOffset..] else []
    }

    /** Whether a read is let through: the check counts whole bytes and not the bits already used. */
    predicate Admitted(bits: int, width: int)
      reads this
    {
      1 <= bits <= width && (bits + 7) / 8 <= |buffer| - position
    }

    /** Takes bits that are all in the current byte, moving to the next byte when this one is used up. */
    method TakeFromByte(n: nat) returns (piece: nat)
      requires Valid() && position < |buffer| && bitOffset + n <= 8
      modifies this`position, this`bitOffset
      ensures Valid() && n <= |old(Rest())| && Rest() == old(Rest())[n..] && piece == Number(old(Rest())[..n])
    {
      hide BytesBits, Bits, Number, Shr, Low;
      NextByte(buffer, position, bitOffset, n);
      CutOut(buffer[position], bitOffset, n);
      var maskOffset := 8 - n - bitOffset;
      piece := Low(Shr(buffer[position], maskOffset), n);
      bitOffset := bitOffset + n;
      if bitOffset == 8 {
        position := position + 1;
        bitOffset := 0;
      }
    }

    /** Reads the next bits into an integer `width` bits wide. */
    method ReadBits(bits: nat, width: nat) returns (ok: bool, value: nat)
      requires Valid() && (Admitted(bits, width) ==> bits <= |Rest()|)
      modifies this`position, this`bitOffset
      ensures Valid() && ok == old(Admitted(bits, width))
      ensures ok ==> value == Number(old(Rest())[..bits]) && Rest() == old(Rest())[bits..]
      ensures !ok ==> Rest() == old(Rest()) && value == 0
    {
      value := 0;
      if bits > width {
        return false, 0;
      }
      if bits == 0 {
        return false, 0;
      }
      if (bits + 7) / 8 > |buffer| - position {
        return false, 0;
      }
      value := ReadAdmitted(bits, width);
      ok := true;
    }

    /** The reading loop. */
    method ReadAdmitted(bits: nat, width: nat) returns (value: nat)
      requires Valid() && bits <= |Rest()| && bits <= width
      modifies this`position, this`bitOffset
      ensures Valid() && value == Number(old(Rest())[..bits]) && Rest() == old(Rest())[bits..]
    {
      hide BytesBits, Bits, Number, Or, Shl, Low, FromThisByte;
      value := 0;
      var left := bits;
      ghost var all := Rest();
      NumberNone();
      assert all[..0] == [] && all[0..] == all;
      while left > 0
        invariant Valid() && 0 <= left <= bits <= |all|
        invariant Rest() == all[bits - left..] && value == Number(all[..bits - left])
      {
        var n := FromThisByte(left, bitOffset);
        AccumulateNext(all, bits - left, n, width);
        var piece := TakeFromByte(n);
        value := Low(Or(Shl(value, n), piece), width);
        left := left - n;
      }
    }

    /** One bit. */
    method ReadBit() returns (ok: bool, bit: bool)
      requires Valid()
      modifies this`position, this`bitOffset
      ensures Valid() && ok == (old(Rest()) != [])
      ensures ok ==> old(Rest()) == [bit] + Rest()
      ensures !ok ==> Rest() == old(Rest())
    {
      if position == |buffer| {
        return false, false;
      }
      hide BytesBits, Bits, Number;
      OneBit(Rest()[..1]);
      assert Rest() == [Rest()[0]] + Rest()[1..];
      var piece := TakeFromByte(1);
      return true, piece == 1;
    }

    /**
      Reads whole bytes, most significant first. The bits already used of the current byte are
      read again, and the bit offset stays, which past the last byte is no place in the data.
     */
    method ReadBytes(n: nat) returns (ok: bool, value: nat)
      requires Valid()
      modifies this`position
      ensures Valid() <==> bitOffset == 0 || position < |buffer|
      ensures ok == (old(position) + n <= |buffer|)
      ensures ok ==> position == old(position) + n && value == ReadBE(buffer[old(position)..position])
      ensures !ok ==> position == old(position) && value == 0
    {
      if n > |buffer| - position {
        return false, 0;
      }
      value := ReadBE(buffer[position..position + n]);
      position := position + n;
      ok := true;
    }

    method SkipBytes(n: nat) returns (ok: bool)
      requires Valid()
      modifies this`position
      ensures Valid() <==> bitOffset == 0 || position < |buffer|
      ensures ok == (old(position) + n <= |buffer|)
      ensures position == old(position) + if ok then n else 0
    {
      if n > |buffer| - position {
        return false;
      }
      position := position + n;
      ok := true;
    }

    /** Reads one number for each width, as long as every read succeeds. */
    method ReadFields(widths: seq<nat>) returns (values: seq<nat>)
      requires Valid() && Total(widths) <= |Rest()|
      requires forall i :: 0 <= i < |widths| ==> 1 <= widths[i] <= 32
      modifies this`position, this`bitOffset
      ensures Valid() && values == Numbers(old(Rest()), widths) && Rest() == old(Rest())[Total(widths)..]
    {
      hide BytesBits, Bits, Number, Numbers, Total;
      values := [];
      ghost var start := Rest();
      assert widths[0..] == widths && start[0..] == start;
      assert [] + Numbers(start, widths) == Numbers(start, widths);
      for i := 0 to |widths|
        invariant Valid() && Total(widths[i..]) <= |Rest()|
        invariant values + Numbers(Rest(), widths[i..]) == Numbers(start, widths)
        invariant Rest()[Total(widths[i..])..] == start[Total(widths)..]
      {
        NumbersStep(Rest(), widths, i);
        InRangeIsAdmitted(widths[i]);
        ghost var rest := Numbers(Rest(), widths[i..]);
        var ok, value := ReadBits(widths[i], 32);
        AppendTwice(values, [value], Numbers(Rest(), widths[i + 1..]));
        values := values + [value];
      }
      NoNumbers(Rest(), widths[|widths|..]);
    }

    /** No read that stays within the data is refused. */
    lemma InRangeIsAdmitted(bits: nat)
      requires Valid() && 1 <= bits <= |Rest()|
      ensures forall width :: bits <= width ==> Admitted(bits, width)
    {
    }

    /**
      The check lets exactly the reads within the data through
      if and only if the reader is on a byte boundary or at the end.
     */
    lemma CheckIsExact()
      requires Valid()
      ensures (forall bits, width :: Admitted(bits, width) ==> bits <= |Rest()|) <==>
              bitOffset == 0 || position == |buffer|
    {
      if bitOffset != 0 && position < |buffer| {
        var bits := |Rest()| + 1;
        assert Admitted(bits, bits);
      }
    }
  }

  /** Reading the next number of a list. */
  lemma NumbersStep(rest: seq<bool>, widths: seq<nat>, i: nat)
    requires i < |widths| && Total(widths[i..]) <= |rest|
    ensures widths[i] + Total(widths[i + 1..]) == Total(widths[i..])
    ensures Numbers(rest, widths[i..]) ==
            [Number(rest[..widths[i]])] + Numbers(rest[widths[i]..], widths[i + 1..])
    ensures rest[Total(widths[i..])..] == rest[widths[i]..][Total(widths[i + 1..])..]
  {
    assert widths[i..][0] == widths[i] && widths[i..][1..] == widths[i + 1..];
  }

  lemma NoNumbers(rest: seq<bool>, widths: seq<nat>)
    requires widths == []
    ensures Total(widths) == 0 && Numbers(rest, widths) == []
  {
  }

  lemma NumberNone()
    ensures Number([]) == 0
  {
  }

  lemma OneBit(s: seq<bool>)
    requires |s| == 1
    ensures Number(s) == if s[0] then 1 else 0
  {
    assert s[..0] == [];
  }

  /** Bits that are all in one byte. */
  lemma NextByte(buffer: seq<Byte>, position: nat, offset: nat, n: nat)
    requires position < |buffer| && offset + n <= 8
    ensures BytesBits(buffer)[8 * position + offset..][..n] == Bits(buffer[position], 8)[offset..offset + n]
  {
    hide BytesBits, Bits;
    BytesBitsSplit(buffer, position);
    BytesBitsLength(buffer[..position]);
    var before, after := BytesBits(buffer[..position]), BytesBits(buffer[position + 1..]);
    var byte := Bits(buffer[position], 8);
    Window(before, byte, after, offset, n);
  }

  lemma Window<T>(a: seq<T>, b: seq<T>, c: seq<T>, k: nat, n: nat)
    requires k + n <= |b|
    ensures (a + b + c)[|a| + k..][..n] == b[k..k + n]
  {
  }

  // ----- reading a bit at a time -----

  /** The bit stream in its memory reading mode. */
  class BitSource {
    const original: seq<Byte>
    var position: nat
    var current: nat
    var nbBits: nat
    ghost var last: Byte

    constructor (original: seq<Byte>)
      ensures Valid() && Rest() == BytesBits(original)
    {
      this.original, position, current, nbBits, last := original, 0, 0, 8, 0;
      new;
      assert original[0..] == original;
      hide Bits;
      assert Shl(0, 8) == 0 by { ShlZero(8); }
      assert Bits(0, 8)[8..] == [];
    }

    ghost predicate Valid()
      reads this
    {
      position <= |original| && nbBits <= 8 && current == Shl(last, nbBits)
    }

    /** What is left of the current byte, then the other bytes. */
    ghost function Rest(): seq<bool>
      reads this
    {
      if position <= |original| && nbBits <= 8 then Bits(last, 8)[nbBits..] + BytesBits(original[position..]) else []
    }

    /** The next byte, or zero at the end. */
    method ReadByte() returns (b: Byte)
      requires position <= |original|
      modifies this`position
      ensures old(position) == |original| ==> b == 0 && position == old(position)
      ensures old(position) < |original| ==> b == original[old(position)] && position == old(position) + 1
    {
      if position >= |original| {
        return 0;
      }
      position := position + 1;
      return original[position - 1];
    }

    /** The next bit; a false one at the end of the data. */
    method ReadBit() returns (bit: bool)
      requires Valid()
      modifies this
      ensures Valid()
      ensures old(Rest()) != [] ==> old(Rest()) == [bit] + Rest()
      ensures old(Rest()) == [] ==> !bit && Rest() == Zeros(7)
    {
      hide Bits, BytesBits, Shl;
      ghost var rest := Rest();
      if nbBits == 8 {
        assert Bits(last, 8)[8..] == [];
        assert rest == BytesBits(original[position..]);
        FirstByte(original, position);
        current := ReadByte();
        nbBits := 0;
        last := current;
        ShlNone(last);
        assert Bits(last, 8)[0..] == Bits(last, 8);
        BitsZero(8);
        assert rest != [] ==> Rest() == rest;
      }
      ShlMore(last, nbBits);
      BitOf(last, nbBits);
      ghost var bits := Bits(last, 8);
      assert bits[nbBits..] == [bits[nbBits]] + bits[nbBits + 1..];
      current := Shl(current, 1);
      nbBits := nbBits + 1;
      bit := Low(Shr(current, 8), 1) == 1;
      assert rest == [] ==> original[position..] == [] && BytesBits(original[position..]) == [];
    }

    /** The next bits as a 32-bit integer. */
    method ReadInt(count: nat) returns (value: nat)
      requires Valid() && count <= 32
      modifies this
      ensures Valid()
      ensures count <= |old(Rest())| ==>
        value == Number(old(Rest())[..count]) && Rest() == old(Rest())[count..]
    {
      hide Bits, BytesBits, Shl, Number, Or;
      value := 0;
      NumberNone();
      var left := count;
      ghost var all, seen := Rest(), [];
      while left > 0
        invariant Valid() && 0 <= left <= count
        invariant count <= |all| ==> |seen| + left == count && all == seen + Rest() && value == Number(seen)
      {
        ghost var was, before := value, Rest();
        value := Low(Shl(value, 1), 32);
        var bit := ReadBit();
        value := Or(value, if bit then 1 else 0);
        if count <= |all| {
          NextBit(was, seen, bit);
          AppendTwice(seen, [bit], Rest());
          seen := seen + [bit];
        }
        left := left - 1;
      }
      assert count <= |all| ==> all[..count] == seen && all[count..] == Rest();
    }

    method ReadInts(widths: seq<nat>) returns (values: seq<nat>)
      requires Valid() && Total(widths) <= |Rest()|
      requires forall i :: 0 <= i < |widths| ==> 1 <= widths[i] <= 32
      modifies this
      ensures Valid() && values == Numbers(old(Rest()), widths)
    {
      hide BytesBits, Bits, Number, Numbers, Total;
      values := [];
      ghost var start := Rest();
      assert widths[0..] == widths && [] + Numbers(start, widths) == Numbers(start, widths);
      for i := 0 to |widths|
        invariant Valid() && Total(widths[i..]) <= |Rest()|
        invariant values + Numbers(Rest(), widths[i..]) == Numbers(start, widths)
      {
        NumbersStep(Rest(), widths, i);
        ghost var rest := Rest();
        var value := ReadInt(widths[i]);
        assert Rest() == rest[widths[i]..];
        AppendTwice(values, [value], Numbers(Rest(), widths[i + 1..]));
        values := values + [value];
      }
      NoNumbers(Rest(), widths[|widths|..]);
    }
  }

  lemma ShlZero(n: nat)
    ensures Shl(0, n) == 0
  {
  }

  lemma ShlNone(v: nat)
    ensures Shl(v, 0) == v
  {
  }

  lemma ShlMore(v: nat, n: nat)
    ensures Shl(Shl(v, n), 1) == Shl(v, n + 1)
  {
    assert Shl(Shl(v, n), 1) == 2 * Shl(Shl(v, n), 0);
  }

  lemma FirstByte(s: seq<Byte>, i: nat)
    requires i <= |s|
    ensures i < |s| ==> BytesBits(s[i..]) == Bits(s[i], 8) + BytesBits(s[i + 1..])
    ensures i == |s| ==> BytesBits(s[i..]) == []
  {
    if i < |s| {
      assert s[i..][1..] == s[i + 1..];
    }
  }

  lemma {:induction false} ShrShl(v: nat, n: nat)
    ensures Shr(Shl(v, n), n) == v
  {
    if n > 0 {
      ShrShl(v, n - 1);
      assert Shl(v, n) / 2 == Shl(v, n - 1);
    }
  }

  /** Bit `n` of a byte reaches bit 8 after `n + 1` shifts. */
  lemma BitOf(b: Byte, n: nat)
    requires n < 8
    ensures (Low(Shr(Shl(b, n + 1), 8), 1) == 1) == Bits(b, 8)[n]
  {
    var v := Shl(b, n + 1);
    BitsShl(b, 8, n + 1);
    BitsSplit(v, n + 1, 8);
    BitsSplit(Shr(v, 8), n, 1);
    NumberOfBits(Shr(v, 8), 1);
    OneBit(Bits(Shr(v, 8), 1));
    var all := Bits(v, n + 9);
    assert all[n] == Bits(b, 8)[n];
    assert all[n] == Bits(Shr(v, 8), n + 1)[n] == Bits(Shr(v, 8), 1)[0];
  }

  lemma NextBit(value: nat, seen: seq<bool>, bit: bool)
    requires value == Number(seen) && |seen| < 32
    ensures Or(Low(Shl(value, 1), 32), if bit then 1 else 0) == Number(seen + [bit])
  {
    var more := [bit];
    OneBit(more);
    NumberAppend(seen, [false]);
    OneBit([false]);
    BitsOfNumber(seen + [false]);
    Pow2Monotone(|seen + [false]|, 32);
    LowOfSmall(Number(seen + [false]), 32);
    NumberAppend(seen, more);
    assert Pow2(1) == 2 * Pow2(0) == 2;
    OrDisjoint(value, 1, if bit then 1 else 0);
  }

  // ----- agreement -----

  /** Both writers write the same bytes. */
  method WriteBoth(fields: seq<Field>) returns (bytes: seq<Byte>, same: seq<Byte>)
    requires Fit(fields) && Total(Widths(fields)) <= 8 * 0xFFFF_FFFE
    ensures bytes == same == Pack(FieldBits(fields))
  {
    hide Bits, BytesBits, FieldBits, Pack;
    var size := 0;
    for i := 0 to |fields|
      invariant size == Total(Widths(fields[..i]))
    {
      TotalOneMore(fields, i);
      size := size + fields[i].width;
    }
    assert fields[..|fields|] == fields;
    assert [] + FieldBits(fields) == FieldBits(fields);
    FieldBitsLength(fields);
    FitIsWritable(fields);
    var writer := new BitWriter((size + 7) / 8);
    writer.WriteFields(fields);
    bytes := writer.GetData();
    var sink := new BitSink(0, true);
    sink.WriteInts(fields);
    same := sink.GetContent();
  }

  /** Both readers find the values in what was written. */
  method ReadBoth(fields: seq<Field>, bytes: seq<Byte>) returns (first: seq<nat>, second: seq<nat>)
    requires Fit(fields) && bytes == Pack(FieldBits(fields))
    ensures first == second == Values(fields)
  {
    hide Bits, BytesBits, FieldBits, Pack, Numbers;
    UnpackPack(FieldBits(fields));
    ReadBack(fields, Zeros(8 * |bytes| - |FieldBits(fields)|));
    KeptIfFit(fields);
    assert forall i :: 0 <= i < |fields| ==> FieldFits(fields[i]);
    var reader := new BitReader(bytes);
    first := reader.ReadFields(Widths(fields));
    var source := new BitSource(bytes);
    second := source.ReadInts(Widths(fields));
  }

  lemma TotalOneMore(fields: seq<Field>, i: nat)
    requires i < |fields|
    ensures Total(Widths(fields[..i + 1])) == Total(Widths(fields[..i])) + fields[i].width
  {
    FieldBitsLength(fields[..i]);
    FieldBitsLength(fields[..i + 1]);
    assert fields[..i + 1] == fields[..i] + [fields[i]];
    FieldBitsAppend(fields[..i], [fields[i]]);
    FieldBitsOne(fields[i]);
  }
}
