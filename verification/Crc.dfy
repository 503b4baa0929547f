/**
  The CRC-32 of the section tables: the table-driven form is the bit-serial division, and a section
  followed by its CRC leaves no remainder.
 */
module Crc {
  import opened Bytes

  const POLYNOMIAL: bv32 := 0x04C1_1DB7

  /** The table, sixteen entries to a row. */
  const ROWS: seq<seq<bv32>> := [
    [0x00000000, 0x04c11db7, 0x09823b6e, 0x0d4326d9, 0x130476dc, 0x17c56b6b, 0x1a864db2, 0x1e475005,
     0x2608edb8, 0x22c9f00f, 0x2f8ad6d6, 0x2b4bcb61, 0x350c9b64, 0x31cd86d3, 0x3c8ea00a, 0x384fbdbd],
    [0x4c11db70, 0x48d0c6c7, 0x4593e01e, 0x4152fda9, 0x5f15adac, 0x5bd4b01b, 0x569796c2, 0x52568b75,
     0x6a1936c8, 0x6ed82b7f, 0x639b0da6, 0x675a1011, 0x791d4014, 0x7ddc5da3, 0x709f7b7a, 0x745e66cd],
    [0x9823b6e0, 0x9ce2ab57, 0x91a18d8e, 0x95609039, 0x8b27c03c, 0x8fe6dd8b, 0x82a5fb52, 0x8664e6e5,
     0xbe2b5b58, 0xbaea46ef, 0xb7a96036, 0xb3687d81, 0xad2f2d84, 0xa9ee3033, 0xa4ad16ea, 0xa06c0b5d],
    [0xd4326d90, 0xd0f37027, 0xddb056fe, 0xd9714b49, 0xc7361b4c, 0xc3f706fb, 0xceb42022, 0xca753d95,
     0xf23a8028, 0xf6fb9d9f, 0xfbb8bb46, 0xff79a6f1, 0xe13ef6f4, 0xe5ffeb43, 0xe8bccd9a, 0xec7dd02d],
    [0x34867077, 0x30476dc0, 0x3d044b19, 0x39c556ae, 0x278206ab, 0x23431b1c, 0x2e003dc5, 0x2ac12072,
     0x128e9dcf, 0x164f8078, 0x1b0ca6a1, 0x1fcdbb16, 0x018aeb13, 0x054bf6a4, 0x0808d07d, 0x0cc9cdca],
    [0x7897ab07, 0x7c56b6b0, 0x71159069, 0x75d48dde, 0x6b93dddb, 0x6f52c06c, 0x6211e6b5, 0x66d0fb02,
     0x5e9f46bf, 0x5a5e5b08, 0x571d7dd1, 0x53dc6066, 0x4d9b3063, 0x495a2dd4, 0x44190b0d, 0x40d816ba],
    [0xaca5c697, 0xa864db20, 0xa527fdf9, 0xa1e6e04e, 0xbfa1b04b, 0xbb60adfc, 0xb6238b25, 0xb2e29692,
     0x8aad2b2f, 0x8e6c3698, 0x832f1041, 0x87ee0df6, 0x99a95df3, 0x9d684044, 0x902b669d, 0x94ea7b2a],
    [0xe0b41de7, 0xe4750050, 0xe9362689, 0xedf73b3e, 0xf3b06b3b, 0xf771768c, 0xfa325055, 0xfef34de2,
     0xc6bcf05f, 0xc27dede8, 0xcf3ecb31, 0xcbffd686, 0xd5b88683, 0xd1799b34, 0xdc3abded, 0xd8fba05a],
    [0x690ce0ee, 0x6dcdfd59, 0x608edb80, 0x644fc637, 0x7a089632, 0x7ec98b85, 0x738aad5c, 0x774bb0eb,
     0x4f040d56, 0x4bc510e1, 0x46863638, 0x42472b8f, 0x5c007b8a, 0x58c1663d, 0x558240e4, 0x51435d53],
    [0x251d3b9e, 0x21dc2629, 0x2c9f00f0, 0x285e1d47, 0x36194d42, 0x32d850f5, 0x3f9b762c, 0x3b5a6b9b,
     0x0315d626, 0x07d4cb91, 0x0a97ed48, 0x0e56f0ff, 0x1011a0fa, 0x14d0bd4d, 0x19939b94, 0x1d528623],
    [0xf12f560e, 0xf5ee4bb9, 0xf8ad6d60, 0xfc6c70d7, 0xe22b20d2, 0xe6ea3d65, 0xeba91bbc, 0xef68060b,
     0xd727bbb6, 0xd3e6a601, 0xdea580d8, 0xda649d6f, 0xc423cd6a, 0xc0e2d0dd, 0xcda1f604, 0xc960ebb3],
    [0xbd3e8d7e, 0xb9ff90c9, 0xb4bcb610, 0xb07daba7, 0xae3afba2, 0xaafbe615, 0xa7b8c0cc, 0xa379dd7b,
     0x9b3660c6, 0x9ff77d71, 0x92b45ba8, 0x9675461f, 0x8832161a, 0x8cf30bad, 0x81b02d74, 0x857130c3],
    [0x5d8a9099, 0x594b8d2e, 0x5408abf7, 0x50c9b640, 0x4e8ee645, 0x4a4ffbf2, 0x470cdd2b, 0x43cdc09c,
     0x7b827d21, 0x7f436096, 0x7200464f, 0x76c15bf8, 0x68860bfd, 0x6c47164a, 0x61043093, 0x65c52d24],
    [0x119b4be9, 0x155a565e, 0x18197087, 0x1cd86d30, 0x029f3d35, 0x065e2082, 0x0b1d065b, 0x0fdc1bec,
     0x3793a651, 0x3352bbe6, 0x3e119d3f, 0x3ad08088, 0x2497d08d, 0x2056cd3a, 0x2d15ebe3, 0x29d4f654],
    [0xc5a92679, 0xc1683bce, 0xcc2b1d17, 0xc8ea00a0, 0xd6ad50a5, 0xd26c4d12, 0xdf2f6bcb, 0xdbee767c,
     0xe3a1cbc1, 0xe760d676, 0xea23f0af, 0xeee2ed18, 0xf0a5bd1d, 0xf464a0aa, 0xf9278673, 0xfde69bc4],
    [0x89b8fd09, 0x8d79e0be, 0x803ac667, 0x84fbdbd0, 0x9abc8bd5, 0x9e7d9662, 0x933eb0bb, 0x97ffad0c,
     0xafb010b1, 0xab710d06, 0xa6322bdf, 0xa2f33668, 0xbcb4666d, 0xb8757bda, 0xb5365d03, 0xb1f740b4]
  ]

  // ----- division, a bit at a time -----

  function Xor(a: bv32, b: bv32): bv32 {
    a ^ b
  }

  function Double(r: bv32): bv32 {
    r << 1
  }

  predicate Carry(r: bv32) {
    r & 0x8000_0000 != 0
  }

  /** The register after one zero bit. */
  function Shift(r: bv32): bv32 {
    Xor(Double(r), if Carry(r) then POLYNOMIAL else 0)
  }

  function ShiftIn(r: bv32, bit: bool): bv32 {
    Shift(Xor(r, if bit then 0x8000_0000 else 0))
  }

  predicate FirstBit(y: bv8) {
    y & 0x80 != 0
  }

  function OtherBits(y: bv8): bv8 {
    y << 1
  }

  /** The top `n` bits of `y`, entered one after the other. */
  function ShiftBits(r: bv32, y: bv8, n: nat): bv32
    decreases n
  {
    if n == 0 then r else ShiftBits(ShiftIn(r, FirstBit(y)), OtherBits(y), n - 1)
  }

  /** The register after a message, most significant bits first. */
  function Divide(r: bv32, data: seq<Byte>): bv32
    decreases data
  {
    if data == [] then r else Divide(ShiftBits(r, data[0] as bv8, 8), data[1..])
  }

  // ----- the table -----

  function Shift8(r: bv32): bv32 {
    Shift(Shift(Shift(Shift(Shift(Shift(Shift(Shift(r))))))))
  }

  function Entry(x: bv8): bv32 {
    ROWS[x >> 4][x & 0x0F]
  }

  function AtTop(y: bv8): bv32 {
    (y as bv32) << 24
  }

  lemma Rows0And1(j: bv8)
    requires j < 16
    ensures ROWS[0][j] == Shift8(AtTop(0 + j))
    ensures ROWS[1][j] == Shift8(AtTop(16 + j))
  {
  }

  lemma Rows2And3(j: bv8)
    requires j < 16
    ensures ROWS[2][j] == Shift8(AtTop(32 + j))
    ensures ROWS[3][j] == Shift8(AtTop(48 + j))
  {
  }

  lemma Rows4And5(j: bv8)
    requires j < 16
    ensures ROWS[4][j] == Shift8(AtTop(64 + j))
    ensures ROWS[5][j] == Shift8(AtTop(80 + j))
  {
  }

  lemma Rows6And7(j: bv8)
    requires j < 16
    ensures ROWS[6][j] == Shift8(AtTop(96 + j))
    ensures ROWS[7][j] == Shift8(AtTop(112 + j))
  {
  }

  lemma Rows8And9(j: bv8)
    requires j < 16
    ensures ROWS[8][j] == Shift8(AtTop(128 + j))
    ensures ROWS[9][j] == Shift8(AtTop(144 + j))
  {
  }

  lemma Rows10And11(j: bv8)
    requires j < 16
    ensures ROWS[10][j] == Shift8(AtTop(160 + j))
    ensures ROWS[11][j] == Shift8(AtTop(176 + j))
  {
  }

  lemma Rows12And13(j: bv8)
    requires j < 16
    ensures ROWS[12][j] == Shift8(AtTop(192 + j))
    ensures ROWS[13][j] == Shift8(AtTop(208 + j))
  {
  }

  lemma Rows14And15(j: bv8)
    requires j < 16
    ensures ROWS[14][j] == Shift8(AtTop(224 + j))
    ensures ROWS[15][j] == Shift8(AtTop(240 + j))
  {
  }

  /** Each entry is its index, entered at the top of the register and shifted through. */
  lemma EntryIsDivision(x: bv8)
    ensures Entry(x) == Shift8(AtTop(x))
  {
    hide Shift8;
    var k, j := x >> 4, x & 0x0F;
    assert x == 16 * k + j && k < 16 && j < 16;
    Rows0And1(j);
    Rows2And3(j);
    Rows4And5(j);
    Rows6And7(j);
    Rows8And9(j);
    Rows10And11(j);
    Rows12And13(j);
    Rows14And15(j);
  }

  lemma XorCommutes(a: bv32, b: bv32)
    ensures Xor(a, b) == Xor(b, a)
  {
  }

  lemma XorAssociates(a: bv32, b: bv32, c: bv32)
    ensures Xor(Xor(a, b), c) == Xor(a, Xor(b, c))
  {
  }

  lemma XorCancels(a: bv32)
    ensures Xor(a, a) == 0 && Xor(a, 0) == a && Xor(0, a) == a
  {
  }

  lemma DoubleLinear(a: bv32, b: bv32)
    ensures Double(Xor(a, b)) == Xor(Double(a), Double(b))
  {
  }

  lemma CarryLinear(a: bv32, b: bv32)
    ensures Carry(Xor(a, b)) == (Carry(a) != Carry(b))
  {
  }

  lemma XorFour(a: bv32, p: bv32, b: bv32, q: bv32)
    ensures Xor(Xor(a, p), Xor(b, q)) == Xor(Xor(a, b), Xor(p, q))
  {
    hide Xor;
    XorAssociates(a, p, Xor(b, q));
    XorAssociates(p, b, q);
    XorCommutes(p, b);
    XorAssociates(b, p, q);
    XorAssociates(a, b, Xor(p, q));
  }

  lemma ShiftLinear(a: bv32, b: bv32)
    ensures Shift(Xor(a, b)) == Xor(Shift(a), Shift(b))
  {
    hide Xor, Double, Carry;
    DoubleLinear(a, b);
    CarryLinear(a, b);
    var p: bv32, q: bv32 := if Carry(a) then POLYNOMIAL else 0, if Carry(b) then POLYNOMIAL else 0;
    XorFour(Double(a), p, Double(b), q);
    XorCancels(POLYNOMIAL);
    XorCancels(0);
  }

  lemma Shift8Linear(a: bv32, b: bv32)
    ensures Shift8(Xor(a, b)) == Xor(Shift8(a), Shift8(b))
  {
    hide Xor, Shift;
    var a1, b1 := Shift(a), Shift(b);
    var a2, b2 := Shift(a1), Shift(b1);
    var a3, b3 := Shift(a2), Shift(b2);
    var a4, b4 := Shift(a3), Shift(b3);
    var a5, b5 := Shift(a4), Shift(b4);
    var a6, b6 := Shift(a5), Shift(b5);
    ShiftLinear(a, b);
    ShiftLinear(a1, b1);
    ShiftLinear(a2, b2);
    ShiftLinear(a3, b3);
    ShiftLinear(a4, b4);
    ShiftLinear(a5, b5);
    ShiftLinear(a6, b6);
    ShiftLinear(Shift(a6), Shift(b6));
  }

  function ShiftByte(r: bv32): bv32 {
    r << 8
  }

  function LowPart(r: bv32): bv32 {
    r & 0x00FF_FFFF
  }

  lemma LowIsShifted(r: bv32)
    ensures Shift8(LowPart(r)) == ShiftByte(r)
  {
  }

  /** The top byte of the register, with another byte entered. */
  function Index(r: bv32, y: bv8): bv8 {
    (((r >> 24) ^ (y as bv32)) & 0xFF) as bv8
  }

  /** One table look-up. */
  function Step(r: bv32, b: Byte): bv32 {
    Xor(ShiftByte(r), Entry(Index(r, b as bv8)))
  }

  lemma Merged(r: bv32, y: bv8)
    ensures Xor(r, AtTop(y)) == Xor(AtTop(Index(r, y)), LowPart(Xor(r, AtTop(y))))
    ensures ShiftByte(Xor(r, AtTop(y))) == ShiftByte(r)
  {
    hide Xor, AtTop, Index, LowPart, ShiftByte;
    TopOfMerged(r, y);
    TopAndLow(Xor(r, AtTop(y)));
    ShiftedMerged(r, y);
  }

  lemma TopAndLow(v: bv32)
    ensures v == Xor(AtTop(Index(v, 0)), LowPart(v))
  {
  }

  lemma TopOfMerged(r: bv32, y: bv8)
    ensures Index(Xor(r, AtTop(y)), 0) == Index(r, y)
  {
  }

  lemma ShiftedMerged(r: bv32, y: bv8)
    ensures ShiftByte(Xor(r, AtTop(y))) == ShiftByte(r)
  {
  }

  /** A look-up is a byte entered at the top and shifted through. */
  lemma StepIsShift8(r: bv32, b: Byte)
    ensures Step(r, b) == Shift8(Xor(r, AtTop(b as bv8)))
  {
    hide Shift8, Entry, Xor, AtTop, Index, LowPart, ShiftByte;
    var y := b as bv8;
    var v, top := Xor(r, AtTop(y)), Index(r, y);
    Merged(r, y);
    EntryIsDivision(top);
    LowIsShifted(v);
    Shift8Linear(AtTop(top), LowPart(v));
    XorCommutes(ShiftByte(r), Entry(top));
  }

  function ShiftN(r: bv32, n: nat): bv32
    decreases n
  {
    if n == 0 then r else ShiftN(Shift(r), n - 1)
  }

  /** Nothing is left of `y` after `n` shifts. */
  predicate Within(y: bv8, n: nat)
    decreases n
  {
    if n == 0 then y == 0 else Within(OtherBits(y), n - 1)
  }

  lemma TopBitShifted(y: bv8)
    ensures Shift(AtTop(y)) == Xor(Shift(if FirstBit(y) then 0x8000_0000 else 0), AtTop(OtherBits(y)))
  {
  }

  lemma EnterOne(r: bv32, y: bv8)
    ensures Shift(Xor(r, AtTop(y))) == Xor(ShiftIn(r, FirstBit(y)), AtTop(OtherBits(y)))
  {
    hide Xor, Shift, AtTop, FirstBit, OtherBits;
    var top: bv32 := if FirstBit(y) then 0x8000_0000 else 0;
    TopBitShifted(y);
    ShiftLinear(r, AtTop(y));
    ShiftLinear(r, top);
    XorAssociates(Shift(r), Shift(top), AtTop(OtherBits(y)));
  }

  /** Entering bits one by one is entering them together. */
  lemma {:induction false} EnterAll(r: bv32, y: bv8, n: nat)
    requires Within(y, n)
    ensures ShiftBits(r, y, n) == ShiftN(Xor(r, AtTop(y)), n)
    decreases n
  {
    hide Shift, ShiftIn, Xor, AtTop, FirstBit, OtherBits;
    if n > 0 {
      EnterOne(r, y);
      EnterAll(ShiftIn(r, FirstBit(y)), OtherBits(y), n - 1);
    } else {
      NothingEntered(r, y);
    }
  }

  lemma NothingEntered(r: bv32, y: bv8)
    requires y == 0
    ensures Xor(r, AtTop(y)) == r
  {
  }

  lemma Shift8IsShiftN(r: bv32)
    ensures Shift8(r) == ShiftN(r, 8)
  {
    hide Shift;
    var r3 := Shift(Shift(Shift(r)));
    assert ShiftN(r, 8) == ShiftN(r3, 5) by { assert ShiftN(Shift(Shift(r)), 6) == ShiftN(r3, 5); }
    var r6 := Shift(Shift(Shift(r3)));
    assert ShiftN(r3, 5) == ShiftN(r6, 2) by { assert ShiftN(Shift(Shift(r3)), 3) == ShiftN(r6, 2); }
    assert ShiftN(r6, 2) == ShiftN(Shift(r6), 1);
  }

  lemma WithinByte(y: bv8)
    ensures Within(y, 8)
  {
    var z := OtherBits(OtherBits(OtherBits(OtherBits(y))));
    assert Within(z, 4) by { assert Within(OtherBits(OtherBits(z)), 2); }
    assert Within(OtherBits(OtherBits(y)), 6);
  }

  /** A look-up is the division of eight bits. */
  lemma StepIsDivision(r: bv32, b: Byte)
    ensures Step(r, b) == ShiftBits(r, b as bv8, 8)
  {
    hide Shift8, ShiftN, Step, ShiftBits, Within, Xor, AtTop;
    var y := b as bv8;
    StepIsShift8(r, b);
    Shift8IsShiftN(Xor(r, AtTop(y)));
    WithinByte(y);
    EnterAll(r, y, 8);
  }

  lemma {:induction false} DivideSnoc(r: bv32, data: seq<Byte>, b: Byte)
    ensures Divide(r, data + [b]) == ShiftBits(Divide(r, data), b as bv8, 8)
    decreases data
  {
    hide ShiftBits;
    if data == [] {
      assert (data + [b])[1..] == [];
    } else {
      DivideSnoc(ShiftBits(r, data[0] as bv8, 8), data[1..], b);
      assert (data + [b])[1..] == data[1..] + [b];
    }
  }

  const INITIAL: bv32 := 0xFFFF_FFFF

  /** The table-driven loop computes the bit-serial remainder. */
  method ComputeCRC(data: seq<Byte>) returns (crc: bv32)
    ensures crc == Divide(INITIAL, data)
  {
    hide Divide, Step, ShiftBits;
    crc := INITIAL;
    NothingDivided(data[..0]);
    for i := 0 to |data|
      invariant crc == Divide(INITIAL, data[..i])
    {
      StepIsDivision(crc, data[i]);
      DivideSnoc(INITIAL, data[..i], data[i]);
      assert data[..i + 1] == data[..i] + [data[i]];
      crc := Step(crc, data[i]);
    }
    assert data[..|data|] == data;
  }

  lemma NothingDivided(data: seq<Byte>)
    requires data == []
    ensures Divide(INITIAL, data) == INITIAL
  {
  }

  // ----- the residue -----

  /** The top byte of the register. */
  function TopByte(r: bv32): Byte {
    Index(r, 0) as int
  }

  /** A remainder as four bytes, most significant first. */
  function CrcBytes(crc: bv32): (s: seq<Byte>)
    ensures |s| == 4
  {
    [TopByte(crc), TopByte(ShiftByte(crc)), TopByte(ShiftByte(ShiftByte(crc))),
     TopByte(ShiftByte(ShiftByte(ShiftByte(crc))))]
  }

  lemma TopCancels(r: bv32)
    ensures Index(r, TopByte(r) as bv8) == 0
  {
    hide Index;
    assert TopByte(r) as bv8 == Index(r, 0);
    IndexCancels(r);
  }

  lemma IndexCancels(r: bv32)
    ensures Index(r, Index(r, 0)) == 0
  {
  }

  /** The top byte of the register cancels itself. */
  lemma StepCancels(r: bv32)
    ensures Step(r, TopByte(r)) == ShiftByte(r)
  {
    hide Entry, Xor, Index, TopByte, ShiftByte;
    TopCancels(r);
    FirstEntry();
    XorCancels(ShiftByte(r));
  }

  lemma FirstEntry()
    ensures Entry(0) == 0
  {
  }

  lemma ShiftedOut(crc: bv32)
    ensures ShiftByte(ShiftByte(ShiftByte(ShiftByte(crc)))) == 0
  {
  }

  /** A message followed by its own remainder leaves none. */
  lemma ResidueZero(data: seq<Byte>)
    ensures Divide(INITIAL, data + CrcBytes(Divide(INITIAL, data))) == 0
  {
    hide Divide, Step, ShiftBits, TopByte, ShiftByte;
    var crc := Divide(INITIAL, data);
    var b := CrcBytes(crc);
    ShiftedOut(crc);
    DivideTop(INITIAL, data);
    DivideTop(INITIAL, data + [b[0]]);
    DivideTop(INITIAL, data + [b[0]] + [b[1]]);
    DivideTop(INITIAL, data + [b[0]] + [b[1]] + [b[2]]);
    assert data + [b[0]] + [b[1]] + [b[2]] + [b[3]] == data + b;
  }

  lemma DivideTop(r: bv32, data: seq<Byte>)
    ensures Divide(r, data + [TopByte(Divide(r, data))]) == ShiftByte(Divide(r, data))
  {
    hide Divide, Step, ShiftBits, TopByte, ShiftByte;
    var crc := Divide(r, data);
    StepCancels(crc);
    StepIsDivision(crc, TopByte(crc));
    DivideSnoc(r, data, TopByte(crc));
  }

  // ----- the check value -----

  lemma Entered(r: bv32, data: seq<Byte>, i: nat)
    requires i < |data|
    ensures Divide(r, data[i..]) == Divide(Step(r, data[i]), data[i + 1..])
  {
    hide Step, ShiftBits;
    StepIsDivision(r, data[i]);
    assert data[i..][1..] == data[i + 1..];
  }

  lemma CheckSteps()
    ensures Step(0xFFFF_FFFF, 0x31) == 0x9EFB_CF93
    ensures Step(0x9EFB_CF93, 0x32) == 0x3FEC_5E6A
    ensures Step(0x3FEC_5E6A, 0x33) == 0xD952_F164
    ensures Step(0xD952_F164, 0x34) == 0xA695_C4AA
    ensures Step(0xA695_C4AA, 0x35) == 0xBD9A_B747
    ensures Step(0xBD9A_B747, 0x36) == 0xD8F0_6C8F
    ensures Step(0xD8F0_6C8F, 0x37) == 0x0D8A_14C4
    ensures Step(0x0D8A_14C4, 0x38) == 0x49E3_C2FB
    ensures Step(0x49E3_C2FB, 0x39) == 0x0376_E6E7
  {
  }

  /** The remainder of the digits 1 to 9, the check value published for this CRC. */
  lemma CheckValue()
    ensures Divide(0xFFFF_FFFF, [0x31, 0x32, 0x33, 0x34, 0x35, 0x36, 0x37, 0x38, 0x39]) == 0x0376_E6E7
  {
    hide Step, Divide;
    var all: seq<Byte> := [0x31, 0x32, 0x33, 0x34, 0x35, 0x36, 0x37, 0x38, 0x39];
    CheckSteps();
    assert all[0..] == all;
    Entered(0xFFFF_FFFF, all, 0);
    Entered(0x9EFB_CF93, all, 1);
    Entered(0x3FEC_5E6A, all, 2);
    Entered(0xD952_F164, all, 3);
    Entered(0xA695_C4AA, all, 4);
    Entered(0xBD9A_B747, all, 5);
    Entered(0xD8F0_6C8F, all, 6);
    Entered(0x0D8A_14C4, all, 7);
    Entered(0x49E3_C2FB, all, 8);
    NothingLeft(0x0376_E6E7, all[9..]);
  }

  lemma NothingLeft(r: bv32, data: seq<Byte>)
    requires data == []
    ensures Divide(r, data) == r
  {
  }
}
