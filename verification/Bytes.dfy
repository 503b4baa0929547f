/** Bytes and the fixed-width integer encodings the codecs share. */
module Bytes {

  type Byte = x: int | 0 <= x < 256

  type Positive = x: int | 1 <= x witness 1

  datatype Option<+T> = None | Some(value: T)

  function Pow256(n: nat): (p: nat)
    ensures 1 <= p
  {
    if n == 0 then 1 else 256 * Pow256(n - 1)
  }

  /** The number whose big-endian digits are `s`. */
  function ReadBE(s: seq<Byte>): nat {
    if s == [] then 0 else 256 * ReadBE(s[..|s| - 1]) + s[|s| - 1]
  }

  /** The low `n` bytes of `v`, most significant first. */
  function WriteBE(v: nat, n: nat): (s: seq<Byte>)
    ensures |s| == n
  {
    if n == 0 then [] else WriteBE(v / 256, n - 1) + [v % 256]
  }

  /** The number whose little-endian digits are `s`. */
  function ReadLE(s: seq<Byte>): nat {
    if s == [] then 0 else s[0] + 256 * ReadLE(s[1..])
  }

  /** The low `n` bytes of `v`, least significant first. */
  function WriteLE(v: nat, n: nat): (s: seq<Byte>)
    ensures |s| == n
  {
    if n == 0 then [] else [v % 256] + WriteLE(v / 256, n - 1)
  }

  lemma {:induction false} ReadWriteBE(v: nat, n: nat)
    requires v < Pow256(n)
    ensures ReadBE(WriteBE(v, n)) == v
  {
    if n > 0 {
      ReadWriteBE(v / 256, n - 1);
      var s := WriteBE(v, n);
      assert s[..n - 1] == WriteBE(v / 256, n - 1);
    }
  }

  lemma {:induction false} WriteReadBE(s: seq<Byte>)
    ensures WriteBE(ReadBE(s), |s|) == s
  {
    if s != [] {
      WriteReadBE(s[..|s| - 1]);
    }
  }

  lemma {:induction false} ReadWriteLE(v: nat, n: nat)
    requires v < Pow256(n)
    ensures ReadLE(WriteLE(v, n)) == v
  {
    if n > 0 {
      ReadWriteLE(v / 256, n - 1);
      var s := WriteLE(v, n);
      assert s[1..] == WriteLE(v / 256, n - 1);
    }
  }

  lemma {:induction false} ReadBEBound(s: seq<Byte>)
    ensures ReadBE(s) < Pow256(|s|)
  {
    if s != [] {
      ReadBEBound(s[..|s| - 1]);
    }
  }

  /** The encodings byte by byte, as shifts and masks write them. */
  lemma WriteBE3(v: nat)
    ensures WriteBE(v, 3) == [v / 0x1_0000 % 256, v / 256 % 256, v % 256]
  {
    var w := v / 256;
    assert w / 256 == v / 0x1_0000;
    assert WriteBE(w / 256, 1) == WriteBE(w / 256 / 256, 0) + [w / 256 % 256] == [w / 256 % 256];
    assert WriteBE(w, 2) == WriteBE(w / 256, 1) + [w % 256];
  }

  lemma WriteBE4(v: nat)
    ensures WriteBE(v, 4) == [v / 0x100_0000 % 256, v / 0x1_0000 % 256, v / 256 % 256, v % 256]
  {
    WriteBE3(v / 256);
    assert v / 256 / 256 == v / 0x1_0000 && v / 256 / 0x1_0000 == v / 0x100_0000;
    assert WriteBE(v, 4) == WriteBE(v / 256, 3) + [v % 256];
  }

  lemma WriteLE4(v: nat)
    ensures WriteLE(v, 4) == [v % 256, v / 256 % 256, v / 0x1_0000 % 256, v / 0x100_0000 % 256]
  {
    var a, b, c := v / 256, v / 0x1_0000, v / 0x100_0000;
    assert a / 256 == b && b / 256 == c;
    assert WriteLE(c, 1) == [c % 256] + WriteLE(c / 256, 0) == [c % 256];
    assert WriteLE(b, 2) == [b % 256] + WriteLE(c, 1);
    assert WriteLE(a, 3) == [a % 256] + WriteLE(b, 2);
  }

  // ----- concatenation -----

  lemma AppendNothing<T>(a: seq<T>)
    ensures a + [] == a
  {
  }

  lemma AppendTwice<T>(a: seq<T>, b: seq<T>, c: seq<T>)
    ensures (a + b) + c == a + (b + c)
  {
  }

  function Min(a: int, b: int): int {
    if a <= b then a else b
  }

  function Concat(pieces: seq<seq<Byte>>): seq<Byte> {
    if pieces == [] then [] else pieces[0] + Concat(pieces[1..])
  }

  lemma {:induction false} ConcatOne(pieces: seq<seq<Byte>>, piece: seq<Byte>)
    ensures Concat(pieces + [piece]) == Concat(pieces) + piece
  {
    if pieces == [] {
      assert [piece][1..] == [];
    } else {
      ConcatOne(pieces[1..], piece);
      assert (pieces + [piece])[1..] == pieces[1..] + [piece];
      AppendTwice(pieces[0], Concat(pieces[1..]), piece);
    }
  }

  /** What was read, in front of what is still to be read. */
  function Before<T>(first: seq<T>, rest: Option<seq<T>>): Option<seq<T>> {
    match rest
    case None => None
    case Some(more) => Some(first + more)
  }

  lemma NothingBefore<T>(rest: Option<seq<T>>)
    ensures Before([], rest) == rest
  {
    if rest.Some? {
      assert [] + rest.value == rest.value;
    }
  }

  lemma BeforeOne<T>(first: seq<T>, item: T, rest: Option<seq<T>>)
    ensures Before(first, Before([item], rest)) == Before(first + [item], rest)
  {
    if rest.Some? {
      AppendTwice(first, [item], rest.value);
    }
  }

  lemma CutInThree<T>(s: seq<T>, i: nat, j: nat)
    requires i <= j <= |s|
    ensures s == s[..i] + s[i..j] + s[j..]
  {
  }

  lemma AppendFour<T>(a: seq<T>, b: seq<T>, c: seq<T>, d: seq<T>)
    ensures var s := a + (b + c + d);
            s == (a + b) + (c + d) && s == a + b + c + d && s[|a| + |b|..] == c + d &&
            s[|a| + |b|..|a| + |b| + |c|] == c
  {
  }

  // ----- division -----

  lemma MultiplyMonotone(a: int, b: int, d: nat)
    requires a <= b
    ensures a * d <= b * d
  {
  }

  lemma MultiplySuccessor(a: int, k: int)
    ensures (a + 1) * k == a * k + k
  {
  }

  lemma ScaledLess(a: int, b: int, d: nat)
    requires a * d < b * d
    ensures a < b
  {
    if b <= a { MultiplyMonotone(b, a, d); }
  }

  lemma DivideUnique(n: nat, d: Positive, q: nat, r: nat)
    requires n == d * q + r && r < d
    ensures n / d == q && n % d == r
  {
    assert n == d * (n / d) + n % d;
    assert q * d < (n / d + 1) * d && n / d * d < (q + 1) * d;
    ScaledLess(q, n / d + 1, d);
    ScaledLess(n / d, q + 1, d);
  }

  lemma DivideStep(n: nat, d: Positive)
    requires d <= n
    ensures n / d == (n - d) / d + 1 && n % d == (n - d) % d
  {
    var q, r := (n - d) / d, (n - d) % d;
    assert n == d * (q + 1) + r;
    DivideUnique(n, d, q + 1, r);
  }

  lemma Pow256Values()
    ensures Pow256(1) == 0x100
    ensures Pow256(2) == 0x1_0000
    ensures Pow256(3) == 0x100_0000
    ensures Pow256(4) == 0x1_0000_0000
  {
    assert Pow256(0) == 1;
  }

  /** Two, three and four byte fields, most significant byte first. */
  lemma BE2(s: seq<Byte>)
    requires |s| == 2
    ensures ReadBE(s) == 256 * (s[0] as int) + s[1] as int
  {
    var t := s[..1];
    assert t[..0] == [] && ReadBE(t) == t[0];
  }

  lemma BE3(s: seq<Byte>)
    requires |s| == 3
    ensures ReadBE(s) == 0x1_0000 * (s[0] as int) + 256 * (s[1] as int) + s[2] as int
  {
    BE2(s[..2]);
  }

  lemma BE4(s: seq<Byte>)
    requires |s| == 4
    ensures ReadBE(s) == 0x100_0000 * (s[0] as int) + 0x1_0000 * (s[1] as int) + 256 * (s[2] as int) + s[3] as int
  {
    BE3(s[..3]);
  }

  lemma WriteBEJoin(v: nat, b: Byte, n: nat)
    ensures WriteBE(256 * v + b, n + 1) == WriteBE(v, n) + [b]
  {
  }

  lemma WriteBEByte(b: Byte)
    ensures WriteBE(b, 1) == [b]
  {
    WriteBEJoin(0, b, 0);
  }

  /** Copies `s` to `out` at `at`. */
  method Put(out: array<Byte>, at: nat, s: seq<Byte>) returns (next: nat)
    requires at + |s| <= out.Length
    modifies out
    ensures next == at + |s|
    ensures out[..next] == old(out[..at]) + s
  {
    for i := 0 to |s|
      invariant out[..at] == old(out[..at])
      invariant out[at..at + i] == s[..i]
    {
      out[at + i] := s[i];
    }
    next := at + |s|;
    assert out[..next] == out[..at] + out[at..next];
  }
}
