/**
  MD5 as a streaming computation (RFC 1321): however a message is cut, the state is the fold of the
  block transform over its full blocks, and the digest is the fold over the padded message. The block
  transform is a parameter, so all of this holds for any.
 */
module Md5 {
  import opened Bytes

  const BLOCK: nat := 64
  const WORD: nat := 0x1_0000_0000
  const WORDS: nat := 0x1_0000_0000_0000_0000

  type Word = x: int | 0 <= x < 0x1_0000_0000

  /** The four chaining words. */
  datatype State = State(a: Word, b: Word, c: Word, d: Word)

  type Transform = (State, seq<Byte>) -> State

  const INITIAL: State := State(0x67452301, 0xefcdab89, 0x98badcfe, 0x10325476)

  // ----- the specification -----

  /** The state after the full blocks of `m`. */
  function Absorb(f: Transform, s: State, m: seq<Byte>): State
    decreases |m|
  {
    if |m| < BLOCK then s else Absorb(f, f(s, m[..BLOCK]), m[BLOCK..])
  }

  /** What is left of `m` behind its full blocks. */
  function Rest(m: seq<Byte>): (r: seq<Byte>)
    ensures |r| < BLOCK
    decreases |m|
  {
    if |m| < BLOCK then m else Rest(m[BLOCK..])
  }

  function Repeated(b: Byte, n: nat): (s: seq<Byte>)
    ensures |s| == n
  {
    seq(n, i => b)
  }

  /** The bit length of a message, modulo 2^64. */
  function BitLength(m: seq<Byte>): nat {
    8 * |m| % WORDS
  }

  /** Section 3.1 and 3.2 of RFC 1321: a one bit, zeros up to 56 modulo 64, and the length. */
  function Padded(m: seq<Byte>): seq<Byte> {
    m + [0x80] + Repeated(0, (119 - |m| % BLOCK) % BLOCK) + WriteLE(BitLength(m), 8)
  }

  function Encode(s: State): seq<Byte> {
    WriteLE(s.a, 4) + WriteLE(s.b, 4) + WriteLE(s.c, 4) + WriteLE(s.d, 4)
  }

  /** Section 3.4 of RFC 1321: the state after the padded message. */
  function Digest(f: Transform, m: seq<Byte>): seq<Byte> {
    Encode(Absorb(f, INITIAL, Padded(m)))
  }

  /** The padded message has only full blocks. */
  lemma PaddedIsWhole(m: seq<Byte>)
    ensures |Padded(m)| % BLOCK == 0 && |m| < |Padded(m)| <= |m| + 72
  {
    var q, r, n := |m| / BLOCK, |m| % BLOCK, |Padded(m)|;
    if r < 56 {
      assert (119 - r) % BLOCK == 55 - r;
      DivideUnique(n, BLOCK, q + 1, 0);
    } else {
      assert (119 - r) % BLOCK == 119 - r;
      DivideUnique(n, BLOCK, q + 2, 0);
    }
  }

  lemma {:induction false} RestLength(m: seq<Byte>)
    ensures |Rest(m)| == |m| % BLOCK
    decreases |m|
  {
    if |m| >= BLOCK {
      RestLength(m[BLOCK..]);
    }
  }

  /** More data continues from the state and the rest. */
  lemma {:induction false} AbsorbMore(f: Transform, s: State, m: seq<Byte>, more: seq<Byte>)
    ensures Absorb(f, s, m + more) == Absorb(f, Absorb(f, s, m), Rest(m) + more)
    ensures Rest(m + more) == Rest(Rest(m) + more)
    decreases |m|
  {
    if |m| >= BLOCK {
      AbsorbMore(f, f(s, m[..BLOCK]), m[BLOCK..], more);
      assert (m + more)[..BLOCK] == m[..BLOCK] && (m + more)[BLOCK..] == m[BLOCK..] + more;
    }
  }

  /** The two halves of the counter after `n` more bytes. */
  function CountOn(low: Word, high: Word, n: Word): (Word, Word) {
    var shifted := 8 * n % WORD;
    var low' := (low + shifted) % WORD;
    (low', (high + (if low' < shifted then 1 else 0) + n / 0x2000_0000) % WORD)
  }

  lemma CountedOn(low: Word, high: Word, total: nat, n: Word)
    requires low + WORD * high == 8 * total % WORDS
    ensures var (low', high') := CountOn(low, high, n); low' + WORD * high' == 8 * (total + n) % WORDS
  {
    var shifted, over := 8 * n % WORD, n / 0x2000_0000;
    assert 8 * n == shifted + WORD * over;
    var low' := (low + shifted) % WORD;
    var carry := if low' < shifted then 1 else 0;
    assert low + shifted == low' + WORD * carry;
    var sum := high + carry + over;
    var high' := sum % WORD;
    var q, t := 8 * total / WORDS, sum / WORD;
    assert 8 * (total + n) == WORDS * (q + t) + (low' + WORD * high');
    DivideUnique(8 * (total + n), WORDS, q + t, low' + WORD * high');
  }

  // ----- the class -----

  class Context {
    const transform: Transform
    const buffer: array<Byte>
    var finalized: bool
    var low: Word
    var high: Word
    var state: State
    var digest: seq<Byte>
    ghost var message: seq<Byte>

    constructor (transform: Transform)
      ensures Valid() && message == [] && !finalized && this.transform == transform && fresh(buffer)
    {
      this.transform := transform;
      buffer := new Byte[BLOCK](i => 0);
      finalized, low, high, state, digest, message := false, 0, 0, INITIAL, [], [];
    }

    /** While data comes in: the state has the full blocks, the buffer has the rest, the counter has the length. */
    ghost predicate Valid()
      reads this, buffer
    {
      && buffer.Length == BLOCK
      && (!finalized ==>
            && state == Absorb(transform, INITIAL, message)
            && buffer[..|Rest(message)|] == Rest(message)
            && low + WORD * high == BitLength(message))
      && (finalized ==> digest == Digest(transform, message))
    }

    /** Copies the first `n` bytes of `input` into the buffer. */
    method Fill(at: nat, input: seq<Byte>, n: nat)
      requires n <= |input| && at + n <= buffer.Length
      modifies buffer
      ensures buffer[..at + n] == old(buffer[..at]) + input[..n]
    {
      for i := 0 to n
        invariant buffer[..at + i] == old(buffer[..at]) + input[..i]
      {
        buffer[at + i] := input[i];
        assert buffer[..at + i + 1] == buffer[..at + i] + [input[i]];
      }
    }

    method Update(input: seq<Byte>)
      requires Valid() && !finalized && |input| < WORD - BLOCK
      modifies this`low, this`high, this`state, this`message, buffer
      ensures Valid() && message == old(message) + input
    {
      hide Absorb, Rest, CountOn;
      RestLength(message);
      var index := low / 8 % BLOCK;
      SameIndex(low, high, message);
      AbsorbMore(transform, INITIAL, message, input);
      CountedOn(low, high, |message|, |input|);
      var (low', high') := CountOn(low, high, |input|);
      low, high := low', high';
      TakeIn(index, input, Rest(message));
      message := message + input;
    }

    /** The input behind what the buffer holds: whole blocks into the state, and what is left into the buffer. */
    method TakeIn(index: nat, input: seq<Byte>, ghost rest: seq<Byte>)
      requires buffer.Length == BLOCK && index == |rest| < BLOCK && buffer[..index] == rest
      modifies this`state, buffer
      ensures state == Absorb(transform, old(state), rest + input)
      ensures |Rest(rest + input)| < BLOCK
      ensures buffer[..|Rest(rest + input)|] == Rest(rest + input)
    {
      hide Absorb, Rest;
      RestLength(rest + input);
      var start, at := index, 0;
      if |input| >= BLOCK - index {
        var firstPart := BLOCK - index;
        Fill(index, input, firstPart);
        AbsorbBlock(transform, state, rest + input);
        assert (rest + input)[..BLOCK] == rest + input[..firstPart] == buffer[..];
        state := transform(state, buffer[..]);
        at := TransformAll(input, firstPart);
        assert (rest + input)[BLOCK..] == input[firstPart..];
        start := 0;
      } else {
        assert input[0..] == input;
        AbsorbNothing(transform, state, rest + input);
      }
      Fill(start, input[at..], |input| - at);
      assert input[at..][..|input| - at] == input[at..];
    }

    /** The loop over whole blocks of the input. */
    method TransformAll(input: seq<Byte>, start: nat) returns (at: nat)
      requires start <= |input|
      modifies this`state
      ensures start <= at <= |input| && state == Absorb(transform, old(state), input[start..])
      ensures input[at..] == Rest(input[start..])
    {
      hide Absorb, Rest;
      at := start;
      while at + BLOCK <= |input|
        invariant start <= at <= |input|
        invariant Absorb(transform, state, input[at..]) == Absorb(transform, old(state), input[start..])
        invariant Rest(input[at..]) == Rest(input[start..])
      {
        AbsorbBlock(transform, state, input[at..]);
        assert input[at..][..BLOCK] == input[at..at + BLOCK] && input[at..][BLOCK..] == input[at + BLOCK..];
        state := transform(state, input[at..at + BLOCK]);
        at := at + BLOCK;
      }
      AbsorbNothing(transform, state, input[at..]);
    }

    /** Pads, appends the length taken before the padding, and encodes the state; once. */
    method Finalize()
      requires Valid()
      modifies this, buffer
      ensures Valid() && finalized && message == old(message)
      ensures old(finalized) ==> digest == old(digest)
    {
      if finalized {
        return;
      }
      hide Absorb, Rest, WriteLE, Encode;
      ghost var m := message;
      var bits := WriteLE(low, 4) + WriteLE(high, 4);
      LengthBytes(low, high, m);
      SameIndex(low, high, m);
      var index := low / 8 % BLOCK;
      var padLength := if index < 56 then 56 - index else 120 - index;
      var padding := [0x80] + Repeated(0, BLOCK - 1);
      PaddingIs(m, padding, padLength);
      Update(padding[..padLength]);
      Update(bits);
      assert message == Padded(m);
      digest := Encode(state);
      for i := 0 to BLOCK
        modifies buffer
      {
        buffer[i] := 0;
      }
      low, high := 0, 0;
      finalized := true;
      message := m;
    }

    /** The digest, or nothing before it is there. */
    method Result() returns (r: seq<Byte>)
      requires Valid()
      ensures r == if finalized then Digest(transform, message) else []
    {
      r := if finalized then digest else [];
    }
  }

  lemma AbsorbBlock(f: Transform, s: State, m: seq<Byte>)
    requires |m| >= BLOCK
    ensures Absorb(f, s, m) == Absorb(f, f(s, m[..BLOCK]), m[BLOCK..]) && Rest(m) == Rest(m[BLOCK..])
  {
  }

  lemma AbsorbNothing(f: Transform, s: State, m: seq<Byte>)
    requires |m| < BLOCK
    ensures Absorb(f, s, m) == s && Rest(m) == m
  {
  }

  /** The low half of the counter is enough to find the place in the buffer. */
  lemma SameIndex(low: Word, high: Word, m: seq<Byte>)
    requires low + WORD * high == BitLength(m)
    ensures low / 8 % BLOCK == |m| % BLOCK
  {
    var q := 8 * |m| / WORDS;
    var k := |m| - 0x2000_0000 * high - 0x2000_0000_0000_0000 * q;
    assert low == 8 * k;
    DivideUnique(|m|, BLOCK, k / BLOCK + 0x80_0000 * high + 0x80_0000_0000_0000 * q, k % BLOCK);
  }

  lemma PaddingIs(m: seq<Byte>, padding: seq<Byte>, n: nat)
    requires padding == [0x80] + Repeated(0, BLOCK - 1)
    requires n == if |m| % BLOCK < 56 then 56 - |m| % BLOCK else 120 - |m| % BLOCK
    ensures m + padding[..n] + WriteLE(BitLength(m), 8) == Padded(m)
  {
    hide WriteLE;
    var r := |m| % BLOCK;
    assert (119 - r) % BLOCK == n - 1;
    assert padding[..n] == [0x80] + Repeated(0, n - 1);
    assert m + ([0x80] + Repeated(0, n - 1)) == m + [0x80] + Repeated(0, n - 1);
  }

  lemma LengthBytes(low: Word, high: Word, m: seq<Byte>)
    requires low + WORD * high == BitLength(m)
    ensures WriteLE(low, 4) + WriteLE(high, 4) == WriteLE(BitLength(m), 8)
  {
    WordAppend(low, high, 4);
    Pow256Values();
  }

  lemma {:induction false} WordAppend(low: nat, high: nat, n: nat)
    requires low < Pow256(n)
    ensures WriteLE(low, n) + WriteLE(high, 4) == WriteLE(low + Pow256(n) * high, n + 4)
  {
    if n > 0 {
      WordAppend(low / 256, high, n - 1);
      LowestDigit(low, Pow256(n - 1), high);
    } else {
      assert WriteLE(low, 0) == [] && Pow256(0) * high == high;
      assert [] + WriteLE(high, 4) == WriteLE(high, 4);
    }
  }

  lemma LowestDigit(low: nat, p: nat, high: nat)
    ensures var v := low + (256 * p) * high; v / 256 == low / 256 + p * high && v % 256 == low % 256
  {
    Scaled(p, high);
    var x := p * high;
    DivideUnique(low + 256 * x, 256, low / 256 + x, low % 256);
  }

  lemma Scaled(p: nat, q: nat)
    ensures (256 * p) * q == 256 * (p * q)
  {
  }

  /** The digest of a message that arrives in pieces depends only on the message. */
  method DigestOfPieces(transform: Transform, pieces: seq<seq<Byte>>) returns (digest: seq<Byte>)
    requires forall i :: 0 <= i < |pieces| ==> |pieces[i]| < WORD - BLOCK
    ensures digest == Digest(transform, Concat(pieces))
  {
    var context := new Context(transform);
    assert pieces[..0] == [];
    for i := 0 to |pieces|
      invariant context.Valid() && !context.finalized && fresh(context) && fresh(context.buffer)
      invariant context.transform == transform && context.message == Concat(pieces[..i])
    {
      assert pieces[..i + 1] == pieces[..i] + [pieces[i]];
      ConcatOne(pieces[..i], pieces[i]);
      context.Update(pieces[i]);
    }
    assert pieces[..|pieces|] == pieces;
    context.Finalize();
    digest := context.Result();
  }

  // ----- byte by byte -----

  /** The four words of a state as sixteen bytes, least significant first, and those of the state at the start. */
  lemma DigestBytes(s: State)
    ensures Encode(s) ==
            [s.a % 256, s.a / 256 % 256, s.a / 65536 % 256, s.a / 16777216 % 256,
             s.b % 256, s.b / 256 % 256, s.b / 65536 % 256, s.b / 16777216 % 256,
             s.c % 256, s.c / 256 % 256, s.c / 65536 % 256, s.c / 16777216 % 256,
             s.d % 256, s.d / 256 % 256, s.d / 65536 % 256, s.d / 16777216 % 256]
    ensures INITIAL == State(0x6745_2301, 0xEFCD_AB89, 0x98BA_DCFE, 0x1032_5476)
  {
    hide WriteLE;
    WriteLE4(s.a);
    WriteLE4(s.b);
    WriteLE4(s.c);
    WriteLE4(s.d);
  }

  /** Padding: a one and zeros up to 56 bytes in the last block of 64, then the bit length in eight bytes. */
  lemma PaddingBytes(m: seq<Byte>)
    ensures var p, n := Padded(m), |Padded(m)|;
            && n % 64 == 0 && |m| + 9 <= n <= |m| + 72 && p[..|m|] == m && p[|m|] == 0x80
            && (forall i :: |m| < i < n - 8 ==> p[i] == 0)
            && p[n - 8..] == WriteLE(8 * |m| % 0x1_0000_0000_0000_0000, 8)
  {
    hide WriteLE;
    PaddedIsWhole(m);
    EightBytes(BitLength(m));
    var zeros := (119 - |m| % BLOCK) % BLOCK;
    assert Padded(m)[|m| + 1 + zeros..] == WriteLE(BitLength(m), 8);
  }

  lemma EightBytes(v: nat)
    ensures |WriteLE(v, 8)| == 8
  {
  }

  /** Blocks of 64 bytes, one after the other, each with the state the one before left. */
  lemma BlocksAbsorbed(f: Transform, s: State, m: seq<Byte>)
    ensures Absorb(f, s, m) == if |m| < 64 then s else Absorb(f, f(s, m[..64]), m[64..])
    ensures Digest(f, m) == Encode(Absorb(f, INITIAL, Padded(m)))
  {
  }
}
