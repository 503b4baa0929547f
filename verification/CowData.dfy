/**
  `ov::Data` and `ov::ByteStream`: handles share one vector until somebody writes.
  Every operation changes its own handle as the plain sequence operation would and
  no other handle at all; `Execute` says so for whole runs.
 */
module CowData {
  import opened Bytes

  /** A `shared_ptr<vector<uint8_t>>` target with its use count. */
  class Block {
    var bytes: seq<Byte>
    var uses: nat

    constructor (bytes: seq<Byte>)
      ensures this.bytes == bytes && uses == 1
    {
      this.bytes := bytes;
      uses := 1;
    }
  }

  function Overwrite(v: seq<Byte>, at: nat, s: seq<Byte>): seq<Byte> {
    Resize(v, at) + s + (if at + |s| < |v| then v[at + |s|..] else [])
  }

  /** Byte by byte: `s` from `at` on, zeros in a gap in front of it, and everything else as it was. */
  predicate WrittenOver(v: seq<Byte>, at: nat, s: seq<Byte>, w: seq<Byte>) {
    && |w| == (if at + |s| > |v| then at + |s| else |v|)
    && forall k :: 0 <= k < |w| ==>
         w[k] == if at <= k < at + |s| then s[k - at] else if k < |v| then v[k] else 0
  }

  lemma OverwritePlaces(v: seq<Byte>, at: nat, s: seq<Byte>)
    ensures WrittenOver(v, at, s, Overwrite(v, at, s))
  {
  }

  /** Overwriting is cutting a sequence that was first grown, if need be, to hold the new bytes. */
  lemma OverwriteGrown(v: seq<Byte>, at: nat, s: seq<Byte>)
    ensures var grown := if at + |s| > |v| then Resize(v, at + |s|) else v;
            grown[..at] + s + grown[at + |s|..] == Overwrite(v, at, s)
  {
    var grown := if at + |s| > |v| then Resize(v, at + |s|) else v;
    assert grown[..at] == Resize(v, at);
  }

  function Zeros(n: nat): seq<Byte> {
    seq(n, _ => 0)
  }

  /** `vector::resize` to `n` elements. */
  function Resize(v: seq<Byte>, n: nat): seq<Byte> {
    if n <= |v| then v[..n] else v + Zeros(n - |v|)
  }

  /** The `n` bytes from `from` on, a negative `from` counted from the back; None when they are not all there. */
  function PartOf(v: seq<Byte>, from: int, n: nat): Option<seq<Byte>> {
    var i := if from < 0 then |v| + from else from;
    if 0 <= i && i + n <= |v| then Some(v[i..i + n]) else None
  }

  lemma ResizeSame(v: seq<Byte>)
    ensures Resize(v, |v|) == v
  {
  }

  /** Inserting `s` in front of position `at`; a negative `at` counts from the back. */
  function Inserted(v: seq<Byte>, at: int, s: seq<Byte>): seq<Byte>
    requires 0 <= |v| + at && at <= |v|
  {
    var i := if at < 0 then |v| + at else at;
    v[..i] + s + v[i..]
  }

  /** Which block each handle holds. */
  ghost function Owners(all: set<Data>): map<Data, Block>
    reads all
  {
    map h | h in all :: h.block
  }

  ghost function Blocks(all: set<Data>): set<Block>
    reads all
  {
    set h | h in all :: h.block
  }

  ghost function Sharers(owners: map<Data, Block>, b: Block): set<Data> {
    set h | h in owners && owners[h] == b
  }

  /** Every handle stays inside its vector, and use counts count handles. */
  ghost predicate Coherent(all: set<Data>)
    reads all, Blocks(all)
  {
    forall h :: h in all ==> h.Fits() && h.block.uses == |Sharers(Owners(all), h.block)|
  }

  /** These handles denote the bytes they did before, in the same blocks. */
  twostate predicate Untouched(all: set<Data>, except: Data)
    reads all, Blocks(all)
  {
    forall h :: h in all && h != except ==>
      h.block == old(h.block) && h.offset == old(h.offset) && h.length == old(h.length)
      && h.block.bytes == old(h.block.bytes)
  }

  lemma SliceOfSlice(s: seq<Byte>, a: nat, n: nat, i: nat, m: nat)
    requires a + n <= |s| && i + m <= n
    ensures s[a..a + n][i..i + m] == s[a + i..a + i + m]
  {
    var x, y := s[a..a + n][i..i + m], s[a + i..a + i + m];
    assert forall k :: 0 <= k < m ==> x[k] == y[k];
  }

  lemma Inside(all: set<Data>, h: Data)
    requires Coherent(all) && h in all
    ensures h.Fits()
  {
  }

  lemma MadeCoherent(all: set<Data>)
    requires forall h :: h in all ==> h.Fits() && h.block.uses == |Sharers(Owners(all), h.block)|
    ensures Coherent(all)
  {
  }

  lemma SharersMove(owners: map<Data, Block>, h: Data, to: Block, b: Block)
    requires h in owners
    ensures |Sharers(owners[h := to], b)| ==
            |Sharers(owners, b)| - (if owners[h] == b then 1 else 0) + (if to == b then 1 else 0)
  {
    var before, after := Sharers(owners, b), Sharers(owners[h := to], b);
    assert after == if to == b then before - {h} + {h} else before - {h};
    assert h in before <==> owners[h] == b;
  }

  lemma SharersJoin(owners: map<Data, Block>, h: Data, to: Block, b: Block)
    requires h !in owners
    ensures |Sharers(owners[h := to], b)| == |Sharers(owners, b)| + (if to == b then 1 else 0)
  {
    var before, after := Sharers(owners, b), Sharers(owners[h := to], b);
    assert after == if to == b then before + {h} else before;
  }

  lemma SharersSome(owners: map<Data, Block>, h: Data)
    requires h in owners
    ensures 1 <= |Sharers(owners, owners[h])|
  {
    assert h in Sharers(owners, owners[h]);
  }

  lemma SharersNone(owners: map<Data, Block>, b: Block)
    requires b !in owners.Values
    ensures |Sharers(owners, b)| == 0
  {
    assert Sharers(owners, b) == {};
  }

  lemma OnlySharer(owners: map<Data, Block>, h: Data, g: Data)
    requires h in owners && g in owners && owners[g] == owners[h] && |Sharers(owners, owners[h])| == 1
    ensures g == h
  {
    var s := Sharers(owners, owners[h]);
    assert |s - {h}| == 0;
    assert g !in s - {h};
  }

  class Data {
    var block: Block
    var offset: nat
    var length: nat

    ghost predicate Fits()
      reads this, block
    {
      offset + length <= |block.bytes|
    }

    /** The bytes this handle denotes. */
    function View(): seq<Byte>
      reads this, block
      requires Fits()
    {
      block.bytes[offset..offset + length]
    }

    constructor (bytes: seq<Byte>)
      ensures fresh(block) && block.uses == 1 && Fits() && View() == bytes
    {
      block := new Block(bytes);
      offset, length := 0, |bytes|;
    }

    constructor Share(from: Data, offset: nat, length: nat)
      modifies from.block`uses
      ensures block == from.block && this.offset == offset && this.length == length
      ensures block.uses == old(from.block.uses) + 1
    {
      block := from.block;
      this.offset, this.length := offset, length;
      new;
      block.uses := block.uses + 1;
    }

    /**
      The copy constructor keeps the offset of a vector it does not keep: the copy fits exactly when that
      offset is 0.
     */
    constructor Copy(from: Data)
      requires from.Fits()
      ensures fresh(block)
      ensures Fits() <==> from.offset == 0
      ensures Fits() ==> View() == from.View()
    {
      block := new Block(from.View());
      offset, length := from.offset, from.length;
    }

    /** Leaves the vector for a new one that holds `bytes`. */
    method Leave(bytes: seq<Byte>, ghost all: set<Data>)
      requires this in all && Coherent(all)
      modifies this, block`uses
      ensures Coherent(all) && offset == 0 && length == |bytes| && block.uses == 1
      ensures block.bytes == bytes && fresh(block)
      ensures Untouched(all, this)
    {
      hide Sharers;
      ghost var owners := Owners(all);
      SharersSome(owners, this);
      block.uses := block.uses - 1;
      block := new Block(bytes);
      offset, length := 0, |bytes|;
      assert Owners(all) == owners[this := block];
      SharersNone(owners, block);
      forall h | h in all
        ensures h.block.uses == |Sharers(Owners(all), h.block)|
      {
        SharersMove(owners, this, block, h.block);
      }
      hide Coherent, Owners;
      MadeCoherent(all);
    }

    /** Makes this handle the only one of its vector, which then holds just its bytes. */
    method Detach(ghost all: set<Data>)
      requires this in all && Coherent(all)
      modifies this, block`uses
      ensures Coherent(all) && offset == 0 && length == old(length) && block.uses == 1
      ensures block.bytes == old(View())
      ensures block == old(block) || fresh(block)
      ensures Untouched(all, this)
    {
      if block.uses != 1 || |block.bytes| != length {
        Leave(View(), all);
      }
    }

    /** Replaces the bytes of a vector nobody else holds. */
    method Replace(bytes: seq<Byte>, ghost all: set<Data>)
      requires this in all && Coherent(all) && offset == 0 && block.uses == 1
      modifies this`length, block`bytes
      ensures Coherent(all) && View() == bytes
      ensures Untouched(all, this)
    {
      ghost var owners := Owners(all);
      forall h | h in all && h != this
        ensures h.block != block
      {
        if h.block == block { OnlySharer(owners, this, h); }
      }
      block.bytes := bytes;
      length := |bytes|;
      assert Owners(all) == owners;
    }

    method SetLength(n: nat, ghost all: set<Data>)
      requires this in all && Coherent(all)
      modifies this, block
      ensures Coherent(all) && View() == Resize(old(View()), n)
      ensures |View()| == n && forall k :: 0 <= k < n ==> View()[k] == if k < |old(View())| then old(View())[k] else 0
      ensures block == old(block) || fresh(block)
      ensures Untouched(all, this)
    {
      Detach(all);
      Replace(Resize(block.bytes, n), all);
    }

    /** A negative position counts from the back; a position behind the end is refused. */
    method Insert(bytes: seq<Byte>, at: int, ghost all: set<Data>) returns (ok: bool)
      requires this in all && Coherent(all) && 0 <= length + at
      modifies this, block
      ensures Coherent(all) && ok == (at <= old(length))
      ensures View() == if ok then Inserted(old(View()), at, bytes) else old(View())
      ensures ok ==>
        var was, i := old(View()), if at < 0 then old(length) + at else at;
        && |View()| == |was| + |bytes| && View()[..i] == was[..i]
        && View()[i..i + |bytes|] == bytes && View()[i + |bytes|..] == was[i..]
      ensures block == old(block) || fresh(block)
      ensures Untouched(all, this)
    {
      hide Sharers, Coherent;
      Inside(all, this);
      if at > length {
        return false;
      }
      var i := if at < 0 then length + at else at;
      Detach(all);
      Replace(block.bytes[..i] + bytes + block.bytes[i..], all);
      return true;
    }

    method Append(bytes: seq<Byte>, ghost all: set<Data>)
      requires this in all && Coherent(all)
      modifies this, block
      ensures Coherent(all) && View() == old(View()) + bytes
      ensures block == old(block) || fresh(block)
      ensures Untouched(all, this)
    {
      ghost var before := View();
      var ok := Insert(bytes, length, all);
      assert before[..|before|] + bytes + before[|before|..] == before + bytes;
    }

    /** Appends what another handle denotes, even when both share a vector. */
    method AppendData(source: Data, ghost all: set<Data>)
      requires this in all && source in all && source != this && Coherent(all)
      modifies this, block
      ensures Coherent(all) && View() == old(View() + source.View())
      ensures block == old(block) || fresh(block)
      ensures Untouched(all, this)
    {
      Append(source.View(), all);
    }

    /** Grows the data if it must and copies `bytes` to position `at` of the writable bytes. */
    method CopyIn(at: nat, bytes: seq<Byte>, ghost all: set<Data>)
      requires this in all && Coherent(all)
      modifies this, block
      ensures Coherent(all) && View() == Overwrite(old(View()), at, bytes)
      ensures block == old(block) || fresh(block)
      ensures Untouched(all, this)
    {
      hide Sharers, Coherent;
      Inside(all, this);
      OverwriteGrown(View(), at, bytes);
      if at + |bytes| > length {
        SetLength(at + |bytes|, all);
        Inside(all, this);
      }
      Detach(all);
      Replace(block.bytes[..at] + bytes + block.bytes[at + |bytes|..], all);
    }

    /** Sets the length to `n` unless the data is already longer. */
    method GrowTo(n: nat, ghost all: set<Data>)
      requires this in all && Coherent(all)
      modifies this, block
      ensures Coherent(all)
      ensures View() == if n < |old(View())| then old(View()) else Resize(old(View()), n)
      ensures block == old(block) || fresh(block)
      ensures Untouched(all, this)
    {
      hide Sharers, Coherent;
      Inside(all, this);
      if n >= length {
        SetLength(n, all);
      }
    }

    method Clear(ghost all: set<Data>)
      requires this in all && Coherent(all)
      modifies this, block`uses
      ensures Coherent(all) && View() == []
      ensures fresh(block)
      ensures Untouched(all, this)
    {
      Leave([], all);
    }

    /** Assignment only shares: no byte moves. */
    method Assign(source: Data, ghost all: set<Data>)
      requires this in all && source in all && Coherent(all)
      modifies this, block`uses, source.block`uses
      ensures Coherent(all) && View() == old(source.View()) && block == old(source.block)
      ensures Untouched(all, this)
    {
      hide Sharers;
      if source.block == block {
        ghost var owners := Owners(all);
        offset, length := source.offset, source.length;
        assert Owners(all) == owners;
      } else {
        Join(source, all);
      }
    }

    /** Leaves the vector for the one of `source`. */
    method Join(source: Data, ghost all: set<Data>)
      requires this in all && source in all && Coherent(all) && source.block != block
      modifies this, block`uses, source.block`uses
      ensures Coherent(all) && View() == old(source.View()) && block == old(source.block)
      ensures Untouched(all, this)
    {
      hide Sharers;
      ghost var owners := Owners(all);
      SharersSome(owners, this);
      source.block.uses := source.block.uses + 1;
      block.uses := block.uses - 1;
      block, offset, length := source.block, source.offset, source.length;
      assert Owners(all) == owners[this := block];
      forall h | h in all
        ensures h.block.uses == |Sharers(Owners(all), h.block)|
      {
        SharersMove(owners, this, block, h.block);
      }
    }

    /** A new handle on `n` bytes of this one from position `i` on. */
    method SharePart(i: nat, n: nat, ghost all: set<Data>) returns (part: Data)
      requires this in all && Coherent(all) && i + n <= length
      modifies block`uses
      ensures fresh(part) && part.block == block && part.offset == offset + i && part.length == n
      ensures Fits() && part.Fits() && part.View() == View()[i..i + n]
      ensures Coherent(all + {part})
    {
      hide Sharers;
      ghost var owners := Owners(all);
      part := new Data.Share(this, offset + i, n);
      assert Owners(all + {part}) == owners[part := block];
      forall h | h in all + {part}
        ensures h.block.uses == |Sharers(Owners(all + {part}), h.block)|
      {
        SharersJoin(owners, part, block, h.block);
      }
      SliceOfSlice(block.bytes, offset, length, i, n);
    }

    /** A new handle on part of this one, or null when the part is not inside it. */
    method Subdata(from: int, n: nat, ghost all: set<Data>) returns (part: Data?)
      requires this in all && Coherent(all)
      modifies block`uses
      ensures Untouched(all, this) && block == old(block) && block.bytes == old(block.bytes)
              && offset == old(offset) && length == old(length)
      ensures var i := if from < 0 then length + from else from;
              && (part != null <==> 0 <= i && i + n <= length)
              && (part != null ==> part.Fits() && part.View() == old(View())[i..i + n])
      ensures match PartOf(old(View()), from, n)
              case Some(bytes) =>
                part != null && fresh(part) && Coherent(all + {part}) && Fits() && part.Fits()
                && part.View() == bytes && part.block == block
              case None => part == null && Coherent(all)
    {
      hide Sharers, Coherent;
      Inside(all, this);
      var i := if from < 0 then length + from else from;
      if i < 0 || length < i + n {
        return null;
      }
      part := SharePart(i, n, all);
    }
  }

  /** A cursor that reads and overwrites a handle. */
  class ByteStream {
    const data: Data
    var offset: nat
    var stack: seq<nat>

    constructor (data: Data)
      ensures this.data == data && offset == 0 && stack == []
    {
      this.data := data;
      offset, stack := 0, [];
    }

    /** Overwrites from the cursor on, growing the data when it must. */
    method Write(bytes: seq<Byte>, ghost all: set<Data>)
      requires data in all && Coherent(all)
      modifies this`offset, data, data.block
      ensures Coherent(all) && data.View() == Overwrite(old(data.View()), old(offset), bytes)
      ensures WrittenOver(old(data.View()), old(offset), bytes, data.View())
      ensures offset == old(offset) + |bytes|
      ensures data.block == old(data.block) || fresh(data.block)
      ensures Untouched(all, data)
    {
      hide Sharers, Overwrite;
      OverwritePlaces(data.View(), offset, bytes);
      data.CopyIn(offset, bytes, all);
      offset := offset + |bytes|;
    }

    /** Moves the cursor; moving it to the end or beyond sets the length. */
    method SetOffset(to: nat, ghost all: set<Data>)
      requires data in all && Coherent(all)
      modifies this`offset, data, data.block
      ensures Coherent(all) && offset == to
      ensures data.View() == if to < |old(data.View())| then old(data.View()) else Resize(old(data.View()), to)
      ensures data.block == old(data.block) || fresh(data.block)
      ensures Untouched(all, data)
    {
      hide Sharers, Resize;
      data.GrowTo(to, all);
      offset := to;
    }

    /** What lies behind the cursor. */
    ghost function Unread(): seq<Byte>
      reads this, data, data.block
    {
      if data.Fits() && offset <= |data.View()| then data.View()[offset..] else []
    }

    /** Copies up to `count` bytes from the cursor on and moves it behind them. */
    method Read(count: nat) returns (bytes: seq<Byte>)
      requires data.Fits() && offset <= data.length
      modifies this`offset
      ensures old(Unread()) == bytes + Unread() && |bytes| == Min(count, |old(Unread())|)
      ensures offset == old(offset) + |bytes| <= data.length
    {
      var n := Min(data.length - offset, count);
      bytes := data.View()[offset..offset + n];
      offset := offset + n;
    }

    /** Moves the cursor as `Read` does. */
    method Skip(count: nat) returns (skipped: nat)
      requires data.Fits() && offset <= data.length
      modifies this`offset
      ensures skipped == Min(count, |old(Unread())|) && Unread() == old(Unread())[skipped..]
    {
      var bytes := Read(count);
      skipped := |bytes|;
    }

    method PushOffset()
      modifies this`stack
      ensures stack == old(stack) + [offset]
    {
      stack := stack + [offset];
    }

    method PopOffset(ghost all: set<Data>) returns (ok: bool)
      requires data in all && Coherent(all)
      modifies this, data, data.block
      ensures Coherent(all) && ok == (old(stack) != [])
      ensures if old(stack) == [] then stack == [] && offset == old(offset) && data.View() == old(data.View())
              else
                var to := old(stack)[|old(stack)| - 1];
                && stack == old(stack)[..|old(stack)| - 1] && offset == to
                && data.View() == if to < |old(data.View())| then old(data.View()) else Resize(old(data.View()), to)
      ensures data.block == old(data.block) || fresh(data.block)
      ensures Untouched(all, data)
    {
      if stack == [] {
        return false;
      }
      var to := stack[|stack| - 1];
      stack := stack[..|stack| - 1];
      SetOffset(to, all);
      return true;
    }

    /** Reading between a push and a pop leaves no trace: the cursor is back, and no byte has changed. */
    method PushReadPop(count: nat, ghost all: set<Data>) returns (bytes: seq<Byte>)
      requires data in all && Coherent(all) && offset <= data.length
      modifies this, data, data.block
      ensures Coherent(all) && offset == old(offset) && stack == old(stack) && data.View() == old(data.View())
      ensures bytes == old(Unread())[..Min(count, |old(Unread())|)]
      ensures Untouched(all, data)
    {
      hide Sharers, Resize;
      ResizeSame(data.View());
      bytes := PushRead(count);
      assert stack[..|stack| - 1] == old(stack);
      var ok := PopOffset(all);
    }

    method PushRead(count: nat) returns (bytes: seq<Byte>)
      requires data.Fits() && offset <= data.length
      modifies this
      ensures stack == old(stack) + [old(offset)] && bytes == old(Unread())[..Min(count, |old(Unread())|)]
    {
      PushOffset();
      bytes := Read(count);
    }
  }

  // ----- whole runs -----

  datatype Operation =
    | InsertAt(h: nat, at: int, bytes: seq<Byte>)
    | AppendFrom(h: nat, source: nat)
    | SetLengthTo(h: nat, n: nat)
    | ClearIt(h: nat)
    | AssignFrom(h: nat, source: nat)
    | TakePart(h: nat, from: int, n: nat)
    | WriteAt(h: nat, cursor: nat, bytes: seq<Byte>)

  /** The operation makes sense on these values: its handles exist and it does not read from where it writes. */
  predicate Legal(v: seq<seq<Byte>>, op: Operation) {
    op.h < |v|
    && match op {
         case InsertAt(h, at, _) => 0 <= |v[h]| + at
         case AppendFrom(h, source) => source < |v| && source != h
         case AssignFrom(_, source) => source < |v|
         case _ => true
       }
  }

  /** The operation on independent sequences. */
  function Apply(v: seq<seq<Byte>>, op: Operation): seq<seq<Byte>>
    requires Legal(v, op)
  {
    match op
    case InsertAt(h, at, bytes) => if at <= |v[h]| then v[h := Inserted(v[h], at, bytes)] else v
    case AppendFrom(h, source) => v[h := v[h] + v[source]]
    case SetLengthTo(h, n) => v[h := Resize(v[h], n)]
    case ClearIt(h) => v[h := []]
    case AssignFrom(h, source) => v[h := v[source]]
    case TakePart(h, from, n) =>
      match PartOf(v[h], from, n) {
        case Some(bytes) => v + [bytes]
        case None => v
      }
    case WriteAt(h, cursor, bytes) => v[h := Overwrite(v[h], cursor, bytes)]
  }

  predicate LegalRun(v: seq<seq<Byte>>, ops: seq<Operation>)
    decreases |ops|
  {
    ops == [] || (Legal(v, ops[0]) && LegalRun(Apply(v, ops[0]), ops[1..]))
  }

  function ApplyAll(v: seq<seq<Byte>>, ops: seq<Operation>): seq<seq<Byte>>
    requires LegalRun(v, ops)
    decreases |ops|
  {
    if ops == [] then v else ApplyAll(Apply(v, ops[0]), ops[1..])
  }

  ghost function Handles(hs: seq<Data>): set<Data> {
    set h | h in hs
  }

  /** Distinct handles that denote these values. */
  ghost predicate Shows(hs: seq<Data>, v: seq<seq<Byte>>)
    reads hs, Blocks(Handles(hs))
  {
    && |hs| == |v|
    && (forall i, j :: 0 <= i < j < |hs| ==> hs[i] != hs[j])
    && Coherent(Handles(hs))
    && forall i :: 0 <= i < |hs| ==> hs[i].Fits() && hs[i].View() == v[i]
  }

  /** The handle at `k` now denotes `bytes`; the others were not touched. */
  method DoInsert(hs: seq<Data>, k: nat, at: int, bytes: seq<Byte>, ghost v: seq<seq<Byte>>)
    requires Shows(hs, v) && k < |v| && 0 <= |v[k]| + at
    modifies hs[k], hs[k].block
    ensures Shows(hs, if at <= |v[k]| then v[k := Inserted(v[k], at, bytes)] else v)
    ensures forall h :: h in hs ==> h.block in old(Blocks(Handles(hs))) || fresh(h.block)
  {
    hide Sharers, Inserted;
    var ok := hs[k].Insert(bytes, at, Handles(hs));
  }

  method DoSetLength(hs: seq<Data>, k: nat, n: nat, ghost v: seq<seq<Byte>>)
    requires Shows(hs, v) && k < |v|
    modifies hs[k], hs[k].block
    ensures Shows(hs, v[k := Resize(v[k], n)])
    ensures forall h :: h in hs ==> h.block in old(Blocks(Handles(hs))) || fresh(h.block)
  {
    hide Sharers, Resize;
    hs[k].SetLength(n, Handles(hs));
  }

  method DoAppend(hs: seq<Data>, k: nat, source: nat, ghost v: seq<seq<Byte>>)
    requires Shows(hs, v) && k < |v| && source < |v| && source != k
    modifies hs[k], hs[k].block
    ensures Shows(hs, v[k := v[k] + v[source]])
    ensures forall h :: h in hs ==> h.block in old(Blocks(Handles(hs))) || fresh(h.block)
  {
    hide Sharers;
    hs[k].AppendData(hs[source], Handles(hs));
  }

  method DoClear(hs: seq<Data>, k: nat, ghost v: seq<seq<Byte>>)
    requires Shows(hs, v) && k < |v|
    modifies hs[k], hs[k].block`uses
    ensures Shows(hs, v[k := []])
    ensures forall h :: h in hs ==> h.block in old(Blocks(Handles(hs))) || fresh(h.block)
  {
    hide Sharers;
    hs[k].Clear(Handles(hs));
  }

  method DoAssign(hs: seq<Data>, k: nat, source: nat, ghost v: seq<seq<Byte>>)
    requires Shows(hs, v) && k < |v| && source < |v|
    modifies hs[k], hs[k].block`uses, hs[source].block`uses
    ensures Shows(hs, v[k := v[source]])
    ensures forall h :: h in hs ==> h.block in old(Blocks(Handles(hs))) || fresh(h.block)
  {
    hide Sharers;
    hs[k].Assign(hs[source], Handles(hs));
  }

  method DoWrite(hs: seq<Data>, k: nat, cursor: nat, bytes: seq<Byte>, ghost v: seq<seq<Byte>>)
    requires Shows(hs, v) && k < |v|
    modifies hs[k], hs[k].block
    ensures Shows(hs, v[k := Overwrite(v[k], cursor, bytes)])
    ensures forall h :: h in hs ==> h.block in old(Blocks(Handles(hs))) || fresh(h.block)
  {
    hide Sharers, Overwrite;
    var stream := new ByteStream(hs[k]);
    stream.offset := cursor;
    stream.Write(bytes, Handles(hs));
  }

  method DoPart(hs: seq<Data>, k: nat, from: int, n: nat, ghost v: seq<seq<Byte>>) returns (hs': seq<Data>)
    requires Shows(hs, v) && k < |v|
    modifies hs[k].block`uses
    ensures Shows(hs', Apply(v, TakePart(k, from, n)))
    ensures forall h :: h in hs' ==> h in hs || fresh(h)
    ensures forall h :: h in hs' ==> h.block in old(Blocks(Handles(hs)))
  {
    hide Sharers, Coherent, Apply, PartOf;
    hs' := hs;
    ApplyPart(v, k, from, n);
    ghost var all := Handles(hs);
    forall h | h in all
      ensures h.Fits()
    {
      Inside(all, h);
    }
    assert |hs| == |v| && forall i, j :: 0 <= i < j < |hs| ==> hs[i] != hs[j];
    var part := hs[k].Subdata(from, n, all);
    assert forall i :: 0 <= i < |hs| ==> hs[i].Fits() && hs[i].View() == v[i];
    hide Shows;
    if part != null {
      hs' := hs + [part];
      ShowsOneMore(hs, part, v, part.View());
    } else {
      ShowsNow(hs, v);
    }
  }

  lemma ApplyPart(v: seq<seq<Byte>>, k: nat, from: int, n: nat)
    requires k < |v|
    ensures Apply(v, TakePart(k, from, n)) ==
            match PartOf(v[k], from, n)
            case Some(bytes) => v + [bytes]
            case None => v
  {
  }

  lemma ShowsNow(hs: seq<Data>, v: seq<seq<Byte>>)
    requires |hs| == |v| && Coherent(Handles(hs))
    requires forall i, j :: 0 <= i < j < |hs| ==> hs[i] != hs[j]
    requires forall i :: 0 <= i < |hs| ==> hs[i].Fits() && hs[i].View() == v[i]
    ensures Shows(hs, v)
  {
  }

  lemma ShowsOneMore(hs: seq<Data>, part: Data, v: seq<seq<Byte>>, bytes: seq<Byte>)
    requires |hs| == |v| && part !in hs && Coherent(Handles(hs) + {part}) && part.Fits() && part.View() == bytes
    requires forall i, j :: 0 <= i < j < |hs| ==> hs[i] != hs[j]
    requires forall i :: 0 <= i < |hs| ==> hs[i].Fits() && hs[i].View() == v[i]
    ensures Shows(hs + [part], v + [bytes])
  {
    hide Coherent;
    assert Handles(hs + [part]) == Handles(hs) + {part};
  }

  /** One operation on real handles does to their values what it does to independent sequences. */
  method Do(hs: seq<Data>, op: Operation, ghost v: seq<seq<Byte>>) returns (hs': seq<Data>)
    requires Shows(hs, v) && Legal(v, op)
    modifies Handles(hs), Blocks(Handles(hs))
    ensures Shows(hs', Apply(v, op))
    ensures forall h :: h in hs' ==> h in hs || fresh(h)
    ensures forall h :: h in hs' ==> h.block in old(Blocks(Handles(hs))) || fresh(h.block)
  {
    assert |hs| == |v|;
    assert hs[op.h] in Handles(hs) && hs[op.h].block in Blocks(Handles(hs));
    hide Shows, Overwrite, Resize, Inserted, Coherent, Sharers;
    hs' := hs;
    match op {
      case InsertAt(k, at, bytes) => DoInsert(hs, k, at, bytes, v);
      case AppendFrom(k, source) => DoAppend(hs, k, source, v);
      case SetLengthTo(k, n) => DoSetLength(hs, k, n, v);
      case ClearIt(k) => DoClear(hs, k, v);
      case AssignFrom(k, source) =>
        assert hs[source] in Handles(hs) && hs[source].block in Blocks(Handles(hs));
        DoAssign(hs, k, source, v);
      case TakePart(k, from, n) => hs' := DoPart(hs, k, from, n, v);
      case WriteAt(k, cursor, bytes) => DoWrite(hs, k, cursor, bytes, v);
    }
  }

  /** Copy-on-write isolation over every run: handles behave as if each owned its bytes. */
  method Execute(hs: seq<Data>, ops: seq<Operation>, ghost v: seq<seq<Byte>>) returns (hs': seq<Data>)
    requires Shows(hs, v) && LegalRun(v, ops)
    modifies Handles(hs), Blocks(Handles(hs))
    ensures Shows(hs', ApplyAll(v, ops))
    decreases |ops|
  {
    hs' := hs;
    if ops != [] {
      hs' := Do(hs, ops[0], v);
      hs' := Execute(hs', ops[1..], Apply(v, ops[0]));
    }
  }
}
