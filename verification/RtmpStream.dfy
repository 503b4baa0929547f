/**
  The server side of one RTMP connection: the handshake, the loop that feeds the
  importer, Set Chunk Size, and the parse thread that joins arriving segments to
  the bytes still unread.
 */
module RtmpStream {
  import opened Bytes
  import opened ChunkFormat
  import opened ChunkMachine
  import opened ChunkImport

  class Stream {
    var handshake: Handshake
    /** Arrived bytes nothing has used yet. */
    var remained: seq<Byte>
    /** Every message handed to a message handler, in order. */
    var received: seq<Message>
    const importer: RtmpImportChunk

    constructor (chunkSize: ChunkSize)
      ensures Valid() && fresh(importer) && fresh(importer.parser)
      ensures Abstract() == Connection(chunkSize) && remained == [] && received == []
    {
      handshake := Uninitialized;
      remained := [];
      received := [];
      importer := new RtmpImportChunk(chunkSize);
    }

    ghost predicate Valid()
      reads this, importer, importer.parser
    {
      importer.Valid() && importer.messageQueue == []
    }

    ghost function Abstract(): State
      reads this, importer, importer.parser
      requires importer.Valid()
    {
      importer.Abstract(true).(handshake := handshake)
    }

    /** The bytes used, 0 for "not enough yet", or a negative error. */
    method ReceiveHandshakePacket(data: seq<Byte>) returns (used: int)
      requires Valid() && handshake != Complete
      modifies this`handshake
      ensures Valid()
      ensures used < 0 ==> Run(old(Abstract()), data).Rejected?
      ensures used == 0 ==> handshake == old(handshake) && Step(Abstract(), data).NeedMore?
      ensures 0 < used ==> used <= |data| && Run(old(Abstract()), data) == Run(Abstract(), data[used..])
    {
      var size := if handshake == Uninitialized then 1 + HANDSHAKE_PACKET_SIZE else HANDSHAKE_PACKET_SIZE;
      if |data| < size {
        return 0;
      }
      ghost var before := Abstract();
      if handshake == Uninitialized {
        if data[0] as int != HANDSHAKE_VERSION {
          return -1;
        }
        handshake := AwaitC2;
      } else {
        handshake := Complete;
      }
      assert Step(before, data) == Advance(Abstract(), size, None);
      return size;
    }

    method ReceiveSetChunkSize(m: Message) returns (ok: bool)
      requires Valid() && handshake == Complete
      requires m.header.completed.typeId == 1
      modifies importer`chunkSize
      ensures Valid()
      ensures var p := m.payload;
              var size :=
                if |p| < 4 then 0
                else 0x100_0000 * (p[0] as int) + 0x1_0000 * (p[1] as int) + 0x100 * (p[2] as int) + p[3] as int;
              ok == (size != 0) && importer.chunkSize == if size != 0 then size else old(importer.chunkSize)
      ensures match Dispatch(old(Abstract()), m)
              case None => !ok
              case Some(size) => ok && Abstract() == old(Abstract()).(chunkSize := size)
    {
      if |m.payload| < 4 {
        return false;
      }
      ReadBEBound(m.payload[..4]);
      BE4(m.payload[..4]);
      Pow256Values();
      var size := ReadBE(m.payload[..4]);
      if size <= 0 {
        return false;
      }
      importer.SetChunkSize(size);
      return true;
    }

    /** Hands out the queued message; Set Chunk Size takes effect at once. */
    method ReceiveChunkMessage() returns (ok: bool)
      requires importer.Valid() && handshake == Complete && |importer.messageQueue| == 1
      modifies this`received, importer
      ensures importer.Valid()
      ensures received == old(received) + [old(importer.messageQueue)[0]]
      ensures old(importer.messageQueue)[0].header.completed.typeId != 1 ==>
        ok && importer.chunkSize == old(importer.chunkSize)
      ensures match Dispatch(old(Abstract()), old(importer.messageQueue)[0])
              case None => !ok
              case Some(size) => ok && Valid() && Abstract() == old(Abstract()).(chunkSize := size)
    {
      var message := importer.GetMessage();
      received := received + [message.value];
      ok := true;
      if message.value.header.completed.typeId == MSGID_SET_CHUNK_SIZE {
        ok := ReceiveSetChunkSize(message.value);
      }
    }

    /** Imports as long as it helps. The result is the number of bytes used, or a negative error. */
    method ReceiveChunkPacket(data: seq<Byte>) returns (used: int, ghost messages: seq<Message>)
      requires Valid() && handshake == Complete
      modifies this`received, importer, importer.parser
      ensures used < 0 ==> Run(old(Abstract()), data).Rejected?
      ensures 0 <= used ==>
        used <= |data| && Valid() && received == old(received) + messages
        && Run(old(Abstract()), data) == Prepend(messages, Run(Abstract(), data[used..]))
        && Step(Abstract(), data[used..]).NeedMore?
    {
      hide Run, Step;
      used, messages := 0, [];
      ghost var start := Abstract();
      assert data[0..] == data;
      PrependNothing(Run(start, data));
      while used < |data|
        invariant 0 <= used <= |data| && Valid() && handshake == Complete
        invariant received == old(received) + messages
        invariant Run(start, data) == Prepend(messages, Run(Abstract(), data[used..]))
        decreases |data| - used
      {
        ghost var rest := data[used..];
        var n, completed := importer.Import(data[used..], true);
        if n < 0 {
          return n, messages;
        }
        assert rest[n..] == data[used + n..];
        if n == 0 {
          return;
        }
        if completed {
          ghost var m := importer.messageQueue[0];
          var ok := ReceiveChunkMessage();
          if !ok {
            return -1, messages;
          }
          PrependEmit(messages, m, Run(Abstract(), data[used + n..]));
          messages := messages + [m];
        }
        used := used + n;
      }
      StepNothing(Abstract());
      assert data[used..] == [];
    }

    /** One attempt on the unread bytes, by the handshake or by the chunk layer. */
    method ReceivePacket(data: seq<Byte>) returns (used: int, ghost messages: seq<Message>)
      requires Valid()
      modifies this`handshake, this`received, importer, importer.parser
      ensures used < 0 ==> Run(old(Abstract()), data).Rejected?
      ensures 0 <= used ==>
        used <= |data| && Valid() && received == old(received) + messages
        && Run(old(Abstract()), data) == Prepend(messages, Run(Abstract(), data[used..]))
      ensures used == 0 ==> Step(Abstract(), data).NeedMore?
    {
      messages := [];
      assert data[0..] == data;
      if handshake == Complete {
        used, messages := ReceiveChunkPacket(data);
      } else {
        used := ReceiveHandshakePacket(data);
        if 0 <= used {
          PrependNothing(Run(Abstract(), data[used..]));
        }
      }
    }

    /** What the parse thread does with one arrived segment. */
    method OnSegment(raw: seq<Byte>) returns (ok: bool)
      requires Valid()
      modifies this, importer, importer.parser
      ensures match Run(old(Abstract()), old(remained) + raw)
              case Rejected => !ok
              case Ran(state, rest, messages) =>
                ok && Valid() && Abstract() == state && remained == rest && received == old(received) + messages
    {
      hide Run, Step;
      remained := remained + raw;
      ghost var goal := Run(Abstract(), remained);
      ghost var messages: seq<Message> := [];
      PrependNothing(goal);
      while true
        invariant Valid() && received == old(received) + messages
        invariant goal == Prepend(messages, Run(Abstract(), remained))
        decreases |remained|
      {
        var used;
        ghost var more;
        used, more := ReceivePacket(remained);
        if used < 0 {
          return false;
        }
        PrependTwice(messages, more, Run(Abstract(), remained[used..]));
        messages := messages + more;
        remained := remained[used..];
        if used == 0 {
          RunStopped(Abstract(), remained);
          assert messages + [] == messages;
          return true;
        }
      }
    }

    /** The parse thread on the segments TCP happened to deliver: their boundaries leave no trace. */
    method OnThreadProc(segments: seq<seq<Byte>>) returns (ok: bool)
      requires Valid() && Step(Abstract(), remained).NeedMore?
      modifies this, importer, importer.parser
      ensures match Run(old(Abstract()), old(remained) + Concat(segments))
              case Rejected => !ok
              case Ran(state, rest, messages) =>
                ok && Valid() && Abstract() == state && remained == rest && received == old(received) + messages
    {
      hide Run, Step;
      SegmentationIndependence(Abstract(), remained, segments);
      ghost var start := Feed(Abstract(), remained, segments);
      ghost var messages: seq<Message> := [];
      PrependNothing(start);
      var i := 0;
      while i < |segments|
        invariant 0 <= i <= |segments| && Valid()
        invariant received == old(received) + messages
        invariant start == Prepend(messages, Feed(Abstract(), remained, segments[i..]))
      {
        ghost var s, rest := Abstract(), remained;
        assert segments[i..][0] == segments[i] && segments[i..][1..] == segments[i + 1..];
        ok := OnSegment(segments[i]);
        if !ok {
          return;
        }
        ghost var ran := Run(s, rest + segments[i]);
        PrependTwice(messages, ran.messages, Feed(Abstract(), remained, segments[i + 1..]));
        messages := messages + ran.messages;
        i := i + 1;
      }
      assert messages + [] == messages;
      return true;
    }
  }

  lemma PrependEmit(ms: seq<Message>, m: Message, r: RunResult)
    ensures Prepend(ms, Emit(Some(m), r)) == Prepend(ms + [m], r)
  {
    if r.Ran? { assert ms + ([m] + r.messages) == ms + [m] + r.messages; }
  }

  lemma PrependTwice(a: seq<Message>, b: seq<Message>, r: RunResult)
    ensures Prepend(a, Prepend(b, r)) == Prepend(a + b, r)
  {
    if r.Ran? { assert a + (b + r.messages) == a + b + r.messages; }
  }
}
