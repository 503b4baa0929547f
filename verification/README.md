# A model of an RTMP ingest and forwarding engine

The engine receives RTMP over TCP, reassembles messages from chunks, turns them into media samples, and
forwards them to publishers as RTMP chunks or as an MPEG transport stream. Its codecs are written by hand. This
project models them in Dafny and proves what they keep over whole runs: which inputs come back unchanged, which do
not, and that nothing depends on how bytes happened to arrive.

| files | what they model |
|---|---|
| `ChunkFormat`, `ChunkMachine`, `ChunkImport`, `RtmpStream` | the resumable chunk parser, the importer and the connection, proved against a machine of small steps |
| `ChunkExport`, `ChunkRoundTrip`, `ChunkReassembly`, `ChunkTimestamps` | the exporter, export followed by import, reassembly byte by byte, timestamps over header runs |
| `ChunkWire` | what the bytes of chunk headers say, repeat and do, in numbers |
| `CowData` | handles that share byte vectors and leave them on write, and the byte stream cursor |
| `BitFields`, `BitWriters`, `BitReaders` | bit strings, the two bit writers, the two bit readers |
| `Amf0` | AMF0 documents, their recursive encoder and decoder |
| `Crc`, `TsPackets`, `Pes`, `Psi`, `TsStreams`, `SampleConversion`, `TsMuxer` | CRC-32, transport packets and a standard depacketizer, PES headers, PAT and PMT, the muxer |
| `Md5` | streaming MD5 over any block transform |
| `NalUnits`, `NalFraming`, `AvcRecord`, `H264Converter` | start code scanners, AVCC and Annex B, the decoder configuration record |
| `Adts` | AudioSpecificConfig and ADTS |
| `Publish`, `FanOut` | from messages to publisher callbacks, and the queues behind them |
| `Bytes` | bytes, integers in both byte orders, and facts about sequences and division |

Where the engine works by changing things in place, so does the model: classes with the engine's fields, arrays that
are filled through a moving position, loops with the engine's exits. Each such method is tied to a function of its
inputs or of the old state, and the lemmas are about these functions. What such a function gives is stated once more
byte by byte, in numbers, at the end of its module. Integers are unbounded; where the engine
truncates or wraps, the model says so (`% 0x1_0000_0000`, `Low`, `Wrapped`, `LengthArgument`).

Several results have the form "if and only if", because the engine's own guarantee has a limit. The limits are:

* A message of several chunks needs a chunk stream id below 320: the importer shifts the third byte of the basic
  header by 16 bits (common/src/media/rtmp/rtmp_import_chunk.cpp:263), the exporter by 8
  (common/src/media/rtmp/rtmp_mux_util.cpp:273).
* The comment at common/src/media/rtmp/rtmp_import_chunk.cpp:107-148 describes a window of 2^31 - 1 for late
  timestamps; the code uses 2^30. The model follows the code.
* Type 0 headers alone keep their times across one rollover only: the header after the first one past it is rolled
  over once more (common/src/media/rtmp/rtmp_import_chunk.cpp:107-148).
* A PES packet of audio has 16 bits for its length, and from 65528 bytes on it wraps
  (common/src/media/mux/snymuxerImplmpegtshelper.cc:87-89), so that a receiver cuts or refuses the sample.
* Padding packets announce a payload and have none, which ISO/IEC 13818-1 does not allow
  (common/src/media/mux/snymuxerImplmpegtshelper.cc:71-76): the output is readable exactly as long as none is needed.
* The clock is computed at 27 MHz in 64 bits (common/src/media/mux/snymuxerImplmpegtshelper.cc:131).
* AMF0 leaves no trace of an empty object or array and refuses an empty string at the end of a document.
* A serialized decoder configuration record has 512 bytes, five bits for the count of SPS, and no form for an empty set.
* An ADTS frame has 13 bits for its length.
* Audio alone is never published, although common/src/source/rtmp/rtmp_stream.cpp:764-768 intends it: cached audio
  messages increase the count of video messages (common/src/source/rtmp/rtmp_stream.cpp:941).
* The check in front of a bit read counts whole bytes and not the bits already used
  (common/src/core/bit_reader.h:86): it is exact only on a byte boundary.

`dafny verify dfyconfig.toml` checks everything.

## Model

| member | source | states |
|---|---|---|
| ChunkFormat.GetChunkType | common/src/media/rtmp/rtmp_chunk_parser.cpp:94-111 | the two top bits name the header form, for every byte |
| ChunkMachine.StepMonotone | common/src/media/rtmp/rtmp_chunk_parser.cpp:12-92 | a parser step that can decide decides the same however many bytes follow: a refusal or an advance is never taken back |
| ChunkMachine.RunQuiescent | common/src/media/rtmp/rtmp_import_chunk.cpp:17-105 | a run stops only where no further step is possible with the bytes at hand |
| ChunkMachine.RunSplit | common/src/media/rtmp/rtmp_import_chunk.cpp:17-105 | stopping anywhere for lack of bytes and resuming when they come is the same run as having had all bytes at once |
| ChunkMachine.SegmentationIndependence | common/src/source/rtmp/rtmp_stream.cpp:1424-1477 | feeding any list of TCP segments one by one gives the same messages, chunk map, chunk size, parser stage and unparsed rest, or the same refusal, as one run over their concatenation |
| ChunkMachine.CutsAgree | common/src/source/rtmp/rtmp_stream.cpp:1424-1477 | two ways of cutting the same bytes into segments cannot be told apart, Set Chunk Size messages in the middle included |
| ChunkMachine.ChunksStartAfterHandshake | common/src/source/rtmp/rtmp_stream.cpp:462-558 | the chunk layer starts exactly at byte 3073 of a connection whose first byte is 3; any other version is refused |
| ChunkImport.RtmpChunkParser.ParseBasicHeader | common/src/media/rtmp/rtmp_chunk_parser.cpp:140-221 | the resumable basic header stage agrees with the step machine and remembers its place |
| ChunkImport.RtmpChunkParser.ParseMessageHeader | common/src/media/rtmp/rtmp_chunk_parser.cpp:223-307 | the resumable message header stage agrees with the step machine |
| ChunkImport.RtmpChunkParser.ParseExtendedTimestamp | common/src/media/rtmp/rtmp_chunk_parser.cpp:309-355 | the resumable extended timestamp stage agrees with the step machine, type 3 headers included |
| ChunkImport.RtmpChunkParser.Parse | common/src/media/rtmp/rtmp_chunk_parser.cpp:12-92 | the parse loop leaves the parser where the run over the same bytes is, for every place it may have stopped before |
| ChunkImport.RtmpImportChunk.CollectPayload | common/src/media/rtmp/rtmp_import_chunk.cpp:283-344 | the copying loop with its moving position delivers the payload without its interior headers, or nothing when one of them does not match or the length is wrong |
| ChunkImport.RtmpImportChunk.ImportHeader | common/src/media/rtmp/rtmp_import_chunk.cpp:17-82 | parsing and completing a header keeps the importer in step with the run, map updates included |
| ChunkImport.RtmpImportChunk.Import | common/src/media/rtmp/rtmp_import_chunk.cpp:17-105 | each call uses a prefix of its bytes, queues at most one message, and what remains runs exactly as the original bytes would have |
| RtmpStream.Stream.ReceiveHandshakePacket | common/src/source/rtmp/rtmp_stream.cpp:462-558 | uses one whole handshake packet, waits for more bytes, or refuses the version, and what remains runs as the original bytes would have |
| RtmpStream.Stream.ReceiveSetChunkSize | common/src/source/rtmp/rtmp_stream.cpp:649-661 | a message of type 1 sets the chunk size to the number in the first four bytes of its payload, most significant first; zero is refused and leaves it; it takes effect for the very next chunk |
| RtmpStream.Stream.ReceiveChunkMessage | common/src/source/rtmp/rtmp_stream.cpp:606-647 | the queued message is handed on; one of any other type than 1 leaves the chunk size alone |
| RtmpStream.Stream.ReceiveChunkPacket | common/src/source/rtmp/rtmp_stream.cpp:560-604 | consumes chunks until no message is complete, and is the run over the bytes given |
| RtmpStream.Stream.OnSegment | common/src/source/rtmp/rtmp_stream.cpp:1424-1477 | one arrived segment, joined to the unparsed rest, is run to quiescence |
| RtmpStream.Stream.OnThreadProc | common/src/source/rtmp/rtmp_stream.cpp:1424-1477 | after any list of segments the connection is in the state of one run over their concatenation: TCP boundaries leave no trace in messages, map, chunk size or consumption |
| ChunkExport.WeaveLength | common/src/media/rtmp/rtmp_mux_util.cpp:396-420 | the chunked body is its length plus one separator for every full chunk that is followed by another |
| ChunkExport.SizesAgree | common/src/media/rtmp/rtmp_mux_util.cpp:396-479 | the size formula of the exporter, the bytes it really writes, and the size the importer expects are the same number, so the export buffer is never outgrown |
| ChunkExport.GetChunkBasicHeaderRaw | common/src/media/rtmp/rtmp_mux_util.cpp:258-293 | writes the 1, 2 or 3 byte form into the buffer at the given place and returns where it ends |
| ChunkExport.GetChunkHeaderRaw | common/src/media/rtmp/rtmp_mux_util.cpp:295-394 | writes the whole header in place, extended timestamp included |
| ChunkExport.WriteBlocks | common/src/media/rtmp/rtmp_mux_util.cpp:440-478 | the copying loop writes every byte of the body once, in order, with a type 3 header before each chunk but the first |
| ChunkExport.GetChunkDataRaw | common/src/media/rtmp/rtmp_mux_util.cpp:422-479 | fills the buffer with the chunked body and returns exactly how far |
| ChunkExport.RtmpExportChunk.GetStream | common/src/media/rtmp/rtmp_export_chunk.cpp:34-53 | finds or creates the entry of a chunk stream and leaves all others alone |
| ChunkExport.RtmpExportChunk.ExportStreamData | common/src/media/rtmp/rtmp_export_chunk.cpp:105-156 | returns the chunks of a message, in a buffer sized by the announced length, which is enough for any body that is not longer; changes only the state of its own chunk stream; a reserved chunk stream is refused without effect |
| ChunkRoundTrip.ReadBasicRaw | common/src/media/rtmp/rtmp_mux_util.cpp:258-293 | every chunk stream id from 2 to 65599 written by the exporter is parsed back, in all three sizes |
| ChunkRoundTrip.ReadMessageRaw | common/src/media/rtmp/rtmp_mux_util.cpp:295-394 | every type 0, 1 and 2 header written is parsed back field by field |
| ChunkRoundTrip.StripWeave | common/src/media/rtmp/rtmp_import_chunk.cpp:283-339 | stripping the separators of a chunked body gives the body, for every chunk size and body |
| ChunkRoundTrip.StripMismatch | common/src/media/rtmp/rtmp_import_chunk.cpp:308-325 | a separator that differs from the expected type 3 header makes the message be dropped |
| ChunkRoundTrip.FinalizeExported | common/src/media/rtmp/rtmp_import_chunk.cpp:239-344 | an exported body is reassembled if and only if it fits one chunk or its chunk stream id is below 320: from there on importer and exporter disagree on the third byte of the basic header |
| ChunkRoundTrip.TimestampRecovered | common/src/media/rtmp/rtmp_import_chunk.cpp:150-237 | the timestamp is recovered in exactly these cases: below 2^24 in a first header; with a delta header, from 0 to 2^24 - 1 after the previous one; with a full header, below 2^24 and within the window, or outside it and on the next turn of 2^31 |
| ChunkRoundTrip.MessageImported | common/src/media/rtmp/rtmp_export_chunk.cpp:55-156 | importing the chunks of one message keeps importer and exporter in step whatever the header form |
| ChunkRoundTrip.ExportThenImport | common/src/media/rtmp/rtmp_export_chunk.cpp:105-156 | for every list of messages over any mix of chunk streams, with or without compressed headers and for every chunk size: everything received is identical to what was sent (chunk stream, timestamp, type, stream id, body) if and only if every message fits, a condition checkable per message before it is sent |
| ChunkRoundTrip.FreshInSync | common/src/media/rtmp/rtmp_export_chunk.cpp:15-22 | a new importer and a new exporter start in step |
| ChunkReassembly.OriginClosed | common/src/media/rtmp/rtmp_import_chunk.cpp:283-339 | the closed form of where the i-th payload byte stands in the raw bytes |
| ChunkReassembly.HeaderPositionClosed | common/src/media/rtmp/rtmp_import_chunk.cpp:283-339 | the closed form of where the k-th interior type 3 header stands |
| ChunkReassembly.WireLength | common/src/media/rtmp/rtmp_import_chunk.cpp:273-281 | the expected size is the length plus one interior header for each chunk boundary strictly inside the message |
| ChunkReassembly.Reassembly | common/src/media/rtmp/rtmp_import_chunk.cpp:283-339 | stripping succeeds if and only if all interior headers match, reads exactly the expected number of raw bytes, and every payload byte is the raw byte at its place |
| ChunkReassembly.MessageComplete | common/src/media/rtmp/rtmp_import_chunk.cpp:283-344 | a message is delivered if and only if all its interior headers match, and then with exactly its announced length |
| ChunkReassembly.EmptyMessageNeverCompletes | common/src/media/rtmp/rtmp_import_chunk.cpp:239-344 | a message of length zero is never delivered |
| ChunkWire.BasicRead | common/src/media/rtmp/rtmp_chunk_parser.cpp:140-221 | on the bytes: form, size and chunk stream id of a basic header, or a wait |
| ChunkWire.MessageRead | common/src/media/rtmp/rtmp_chunk_parser.cpp:223-307 | on the bytes: eleven, seven, three or no bytes of message header, time and length of three bytes most significant first, stream id of four least significant first |
| ChunkWire.ExtendedRead | common/src/media/rtmp/rtmp_chunk_parser.cpp:309-355 | four more bytes follow a field of 16777215, and behind a type 3 header exactly when the header before on its chunk stream had them |
| ChunkWire.Inherits | common/src/media/rtmp/rtmp_import_chunk.cpp:150-215 | what each form of header says itself and what it takes over: type 3 everything, with the delta added to the timestamp, type 2 all but the delta, type 1 the message stream only |
| ChunkWire.HeaderCompleted | common/src/media/rtmp/rtmp_import_chunk.cpp:150-281 | a header is refused without one before it unless it is of type 0, above 20971520 bytes, or with 2^31 interior headers or more; otherwise it is remembered with the number of bytes its message takes |
| ChunkWire.InteriorHeader | common/src/media/rtmp/rtmp_import_chunk.cpp:239-271 | the bytes an interior chunk must start with, by chunk stream id |
| ChunkWire.MessageTakesEffect | common/src/source/rtmp/rtmp_stream.cpp:560-661 | on a live connection a message of type 1 sets the chunk size for everything behind it to the number it carries, or is refused; any other message leaves it |
| ChunkWire.Type3Repeats | common/src/media/rtmp/rtmp_import_chunk.cpp:205-214 | a message that starts with a type 3 header behind one of its chunk stream has the same length, type and stream id and a timestamp one delta later, with four more bytes exactly when the one before had them, and is delivered if and only if it is one chunk or its id is below 320 |
| ChunkWire.BehindMessage | common/src/media/rtmp/rtmp_import_chunk.cpp:205-214 | the same for two messages in sequence on the wire |
| ChunkWire.ExportedBytes | common/src/media/rtmp/rtmp_export_chunk.cpp:55-156 | every byte of an exported message: which fields are left out, the time or delta of 24 bits, and where the extended timestamp is repeated |
| ChunkTimestamps.DeltaIsCurrent | common/src/media/rtmp/rtmp_import_chunk.cpp:150-237 | the stored delta is the one a type 3 header reuses |
| ChunkTimestamps.CongruentToNominal | common/src/media/rtmp/rtmp_import_chunk.cpp:107-215 | after any run of headers the timestamp is congruent, modulo 2^31, to the last type 0 timestamp plus all deltas since |
| ChunkTimestamps.NeverDropsFar | common/src/media/rtmp/rtmp_import_chunk.cpp:107-148 | no header moves the timestamp back by 2^30 or more |
| ChunkTimestamps.Bounded | common/src/media/rtmp/rtmp_import_chunk.cpp:107-215 | after n headers the timestamp is at most n times (2^31 + 2^32) and not negative |
| ChunkTimestamps.NoOverflow | common/src/media/rtmp/rtmp_import_chunk.cpp:107-215 | so 64 bits are enough for 2^30 headers |
| ChunkTimestamps.StaysBehind | common/src/media/rtmp/rtmp_import_chunk.cpp:107-148 | a smaller timestamp is taken as late if and only if it is less than 2^30 behind |
| ChunkTimestamps.StaysAhead | common/src/media/rtmp/rtmp_import_chunk.cpp:107-148 | a larger timestamp is never taken as late |
| ChunkTimestamps.WindowExample | common/src/media/rtmp/rtmp_import_chunk.cpp:107-148 | a timestamp inside the window the comment describes, 2^31 - 1, that the code does not take as late |
| ChunkTimestamps.RebuiltExactly | common/src/media/rtmp/rtmp_import_chunk.cpp:107-148 | a run of type 0 headers alone, whose sender cuts true times to 31 or 32 bits, is rebuilt if and only if the first time is on the first turn and every next one is either near the last by its own low part and on the first turn, or on the turn of 2^31 right behind it; for any true times |
| ChunkTimestamps.RebuiltOnFirstTurn | common/src/media/rtmp/rtmp_import_chunk.cpp:107-148 | when the times never go back and go on by less than 2^30, the run is rebuilt if and only if no time but the last has left the first turn |
| ChunkTimestamps.FirstWrongTime | common/src/media/rtmp/rtmp_import_chunk.cpp:107-148 | the first time of such a run that is not rebuilt comes out 2^31 too large |
| ChunkTimestamps.RolledTwice | common/src/media/rtmp/rtmp_import_chunk.cpp:107-148 | an input: 10 ms past the rollover is found, and the 50 ms behind it is rolled over once more |
| CowData.Data.Copy | common/src/core/data.cpp:36-44 | the copy constructor makes a sound handle if and only if the source has offset zero |
| CowData.Data.Leave | common/src/core/data.cpp:154-195 | leaving a shared vector changes nothing any other handle sees, and the use counts stay right |
| CowData.Data.Detach | common/src/core/data.cpp:154-195 | afterwards the handle is alone on a vector that holds just its bytes |
| CowData.Data.SetLength | common/src/core/data.h:100-109 | cuts or extends with zeros this handle only, byte by byte |
| CowData.Data.Insert | common/src/core/data.cpp:223-252 | the first bytes of this handle up to the place asked for, then the new ones, then the rest, a negative place counted from the end; refuses a place past the end; no other handle notices |
| CowData.Data.AppendData | common/src/core/data.cpp:258-264 | appends the bytes of another handle |
| CowData.Data.Clear | common/src/core/data.cpp:213-221 | empties this handle only |
| CowData.Data.Assign | common/src/core/data.cpp:114-124 | joins the vector of another handle; every handle keeps its bytes |
| CowData.Data.Subdata | common/src/core/data.cpp:55-112 | a part shares the vector and shows exactly the slice asked for, negative offsets counted from the end; a part that does not fit is refused |
| CowData.ByteStream.Write | common/src/core/byte_stream.cpp:32-53 | the bytes stand from the cursor on, zeros in a gap before them, everything else as it was, for this handle only |
| CowData.ByteStream.SetOffset | common/src/core/byte_stream.cpp:82-108 | moves the cursor; moving it to the end or beyond sets the length of this handle, padded with zeros, and of no other |
| CowData.ByteStream.Read | common/src/core/byte_stream.h:122-128 | what is read and what is left are together what was unread before, and as much is read as asked for or as there is |
| CowData.ByteStream.Skip | common/src/core/byte_stream.h:100-102 | moves over as many bytes as a read would have given |
| CowData.ByteStream.PopOffset | common/src/core/byte_stream.cpp:116-128 | goes back to the place last pushed, growing the data as moving the cursor there does; with nothing pushed it fails and nothing moves |
| CowData.ByteStream.PushReadPop | common/src/core/byte_stream.cpp:110-128 | reading between a push and a pop leaves no trace: cursor, pushed places and bytes are as before |
| CowData.Do | common/src/core/data.cpp:55-252 | one operation changes its own handle as the plain sequence operation would and every other handle not at all |
| CowData.Execute | common/src/core/data.cpp:55-252 | over every run of operations on any number of handles that share vectors, each handle shows what it would if it had owned its bytes all along |
| BitFields.BitsOfNumber | common/src/core/bitstream.cpp:180-194 | a bit string is the bits of its number |
| BitFields.BitAt | common/src/core/bit_writer.cpp:17-46 | each bit is a binary digit of the number, the highest first |
| BitFields.GroupNumber | common/src/core/bit_writer.cpp:17-46 | fields that fill whole bytes are the bytes of one number, most significant first |
| BitFields.FieldOfBytes | common/src/core/bit_reader.h:76-103 | a field read from bytes is a group of binary digits of the number the bytes make |
| BitFields.UnpackPack | common/src/core/bit_writer.cpp:17-46 | packing loses nothing but adds the zeros that fill the last byte |
| BitFields.PackUnpack | common/src/core/bit_writer.cpp:17-46 | every byte string is the packing of its bits |
| BitFields.ReadBack | common/src/core/bit_reader.h:76-103 | whatever follows, reading the widths of a field list gives the low bits of its values |
| BitFields.ShrDivides | common/src/core/bit_writer.cpp:31-44 | shifts and masks are quotients and remainders, for every number and width |
| BitWriters.BitWriter.Write | common/src/core/bit_writer.cpp:17-46 | appends exactly the low bits of the value, or nothing at all when they do not fit the buffer |
| BitWriters.BitWriter.GetData | common/src/core/bit_writer.cpp:12-16 | the bytes are what was written, filled up with zeros |
| BitWriters.BitWriter.WriteFields | common/src/core/bit_writer.cpp:17-46 | a list of fields is written one after the other without a gap |
| BitWriters.BitSink.WriteByte | common/src/core/bitstream.cpp:327-371 | appends a byte, growing the buffer without changing what it holds, or drops it at the limit |
| BitWriters.BitSink.WriteBit | common/src/core/bitstream.cpp:373-383 | appends one bit across byte boundaries; a byte that is completed when there is no room is dropped |
| BitWriters.BitSink.WriteInt | common/src/core/bitstream.cpp:385-393 | shifting out sign bits appends the low bits of the value, most significant first; of a write that overflows, exactly the bytes that fit and the bits of the unfinished byte are kept |
| BitWriters.BitSink.Align | common/src/core/bitstream.cpp:537-556 | fills up the last byte with zeros and nothing else; no bit is pending afterwards, and a byte without room is dropped |
| BitWriters.BitSink.GetContent | common/src/core/bitstream.cpp:586-640 | hands out exactly the bytes written and resets the stream |
| BitReaders.BitReader.ReadBits | common/src/core/bit_reader.h:76-103 | reads the next bits as a number and moves on by as many, across bytes; a refused read changes nothing |
| BitReaders.BitReader.ReadBit | common/src/core/bit_reader.h:136-146 | reads one bit, refused exactly at the end of the data |
| BitReaders.BitReader.ReadBytes | common/src/core/bit_reader.h:47-64 | reads a big-endian number from the current byte whatever the bit offset, or refuses and changes nothing; the reader stays within its data unless it ends off a byte boundary behind the last byte |
| BitReaders.BitReader.ReadFields | common/src/core/bit_reader.h:76-103 | reads one number for each width |
| BitReaders.BitReader.InRangeIsAdmitted | common/src/core/bit_reader.h:86-88 | no read that stays within the data is refused |
| BitReaders.BitReader.CheckIsExact | common/src/core/bit_reader.h:86-88 | the length check admits only reads within the data if and only if the reader is on a byte boundary or at the end |
| BitReaders.BitSource.ReadBit | common/src/core/bitstream.cpp:156-172 | gives the next bit, and false bits past the end |
| BitReaders.BitSource.ReadInt | common/src/core/bitstream.cpp:174-194 | reads the next bits as a number |
| BitReaders.WriteBoth | common/src/core/bitstream.cpp:385-393 | the byte-at-a-time and the bit-at-a-time writer produce the same bytes for every list of fields that fit their widths |
| BitReaders.ReadBoth | common/src/core/bit_reader.h:76-146 | both readers find every value in those bytes |
| Amf0.DecodeEncoded | common/src/media/rtmp/amf_document.cpp:498-640 | a value without empty containers decodes to itself from exactly its own bytes, whatever follows, at any nesting depth |
| Amf0.DecodeEncodedPairs | common/src/media/rtmp/amf_document.cpp:699-822 | the same for the items of a container |
| Amf0.UnfilledIsLost | common/src/media/rtmp/amf_document.cpp:699-822 | a value that hides an empty container is never decoded to itself |
| Amf0.EmptyTextIsLost | common/src/media/rtmp/amf_document.cpp:591-594 | an empty string at the very end of a document is refused by the decoder |
| Amf0.DocumentRoundTrip | common/src/media/rtmp/amf_document.cpp:1211-1258 | a document decodes to itself and uses every byte if and only if no container in it is empty and it does not end with an empty string |
| Amf0.EncodeProperty | common/src/media/rtmp/amf_document.cpp:498-544 | writing through the moving pointer produces the encoding and touches nothing in front of it |
| Amf0.EncodeObjectArray | common/src/media/rtmp/amf_document.cpp:699-749 | the same for objects and arrays; an empty one leaves no trace |
| Amf0.EncodeProperties | common/src/media/rtmp/amf_document.cpp:1211-1222 | a whole document is written from the start of the buffer |
| Amf0.DecodeProperty | common/src/media/rtmp/amf_document.cpp:549-640 | the recursive decoder is the decoding function, failures included |
| Amf0.DecodeItems | common/src/media/rtmp/amf_document.cpp:771-818 | the reading loop of a container is the decoding function, whatever its items |
| Amf0.DecodeProperties | common/src/media/rtmp/amf_document.cpp:1227-1258 | the document loop keeps every value before the first failure |
| Amf0.EncodeAndDecode | common/src/media/rtmp/amf_document.cpp:1211-1258 | encoder and decoder in sequence: same document, same size, if and only if it survives |
| Amf0.ValueBytes | common/src/media/rtmp/amf_document.cpp:498-544 | the bytes of every kind of value, its marker first |
| Amf0.ItemBytes | common/src/media/rtmp/amf_document.cpp:699-749 | an item is its name behind a length of two bytes, and its value |
| Amf0.ValueRead | common/src/media/rtmp/amf_document.cpp:549-640 | what the decoder makes of any bytes by the first of them, refusals included |
| Amf0.TextEnds | common/src/media/rtmp/amf_document.cpp:591-594 | a text that is read ends at its first zero byte |
| Amf0.NamelessRead | common/src/media/rtmp/amf_document.cpp:771-818 | an item with a name of length zero is skipped |
| Amf0.LongNameRead | common/src/media/rtmp/amf_document.cpp:771-818 | a name of 128 bytes or more, or one that is not all there, is refused |
| Amf0.NamedRead | common/src/media/rtmp/amf_document.cpp:771-818 | any other item gives its name and its value in front of the rest |
| Amf0.DocumentRead | common/src/media/rtmp/amf_document.cpp:1211-1258 | a document is its values one after the other, and reading stops at the first that fails and keeps those before it |
| Crc.EntryIsDivision | common/src/media/mux/snymuxerImplmpegtshelper.h:46-75 | each of the 256 table entries is its index, entered at the top of the register and shifted through bit by bit |
| Crc.StepIsDivision | common/src/media/mux/snymuxerImplmpegtshelper.cc:9-15 | one table look-up is eight steps of division by 0x04C11DB7 |
| Crc.ComputeCRC | common/src/media/mux/snymuxerImplmpegtshelper.cc:9-15 | the table-driven loop computes the bit-serial remainder of every input |
| Crc.ResidueZero | common/src/media/mux/snymuxerImplmpegts.cc:169-173 | a message followed by its own CRC, most significant byte first, leaves no remainder |
| Crc.CheckValue | common/src/media/mux/snymuxerImplmpegtshelper.cc:9-15 | the remainder of the digits 1 to 9 is 0376E6E7, the published check value |
| TsPackets.PcrParsed | common/src/media/mux/snymuxerImplmpegtshelper.cc:53-63 | base and extension of the clock are read back from the six bytes |
| TsPackets.PacketParsed | common/src/media/mux/snymuxerImplmpegtshelper.cc:16-69 | every packet is 188 bytes, and a receiver with the length limits of the standard finds its PID, unit start, counter, clock and payload if and only if the payload is not empty, for every payload size and with or without a clock; a packet without payload is refused |
| TsPackets.StreamParsed | common/src/media/mux/snymuxerImplmpegtshelper.cc:16-69 | any sequence of packets is a whole number of 188-byte packets, and is read back in order if and only if every packet carries a payload |
| TsPackets.RunIsContinuous | common/src/media/mux/snymuxerImplmpegtshelper.cc:43-47 | over every run the counter of each PID goes up by one with each packet |
| TsPackets.ContinuousPadding | common/src/media/mux/snymuxerImplmpegtshelper.cc:71-76 | padding keeps the counters in step and ends on a multiple of 16 |
| TsPackets.ContinuousIsInStep | common/src/media/mux/snymuxerImplmpegtshelper.cc:43-47 | so a receiver sees 0, 1, ... 15, 0, ... on each PID |
| TsPackets.ChopIsOneUnit | common/src/media/mux/snymuxerImplmpegtshelper.cc:126-142 | the packets of a payload unit are reassembled to exactly that unit, and no other PID is affected |
| TsPackets.PaddingIsNoUnit | common/src/media/mux/snymuxerImplmpegtshelper.cc:71-76 | the fields of padding packets add no payload to any unit |
| TsPackets.RunIsReassembled | common/src/media/mux/snymuxerImplmpegtshelper.cc:78-145 | packet by packet, over every interleaving of units and padding, each PID gives back exactly the units it was given, in order, each with its clock |
| TsPackets.AcceptedIfQuiet | common/src/media/mux/snymuxerImplmpegtshelper.cc:16-76 | over every run, what is written is accepted by a strict receiver if and only if each padding found its counter already at a multiple of 16, so that no padding packet was written |
| TsPackets.PaddingRefused | common/src/media/mux/snymuxerImplmpegtshelper.cc:71-76 | an input: any packet with its clock, and then padding, is refused, as the padding packets announce a payload beside an adaptation field of 183 bytes |
| TsPackets.QuietClock | common/src/media/mux/snymuxerImplmpegtshelper.cc:53-63 | without padding packets only the packet that starts a unit has a clock |
| TsPackets.Conservation | common/src/media/mux/snymuxerImplmpegtshelper.cc:16-145 | over every interleaving: accepted by a strict receiver if and only if no padding packet was written, and then whole packets, counters in step, clocks where units start, every unit of every PID recovered with its clock |
| TsPackets.PcrBytes | common/src/media/mux/snymuxerImplmpegtshelper.cc:53-63 | the six bytes of a clock as one number |
| TsPackets.PacketBytes | common/src/media/mux/snymuxerImplmpegtshelper.cc:16-69 | every byte of a packet, stuffing included |
| TsPackets.PaddingIs | common/src/media/mux/snymuxerImplmpegtshelper.cc:71-76 | padding is packets without payload and with a clock of zero, as many as the counter lacks to a multiple of 16 |
| Pes.PiecesJoined | common/src/media/mux/snymuxerImplmpegtshelper.cc:107-122 | the three pieces of a time stamp make up its low 33 bits |
| Pes.RoundTrip | common/src/media/mux/snymuxerImplmpegtshelper.cc:78-124 | what a receiver that honours the length field gets from a PES packet, for all inputs: stream id, times modulo 2^33, and for audio as much data as a length reduced to 16 bits allows, or nothing |
| Pes.DataRecovered | common/src/media/mux/snymuxerImplmpegtshelper.cc:87-89 | exactly the data comes back if and only if the packet is video or its length fits 16 bits |
| Pes.LongAudioRefused | common/src/media/mux/snymuxerImplmpegtshelper.cc:87-89 | an input: 65528 bytes of audio make a length of zero, which is only allowed for video |
| Pes.LongAudioCut | common/src/media/mux/snymuxerImplmpegtshelper.cc:87-89 | an input: 70000 bytes of audio are cut to 4464 |
| Pes.HeaderBytes | common/src/media/mux/snymuxerImplmpegtshelper.cc:78-124 | every byte of a PES header: start code, stream id, length, flags, and the time stamps as numbers of 40 bits |
| Psi.SectionRead | common/src/media/mux/snymuxerImplmpegts.cc:148-230 | a section is found by its length, its CRC leaves no remainder, and only stuffing follows to the end of the packet |
| Psi.PatRead | common/src/media/mux/snymuxerImplmpegts.cc:148-174 | the PAT names one program and the PID of its map |
| Psi.PmtRead | common/src/media/mux/snymuxerImplmpegts.cc:176-230 | a PMT that fits one packet gives the clock PID and every stream with its type and PID, in order |
| Psi.PatBytes | common/src/media/mux/snymuxerImplmpegts.cc:148-174 | the twelve bytes of the PAT in front of its CRC |
| Psi.PmtBytes | common/src/media/mux/snymuxerImplmpegts.cc:176-230 | the bytes of the PMT up to its streams; the clock PID is that of the last stream |
| Psi.EntryBytes | common/src/media/mux/snymuxerImplmpegts.cc:176-230 | the five bytes of a stream in the PMT |
| Psi.UnitBytes | common/src/media/mux/snymuxerImplmpegts.cc:148-230 | pointer, section, CRC and ones fill 184 bytes |
| TsStreams.WriteAdaptation | common/src/media/mux/snymuxerImplmpegtshelper.cc:50-68 | the adaptation field has exactly the asked size, stuffing included |
| TsStreams.Stream.WritePacketHeader | common/src/media/mux/snymuxerImplmpegtshelper.cc:16-69 | clamps the payload to the room left, fills up what is missing, and steps the 32-bit counter |
| TsStreams.Stream.WriteMPEG2PacketCCTO16 | common/src/media/mux/snymuxerImplmpegtshelper.cc:71-76 | the padding loop ends, on a counter that is a multiple of 16 |
| TsStreams.WritePesHeader | common/src/media/mux/snymuxerImplmpegtshelper.cc:78-124 | the bit-by-bit header writing produces the header that is read back |
| TsStreams.Stream.WritePES | common/src/media/mux/snymuxerImplmpegtshelper.cc:126-145 | the cutting loop ends and writes the packets of header and data, the clock in the first one only |
| TsStreams.Stream.WriteSample | common/src/media/mux/snymuxerImplmpegtshelper.cc:154-192 | audio with one time, video behind an access unit delimiter with both |
| TsMuxer.AssignDistinct | common/src/media/mux/snymuxerImplmpegts.cc:43-88 | with at most 33 streams every stream gets a PID of its own, apart from the two table PIDs |
| TsMuxer.BuildUnit | common/src/media/mux/snymuxerImplmpegts.cc:148-230 | pointer, section, CRC and stuffing fill one packet exactly |
| TsMuxer.SampleRecovered | common/src/media/mux/snymuxerImplmpegtshelper.cc:154-192 | a receiver that honours lengths finds the bytes of a sample and its times in its payload unit if and only if the sample is video or its audio is below 65528 bytes |
| TsMuxer.ClockRecovered | common/src/media/mux/snymuxerImplmpegtshelper.cc:131-131 | a receiver finds the sample's time, modulo 2^33, in the clock of its first packet if and only if the time at 27 MHz stays below 2^64 within its turn of 2^62 |
| TsMuxer.ClockLost | common/src/media/mux/snymuxerImplmpegtshelper.cc:131-131 | an input: at 2^60 ticks the clock that is seen is not the time |
| TsMuxer.InsertedFinds | common/src/media/mux/snymuxerImplmpegts.cc:33-36 | inserting into the map of tracks keeps the ids in order; a new id gets the track, an id that is taken keeps its own, and every other id stays as it was |
| TsMuxer.FoundDetermine | common/src/media/mux/snymuxerImplmpegts.cc:33-36 | what is found under every id determines the map |
| TsMuxer.FirstIsKept | common/src/media/mux/snymuxerImplmpegts.cc:33-36 | of any tracks given one after the other, each id has the first one given with it |
| TsMuxer.GivenTracksChoose | common/src/media/mux/snymuxerImplmpegts.cc:43-88 | for any tracks given: one stream for every id whose first track is supported and no other, of that track's kind, in the order of the ids, each kind numbered on from its first PID |
| TsMuxer.Muxer.AddMediaTrack | common/src/media/mux/snymuxerImplmpegts.cc:33-36 | afterwards a lookup of the track's id finds this track unless the id was taken, and every other lookup finds what it found before |
| TsMuxer.Muxer.CreateStreams | common/src/media/mux/snymuxerImplmpegts.cc:49-86 | every supported track gets its stream, all different, as long as the audio PIDs stay below the first video PID |
| TsMuxer.Muxer.Open | common/src/media/mux/snymuxerImplmpegts.cc:43-103 | fails exactly when no track is supported, and otherwise writes one PAT and one PMT of all streams |
| TsMuxer.Muxer.WritePAT | common/src/media/mux/snymuxerImplmpegts.cc:148-174 | adds one packet on PID 0 and keeps every counter and the output in step |
| TsMuxer.Muxer.WritePMT | common/src/media/mux/snymuxerImplmpegts.cc:176-230 | adds one packet on the map PID with all streams |
| SampleConversion.Convert | common/src/media/mux/snymuxerImplmpegts.cc:119-141 | lengths become start codes and raw audio frames get headers, before anything is written; a failed conversion is reported; whatever the extradata of a video track |
| SampleConversion.VideoUnitsFound | common/src/media/mux/snymuxerImplmpegts.cc:119-129 | from AVCC packet to receiver: what was written for any video packet that converts splits into the delimiter, the parameter sets in front of an IDR slice, and the units of the packet, if and only if these are not empty and free of start codes |
| SampleConversion.AudioFramesFound | common/src/media/mux/snymuxerImplmpegts.cc:131-141 | from raw frame to receiver: what was written for an audio frame splits into that frame if and only if it has at most 8184 bytes, and its header says profile, rate index, the low channel bits and the length modulo 8192 in numbers |
| TsMuxer.Muxer.WriteSample | common/src/media/mux/snymuxerImplmpegts.cc:112-146 | converts a sample and adds its packets on its track's PID; an unknown track or a failed conversion adds nothing, and only the latter is an error |
| TsMuxer.Muxer.WriteMPEG2PacketCCTO16 | common/src/media/mux/snymuxerImplmpegts.cc:232-242 | all loops end, every counter is then a multiple of 16, and no sample stream has a unit more or less; a strict receiver accepts the output if and only if it did before and every sample stream's counter was a multiple of 16 already |
| TsMuxer.GivenSamples | common/src/media/mux/snymuxerImplmpegts.cc:112-146 | over any list of samples each PID is given exactly the units of its own track, with their clocks, and the table PIDs nothing |
| TsMuxer.Mux | common/src/media/mux/snymuxerImplmpegts.cc:43-146 | the whole run, for any tracks and samples: the streams are those of the first supported track given with each id; a strict receiver splits the output into packets, finds the counters in step and clocks only at unit starts, reads one program on map PID 256 from the PAT and the clock PID and every stream, of type 27 or 15, from the PMT, and gets the units of every track in order; each unit gives its own sample and times if and only if its length fits, the clock of its first packet is its own time if and only if that fits, and each unit holds the audio frame behind its header, or the delimiter, parameter sets and units, of the very sample that was given |
| TsMuxer.ContentOfSample | common/src/media/mux/snymuxerImplmpegts.cc:112-146 | a unit that gives its sample back holds what that sample was converted from, with its own times |
| TsMuxer.OwnAreWritten | common/src/media/mux/snymuxerImplmpegts.cc:112-146 | sample by sample, what is written for a stream is what was given for its track, converted |
| Md5.PaddedIsWhole | common/src/utils/md5.cc:276-305 | the padded message has only full blocks and at most 72 bytes more |
| Md5.AbsorbMore | common/src/utils/md5.cc:237-266 | absorbing more data continues from the state and the rest of what came before |
| Md5.CountedOn | common/src/utils/md5.cc:241-243 | the two 32-bit halves, with their carry, are the bit length modulo 2^64 |
| Md5.SameIndex | common/src/utils/md5.cc:239-239 | the low half of the counter alone gives the place in the buffer |
| Md5.Context.Update | common/src/utils/md5.cc:237-266 | after any update the state is the fold over the full blocks of everything so far, the buffer has the rest, the counter the length |
| Md5.Context.Finalize | common/src/utils/md5.cc:276-305 | the digest is the fold over the padded message of section 3.1 and 3.2 of RFC 1321; a second call changes nothing |
| Md5.DigestOfPieces | common/src/utils/md5.cc:237-305 | the digest does not depend on how the message was cut |
| Md5.DigestBytes | common/src/utils/md5.cc:268-305 | the four words of a state are written least significant byte first, and the words of the state at the start |
| Md5.PaddingBytes | common/src/utils/md5.cc:276-305 | padding is a one, zeros up to 56 bytes in the last block of 64, and the bit length in eight bytes |
| Md5.BlocksAbsorbed | common/src/utils/md5.cc:237-266 | blocks of 64 bytes, one after the other, and nothing of an unfinished one |
| NalUnits.Split | common/src/media/bitstream/nalu/nal_unit_splitter.cpp:4-41 | the splitter gives exactly the units between start codes, empty ones included |
| NalUnits.CodesBoundUnits | common/src/media/bitstream/nalu/nal_unit_fragment_header.cpp:16-49 | the start codes found by a scan are those that bound the units |
| NalUnits.ParseFragments | common/src/media/bitstream/nalu/nal_unit_fragment_header.cpp:11-49 | offsets and lengths are those of the same units |
| NalUnits.CheckKeyframe | common/src/media/bitstream/h264/h264_parser.cpp:3-31 | true if and only if some unit starts with at least two bytes left and a header of type 5 or 7 with its forbidden bit clear |
| NalUnits.KeyUnitBytes | common/src/media/bitstream/h264/h264_parser.cpp:3-31 | a key unit has at least two bytes left and a header of type 5 or 7 with its forbidden bit clear |
| NalUnits.CodeIs | common/src/media/bitstream/nalu/nal_unit_splitter.cpp:4-41 | a start code is two zeros and a one, or three zeros and a one |
| NalUnits.UnitsTile | common/src/media/bitstream/nalu/nal_unit_splitter.cpp:4-41 | the units tile the stream: each reaches to a start code with the next one behind it, the last to the end, and there is no start code inside any |
| NalUnits.UnitsBehindCode | common/src/media/bitstream/nalu/nal_unit_splitter.cpp:4-41 | the first unit is behind the first start code; a stream without one has no units |
| NalFraming.AvccRead | common/src/media/bitstream/h264/h264_converter.cpp:54-72 | an AVCC packet gives its units back |
| NalFraming.AvccWritten | common/src/media/bitstream/h264/h264_converter.cpp:54-72 | a packet that parses is the framing of what was parsed |
| NalFraming.AnnexbCut | common/src/media/bitstream/h264/h264_converter.cpp:227-280 | behind any prefix, units free of start codes are cut where they were joined, even when they end in zero bytes |
| NalFraming.FoundAreFree | common/src/media/bitstream/h264/h264_converter.cpp:227-280 | whatever the stream, no unit found contains a start code |
| NalFraming.FoundAgain | common/src/media/bitstream/h264/h264_converter.cpp:227-280 | the units of a packet are found again in its Annex B form if and only if none is empty and none contains a start code |
| NalFraming.FramedUnit | common/src/media/bitstream/h264/h264_converter.cpp:28-112 | both framings byte by byte: a start code of four bytes, or a length of four bytes |
| H264Converter.ConvertAvccToAnnexb | common/src/media/bitstream/h264/h264_converter.cpp:28-112 | the conversion, its failures and the parameter sets in front of an IDR packet, as a function of packet and extradata |
| H264Converter.SamePattern | common/src/media/bitstream/h264/h264_converter.cpp:114-148 | the probe for start codes finds what the other scanners find, at every position |
| H264Converter.ConvertAnnexbToAvcc | common/src/media/bitstream/h264/h264_converter.cpp:227-280 | emits the nonempty units in order, and first the bytes in front of the first start code |
| H264Converter.ThereAndBack | common/src/media/bitstream/h264/h264_converter.cpp:28-280 | a packet comes back unchanged from Annex B if and only if its units are not empty and free of start codes |
| H264Converter.SetsInFrontOfIdr | common/src/media/bitstream/h264/h264_converter.cpp:78-101 | with extradata, the Annex B form of an IDR packet splits into the SPS list, the PPS list and the packet's own units, if and only if all of these are free of start codes |
| H264Converter.ScanThreeWays | common/src/media/bitstream/nalu/nal_unit_fragment_header.cpp:11-49 | splitter, fragment scanner and converter agree on every byte string |
| H264Converter.Becomes | common/src/media/bitstream/h264/h264_converter.cpp:28-112 | a sequence header becomes its SPS and then its PPS, a packet its own units behind the sets of the extradata when there is one and a unit is an IDR slice, anything else nothing |
| H264Converter.IdrHeader | common/src/media/bitstream/h264/h264_converter.cpp:54-72 | an IDR slice has a header of type 5 with its forbidden bit clear |
| AvcRecord.SetsRead | common/src/media/bitstream/h264/h264_decoder_configuration_record.cpp:33-60 | a list of parameter sets is parsed back behind any prefix and in front of any rest |
| AvcRecord.ImageParsed | common/src/media/bitstream/h264/h264_decoder_configuration_record.cpp:6-74 | a record that keeps is parsed back, even when the buffer had no room for a zero count of PPS |
| AvcRecord.ParsedKeeps | common/src/media/bitstream/h264/h264_decoder_configuration_record.cpp:6-74 | whatever is parsed has at most 31 SPS, no empty set, and is no longer than the data |
| AvcRecord.SerializedIsImage | common/src/media/bitstream/h264/h264_decoder_configuration_record.cpp:156-189 | a record that fits 512 bytes is written whole, and of any record the first 511 bytes are right |
| AvcRecord.Serialize | common/src/media/bitstream/h264/h264_decoder_configuration_record.cpp:156-189 | writes exactly what the 512 bytes take: single bytes as far as there is room, a two-byte length whole or not at all |
| AvcRecord.ParseRecord | common/src/media/bitstream/h264/h264_decoder_configuration_record.cpp:6-74 | the parser over the bit reader is the parsing function, the optional tail of the high profiles included |
| AvcRecord.SerializeAndParse | common/src/media/bitstream/h264/h264_decoder_configuration_record.cpp:6-189 | a record comes back from its serialized form if and only if length size and SPS count fit their fields, no set is empty, and all that is needed fits 512 bytes |
| AvcRecord.RecordBytes | common/src/media/bitstream/h264/h264_decoder_configuration_record.cpp:156-189 | every byte of the image of a record |
| AvcRecord.SetBytes | common/src/media/bitstream/h264/h264_decoder_configuration_record.cpp:156-189 | a parameter set stands behind its length of two bytes |
| AvcRecord.HeadRead | common/src/media/bitstream/h264/h264_decoder_configuration_record.cpp:6-40 | what a parser refuses by the first six bytes, and what it takes from them |
| AvcRecord.TailParsed | common/src/media/bitstream/h264/h264_decoder_configuration_record.cpp:54-74 | the tail is read behind the PPS of profiles 100, 110, 122 and 144, and of no other |
| Adts.SerializeConfig | common/src/media/bitstream/aac/aac_specific_config.cpp:37-46 | a configuration is parsed back from its two bytes |
| Adts.HeaderIsGroup | common/src/media/bitstream/aac/aac_converter.cpp:28-54 | fifteen bit fields are exactly these seven bytes |
| Adts.MakeAdtsHeader | common/src/media/bitstream/aac/aac_converter.cpp:28-54 | the header of a frame, its length reduced to 13 bits as the 16-bit sum is |
| Adts.HeaderRead | common/src/media/bitstream/aac/aac_adts.cpp:24-57 | the parser finds profile, rate index, the low three channel bits and the frame length in a header that was made |
| Adts.ReadHeader | common/src/media/bitstream/aac/aac_adts.cpp:24-57 | the field by field reader is the parsing function |
| Adts.ConvertLatmToAdts | common/src/media/bitstream/aac/aac_converter.cpp:96-131 | a frame gets a header from the extradata, or stays as it is without |
| Adts.FramesBack | common/src/media/bitstream/aac/aac_converter.cpp:133-215 | a stream of headers and frames of at most 8184 bytes is split at the frames |
| Adts.LongIsLost | common/src/media/bitstream/aac/aac_converter.cpp:133-215 | a list with a longer frame never comes back with the same lengths |
| Adts.ListRoundTrip | common/src/media/bitstream/aac/aac_converter.cpp:96-215 | a list of frames comes back, with its exact lengths, if and only if no frame is longer than 8184 bytes |
| Adts.ConvertAdtsToLatm | common/src/media/bitstream/aac/aac_converter.cpp:133-215 | the splitting loop is the splitting function, refusals included |
| Adts.ConvertAndSplit | common/src/media/bitstream/aac/aac_converter.cpp:96-215 | the converters in sequence over any list of frames |
| Adts.ConfigBytes | common/src/media/bitstream/aac/aac_specific_config.cpp:7-21 | object type, rate index and channels in the two bytes of a configuration |
| Adts.HeaderBytes | common/src/media/bitstream/aac/aac_converter.cpp:28-54 | every byte of a header, by the numbers of the configuration |
| Adts.FrameCut | common/src/media/bitstream/aac/aac_converter.cpp:133-215 | cutting off the first frame of any stream: sync word, layer, seven or nine bytes of header, length of 13 bits |
| Adts.HeaderDigits | common/src/media/bitstream/aac/aac_adts.cpp:24-57 | the fields a parser takes from any seven bytes, as digits of the number they make |
| Publish.CompleteStays | common/src/source/rtmp/rtmp_stream.cpp:1364-1400 | once every track has extradata, the tracks never change again |
| Publish.SentIsComplete | common/src/source/rtmp/rtmp_stream.cpp:1402-1422 | when any frame was passed on, every track has its extradata |
| Publish.TraceOne | common/src/source/rtmp/rtmp_stream.cpp:1402-1422 | one more message adds nothing, or a frame, or names, tracks and the first frame, in this order |
| Publish.TracksAre | common/src/source/rtmp/rtmp_stream.cpp:1364-1400 | a track has the extradata of the first header that brought some, and none before |
| Publish.SentWhen | common/src/source/rtmp/rtmp_stream.cpp:1364-1422 | a message is passed on if and only if its kind has a track, extradata came before for every track, and it is a frame or a header that parsed |
| Publish.Publisher.SendFrame | common/src/source/rtmp/rtmp_stream.cpp:1402-1422 | passes frames on once all extradata is there; names and tracks go first, once |
| Publish.Publisher.Handle | common/src/source/rtmp/rtmp_stream.cpp:825-990 | a header fills in missing extradata, an end of sequence or an unparsable message does nothing, anything else is sent |
| Publish.Publisher.PublishStream | common/src/source/rtmp/rtmp_stream.cpp:995-1024 | replays the cache in order of arrival; a stream without a name fails |
| Publish.Publisher.ReceiveMessage | common/src/source/rtmp/rtmp_stream.cpp:794-1024 | accepts a video message of 5 to 20971520 bytes and an audio message of 2 to 20971520; caches until both kinds came, or video and more than 50 messages; then every accepted message is handled exactly once, in order; after a deletion nothing more is passed on |
| Publish.Publisher.DeleteStream | common/src/source/rtmp/rtmp_stream.cpp:449-455 | switches both kinds off; a published stream counts as deleted from then on, any other forgets the kinds seen |
| Publish.AudioAloneIsNeverReady | common/src/source/rtmp/rtmp_stream.cpp:753-775 | inputs without a video message are never published, whatever audio and deletions: cached audio messages are counted as video |
| Publish.CutAtDeletion | common/src/source/rtmp/rtmp_stream.cpp:449-455 | the messages handled are those up to the first deletion behind publishing, and nothing behind it matters |
| Publish.NothingCut | common/src/source/rtmp/rtmp_stream.cpp:794-1024 | without a deletion every accepted message is handled |
| Publish.AcceptedBySize | common/src/source/rtmp/rtmp_stream.cpp:794-930 | which messages of a run are accepted, by their sizes |
| Publish.HeardWhen | common/src/source/rtmp/rtmp_stream.cpp:449-455 | a kind is heard when an accepted message of it has no deletion behind it |
| Publish.ReadyWhen | common/src/source/rtmp/rtmp_stream.cpp:753-775 | the stream is published with the first message that leaves both kinds heard, or video with more than 50 messages before, and gets the tracks of the kinds heard by then |
| Publish.Run | common/src/source/rtmp/rtmp_stream.cpp:753-1024 | over every run of messages and deletions the callbacks are exactly determined by the inputs: nothing before the stream is published, and then the names, the complete tracks of the kinds heard by then, and the frames from the first one at which all extradata is set, in order of arrival, of the messages up to the deletion |
| FanOut.Publishers.OnSample | application/rtmp_proxy/src/snymultirtmppublish.cc:79-88 | the sample goes behind every queue |
| FanOut.Publishers.Take | application/rtmp_proxy/src/snymultirtmppublish.cc:38-44 | the first sample leaves the queue and is in flight; an empty queue makes the worker wait |
| FanOut.Publishers.Write | application/rtmp_proxy/src/snymultirtmppublish.cc:45-47 | the sample in flight goes to its sink and no other |
| FanOut.Publishers.Do | application/rtmp_proxy/src/snymultirtmppublish.cc:28-88 | every step keeps, for each publisher, written plus in flight plus queued equal to all samples so far |
| FanOut.Run | application/rtmp_proxy/src/snymultirtmppublish.cc:28-88 | under every interleaving each sink has a prefix of all samples, without loss, repetition or reordering, and what it has depends on its own worker only, whether other sinks stall or never open |

## Left out

- Sockets, threads, clocks, files, JSON configuration, logging, and the demuxers and muxers of other libraries.
- The contents of the handshake: only its byte counts and states are modelled. Digests are not.
- The error path of a rejected chunk run, which returns without consuming bytes already processed (common/src/source/rtmp/rtmp_stream.cpp:573-576): results about streams end at a rejection.
- RtmpStream.Stream.ReceiveSetChunkSize: a payload of fewer than four bytes is refused; the engine reads past its end, which has no defined result.
- The results of message handlers other than Set Chunk Size do not stop the model's connection; acknowledgements and traffic counters are not modelled.
- Chunk messages of length zero: the engine subtracts one from an unsigned zero (common/src/media/rtmp/rtmp_import_chunk.cpp:273), and the model counts interior headers as it does, as 0xFFFF_FFFF divided by the chunk size; it proves that such a message is never delivered.
- The header sizes of type 1 and type 2 follow the packed layout of the structures (7 and 3 bytes).
- The 32-bit width of byte counts in the chunk layer; message lengths have 24 bits.
- ChunkExport.RtmpExportChunk.ExportStreamData: requires a body no longer than announced; the engine would write past its buffer with a longer one. A chunk size is positive, and on the exporter below 2^31.
- Reference-only data, Erase, and the typed accessors of the byte stream; a cursor left behind the end by another user of the same data is not read from.
- CowData.Execute: inserting at a place before the start is not part of a run.
- CowData.Data.AppendData: requires another handle; appending a handle to itself inserts a range of a vector into the same vector, which C++ leaves undefined.
- The file modes of the bit stream, and sizes that 32-bit reallocation truncates.
- BitReaders.BitReader.ReadBits: requires that a read its check lets through stays within the data; the engine reads foreign memory otherwise. BitReaders.BitReader.CheckIsExact says when that can happen.
- Amf0: a null or missing string, array or object pointer, duplicate names, and reads past the end of the data, which the model takes as failures. Numbers are their 8-byte patterns.
- Amf0.DecodeItems: a name of 128 bytes or more overruns the engine's buffer; the model takes it as a failure.
- Conversion of sample times to 90 kHz; the muxer's samples have their times in that unit already.
- TsMuxer.Muxer.Open: requires at most 33 supported tracks, so that the PMT fits one packet; with more the engine copies past its stuffing, which has no defined result. A muxer is opened once.
- TsMuxer.Mux: requires the same of its tracks, and of its samples what WriteSample does.
- TsMuxer.Muxer.CreateStreams: requires at most 256 supported tracks; beyond, the audio PIDs run into the video PIDs.
- SampleConversion.Convert: requires that the extradata of an audio track is not a single byte.
- TsMuxer.Muxer.WriteSample: requires that a known track is a supported one, as the engine has no stream for another, that the extradata of an audio track is not a single byte, which leaves the engine's configuration unset, and that a sample stays below 4 GiB.
- The MD5 block transform and the hexadecimal form of a digest; the transform is a parameter.
- Md5.Context.Update: requires a length at least 64 below 2^32, as the engine's loop does.
- The NAL header of an empty unit is read from the byte behind it; the model takes an empty unit as not IDR.
- H264Converter.ThereAndBack: requires packets below 4 GiB, the size of a length field.
- Copies of the same converters in other files (aac_latm_to_adts, snyaaclatmtoadts, h264_avcc_to_annexb, snyh264avcctoannexb), which one model covers.
- AvcRecord.Serialize: sets of 4 GiB or more; the optional tail of the high profiles is parsed but never written.
- Adts.ConvertLatmToAdts: extradata of one byte, which leaves the engine's configuration unset, so that its result is undefined; the CRC of headers with protection.
- Publish: metadata, stream names and keys; that a message's FLV form parses, and to what, is part of the message.
- Publish.Publisher.DeleteStream: the only call of the handler it models is commented out (common/src/source/rtmp/rtmp_stream.cpp:712), so no deletion reaches a running stream today; the runs with deletions say what the handler would do.
- FanOut: condition variables are steps that may happen at any time, so nothing is said about progress.
- Parsing of SPS, PPS and VUI fields, H.265, URLs, and 64-bit reads of the file stream.
