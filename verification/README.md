# tsMuxer, verified

A Dafny model of the parts of tsMuxer whose correctness depends on state kept over many calls:
the threaded reader, the UDF image writer, the Matroska muxer and demuxer, word-buffered bit I/O,
and four smaller cores. Objects with mutable fields are classes, in-place algorithms work on arrays,
loops are loops; each is proved equal to a function on values, and the theorems are about those
functions. `dafny verify dfyconfig.toml` checks everything.

## Modules

- `Bits`, `BigEndian` - bit strings, byte strings and their numbers: the plain form the rest is compared with.
- `ReaderProtocol` - the worker and one consumer of `BufferedReader` as a step system, a step being one
  critical section or one unlocked load or store. Readers are created, read, deleted and destroyed in any
  interleaving; the request queue is bounded as in the source.
- `BitStream`, `BitRoundTrip`, `BitPatch` - `BitStreamReader` and `BitStreamWriter` over an array of bytes,
  what one writes and the other reads, and `updateBits` with its guarded use in the HEVC parameter sets.
- `EbmlNumbers`, `BlockStream`, `EbmlReader`, `EbmlLevels`, `ReaderFaults` - identifiers, sizes and integers; the byte
  stream over read blocks; the element reader with its cached identifier and level stack; the parse loop over element
  trees; and what is done with elements that do not fit.
- `Lacing`, `LaceFaults`, `Cluster`, `LacedBlocks`, `MatroskaFile`, `ClusterTrees` - lace headers, good and bad; blocks
  and clusters as the muxer writes them, and `readPacket` over a segment; blocks with any lacing; clusters of any elements.
- `Muxer`, `MuxerRun`, `MuxerHeader`, `MuxerClusters`, `MuxerReach`, `MuxerReadBack` - the muxer's steps; what its file,
  cues and tracks hold after any run, proved with a history of the run; when the header comes, and what time zero is;
  where clusters end; which runs keep frames in reach of their clusters; and the demuxer reading the result.
- `IsoExtents`, `IsoDescriptors`, `IsoTree` - files written through a sector buffer into extents; the
  allocation descriptors and their continuation sectors; the two walks over the directory tree.
- `Utf`, `UtfErrors` - the UTF-8, UTF-16 and UTF-32 converters against RFC 3629 and RFC 2781, and on sources that are
  not well-formed.
- `Lpcm` - byte order, channel order and padding of LPCM frames.
- `PicOrder` - full picture order counts and frame times of HEVC (section 8.3.1 of ITU-T H.265).
- `TrueHd` - the interleaving of TrueHD packets with AC-3 core packets.

## Where the code falls short of what one would expect

Each of these is stated as a lemma, with the exact condition where there is one.

- `readBlock` and `notify` ignore the result of the push. While the queue is full - a reader that is read on after
  its end fills it - the next request of any reader is lost, and its `readBlock` waits for ever, although its file
  has data: exactly if the queue was full when the request was made (`ReaderProtocol.SleeperWasServed`,
  `RequestIsLost`, `ForgottenForEver`; `SleepsForEver` is such a run).
- The refused request is counted in `m_atQueue` all the same. The count is exact if and only if nothing was refused
  (`ReaderProtocol.AtQueueCounts`, `RefusalHappens`); the reader's record is then only freed by the destructor.
- `HevcUnit::updateBits` checks one byte too few for fields of fewer than 24 bits that reach past the
  24th bit from the start of their first byte (`BitPatch.WindowCovers`). The only caller patches 32 bits.
- A size of 2^56 - 1 is written in the reserved form, and unsigned integers from 2^63 on are read as negative
  (`EbmlNumbers.BlockNumRoundTrip`, `UintRoundTrip`).
- A block group's block is dropped exactly if nothing follows the group in the file (`Cluster.LastGroupIsLost`,
  `LostFrame`).
- Lace sizes are added up in 32 bits, so a lace header can pass every check and ask for 2^32 bytes more than there
  are (`Lacing.CleanLacesFillTheBlock`, `WrappedLaces`).
- One Xiph lace header that announces more sizes than it has ends the whole file (`LacedBlocks.SpoiltBlock`,
  `ClusterTrees.BadBlockEndsFile`).
- The frames of a lace without a duration, as in every simple block, all get the time of the first
  (`LacedBlocks.LacedBlockRoundTrip`).
- A frame more than 32768 ms before its cluster gets a wrong offset (`MuxerReadBack.OffsetKept`; two packets are
  enough, `LateFrame`): exactly then the demuxer does not give the frames' times back (`FileReadBack`). A track keeps
  its last frame until its next packet comes, so a stream must not fall that far behind (`MuxerReach.PunctualRun`).
- A frame before time zero is stamped zero (`Cluster.EarlyFrame`).
- Closing a file of several extents with a partial last sector writes that sector elsewhere
  (`IsoExtents.CloseSeeksRight`, `CloseElsewhere`, `CloseKeepsBytesExactly`; `LostTail` is such a run).
- A continuation sector of allocation descriptors gets 0x10 added in entry 11's implementation-use word
  (`IsoDescriptors.StrayWord`).
- `isLegalUTF8` accepts sequences with lead 0xED or 0xF4 whose second byte is below 0x80
  (`Utf.LegalExactly`, `LooseExample`), though its comment promises legality.
- Picture orders are recovered exactly under `PicOrder.Tellable`: a change of half the range is read one way only.
- Strict conversion from UTF-32 to UTF-16 leaves out values beyond U+10FFFF and goes on, where it stops for a
  surrogate (`Utf.TooLargeIsLeftOut`).

## Model

| member | source | states |
|---|---|---|
| `ReaderProtocol.InitInv` | tsMuxer/bufferedReader.cpp:19-29 | Before any reader is created, the invariant of the protocol holds: per reader it ties `m_atQueue`, the queue, the worker, both blocks and the bytes delivered together. |
| `ReaderProtocol.StepIsSafe` | tsMuxer/bufferedReader.cpp:197-282 | Under the invariant no step of either thread touches a freed record or a block that does not exist. |
| `ReaderProtocol.StepKeepsInv` | tsMuxer/bufferedReader.cpp:113-282 | Every step of worker or consumer - creation, both sides of `readBlock`, `notify`, deletion, termination, each unlocked load and store of the worker loop - keeps the invariant. |
| `ReaderProtocol.RunKeepsInv` | tsMuxer/bufferedReader.cpp:113-282 | Every state of every interleaved run satisfies the invariant. |
| `ReaderProtocol.DestroyKeepsInv` | tsMuxer/bufferedReader.cpp:67-77 | The destructor frees the readers that are left, each for the first time. |
| `ReaderProtocol.FreeKeepsInv` | tsMuxer/bufferedReader.cpp:276-281 | Freeing a record is safe once nothing queued and no thread refers to it. |
| `ReaderProtocol.FinishKeepsInv` | tsMuxer/bufferedReader.cpp:270-282 | The decrement at the end of a worker turn, with the deferred deletion, keeps the invariant. |
| `ReaderProtocol.DeleteKeepsInv` | tsMuxer/bufferedReader.cpp:113-129 | `deleteReader` frees at once exactly when no request is counted, and otherwise leaves the record to the worker. |
| `ReaderProtocol.NeverUsedAfterFree` | tsMuxer/bufferedReader.cpp:208-282 | In every reachable state, no enabled step reaches a freed record. |
| `ReaderProtocol.FreedExactlyOnce` | tsMuxer/bufferedReader.cpp:113-129 | No record is freed twice; a record has been freed exactly when it has left the table; after destruction all have been freed once. |
| `ReaderProtocol.DeleteMarksOrFrees` | tsMuxer/bufferedReader.cpp:113-129 | `deleteReader` frees the record at once if no request is counted for it, and otherwise marks it and changes nothing else. |
| `ReaderProtocol.DeletedIsAwaited` | tsMuxer/bufferedReader.cpp:113-129 | In every run a marked record has requests to wait for, as long as the worker lives. |
| `ReaderProtocol.DeletedWillBeFreed` | tsMuxer/bufferedReader.cpp:270-282 | If the queue refused none of its requests, a marked record is still queued or being served, and the worker frees it with the last request. |
| `ReaderProtocol.DeletedIsNotRead` | tsMuxer/bufferedReader.cpp:209-213 | From the moment a reader is marked its stream is not read any more, in every run, but for a read the worker has already decided on. |
| `ReaderProtocol.QueueIsBounded` | libmediation/containers/safequeue.h:32-42 | In every run the queue holds at most 4096 requests. |
| `ReaderProtocol.AtQueueCounts` | tsMuxer/bufferedReader.cpp:138-168 | `m_atQueue` is the number of queued occurrences, plus one while the worker serves the reader, plus the requests the full queue refused; so it is the exact count if and only if none was refused. |
| `ReaderProtocol.QueueHasRoom` | tsMuxer/bufferedReader.cpp:177-189 | With fewer than 4096 readers, none at end of file, the queue has room, so no request is refused. |
| `ReaderProtocol.LapQueuesAgain` | tsMuxer/bufferedReader.cpp:138-168 | A `readBlock` after the end of the file leaves one more request in the queue, or has it refused. |
| `ReaderProtocol.SpinUntilRefused` | libmediation/containers/safequeue.h:32-42 | Enough such calls make the bounded queue refuse one. |
| `ReaderProtocol.RefusalHappens` | tsMuxer/bufferedReader.cpp:138-168 | A reachable state in which `m_atQueue` exceeds the outstanding requests: the push's result is ignored, so the count is lost. |
| `ReaderProtocol.DeliveredInOrder` | tsMuxer/bufferedReader.cpp:131-169 | In every reachable state the blocks returned by `readBlock` concatenate to a prefix of the file, and to the whole file once the end was seen without a read error. |
| `ReaderProtocol.FailedExactly` | tsMuxer/bufferedReader.cpp:213-262 | In every run a reader counts as failed if and only if a read of its stream reported an error. |
| `ReaderProtocol.BytesCounted` | tsMuxer/bufferedReader.cpp:160-161 | `readBlock` counts the bytes published, and none if an error was; an error ends the stream. |
| `ReaderProtocol.BlocksDoNotClash` | tsMuxer/bufferedReader.cpp:213-245 | Before the end of the file the worker reads into the block the consumer does not hold, never over an unread one; the held block keeps the delivered bytes. |
| `ReaderProtocol.SleeperIsServed` | tsMuxer/bufferedReader.cpp:147-152 | A waiting consumer has a request queued or in progress, or a request that was refused; with no data and the end not seen, it has one if and only if none was refused. |
| `ReaderProtocol.SleeperHasHelp` | tsMuxer/bufferedReader.cpp:197-211 | While a consumer waits with its request queued or in progress, the worker can take a step. |
| `ReaderProtocol.SleeperGetsCloser` | tsMuxer/bufferedReader.cpp:197-273 | Every worker step makes the distance to the block a waiting consumer needs smaller, and only the publishing step touches the consumer, which it wakes. |
| `ReaderProtocol.ShutdownGoesOn` | tsMuxer/bufferedReader.cpp:67-77 | From the moment `m_terminated` is set until every record is deleted, some thread has a step to take: the 0 pushed wakes a worker that waits on an empty queue, and a full queue that refuses it has nobody waiting. |
| `ReaderProtocol.ShutdownGetsCloser` | tsMuxer/bufferedReader.cpp:171-206 | From then on every step of either thread lowers a bound on the steps left. |
| `ReaderProtocol.ShutdownStops` | tsMuxer/bufferedReader.cpp:67-77 | A terminated state with no step left to either thread is one in which the destructor is through and no record remains, and the other way round. |
| `ReaderProtocol.ShutdownEnds` | tsMuxer/bufferedReader.cpp:67-77 | In every run, however the threads interleave, only boundedly many steps follow the one that sets `m_terminated`: the destructor returns. |
| `ReaderProtocol.RequestIsLost` | tsMuxer/bufferedReader.cpp:138-145 | Before the end of a stream, a request of `readBlock` or `notify` is lost if and only if the queue is full when it is made; otherwise it is pending. |
| `ReaderProtocol.ForgottenStays` | tsMuxer/bufferedReader.cpp:147-152 | No step of either thread gets a consumer any further that waits on a lost request. |
| `ReaderProtocol.ForgottenForEver` | tsMuxer/bufferedReader.cpp:147-152 | In every run such a `readBlock` never returns. |
| `ReaderProtocol.SleeperWasServed` | tsMuxer/bufferedReader.cpp:131-189 | In every run, a waiting consumer with no data and the end not seen has a request queued or in progress if and only if the queue had room when its reader's last request was made; otherwise it waits for ever. |
| `ReaderProtocol.SleepsForEver` | tsMuxer/bufferedReader.cpp:138-152 | For every file there is a run whose consumer waits for ever on its first block. |
| `ReaderProtocol.LookupKeepsInv` | tsMuxer/bufferedReader.cpp:203-211 | The worker's separate steps - testing `m_terminated`, looking the reader up, loading the buffer index - each keep the invariant. |
| `BitStream.BitStreamReader.SetBuffer` | tsMuxer/bitStream.h:49-55 | A non-empty buffer is read from its first bit; an empty one is refused without any change. |
| `BitStream.BitStreamReader.GetCurVal` | tsMuxer/bitStream.h:163-176 | Succeeds exactly when eight bits or more are left, and then gives the word at the pointer, with zeros past the end of the buffer. |
| `BitStream.BitStreamReader.NextWord` | tsMuxer/bitStream.h:69-77 | After the length check the throw inside `getCurVal` is not reached, and the next word lies in the buffer. |
| `BitStream.BitStreamReader.GetBits` | tsMuxer/bitStream.h:63-80 | Returns the number of the next `num` bits of the plain bit string and advances by `num`; refused, without change, exactly when there are not so many or more than 32 are asked for. |
| `BitStream.BitStreamReader.ShowBits` | tsMuxer/bitStream.h:82-98 | The same number, for at most 31 bits, and the reader does not move. |
| `BitStream.BitStreamReader.GetBit` | tsMuxer/bitStream.h:100-114 | One bit, in the same sense. |
| `BitStream.BitStreamReader.SkipBits` | tsMuxer/bitStream.h:116-130 | Advances by `num` exactly when so many bits are left. |
| `BitStream.BitStreamReader.GetBitsCount` | tsMuxer/bitStream.h:154-157 | The offset from the start, which with the bits left makes up the buffer. |
| `BitStream.FieldInWord` | tsMuxer/bitStream.h:63-80 | A field inside the current word is the word shifted and masked. |
| `BitStream.FieldAcross` | tsMuxer/bitStream.h:63-80 | A field that runs into the next word is made of a tail and a head, whatever the padding behind the buffer. |
| `BitStream.PaddedBits` | tsMuxer/bitStream.h:163-176 | The zero padding of the last word never shows in bits inside the buffer. |
| `BitStream.BitStreamWriter.PutBits` | tsMuxer/bitStream.h:199-222 | Appends the low `num` bits of the value to the bits put so far; refused, without change, exactly when the buffer has no room. |
| `BitStream.BitStreamWriter.CompleteWord` | tsMuxer/bitStream.h:208-220 | The branch that fills the word stores it and keeps what is left over. |
| `BitStream.BitStreamWriter.FlushBits` | tsMuxer/bitStream.h:226-236 | Memory then holds the bits put, and every bit behind them is what it was. |
| `BitStream.BitStreamWriter.GetBitsCount` | tsMuxer/bitStream.h:238-241 | The number of bits put. |
| `BitRoundTrip.PutFlushGet` | tsMuxer/bitStream.h:58-241 | Any list of fields of up to 32 bits, put, flushed and read back with the same widths: each value comes back modulo 2^width, and no bit outside them changed. |
| `BitRoundTrip.PutAll` | tsMuxer/bitStream.h:199-222 | Any list of puts makes the concatenation of the fields. |
| `BitRoundTrip.GetAll` | tsMuxer/bitStream.h:63-80 | Reading with the widths of the fields yields each value modulo 2^width. |
| `BitPatch.UpdateBits` | tsMuxer/bitStream.cpp:10-33 | Exactly the bits from `bitOffset` on change, to the value's low bits, though the bits behind are re-read after words were stored over them. |
| `BitPatch.WindowCovers` | tsMuxer/hevc.cpp:65-76 | The bytes the guarded patch checks for cover the bytes the writer touches if and only if `bitLen >= 24` or the field ends within 24 bits of its first byte. |
| `BitPatch.WindowFallsShort` | tsMuxer/hevc.cpp:65-76 | 23 bits at offset 7 are the counterexample: eight bytes are touched, seven checked. |
| `BitPatch.HevcVpsUnit.UpdateNalBits` | tsMuxer/hevc.cpp:65-110 | The patch is made exactly when the guard holds, and changes nothing but the field; otherwise nothing changes. |
| `BitPatch.HevcVpsUnit.SetFPS` | tsMuxer/hevc.cpp:247-267 | Both 32-bit fields are replaced exactly when both lie in the buffer with room behind; if only the first does, it alone is replaced; all other bits stay. |
| `BitPatch.HevcVpsUnit.ReadTimingInfo` | tsMuxer/hevc.cpp:232-237 | Succeeds exactly when the flag, and the two fields if it is set, are left to read; remembers the fields' position and reads both from there. |
| `BitPatch.OverrideReadsBack` | tsMuxer/hevc.cpp:232-267 | After the override, parsing at the remembered position gives the two new numbers; every other bit is the old one. |
| `EbmlNumbers.SizeSizeIsMinimal` | tsMuxer/matroskaMuxer.cpp:59-76 | The width is the least whose data bits are not all ones. |
| `EbmlNumbers.FixedSizeRoundTrip` | tsMuxer/matroskaMuxer.cpp:80-86 | A size of at most 7n bits written into n bytes is read back by both readers; all ones is the reserved form to the block reader only. |
| `EbmlNumbers.SizeRoundTrip` | tsMuxer/matroskaDemuxer.cpp:1096-1131 | The element reader returns the size written if and only if it is below 2^56. |
| `EbmlNumbers.BlockNumRoundTrip` | tsMuxer/matroskaDemuxer.cpp:363-398 | The block reader returns it if and only if it is below 2^56 - 1, which it takes for unknown. |
| `EbmlNumbers.UnknownSizeReads` | tsMuxer/matroskaMuxer.cpp:88-97 | The unknown form is unknown to the block reader, and 2^(7n) - 1 to the element reader. |
| `EbmlNumbers.IdRoundTrip` | tsMuxer/matroskaMuxer.cpp:39-57 | An identifier survives writing and reading if and only if it carries its marker in the right place. |
| `EbmlNumbers.IdKeepsItsBytes` | tsMuxer/matroskaMuxer.cpp:39-57 | The bytes written for any 32-bit identifier from 0x80 on are its number without leading zeros; below 0x80 nothing is written. |
| `EbmlNumbers.ShortNumber` | tsMuxer/matroskaDemuxer.cpp:363-398 | A number that the file ends in is read as if zeros followed it, while the block reader refuses it; too wide a marker is told by the first byte. |
| `EbmlNumbers.ReadIdIsValid` | tsMuxer/matroskaDemuxer.cpp:859-885 | Whatever the bytes, an identifier that is read is a valid one. |
| `EbmlNumbers.UintSizeIsMinimal` | tsMuxer/matroskaMuxer.cpp:99-110 | A value fits n bytes if and only if n is at least the size chosen. |
| `EbmlNumbers.UintRoundTrip` | tsMuxer/matroskaDemuxer.cpp:837-857 | An unsigned 64-bit value comes back if and only if it is below 2^63, the reader's variable being signed. |
| `EbmlNumbers.SintRoundTrip` | tsMuxer/matroskaDemuxer.cpp:430-455 | Every signed 64-bit value comes back from its encoding. |
| `EbmlNumbers.SintSizeIsLeast` | tsMuxer/matroskaMuxer.cpp:112-123 | A signed value takes the least of one, two, three, four and eight bytes that holds it with its sign. |
| `EbmlNumbers.SintOfBytes` | tsMuxer/matroskaDemuxer.cpp:430-455 | Taking off the first byte's sign bit and subtracting it at the end is two's complement. |
| `EbmlNumbers.WriteId` | tsMuxer/matroskaMuxer.cpp:52-57 | Writes the identifier's bytes in place and nothing else. |
| `EbmlNumbers.WriteSizeFixed` | tsMuxer/matroskaMuxer.cpp:80-86 | The bytes of the size, most significant first, with the marker OR-ed onto the first. |
| `EbmlNumbers.WriteSize` | tsMuxer/matroskaMuxer.cpp:59-78 | The same in the minimal width. |
| `EbmlNumbers.WriteUnknownSize` | tsMuxer/matroskaMuxer.cpp:88-97 | The all-ones size. |
| `EbmlNumbers.WriteUint` | tsMuxer/matroskaMuxer.cpp:125-132 | A whole unsigned element: identifier, size, content. |
| `EbmlNumbers.WriteSint` | tsMuxer/matroskaMuxer.cpp:134-141 | A whole signed element. |
| `EbmlNumbers.CountBytes` | tsMuxer/matroskaMuxer.cpp:99-110 | Counting shifts finds the least length. |
| `EbmlNumbers.ReadBlockNum` | tsMuxer/matroskaDemuxer.cpp:363-398 | The loop computes the block reader's function, with its errors for a missing marker and a short buffer. |
| `BlockStream.ByteSource.NextBlock` | tsMuxer/ioContextDemuxer.cpp:50-62 | Taking the next block leaves the bytes to come as they were; an empty block is the end. |
| `BlockStream.ByteSource.GetByte` | tsMuxer/ioContextDemuxer.cpp:46-66 | The next byte of the file however it was cut into blocks, or zero and the end flag when there is none. |
| `BlockStream.ByteSource.GetBuffer` | tsMuxer/ioContextDemuxer.cpp:84-119 | As many of the next `size` bytes as there are, in order, and the reader stands behind them. |
| `BlockStream.ByteSource.SkipBytes` | tsMuxer/ioContextDemuxer.cpp:121-158 | Steps over as many of the next `size` bytes as there are. |
| `EbmlReader.Demuxer.ReadNum` | tsMuxer/matroskaDemuxer.cpp:1096-1131 | Computes the number function of the stream: width from the first byte's marker, zero past the end, an error for a width beyond the maximum. |
| `EbmlReader.Demuxer.ElementLevelUp` | tsMuxer/matroskaDemuxer.cpp:1030-1051 | Pops the masters that end at or before the position, innermost first, and returns how many. |
| `EbmlReader.Demuxer.ReadElementId` | tsMuxer/matroskaDemuxer.cpp:859-885 | An identifier peeked at is not read twice; a new one also counts the masters that ended. |
| `EbmlReader.Demuxer.ReadElementLength` | tsMuxer/matroskaDemuxer.cpp:926-933 | The size, and the peeked identifier is spent. |
| `EbmlReader.Demuxer.ReadSkip` | tsMuxer/matroskaDemuxer.cpp:887-897 | Header read, content stepped over. |
| `EbmlReader.Demuxer.ReadBinary` | tsMuxer/matroskaDemuxer.cpp:935-955 | Header read, content delivered, an error when it is cut short. |
| `EbmlReader.Demuxer.ReadUint` | tsMuxer/matroskaDemuxer.cpp:837-857 | Header and one to eight bytes, folded to a number; other lengths are errors. |
| `EbmlReader.Demuxer.ReadSint` | tsMuxer/matroskaDemuxer.cpp:430-455 | The same, signed. |
| `EbmlReader.Demuxer.ReadMaster` | tsMuxer/matroskaDemuxer.cpp:902-921 | Pushes the master's interval; an error at the depth limit. |
| `EbmlLevels.PopsExactlyTheEnded` | tsMuxer/matroskaDemuxer.cpp:1030-1051 | On nested intervals, popping at a position closes exactly the masters that end at or before it. |
| `EbmlLevels.PopAfterId` | tsMuxer/matroskaDemuxer.cpp:859-885 | Looking after the identifier's bytes were consumed pops the same masters as looking before, if none ends inside them. |
| `EbmlLevels.PushKeepsNested` | tsMuxer/matroskaDemuxer.cpp:902-921 | A master inside the innermost open one keeps the stack nested. |
| `EbmlLevels.LeafReaders` | tsMuxer/matroskaDemuxer.cpp:837-857 | On one and the same element, skip, binary, unsigned and signed reading all end right behind the content, with its number or bytes. |
| `ReaderFaults.NumbersExactly` | tsMuxer/matroskaDemuxer.cpp:833-855 | Numbers of one to eight bytes are read, zeros standing for bytes behind the end of the file; any other length is an error. |
| `ReaderFaults.BinaryExactly` | tsMuxer/matroskaDemuxer.cpp:935-955 | A binary element is whole or an error, and so is one whose length turns negative in 32 bits. |
| `ReaderFaults.SkipExactly` | tsMuxer/matroskaDemuxer.cpp:887-897 | Any element is skipped, as far as the file goes. |
| `ReaderFaults.MasterExactly` | tsMuxer/matroskaDemuxer.cpp:902-921 | A master is entered unless sixteen are open, which is an error. |
| `ReaderFaults.IdExactly` | tsMuxer/matroskaDemuxer.cpp:858-884 | The end of the file is no error, a first byte below 0x10 is, and any other starts an identifier; levels change only for a caller that asks. |
| `ReaderFaults.PeekedAgain` | tsMuxer/matroskaDemuxer.cpp:864-871 | An identifier that was peeked at is given again, with no master ended. |
| `ReaderFaults.NoIdentifier` | tsMuxer/matroskaDemuxer.cpp:887-955 | Every element reader ends as its identifier does when that cannot be read, and goes no further. |
| `ReaderFaults.NoLength` | tsMuxer/matroskaDemuxer.cpp:926-955 | And as its length does. |
| `EbmlLevels.NodeReads` | tsMuxer/matroskaDemuxer.cpp:957-1028 | A master parsed by its own loop yields its tree, and the reader stands behind it with the level popped. |
| `EbmlLevels.ParseReadsDocument` | tsMuxer/matroskaDemuxer.cpp:957-1028 | For every well-formed tree and any legal size widths: each loop ends exactly where its master ends, all masters ending there are closed, each pending `level_up` ends one loop, and the elements found are the document's. |
| `EbmlLevels.RunLoop` | tsMuxer/matroskaDemuxer.cpp:957-1028 | The loop with its break conditions, over any split of the file into blocks, computes the recursive parser. |
| `EbmlLevels.RunElement` | tsMuxer/matroskaDemuxer.cpp:902-921 | A master in the loop is parsed by a loop of its own. |
| `Lacing.CleanLacesFillTheBlock` | tsMuxer/matroskaDemuxer.cpp:516-634 | In 32-bit sums, two or more laces and no error logged: the sizes sum to the bytes behind the lace header if and only if the last one did not wrap - with EBML lacing, if and only if the other sizes sum to no more than these bytes; with fixed lacing they sum to these less the division's remainder. |
| `Lacing.SmallXiphLacesFill` | tsMuxer/matroskaDemuxer.cpp:550-582 | In blocks of up to 2^31 / 255 bytes no Xiph size wraps, and a clean lace header always gives sizes that fill the block. |
| `Lacing.WrappedLaces` | tsMuxer/matroskaDemuxer.cpp:588-629 | The lace header 02 08 7F FF FF FF BF before any data logs no error, and its three sizes exceed the data by 2^32. |
| `Lacing.Int32Add` | tsMuxer/matroskaDemuxer.cpp:588-629 | Adding up in 32 bits, step by step, is wrapping the exact sum. |
| `Lacing.CutTiles` | tsMuxer/matroskaDemuxer.cpp:636-743 | Frames cut by sizes that fill the data concatenate to the data. |
| `Lacing.CutRestoresFrames` | tsMuxer/matroskaDemuxer.cpp:636-743 | Cutting by the frames' lengths restores the frames. |
| `Lacing.LacingRoundTrip` | tsMuxer/matroskaDemuxer.cpp:523-634 | The decoder inverts the Xiph, fixed-size and EBML encoders of section 10.3 of RFC 9559 for every list of frames they can hold. |
| `LaceFaults.XiphFailsExactly` | tsMuxer/matroskaDemuxer.cpp:550-574 | A Xiph lace header is refused if and only if it ends fewer sizes than it announces. |
| `LaceFaults.XiphSizesExactly` | tsMuxer/matroskaDemuxer.cpp:550-586 | For every list of Xiph sizes, fitting or not: the last size is the rest, or zero with a note when the others ask for more than there is. |
| `LaceFaults.SizesExactly` | tsMuxer/matroskaDemuxer.cpp:588-629 | For every list of EBML lace sizes, fitting or not: the last size is the rest, with a note if and only if that is negative. |
| `LaceFaults.SizesStop` | tsMuxer/matroskaDemuxer.cpp:602-627 | A difference that cannot be read is noted and ends the list: the next size is the rest, and those behind it are zero. |
| `LaceFaults.NoFirstSize` | tsMuxer/matroskaDemuxer.cpp:590-597 | Without a readable first size all sizes stay zero, with a note. |
| `LaceFaults.SingleSize` | tsMuxer/matroskaDemuxer.cpp:588-629 | The size of a single EBML lace is taken as it is read. |
| `LaceFaults.ReservedSizes` | tsMuxer/matroskaDemuxer.cpp:400-416 | The reserved form counts as -1, as a first size and as a difference. |
| `Lacing.DeltaRoundTrip` | tsMuxer/matroskaDemuxer.cpp:400-416 | Signed differences survive in every width up to four bytes. |
| `Lacing.XiphNumRoundTrip` | tsMuxer/matroskaDemuxer.cpp:556-571 | A Xiph size of any magnitude comes back. |
| `Lacing.XiphListRoundTrip` | tsMuxer/matroskaDemuxer.cpp:550-574 | And any list of them. |
| `Lacing.DeltaListRoundTrip` | tsMuxer/matroskaDemuxer.cpp:602-616 | A list of sizes coded as differences comes back, the first having been read. |
| `Lacing.ReadLaceSizes` | tsMuxer/matroskaDemuxer.cpp:516-634 | The switch over the four lacings computes the size list, what is left, and whether an error was noted, its sums wrapping at 32 bits. |
| `Lacing.ReadXiphLaces` | tsMuxer/matroskaDemuxer.cpp:550-586 | The nested loops over Xiph sizes; the last size is what remains. |
| `Lacing.ReadEbmlLaces` | tsMuxer/matroskaDemuxer.cpp:592-629 | The loop over differences; the last size is what remains. |
| `Lacing.ReadBlockDelta` | tsMuxer/matroskaDemuxer.cpp:400-416 | Reading a signed number; the reserved form gives -1. |
| `Cluster.BlockRoundTrip` | tsMuxer/matroskaDemuxer.cpp:484-743 | A simple block that was written gives one packet with its track, its cluster time plus offset, key flag and payload. |
| `Cluster.BlocksRoundTrip` | tsMuxer/matroskaDemuxer.cpp:957-1028 | Any sequence of written blocks gives their packets in order, and the loop ends at the master's end. |
| `Cluster.ClusterRoundTrip` | tsMuxer/matroskaDemuxer.cpp:957-1028 | A whole cluster's content, time code and blocks, read by the cluster loop from behind its header. |
| `ClusterTrees.ClusterReads` | tsMuxer/matroskaDemuxer.cpp:957-1028 | A cluster of any elements in any order - time codes, simple blocks, block groups, others, sizes in any width: the packets of its blocks in order with the time code read last, up to a block that is an error, and the end of the cluster, of masters that end with it, or of the file, at which a last group is lost. |
| `ClusterTrees.GroupTurn` | tsMuxer/matroskaDemuxer.cpp:994-1020 | A block group in the midst of a cluster: the loop goes on at the next element, which the group's loop has peeked at. |
| `ClusterTrees.ClusterInCluster` | tsMuxer/matroskaDemuxer.cpp:1012-1014 | A cluster met inside a cluster ends the loop and is left to the caller, unread. |
| `ClusterTrees.BadBlockEndsFile` | tsMuxer/matroskaDemuxer.cpp:1139-1196 | Behind a cluster that ends with a block in error nothing is delivered any more. |
| `ClusterTrees.ClusterTooDeep` | tsMuxer/matroskaDemuxer.cpp:1166-1170 | Nor behind one that cannot be entered because sixteen masters are open. |
| `ClusterTrees.TopClosesMasters` | tsMuxer/matroskaDemuxer.cpp:1158-1166 | An identifier behind the end of masters closes them, however many, and the loop over the file goes on with it. |
| `Cluster.BlockSurvives` | tsMuxer/matroskaDemuxer.cpp:484-743 | A block comes back as written if and only if its payload is not empty and its time not negative. |
| `Cluster.EarlyFrame` | tsMuxer/matroskaDemuxer.cpp:636-660 | A frame before time zero is stamped zero instead of its own time. |
| `Cluster.PtsExact` | tsMuxer/matroskaDemuxer.cpp:636-660 | The internal time is exact if and only if the product stays below 2^63. |
| `Cluster.TruncDivRemainder` | tsMuxer/matroskaMuxer.cpp:1148-1148 | Times are divided the way C++ does, towards zero. |
| `Cluster.LastGroupIsLost` | tsMuxer/matroskaDemuxer.cpp:750-835 | For every block group holding a block - any elements, in any order, any legal size widths - the block's packets are queued if and only if something follows the group in the file; at its end the loop's end-of-file result is returned first. |
| `Cluster.GroupReads` | tsMuxer/matroskaDemuxer.cpp:750-835 | The group's loop reads every element of any well-formed group, in order, and reports its end - or the file's, if nothing follows. |
| `Cluster.ToldSays` | tsMuxer/matroskaDemuxer.cpp:750-835 | What the loop has learned: a block if there is one, a key frame if there is no reference. |
| `Cluster.GroupRoundTrip` | tsMuxer/matroskaDemuxer.cpp:750-835 | A group with a duration, a block and any number of references gives the block's frame, a key frame if and only if there is no reference, unless the file ends behind it. |
| `Cluster.AnyGroupReads` | tsMuxer/matroskaDemuxer.cpp:750-835 | A group with a duration, a block of any content and references gives what the block parser makes of it with that duration, a key frame if and only if there is no reference - unless the file ends behind it. |
| `LacedBlocks.LacedBlockRoundTrip` | tsMuxer/matroskaDemuxer.cpp:484-745 | A block with any of the four lacings and any spare flag bits comes back as one packet for each frame: track, position, bytes, the key flag on the first only, and times a duration apart; without a duration the time stays, and before time zero it is zero. |
| `LacedBlocks.RefusedBlock` | tsMuxer/matroskaDemuxer.cpp:496-513 | A block without a readable track number, of an unknown or unwanted track, or with nothing behind its flags gives nothing. |
| `LacedBlocks.ReservedTrack` | tsMuxer/matroskaDemuxer.cpp:496-513 | The reserved form of a track number stands for track -1. |
| `LacedBlocks.SpoiltBlock` | tsMuxer/matroskaDemuxer.cpp:550-574 | A Xiph lace header that announces more sizes than it has makes the block an error. |
| `LacedBlocks.LacedGroupRoundTrip` | tsMuxer/matroskaDemuxer.cpp:750-835 | The same from a block group with a duration and references, if something follows it. |
| `Cluster.LostFrame` | tsMuxer/matroskaDemuxer.cpp:750-835 | A file ending with a group of one frame of one byte delivers nothing from it. |
| `Cluster.ClusterReader.Block` | tsMuxer/matroskaDemuxer.cpp:484-743 | Queues the packets of the block behind those queued before, with every early return of the source. |
| `Cluster.ClusterReader.QueueFrames` | tsMuxer/matroskaDemuxer.cpp:636-743 | The packet loop stops at the first frame that does not fit. |
| `Cluster.ClusterReader.FindTrackByNum` | tsMuxer/matroskaDemuxer.cpp:353-361 | The first track with the number, or -1 when there is none. |
| `Cluster.ClusterReader.BlockGroup` | tsMuxer/matroskaDemuxer.cpp:750-835 | The group's loop: duration, references and block, then the block is parsed. |
| `Cluster.ClusterReader.Cluster` | tsMuxer/matroskaDemuxer.cpp:957-1028 | The cluster's loop computes the parser's packets and stands where it stands. |
| `MatroskaFile.OneCluster` | tsMuxer/matroskaDemuxer.cpp:1139-1203 | A cluster at the top level yields its packets and leaves the reader at the next identifier. |
| `MatroskaFile.SegmentRoundTrip` | tsMuxer/matroskaDemuxer.cpp:1139-1203 | Repeated calls of `readPacket` over the clusters of a segment deliver all their blocks, in order, cluster after cluster, and then exactly what the elements behind them give. |
| `MatroskaFile.SegmentThenTail` | tsMuxer/matroskaDemuxer.cpp:1139-1203 | With any elements behind the clusters that are neither clusters nor headers, exactly the clusters' blocks are delivered. |
| `MatroskaFile.PacketReader.ReadPacket` | tsMuxer/matroskaDemuxer.cpp:1139-1203 | Each call returns the first packet to come and leaves the others to come. |
| `Muxer.MatroskaMuxer.FlushCluster` | tsMuxer/matroskaMuxer.cpp:1094-1111 | The buffered cluster goes to the file as one element of known size; nothing happens when none is open. |
| `Muxer.MatroskaMuxer.StartCluster` | tsMuxer/matroskaMuxer.cpp:905-923 | Closes the open cluster, notes where the next starts, and buffers its time code. |
| `Muxer.MatroskaMuxer.MakeRoom` | tsMuxer/matroskaMuxer.cpp:1154-1161 | A new cluster is begun when none is open, after five seconds, when the buffered one has reached its maximum size, and at a video key frame that comes a second or more after the cluster's start. |
| `Muxer.MatroskaMuxer.WriteSimpleBlock` | tsMuxer/matroskaMuxer.cpp:1113-1199 | Block header, converted payload, and the cue of a video key frame. |
| `Muxer.MatroskaMuxer.FlushPendingFrame` | tsMuxer/matroskaMuxer.cpp:1113-1199 | The gathered frame of a track becomes a block, and the track is empty. |
| `Muxer.MatroskaMuxer.MuxPacketInternal` | tsMuxer/matroskaMuxer.cpp:1244-1273 | A packet with the time of the gathered frame joins it; another one lets the frame go first. |
| `Muxer.MatroskaMuxer.ReplayBufferedPackets` | tsMuxer/matroskaMuxer.cpp:874-900 | The held packets are muxed in order, times counted from the least of them. |
| `Muxer.MatroskaMuxer.LeastPts` | tsMuxer/matroskaMuxer.cpp:874-900 | The loop finds the least time. |
| `Muxer.MatroskaMuxer.WriteDeferredHeader` | tsMuxer/matroskaMuxer.cpp:857-872 | The header is written once. |
| `Muxer.MatroskaMuxer.MuxOne` | tsMuxer/matroskaMuxer.cpp:1201-1242 | Packets are held back until every stream was seen; then come the header, the held packets, and from there on each packet as it arrives; empty packets and unknown streams are ignored. |
| `Muxer.MatroskaMuxer.FlushEverything` | tsMuxer/matroskaMuxer.cpp:1277-1284 | Every track's frame, then the cluster. |
| `Muxer.MatroskaMuxer.CloseFile` | tsMuxer/matroskaMuxer.cpp:1382-1396 | Whatever is still held goes to the file before the cues are written. |
| `MuxerRun.CloseKeepsLayout` | tsMuxer/matroskaMuxer.cpp:1094-1111 | The file stays the header and the clusters, in order. |
| `MuxerRun.PutKeepsLayout` | tsMuxer/matroskaMuxer.cpp:1113-1199 | A put extends the open cluster, and its cue, if any, refers to it. |
| `MuxerRun.PreparedIsReady` | tsMuxer/matroskaMuxer.cpp:1154-1161 | Before a block is put, a cluster is open that starts less than 5000 ms before it, for a video key frame less than 1000 ms, and at its very time if it is the cluster's first. |
| `MuxerRun.FlushKeeps` | tsMuxer/matroskaMuxer.cpp:1113-1199 | Letting a frame go keeps the invariant and the other tracks' frames. |
| `MuxerRun.GatherKeeps` | tsMuxer/matroskaMuxer.cpp:1244-1275 | Gathering a packet is one step of grouping neighbours of equal time. |
| `MuxerRun.InternalKeeps` | tsMuxer/matroskaMuxer.cpp:1244-1275 | One packet more keeps the invariant and is recorded last. |
| `MuxerRun.ReplayKeeps` | tsMuxer/matroskaMuxer.cpp:874-900 | Releasing the held packets loses and moves none of them. |
| `MuxerRun.MuxPacketKeeps` | tsMuxer/matroskaMuxer.cpp:1201-1242 | Every accepted packet is taken in behind those before it; others are not. |
| `MuxerRun.DoFlushKeeps` | tsMuxer/matroskaMuxer.cpp:1277-1286 | After a flush the frames in the file are those of all packets muxed so far. |
| `MuxerRun.FinishKeeps` | tsMuxer/matroskaMuxer.cpp:1382-1403 | The end of a run leaves nothing held and no cluster open. |
| `MuxerRun.RunKeepsInv` | tsMuxer/matroskaMuxer.cpp:1201-1286 | After every run the invariant holds, and the packets taken in are the accepted ones, in order. |
| `MuxerRun.FinishedFile` | tsMuxer/matroskaMuxer.cpp:1094-1275 | A finished file is the header and the clusters; every block is less than 5000 ms from its cluster's time, every video key frame less than 1000 ms; every track has exactly the frames its packets make, in order. |
| `MuxerClusters.ClustersEnd` | tsMuxer/matroskaMuxer.cpp:1150-1162 | In every finished file, a cluster without its last block is smaller than 5 MiB; and a cluster behind another one was begun because that one had reached 5 MiB, because its first frame lies 5000 ms behind that one's time, because it is a video key frame 1000 ms behind, or because a flush came between; and the time kept for the duration is the latest of all. |
| `MuxerHeader.HeaderComesWithLastTrack` | tsMuxer/matroskaMuxer.cpp:1218-1236 | After any run the header is written if and only if every track has had a packet. |
| `MuxerHeader.TimeZero` | tsMuxer/matroskaMuxer.cpp:874-891 | Time zero of the finished file is the least time of the packets up to the moment every track had one, or of all packets if that never came. |
| `MuxerClusters.FlushSized` | tsMuxer/matroskaMuxer.cpp:1113-1199 | Releasing a frame keeps that: it goes into the open cluster, or has a reason to begin one. |
| `MuxerRun.GroupKeepsBytes` | tsMuxer/matroskaMuxer.cpp:1244-1275 | Grouping loses no byte: a stream's frames concatenate to its packets. |
| `MuxerRun.CuesPointAtClusters` | tsMuxer/matroskaMuxer.cpp:1113-1199 | A cue exists if and only if some cluster holds that video key frame; at its offset stands that cluster's element. |
| `MuxerReach.FlushTimely` | tsMuxer/matroskaMuxer.cpp:1113-1199 | Releasing a frame keeps all frames in reach while no stream's last packet lies more than 32768 ms before one that has arrived: the open cluster has the time of such a packet. |
| `MuxerReach.InternalTimely` | tsMuxer/matroskaMuxer.cpp:1244-1273 | So does taking in one more packet, as the frame being gathered has the time of its stream's last packet. |
| `MuxerReach.PunctualRun` | tsMuxer/matroskaMuxer.cpp:1220-1284 | A condition on the packets alone: if no stream ever falls more than 32768 ms behind the packets that have arrived, every frame of the finished file is in reach of its cluster. |
| `MuxerReadBack.BytesAgree` | tsMuxer/matroskaMuxer.cpp:1094-1111 | The muxer's clusters are, byte for byte, clusters the demuxer reads. |
| `MuxerReadBack.PacketsAgree` | tsMuxer/matroskaDemuxer.cpp:957-1028 | And hold the frames, in the order they were put, with the time their offset gives. |
| `MuxerReadBack.OffsetWraps` | tsMuxer/matroskaMuxer.cpp:1113-1199 | The time a block is read with lies a multiple of 65536 ms behind the frame's own, and is the frame's own if and only if that is at most 32768 ms before the cluster's. |
| `MuxerReadBack.LaterPts` | tsMuxer/matroskaDemuxer.cpp:957-1028 | Such a shift of less than 2^56 ms always changes the time of the packet, though times are 64-bit products. |
| `MuxerReadBack.TimesAgree` | tsMuxer/matroskaMuxer.cpp:1113-1199 | The frames of a file's clusters come back with their own times if and only if none lies more than 32768 ms before its cluster. |
| `MuxerReadBack.RunReadBack` | tsMuxer/matroskaDemuxer.cpp:1139-1203 | The clusters of a whole run, read back with `readPacket`, whatever follows them: the frames put, in order, with track, key flag and bytes, come first - and with their times if and only if every one is in reach of its cluster. |
| `MuxerReadBack.FileReadBack` | tsMuxer/matroskaMuxer.cpp:1382-1403 | The same for a whole file, with cues, a seek head or any such elements behind the clusters: exactly the frames put, and with their times if and only if every one is in reach of its cluster - which all are if no stream falls more than 32768 ms behind. |
| `MuxerReadBack.OffsetKept` | tsMuxer/matroskaMuxer.cpp:1113-1199 | The 16-bit offset of a block is right if and only if the frame is at most 32768 ms before its cluster. |
| `MuxerReadBack.LateFrame` | tsMuxer/matroskaMuxer.cpp:1113-1199 | Two packets, 40 seconds apart, on two tracks make a file in which the second one's frame is written 65.536 seconds too late. |
| `MuxerReadBack.HeldFramesAreNotEarly` | tsMuxer/matroskaMuxer.cpp:874-900 | Frames held back for the header never lie before time zero. |
| `IsoExtents.StepKeepsInv` | tsMuxer/iso_writer.cpp:454-513 | Each allowed write or close keeps: extents apart, sizes adding up, limits kept, bytes where the extents say. |
| `IsoExtents.RunKeepsInv` | tsMuxer/iso_writer.cpp:454-513 | And so does every run. |
| `IsoExtents.WriteKeepsFiles` | tsMuxer/iso_writer.cpp:454-501 | A write appends to the content of its file and changes no other. |
| `IsoExtents.WriteKeepsPlaces` | tsMuxer/iso_writer.cpp:454-501 | A write makes its extent grow, or adds one, without meeting another. |
| `IsoExtents.CloseKeeps` | tsMuxer/iso_writer.cpp:503-515 | A close in the right place keeps every file's content. |
| `IsoExtents.ImageHoldsEveryFile` | tsMuxer/iso_writer.cpp:454-515 | After any allowed run over many files: all extents disjoint, their sum the file's size, each below the limit, and reading them from the image gives the bytes written. |
| `IsoExtents.PendingIsInLast` | tsMuxer/iso_writer.cpp:454-501 | Bytes still in the sector buffer belong to the file's last extent. |
| `IsoExtents.CloseSeeksRight` | tsMuxer/iso_writer.cpp:503-515 | Closing a file with a partial sector seeks to where that sector belongs if and only if the file and its last extent have equally many whole sectors, as when it has one extent. |
| `IsoExtents.CloseElsewhere` | tsMuxer/iso_writer.cpp:503-515 | Otherwise the tail goes elsewhere, and its place reads as zeros. |
| `IsoExtents.CloseKeepsBytesExactly` | tsMuxer/iso_writer.cpp:503-515 | So closing keeps the bytes if and only if it seeks right, or the tail is zeros anyway. |
| `IsoExtents.LostTail` | tsMuxer/iso_writer.cpp:454-515 | A sector to one file, a sector to another and up to a sector more to the first: closing it then loses these last bytes, unless they are zeros. |
| `IsoExtents.AddExtentReads` | tsMuxer/iso_writer.cpp:437-452 | Adding an extent, merged or not, adds its bytes and keeps the limit. |
| `IsoExtents.PutAtBytes` | tsMuxer/iso_writer.cpp:503-513 | A write at any position, byte by byte: the data, what was there around it, and zeros in a gap. |
| `IsoExtents.InterleavedReads` | tsMuxer/iso_writer.cpp:733-761 | The interleaved file reads as the pieces of both files in turn, and shares their sectors. |
| `IsoExtents.FileEntryInfo.NoteExtent` | tsMuxer/iso_writer.cpp:454-475 | When a write grows the last extent and when it begins a new one. |
| `IsoExtents.FileEntryInfo.WriteSectors` | tsMuxer/iso_writer.cpp:476-501 | Whole sectors go to the image, the rest waits. |
| `IsoExtents.FileEntryInfo.Write` | tsMuxer/iso_writer.cpp:454-501 | The writer's, the file's and the buffer's new state after a write. |
| `IsoExtents.FileEntryInfo.Close` | tsMuxer/iso_writer.cpp:503-515 | The same for a close. |
| `IsoExtents.FileEntryInfo.AddOne` | tsMuxer/iso_writer.cpp:437-452 | Merge or append. |
| `IsoExtents.FileEntryInfo.Interleave` | tsMuxer/iso_writer.cpp:733-761 | The loop over both files' extents. |
| `IsoDescriptors.AllocatedIsWritten` | tsMuxer/iso_writer.cpp:384-397 | For every number of extents, the sectors reserved are the sectors the greedy loop writes, the absorbed last one included. |
| `IsoDescriptors.LinksLeadToAllExtents` | tsMuxer/iso_writer.cpp:1082-1113 | Following the continuation links from the file entry recovers every extent, in order. |
| `IsoDescriptors.ContinuationsAreFollowed` | tsMuxer/iso_writer.cpp:1103-1112 | The same from any continuation sector on. |
| `IsoDescriptors.FileSectorLists` | tsMuxer/iso_writer.cpp:1082-1102 | The file entry lists its extents, then the link. |
| `IsoDescriptors.ContSectorLists` | tsMuxer/iso_writer.cpp:980-1001 | A continuation lists its extents, then the link. |
| `IsoDescriptors.StrayWord` | tsMuxer/iso_writer.cpp:980-1001 | The addition at byte 212 of a continuation lands in the implementation-use word of entry 11 alone. |
| `IsoDescriptors.ContSectorWords` | tsMuxer/iso_writer.cpp:980-1001 | All 512 words of a continuation sector: tag, location, table length, the descriptors, the link with its partition, and zeros. |
| `IsoDescriptors.FileSectorWords` | tsMuxer/iso_writer.cpp:1003-1060 | All words of a file entry's sector from the table's length on, what stands in front being given. |
| `IsoDescriptors.DescriptorWriter.WriteLongAD` | tsMuxer/iso_writer.cpp:199-215 | Four words, the partition in the low half of the third. |
| `IsoDescriptors.DescriptorWriter.WriteAllocationExtentDescriptor` | tsMuxer/iso_writer.cpp:980-1001 | One continuation sector behind those written. |
| `IsoDescriptors.DescriptorWriter.WriteContinuations` | tsMuxer/iso_writer.cpp:1103-1112 | The greedy loop appends the whole chain and counts it. |
| `IsoDescriptors.DescriptorWriter.WriteFileEntry` | tsMuxer/iso_writer.cpp:1082-1116 | The file entry and all continuations, and the count returned. |
| `IsoTree.PlacesAreChained` | tsMuxer/iso_writer.cpp:964-978 | The entities of any tree get contiguous intervals, in preorder, from the first sector to the number returned. |
| `IsoTree.ChainedAreDisjoint` | tsMuxer/iso_writer.cpp:964-978 | Any two of them are disjoint. |
| `IsoTree.TreeIsFound` | tsMuxer/iso_writer.cpp:957-962 | Reading the written sectors from the root, along the lists of the directories and the continuation links of the files, finds the tree and every file's extents. |
| `IsoTree.AllAreFound` | tsMuxer/iso_writer.cpp:406-435 | Each child is where its directory's list says, and links back to its parent. |
| `IsoTree.ParentsAreKnown` | tsMuxer/iso_writer.cpp:384-397 | Whenever an entity is placed, its parent was placed before, with the sector it is told. |
| `IsoTree.MappingIsRight` | tsMuxer/iso_writer.cpp:384-397 | With distinct identifiers, every mapping entry has the parent's and its own final sector. |
| `IsoTree.MetadataWriter.AllocateEntity` | tsMuxer/iso_writer.cpp:964-978 | The recursive walk records these places in the entities' own fields and in the mapping, and returns the next free sector. |
| `IsoTree.MetadataWriter.SerializeFile` | tsMuxer/iso_writer.cpp:399-404 | The descriptor writer, sent to the file's sector, writes the entry and its continuations, as many sectors as were allocated. |
| `IsoTree.MetadataWriter.SerializeDir` | tsMuxer/iso_writer.cpp:406-435 | A directory writes its entry and the list of its parent and children. |
| `IsoTree.MetadataWriter.WriteEntity` | tsMuxer/iso_writer.cpp:957-962 | Exactly the allocated sectors are written, each entity in its own; for every file the source's assertion that written and allocated counts agree holds. |
| `Utf.OffsetIsBitwise` | tsMuxer/convertUTF.h:156-171 | Summing raw bytes and subtracting the table's offset equals taking six bits of each byte. |
| `Utf.Decode8Inverts` | tsMuxer/convertUTF.h:156-171 | The decoder inverts the encoding of every character, which `isLegalUTF8` accepts with the table's length. |
| `Utf.LegalExactly` | tsMuxer/convertUTF.cpp:325-376 | For every lead byte: accepted if and only if well formed, or of the loose kind with lead 0xED or 0xF4. |
| `Utf.LegalDecodes` | tsMuxer/convertUTF.cpp:325-376 | An accepted sequence that is not loose is the encoding of its bits. |
| `Utf.LooseDecodes` | tsMuxer/convertUTF.cpp:325-376 | A loose sequence is taken for another character, whose encoding is different. |
| `Utf.LooseExample` | tsMuxer/convertUTF.cpp:325-376 | ED 20 80 is accepted and converts to U+B800. |
| `Utf.LegalIsCharacter` | tsMuxer/convertUTF.cpp:414-518 | What is accepted always decodes to a character, never to a surrogate or beyond U+10FFFF. |
| `Utf.To8OfCharacters` | tsMuxer/convertUTF.cpp:203-308 | Well-formed UTF-16 becomes the UTF-8 of its characters. |
| `Utf.To16OfCharacters` | tsMuxer/convertUTF.cpp:414-518 | Well-formed UTF-8 becomes the UTF-16 of its characters. |
| `Utf.RoundTrip` | tsMuxer/convertUTF.cpp:203-518 | There and back is the identity on well-formed UTF-16. |
| `Utf.StrictAcceptsWellFormed` | tsMuxer/convertUTF.cpp:203-308 | Strict conversion from UTF-16 succeeds on nothing else. |
| `Utf.StrictAcceptsLegal` | tsMuxer/convertUTF.cpp:394-412 | Strict conversion from UTF-8, with room, succeeds if and only if `isLegalUTF8String` accepts. |
| `Utf.To8GoesOn` | tsMuxer/convertUTF.cpp:203-308 | Stopping for want of room and going on equals having had the room, for any input. |
| `Utf.To16GoesOn` | tsMuxer/convertUTF.cpp:414-518 | The same from UTF-8, although the pointer is backed up first. |
| `Utf.ChunksAreWhole8` | tsMuxer/convertUTF.cpp:203-308 | Conversion through any series of buffers equals conversion at once. |
| `Utf.ChunksAreWhole16` | tsMuxer/convertUTF.cpp:414-518 | The same from UTF-8. |
| `Utf.StopsBetweenCharacters` | tsMuxer/convertUTF.cpp:203-308 | With any room, both pointers stop on the boundary of the same character. |
| `Utf.StopsBetweenSequences` | tsMuxer/convertUTF.cpp:414-518 | The same from UTF-8. |
| `UtfErrors.LoneSurrogateTo8` | tsMuxer/convertUTF.cpp:203-308 | UTF-16 to UTF-8 at a surrogate without a partner: one that may still get it ends the conversion as exhausted; any other is illegal to strict conversion, which stops in front of it, and gets three bytes of its own from lenient conversion, which goes on. |
| `UtfErrors.BadSequenceTo16` | tsMuxer/convertUTF.cpp:414-518 | UTF-8 to UTF-16 stops in front of the first sequence that is cut short or not legal, with all before it converted, and tells the two apart. |
| `UtfErrors.LoneSurrogateTo32` | tsMuxer/convertUTF.cpp:113-178 | UTF-16 to UTF-32 at a surrogate without a partner: the same, except that lenient conversion hands it through. |
| `UtfErrors.SurrogateFrom32` | tsMuxer/convertUTF.cpp:38-98 | UTF-32 to UTF-16: a surrogate stops strict conversion; lenient conversion puts the replacement character for it, and for what is beyond U+10FFFF. |
| `Utf.IterateFindsCharacters` | tsMuxer/convertUTF.h:173-215 | Over well-formed UTF-8 the callback gets the characters, one by one. |
| `UtfErrors.FiveBytes` | tsMuxer/convertUTF.cpp:438-465 | Sequences of five bytes, which are only met where nothing is checked, decode to their 26 bits. |
| `UtfErrors.SixBytes` | tsMuxer/convertUTF.cpp:438-465 | And those of six bytes to their 31, the 32-bit sum wrapping on the way. |
| `Utf.PairIsUtf16` | tsMuxer/convertUTF.cpp:100-111 | The single-character converter gives the surrogate pair. |
| `Utf.Utf32RoundTrip` | tsMuxer/convertUTF.cpp:38-165 | UTF-16 to UTF-32 and back is the identity on well-formed input. |
| `Utf.TooLargeIsLeftOut` | tsMuxer/convertUTF.cpp:38-98 | Without surrogates, strict conversion from UTF-32 always reaches the end: values beyond U+10FFFF are left out, and the result is illegal if and only if there was one. |
| `Utf.ConvertUtf16ToUtf32` | tsMuxer/convertUTF.cpp:113-182 | The pointer loop to UTF-32: result, both pointers, the target's content. |
| `Utf.ConvertUtf32ToUtf16` | tsMuxer/convertUTF.cpp:38-98 | The pointer loop back, where a noted error does not stop it. |
| `Utf.IterateChars` | tsMuxer/convertUTF.h:173-214 | The loop makes exactly the calls of the decoding function. |
| `Utf.PutCharacter` | tsMuxer/convertUTF.cpp:284-303 | The falling-through switch fills a character's bytes from the back. |
| `Utf.ConvertUtf16ToUtf8` | tsMuxer/convertUTF.cpp:203-308 | The pointer loop: result, both pointers and the target's content, the rest of it untouched. |
| `Utf.ConvertUtf8ToUtf16` | tsMuxer/convertUTF.cpp:414-518 | The same for the other direction. |
| `Utf.SumBytes` | tsMuxer/convertUTF.cpp:438-465 | The switch that sums the bytes, then the offset. |
| `Utf.IsLegalString` | tsMuxer/convertUTF.cpp:394-412 | The loop accepts exactly the strings made of legal sequences. |
| `Lpcm.FrameRoundTrip` | tsMuxer/lpcmStreamReader.cpp:175-292 | A WAV frame, byte-swapped, rotated and padded, comes back from the reverse steps. |
| `Lpcm.PcmFrameRoundTrip` | tsMuxer/lpcmStreamReader.cpp:294-367 | A Blu-ray frame comes back from the other direction if and only if its padding channel is silent. |
| `Lpcm.WavRoundTrip` | tsMuxer/lpcmStreamReader.cpp:175-367 | For every supported channel count and depth and any number of frames, converting to the payload and back restores the bytes. |
| `Lpcm.PcmBytes` | tsMuxer/lpcmStreamReader.cpp:175-246 | The payload byte by byte: each sample's two or three bytes in the opposite order, at the place of its channel in a literal table, for every channel count and depth. |
| `Lpcm.PcmPadding` | tsMuxer/lpcmStreamReader.cpp:235-246 | An odd number of channels is followed by a channel of zeros in every frame. |
| `Lpcm.WavBytes` | tsMuxer/lpcmStreamReader.cpp:310-370 | The WAV data byte by byte, whatever is in the padding. |
| `Lpcm.PcmRoundTrip` | tsMuxer/lpcmStreamReader.cpp:175-367 | The other way round, if and only if all padding is silent. |
| `Lpcm.StoreChannelData` | tsMuxer/lpcmStreamReader.cpp:116-128 | The temporary array holds the channel of every frame. |
| `Lpcm.CopyChannelData` | tsMuxer/lpcmStreamReader.cpp:144-159 | One channel of every frame is copied over another, nothing else changes. |
| `Lpcm.RestoreChannelData` | tsMuxer/lpcmStreamReader.cpp:130-142 | One channel of every frame comes from the array, nothing else changes. |
| `Lpcm.SwapAll` | tsMuxer/lpcmStreamReader.cpp:188-201 | Every sample of the buffer has its bytes reversed. |
| `Lpcm.RemapChannels` | tsMuxer/lpcmStreamReader.cpp:203-233 | Rotations through the temporary array put every frame in Blu-ray order. |
| `Lpcm.UnmapChannels` | tsMuxer/lpcmStreamReader.cpp:318-363 | And back to WAV order, a padding channel left alone. |
| `Lpcm.RemoveChannel` | tsMuxer/lpcmStreamReader.cpp:161-173 | Moving frames together in place drops the last channel of each. |
| `Lpcm.CopyFrames` | tsMuxer/lpcmStreamReader.cpp:235-246 | The payload is the frames, each with a silent channel behind an odd number. |
| `Lpcm.LpcmReader.ConvertWavToPcm` | tsMuxer/lpcmStreamReader.cpp:175-292 | The whole conversion computes the payload function. |
| `Lpcm.LpcmReader.ConvertLpcmToWav` | tsMuxer/lpcmStreamReader.cpp:294-367 | A buffer is converted once; the length returned is that of the frames without padding. |
| `PicOrder.RecoversExactly` | tsMuxer/hevcStreamReader.cpp:485-506 | For any two pictures: the full order is recovered if and only if the change is below half the range, or exactly half on the side the comparison takes. |
| `PicOrder.RecoveredExactly` | tsMuxer/hevcStreamReader.cpp:485-506 | Over a whole run all orders are recovered if and only if every change can be told so. |
| `PicOrder.SmallChangesAreTellable` | tsMuxer/hevcStreamReader.cpp:485-506 | Changes below half the range, as the standard has them, always can. |
| `PicOrder.RunRecovers` | tsMuxer/hevcStreamReader.cpp:468-506 | Over a whole run: PTS is the start DTS plus the frame increment times the full order, and DTS counts frames. |
| `PicOrder.PresentationOrder` | tsMuxer/hevcStreamReader.cpp:468-506 | Within a sequence, times are in the order of the picture order counts. |
| `PicOrder.DepthIsBounded` | tsMuxer/hevcStreamReader.cpp:478-482 | The frame depth never shrinks and stays between one and four. |
| `PicOrder.DepthIsGreatest` | tsMuxer/hevcStreamReader.cpp:478-484 | For every stream whose counts can be told, the frame depth is the smaller of four and the greatest excess of a picture's place over its count, at least one. |
| `PicOrder.DecodedInTime` | tsMuxer/hevcStreamReader.cpp:468-483 | DTS shifted back by the depth is not after PTS if and only if the picture is reordered by at most four frames. |
| `PicOrder.StreamDecodedInTime` | tsMuxer/hevcStreamReader.cpp:468-506 | For a stream whose changes can be told, the same in its own terms: if and only if the picture's place behind its IDR picture exceeds its count by at most four. |
| `PicOrder.HevcTimings.ToFullPicOrder` | tsMuxer/hevcStreamReader.cpp:485-506 | The fields after a slice header. |
| `PicOrder.HevcTimings.IncTimings` | tsMuxer/hevcStreamReader.cpp:468-483 | The fields after a frame. |
| `TrueHd.TakeBalances` | tsMuxer/ac3StreamReader.cpp:186-231 | One packet keeps the accounts: samples, core packets, frames taken, dropped and held, and the next core time. |
| `TrueHd.RunBalances` | tsMuxer/ac3StreamReader.cpp:173-233 | They balance after any number of calls over any stream. |
| `TrueHd.AccountsCount` | tsMuxer/ac3StreamReader.cpp:173-233 | The accounts are the counts of packets consumed and returned. |
| `TrueHd.Interleaving` | tsMuxer/ac3StreamReader.cpp:173-233 | In every run the sample remainder is below one AC-3 frame, cores plus the wait flag never exceed whole frames plus one, and the AC-3 frames used up are emitted, overlapped in the stream, or at most one held. |
| `TrueHd.DroppedAreOverlapped` | tsMuxer/ac3StreamReader.cpp:211-223 | The frames counted as dropped are those of the stream used up that came while one was held already. |
| `TrueHd.TimesCountPackets` | tsMuxer/ac3StreamReader.cpp:173-233 | Each core packet's time is the cores before it times the frame duration; each TrueHD packet's is the samples before it. |
| `TrueHd.CoresKeepOrder` | tsMuxer/ac3StreamReader.cpp:173-233 | Core packets come out in the order of their frames, none twice, and all before the frames still to come. |
| `TrueHd.CoresAreUpToDate` | tsMuxer/ac3StreamReader.cpp:173-233 | In every run a held frame is the last AC-3 frame of the stream used up, so an overlapping one takes its place, and every core packet is that last frame when it goes out. |
| `TrueHd.TrueHdReader.ReadPacketThd` | tsMuxer/ac3StreamReader.cpp:173-233 | The loop computes the call's packet, the fields, and what is left of the stream. |

## Left out

- ReaderProtocol.DeliveredInOrder: for readers without a file iterator and without seeking, and one consumer thread; with an iterator `m_eof` is set before the last block is published. `m_firstBlock`, `m_lastBlock` and the reordering of unlocked accesses by the hardware are not modelled.
- ReaderProtocol.SleeperIsServed: does not say that the consumer has a request when one was refused, as then it has none; `SleeperWasServed` says exactly when, and `QueueHasRoom` when that cannot be.
- BitStream.BitStreamReader.SetBuffer: buffers of 2^29 bytes and more, whose length in bits leaves 32 bits.
- `moveBits`, `alignByte` and the writer's `skipBits`, which are no operations on a plain bit string.
- BitPatch.HevcVpsUnit.UpdateNalBits: requires that the memory the writer touches exists; the guard sees to that exactly where `WindowCovers` says. VPS parsing in front of the timing fields is a position in the buffer.
- BitPatch.HevcVpsUnit.SetFPS: the two numbers computed from the frame rate in floating point are parameters.
- EbmlNumbers: floating point elements, strings, and the patching of Duration.
- EbmlLevels.ParseReadsDocument: the bodies of the `matroska_parse_*` functions for tracks, chapters, attachments and the index are represented by one loop, with the choice of the readers for leaves left open; seeking by index is not modelled.
- Lacing.DeltaRoundTrip: differences wider than four bytes, for which the source shifts an `int` by 32 and more.
- Lacing.CleanLacesFillTheBlock: signed overflow, which the language leaves open, is taken to wrap around; so it is for the 64-bit products and sums of `Cluster.Pts` and `Cluster.NextTime`, and with them in `Cluster.PtsExact` and `Cluster.EarlyFrame`.
- Cluster.ClusterReader.Block: RealVideo slices, header stripping and zlib decompression, and the map of first time codes.
- Cluster.ClusterReader.QueueFrames: the same RealVideo and decompression paths of the packet loop.
- Cluster.ClusterRoundTrip: for blocks that survive in the sense of `BlockSurvives`; which do is proved there.
- MatroskaFile.PacketReader.ReadPacket: an exception of the source is an end of the packets.
- Muxer.MatroskaMuxer.WriteSimpleBlock: the conversion of frames to length-prefixed or low-overhead form is a function of the environment; NAL unit splitting is not part of this model.
- Muxer.MatroskaMuxer.WriteDeferredHeader: the header it writes is a given byte string.
- Muxer.MatroskaMuxer.CloseFile: the bytes of the segment information, tracks, cues and the seek head, and the patching of sizes; the header is a byte string, the cues a list.
- MuxerReadBack.RunReadBack: for frames that do not lie before time zero (`Cluster.EarlyFrame` says what becomes of those), of tracks found under the numbers they were written with and of sizes the reader takes; clusters have times that a 64-bit clock divided into milliseconds can give.
- MuxerReach.PunctualRun: one way only; the condition that is exact, `AllInReach`, is about the clusters, as where these start depends on the sizes of the frames too.
- IsoExtents.ImageHoldsEveryFile: for the runs `Allowed` describes, in which files are switched on sector boundaries, a file is written on only while its last extent ends the image, a new extent follows one of whole sectors only, when the old one is full (the assertion of the source), and a partial sector is closed while one extent holds the file; what other closes do is said by `CloseElsewhere` and `CloseKeepsBytesExactly`. Object identifiers are not wrapped at 8 bits, and a single write is shorter than `MAX_EXTENT_SIZE`.
- IsoDescriptors.LinksLeadToAllExtents: descriptor checksums, and sector numbers from 2^32 on; the reader follows length, location and partition.
- IsoTree.TreeIsFound: names, time stamps and the encoding of file identifiers; a directory's list of sector numbers is one sector however long it is, where the source asserts that the encoded list stays below 2048 bytes.
- IsoTree.MetadataWriter.SerializeFile: the words in front of the descriptor table are given with the file.
- IsoTree.MetadataWriter.SerializeDir: the encoded list of a directory is one sector of numbers, and its size is not limited.
- The volume descriptors, anchors, layer break and metadata mirror of the image.
- UTF-32 to and from UTF-8 directly.
- Utf.IterateChars: a callback that asks to stop, and a last sequence cut short by the end of the string, behind which the source reads on.
- Lpcm.LpcmReader.ConvertWavToPcm: the frame header, the fixed size of the frame buffer, and bytes behind the last whole frame, which the source cuts off first.
- Lpcm.LpcmReader.ConvertLpcmToWav: buffers that do not hold whole frames.
- PicOrder.RunRecovers: the parsing of slice headers, and counts from 2^31 on.
- TrueHd.TrueHdReader.ReadPacketThd: the packetizer is a list of tagged packets, and `m_samples` and `mlp.m_samples` are constants; the time in samples is not divided by the sample rate.
- Options, codec headers, track discovery, MPEG-TS and Blu-ray playlists: much code, but easy statements.
