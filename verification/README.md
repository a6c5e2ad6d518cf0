# Verification of the ego recorder and its offline pipeline

A Dafny model of the flight recorder (`runtimepc`), of the offline pipeline that reads what it
wrote (`offline`), and of the frame format they share (`common/ego_v1`). It follows one frame from
the wire to the report: a contract frame is validated, queued, written to a rotating chunk file,
closed, checked, found again through the manifest, re-checked, counted, cut into usable time
ranges, and exported as MDF4.

Byte strings are sequences of numbers below 256, files are byte strings in a map by name, and
appending to a file is concatenation. Where the program keeps state in an object, the model has a
class with those fields; where it loops, the model has a loop, proved against a function of its
input. Where the program calls `std::sort`, only a sorted permutation is assumed of the result.
Doubles are opaque 64-bit patterns in the MDF4 writer and reals in the time
synchronisation. `dafny verify dfyconfig.toml` checks everything.

| module | what it is about |
|---|---|
| `Bytes`, `Text`, `Sorting`, `Wrappers` | little-endian fields, decimal numbers, lines, sorting by a key, the option type |
| `Crc32` | the three CRC-32 codes, their common meaning, and burst detection (section 8.1.1.6.2 of ITU-T V.42) |
| `ContractFrame` | the 72-byte frame header, frame validation, walking a stream of frames |
| `CrcWords`, `HeaderErrors` | the register word by word; which errors over the stored header checksum pass |
| `PacketBuffer` | the drop-oldest queue |
| `Recorder` | receive, writer and control threads as a step relation, with the stop protocol |
| `Arrivals`, `Progress` | which received frames are recorded, and that the threads get their work done |
| `Manifest`, `ChunkWriter`, `SessionFiles` | chunk files, index, manifest, the integrity check |
| `Json`, `JsonTexts`, `ManifestReader` | the JSON parser, all texts it reads, and the way back from the manifest text |
| `LegacyPacket`, `StreamFraming`, `StreamContents`, `Sequencing` | the 34-byte packet, the incremental deframer, sequence arithmetic |
| `LogReader`, `LogIndex`, `Playback` | the offline scan, indexed range reads, and a session from recording to re-check |
| `Validator`, `StreamStatistics`, `LogValidator`, `ValidRanges` | stream statistics in one pass and in two, what they count, usable time ranges |
| `EndToEnd` | from the threads of the recorder to the replay and to the pipeline's statistics |
| `TimeSync`, `SyncTrials`, `Drift` | cross-correlation of the two speed tracks, what it tries and measures, the fitted line |
| `Mdf4Blocks`, `Mdf4Layout`, `Mdf4Builder`, `Mdf4Reader`, `Mdf4Links`, `Mdf4Contents` | the back-patched MDF4 file, a reader that follows its links, what the bytes are |

## What the code does and its documents do not say

Each of these is proved twice: the first member named gives the exact condition, the second an
input at which it happens.

- A stop from the control thread can leave one frame in the buffer: written nowhere and counted
  nowhere (`AnyStopLosesAtMostOne`, `ControlStopCanLoseAFrame`). A SESSION_ENDED stop cannot.
- The session manifest prints unsigned 64-bit numbers that the offline parser reads as signed ones:
  a number of 2^63 or more makes the whole manifest unreadable (`ManifestTextReadsBack`,
  `LateFrameLosesTheManifest`).
- `ego_log_reader.hpp` says that a callback returning false stops the iteration; it ends only the
  chunk being read (`RefusalContinuesInNextChunk`, `RefusedScanGoesOn`).
- An indexed read of an inverted window runs out of the index when a packet lies strictly between
  the two ends (`ReadRange` with `BoundsInOrder`, `InvertedWindowRunsPast`).
- The terms of reference reject every sequence number not above the last one; the transport guard
  compares signed differences, which agrees only within half the range (`DocumentedOrderHolds`,
  `SmallerNumberIsAccepted`).
- The wrapped stream mode never recovers from a dropped byte (`WrappedDropIsFinal` and
  `StuckExactlyWhenJammed`, `BadLengthLosesThePacket`).
- The fused pass counts every failed packet as a CRC failure, the validator only real ones; and
  only the validator cuts the usable ranges at failed packets and zero times
  (`OnePassEqualsTwoPass`, `BadVersionIsNoCrcFailure`).
- An MDF4 data block is stored with a wrong length, and its group cannot be read back, once a record
  no longer fits 32 bits (`DtIsStored` and `FileReadsBack`, `WideGroupIsStoredShort`).
- A frame written after the writer was closed, or after 2^32 chunks, empties a chunk file that the
  index and the manifest still describe (`WriteContractFrame`, `ClosedWriterLosesItsChunk`).
- The fused pass takes every contract frame whose type is 1 modulo 2^16 for an audio block, also a
  SESSION_STARTED frame, and divides by its payload bytes 2 to 5 (`RecordAndAnalyse` with
  `ZeroRateOfFrame`, `StartedFrameDividesByZero`).
- The header checksum lies inside the bytes it covers. An error burst of at most 32 bits that also
  hits the stored checksum is not always noticed: in every valid frame one of 31 bits passes
  (`BurstIsAccepted`, `BurstCanPass`), and without payload even one of four bytes
  (`LateChangeIsAccepted`, `EmptyFrameWindowsCanPass`). Elsewhere every such burst is rejected.

## Model
| member | source | states |
|---|---|---|
| Bytes.FromLeOfLe | offline/src/mdf4/mdf4_lib_adapter.cpp:123-129 | Writing a number as k little-endian bytes and reading it back gives the number modulo 256^k |
| Bytes.LeOfFromLe | common/ego_v1/ego_protocol_packets.hpp:53-72 | Reading a field from its bytes and writing it back gives the same bytes |
| Text.ValueOfDec | runtimepc/src/chunk_writer.cpp:96-97 | A printed number consists of digits and has the value it was printed from |
| Text.SplitOfUnlines | runtimepc/src/session_integrity.cpp:41-50 | Reading a text of newline-terminated lines line by line gives back the lines |
| Crc32.MaskCrc32 | common/ego_v1/ego_contract/crc32.hpp:9-19 | The mask form returns the complemented shift register over the message, started at all ones |
| Crc32.BranchCrc32 | runtimepc/protocol/checksum.hpp:8-21 | The branch form returns the same value for every byte string |
| Crc32.BuildTable | offline/include/ego_offline/checksum.hpp:11-24 | Entry i of the 256-entry table is the register after eight shifts of i |
| Crc32.TableCrc32 | offline/include/ego_offline/checksum.hpp:28-34 | The table form returns the same value for every byte string, and for any start value the xored register |
| Crc32.StepsOfXor | common/ego_v1/ego_contract/crc32.hpp:13-16 | The register is linear: shifting the xor of two registers is the xor of the shifted registers |
| Crc32.StepIsInjective | common/ego_v1/ego_contract/crc32.hpp:14-15 | Different registers stay different after one shift, because bit 31 of the polynomial is set |
| Crc32.TableStep | offline/include/ego_offline/checksum.hpp:31-32 | One table lookup does what eight shifts after absorbing a byte do |
| Crc32.RegisterIsBitRegister | common/ego_v1/ego_contract/crc32.hpp:11-17 | Feeding whole bytes is the same as feeding their bits one at a time, lowest first |
| Crc32.BurstChangesRegister | common/ego_v1/ego_contract/crc32.hpp:9-19 | Two bit strings that differ, and only inside 32 consecutive bits, leave different registers, from any start and for any length |
| Crc32.CrcDetectsBurst | common/ego_v1/ego_contract/crc32.hpp:9-19 | Messages that differ only inside a 32-bit burst have different checksums |
| Crc32.CrcDetectsWindow | common/ego_v1/ego_contract/crc32.hpp:9-19 | Messages that differ only inside four consecutive bytes have different checksums |
| Crc32.CheckValue | common/ego_v1/ego_contract/crc32.hpp:9-19 | The checksum of the nine digits 1 to 9 is CBF43926 hexadecimal, the published check value |
| ContractFrame.HeaderRoundTrip | common/ego_v1/ego_protocol_packets.hpp:53-72 | The 72 header bytes are the packed fields, none lost and none overlapping |
| ContractFrame.HeaderReadsBack | common/ego_v1/ego_protocol_packets.hpp:53-72 | Writing a header whose fields fit their widths and reading it gives the same header |
| ContractFrame.BlankedHeader | runtimepc/src/contract_frame_io.cpp:92-95 | Zeroing header_crc32 in the struct zeroes exactly bytes 64 to 67 |
| ContractFrame.ValidateContractFrame | runtimepc/src/contract_frame_io.cpp:54-102 | Accepts exactly the frames with right shape, payload checksum and header checksum; on rejection names the first test that fails |
| ContractFrame.ValidFrameBytes | runtimepc/src/contract_frame_io.cpp:54-102 | The accepted frames by their bytes: magic, header size, payload size and both checksums, each at its offset |
| ContractFrame.ParseHeadBytes | runtimepc/src/contract_frame_io.cpp:15-50 | Each outcome of reading a frame by the bytes at the front of the data |
| ContractFrame.SealedFrameIsValid | runtimepc/src/contract_frame_io.cpp:54-102 | Any header and payload with sizes and both checksums filled in validate exactly when the payload is within the limit |
| ContractFrame.BurstIsRejected | runtimepc/src/contract_frame_io.cpp:54-102 | A valid frame of any length hit by an error burst of at most 32 bits outside the stored header checksum is always rejected, also when the burst hits the size or checksum fields |
| ContractFrame.WindowElsewhereIsRejected | runtimepc/src/contract_frame_io.cpp:54-102 | The same for any change inside four consecutive bytes outside bytes 64 to 67 |
| ContractFrame.StoredCrcChangeIsRejected | runtimepc/src/contract_frame_io.cpp:92-100 | A change of the stored header checksum alone is rejected too |
| ContractFrame.ParseFrameAt | runtimepc/src/contract_frame_io.cpp:15-50 | What is found at an offset, and how far the offset moves: by the whole frame or not at all |
| ContractFrame.ForEachContractFrame | runtimepc/src/contract_frame_io.cpp:104-121 | Hands over the frames of the recursive walk and returns its verdict, for any callback |
| ContractFrame.CountContractFramesInBytes | runtimepc/src/contract_frame_io.cpp:137-145 | Counts the frames handed over before the walk stops |
| ContractFrame.WholeFramesIsLargest | runtimepc/src/contract_frame_io.cpp:104-121 | The number of whole frames before a cut is the largest that fits before it |
| ContractFrame.CutStream | runtimepc/src/contract_frame_io.cpp:15-50 | A stream of valid frames cut at any byte: exactly the whole frames before the cut are handed over, and success is reported exactly when the cut is on a frame boundary |
| ContractFrame.WholeStream | runtimepc/src/contract_frame_io.cpp:104-121 | An uncut stream of valid frames is handed over completely |
| CrcWords.RegisterOfWord | common/ego_v1/ego_contract/crc32.hpp:9-19 | Up to four message bytes taken in one by one leave the register that their little-endian word leaves when it is xored in at once |
| CrcWords.StepsIsSpan | common/ego_v1/ego_contract/crc32.hpp:13-16 | A word shifted on is the xor, over its set bits, of the registers that lead on from the word 1 |
| CrcWords.ThreeBytesReturn | common/ego_v1/ego_contract/crc32.hpp:13-16 | 32 shifts on, no word of three bytes but zero leaves the three low bytes of the register clear |
| CrcWords.TwoHighBytesReturn | common/ego_v1/ego_contract/crc32.hpp:13-16 | 96 shifts on, no word of two high bytes but zero leaves the two high bytes clear |
| HeaderErrors.ChecksumChange | runtimepc/src/contract_frame_io.cpp:92-95 | What the header checksums of two headers differ by, as a function of the changed bits of the last three words alone |
| HeaderErrors.LateChangeIsAccepted | runtimepc/src/contract_frame_io.cpp:54-102 | A change of the last three header words of a valid frame is accepted exactly when the stored header checksum changes as the other two words call for and a used payload checksum stays |
| HeaderErrors.WindowIsRejected | runtimepc/src/contract_frame_io.cpp:54-102 | Any change inside four consecutive bytes of a valid frame is rejected, wherever it is and whatever it hits, except in the windows 61 and 63 of a frame without payload |
| HeaderErrors.BurstIsAccepted | runtimepc/src/contract_frame_io.cpp:54-102 | A burst of at most 32 bits, wherever it is, is accepted exactly when it is such a change of the last three header words |
| HeaderErrors.PatternIsAccepted | runtimepc/src/contract_frame_io.cpp:54-102 | Whether an error pattern in these words passes does not depend on the frame |
| HeaderErrors.BurstCanPass | runtimepc/src/contract_frame_io.cpp:92-100 | In every valid frame the burst of 31 bits from bit 526 to bit 556 passes |
| HeaderErrors.EmptyFrameWindowsCanPass | runtimepc/src/contract_frame_io.cpp:81-100 | In every valid frame without payload one change in window 61 and one in window 63 pass |
| PacketBuffer.EvictsAsFewAsPossible | runtimepc/include/ego_runtime/packet_buffer.hpp:24-30 | The evictions of a push leave the longest suffix that fits both limits together with the new packet |
| PacketBuffer.PushRespectsLimits | runtimepc/include/ego_runtime/packet_buffer.hpp:22-33 | After a push both limits hold, or the new packet is alone |
| PacketBuffer.PacketBuffer.MakeRoom | runtimepc/include/ego_runtime/packet_buffer.hpp:24-30 | The eviction loop removes from the front exactly the packets of the recursive definition, and counts them |
| PacketBuffer.PacketBuffer.Push | runtimepc/include/ego_runtime/packet_buffer.hpp:22-33 | The new queue is that suffix plus the packet; the drop counter, byte total, suffix-of-history and pushes = pops + dropped + queued are kept |
| PacketBuffer.PacketBuffer.Pop | runtimepc/include/ego_runtime/packet_buffer.hpp:35-44 | Takes the oldest packet, or nothing from an empty queue, and keeps the same invariant |
| Recorder.RunKeepsInv | runtimepc/src/runtime_service.cpp:44-92 | The protocol invariant holds after every interleaving of receiver, writer and control steps; what is pushed is `Arrivals.HeldFrameIsPushed` |
| Recorder.SessionEndedStopConserves | runtimepc/src/runtime_service.cpp:204-318 | A session closed by SESSION_ENDED holds, in arrival order, exactly the pushed frames minus those the buffer counted as dropped, the popped but not yet written one included; which frames these are is `Arrivals.SessionIsRecorded` |
| Recorder.AnyStopLosesAtMostOne | runtimepc/src/runtime_service.cpp:363-396 | After any stop at most one pushed frame is neither written nor counted; the session is complete exactly when no frame was pushed after the drain ended, which takes a control stop and a receiver caught between its state check and its push |
| Recorder.ControlStopCanLoseAFrame | runtimepc/src/runtime_service.cpp:240-255 | A run in which a control stop does lose a frame that way |
| Recorder.FreeLockMeansQuiet | runtimepc/src/runtime_service.cpp:68-92 | Whenever service_mu_ is free the session is not stopping, no finalisation is under way, and buffer and writer exist exactly while recording |
| Recorder.WriterIsGoneAfterJoin | runtimepc/src/runtime_service.cpp:363-374 | Once the stop has joined the writer thread it holds no frame and touches nothing |
| Recorder.KeptIsComplete | runtimepc/include/ego_runtime/packet_buffer.hpp:22-33 | The frames a session keeps are exactly the pushed ones never evicted, each with its arrival number |
| Recorder.KeptIsOrdered | runtimepc/src/runtime_service.cpp:287-318 | They are in arrival order |
| Recorder.KeptCount | runtimepc/include/ego_runtime/packet_buffer.hpp:22-33 | Kept plus evicted is pushed |
| Arrivals.HeldFrameIsPushed | runtimepc/src/runtime_service.cpp:217-257 | In every run, once the receive thread is done with a frame and the session records, exactly that frame has been appended to the pushed ones, also when it started the recording |
| Arrivals.ArrivalsArePushed | runtimepc/src/runtime_service.cpp:204-257 | Without an operator, between two frames the session is where the received frames put it, and has pushed exactly its frames, whatever the writer thread and the stop did meanwhile |
| Arrivals.SessionIsRecorded | runtimepc/src/runtime_service.cpp:204-318 | The closed file holds the received frames from the first SESSION_STARTED, itself included, to the next SESSION_ENDED, itself excluded, less those dropped and counted |
| Arrivals.QueueStaysWithinLimits | runtimepc/include/ego_runtime/packet_buffer.hpp:22-33 | Over every run the queue respects both limits or is a single frame |
| Arrivals.NothingIsDropped | runtimepc/include/ego_runtime/packet_buffer.hpp:22-33 | While all received frames together fit the buffer, none is dropped, and a session closed by SESSION_ENDED holds all its pushed frames |
| Arrivals.TotalSizeIsLength | runtimepc/include/ego_runtime/packet_buffer.hpp:22-33 | The size of a queue is the length of its packets put together |
| Progress.WriterWritesOldest | runtimepc/src/runtime_service.cpp:287-318 | Until it is told to exit, the writer thread writes the oldest queued frame in five steps of its own, also while the session stops |
| Progress.StopReturnsStopped | runtimepc/src/runtime_service.cpp:68-92 | When a stop returns nothing is recording and the lock is free; if it passed its first test the session is closed |
| Progress.StartRecords | runtimepc/src/runtime_service.cpp:43-66 | A granted start begins an empty session, a refused one leaves the running session alone |
| Progress.StopCanFinish | runtimepc/src/runtime_service.cpp:68-92 | From every state reached during a stop, the stopping thread and the writer thread alone can bring the stop to its end; no wait is forever |
| Manifest.JsonEscape | runtimepc/include/ego_runtime/util.hpp:45-71 | The escaped form of every string, character by character |
| Manifest.ChunkNamesDiffer | runtimepc/src/chunk_writer.cpp:47-48 | Different chunk numbers give different file names |
| Manifest.PrintManifest | runtimepc/src/chunk_writer.cpp:169-185 | The manifest text as a function of the chunk list |
| ChunkWriter.ChunkWriter.OpenChunk | runtimepc/src/chunk_writer.cpp:46-67 | Creates or empties the file of the current number and lists it; for a new number all records keep matching the frames written |
| ChunkWriter.ChunkWriter.RotateIfNeeded | runtimepc/src/chunk_writer.cpp:69-84 | Opens a new chunk exactly when none is open, the size limit is reached, or the time is up; a number used before (closed writer, 2^32 chunks) empties that file and lists it again |
| ChunkWriter.ChunkWriter.WriteContractFrame | runtimepc/src/chunk_writer.cpp:100-145 | Accepts exactly frames with a header and the magic; files, index lines, manifest entries and totals stay equal to what the frames give, unless a used chunk number is opened again: then that file holds only the new frame, or nothing if the frame is rejected, while index and list keep the old entries, and no history of frames explains the files any more |
| ChunkWriter.NameTwice | runtimepc/src/chunk_writer.cpp:46-67 | A chunk list that names a file twice agrees with no history of frames at all |
| ChunkWriter.OpeningAgrees | runtimepc/src/chunk_writer.cpp:46-67 | A new chunk keeps chunk files, index, manifest entries and totals in agreement with the frames |
| ChunkWriter.AppendingAgrees | runtimepc/src/chunk_writer.cpp:113-132 | So does one more frame in the last chunk |
| ChunkWriter.ChunkWriter.Close | runtimepc/src/chunk_writer.cpp:188-197 | The closed manifest lists every chunk with its size, first and last time and 32-bit count |
| ChunkWriter.InfoAfterAppend | runtimepc/src/chunk_writer.cpp:124-132 | The running manifest entry of a chunk is the one computed from all its frames, also past 2^32 frames |
| SessionFiles.AllFramesWritten | runtimepc/src/chunk_writer.cpp:100-145 | Every validated frame is written once and in order, under any rotation pattern |
| SessionFiles.AcceptedFramesWritten | runtimepc/src/chunk_writer.cpp:100-145 | For any calls at all, the chunks hold exactly the frames with a whole header and the magic, in order |
| SessionFiles.ChunksAreFull | runtimepc/src/chunk_writer.cpp:69-84 | Unless the time is up, only chunks that reached the size limit are closed |
| SessionFiles.TimeUpBeginsChunk | runtimepc/src/chunk_writer.cpp:69-84 | A call whose time is up begins a chunk |
| SessionFiles.ChunksStayWithinLimit | runtimepc/src/chunk_writer.cpp:75-83 | Without its last frame every chunk is empty or below the size limit |
| SessionFiles.ChunkSizeBound | runtimepc/src/chunk_writer.cpp:75-83 | So a chunk of several frames is shorter than the limit plus its last frame |
| SessionFiles.IndexLineLocatesFrame | runtimepc/src/chunk_writer.cpp:86-98 | Index line k names the chunk file and byte offset at which frame k of the session really lies |
| SessionFiles.IndexLineFields | runtimepc/src/chunk_writer.cpp:96-97 | Splitting an index line at commas gives back its six numbers |
| SessionFiles.IndexLineIsOfFrame | runtimepc/src/chunk_writer.cpp:86-98 | The numbers of an index line are offset, chunk and the bytes of the frame at the offsets of time, type, number and payload size |
| SessionFiles.EntryOfChunk | runtimepc/src/chunk_writer.cpp:113-132 | First and last time of a chunk are bytes 40 to 47 of its first frame and bytes 48 to 55 of its last |
| SessionFiles.IndexReadsBack | runtimepc/src/session_integrity.cpp:41-50 | Reading the index gives one non-empty line per frame |
| SessionFiles.CheckSessionIntegrity | runtimepc/src/session_integrity.cpp:22-77 | Fails exactly when directory, manifest or index is missing or a non-empty chunk has no readable frame; warns on leftover .tmp files; ok exactly when there are none and the counts agree as well |
| SessionFiles.NamesByEnds | runtimepc/src/session_integrity.cpp:11-18 | Left-over files are the names that end in .tmp after something, chunk files those that begin with ego_ and end in .bin |
| SessionFiles.TotalCountOfRest | runtimepc/src/session_integrity.cpp:52-66 | The frame total does not depend on the order of the directory listing |
| SessionFiles.ClosedSessionIsSound | runtimepc/src/session_integrity.cpp:22-77 | The files of a closed writer have equal index and frame counts and no unreadable chunk |
| SessionFiles.RecordAndCheck | runtimepc/src/chunk_writer.cpp:39-197 | Any recording of valid frames in at most 2^32 chunks, with any rotation and flush timing, closes into files the integrity check finds ok |
| SessionFiles.ClosedWriterLosesItsChunk | runtimepc/src/chunk_writer.cpp:46-75 | One frame, Close, one more frame: the chunk file holds the second frame alone, while the index keeps the line of the first and the chunk is listed twice |
| Json.Parser.ParseString | offline/include/ego_offline/json_reader.hpp:90-112 | Reads the string the recursive definition gives, or throws where it does |
| Json.Parser.ParseNumber | offline/include/ego_offline/json_reader.hpp:114-136 | Integer or floating token, the place after it, and the failures of stoll and stod |
| Json.Parser.ParseObject | offline/include/ego_offline/json_reader.hpp:154-173 | The object of the recursive definition; text that ends after a comma ends the object without an error |
| Json.Parser.ParseArray | offline/include/ego_offline/json_reader.hpp:175-190 | The array of the recursive definition |
| Json.JsonParse | offline/include/ego_offline/json_reader.hpp:195-199 | Terminates on every input with the value of the recursive definition or an exception; text after the value is ignored |
| JsonTexts.ValueIsRead | offline/include/ego_offline/json_reader.hpp:60-193 | Any document, with any white space between its tokens, is read wherever it stands, exactly if its whole numbers fit 64 bits; otherwise the parser throws |
| JsonTexts.TextIsRead | offline/include/ego_offline/json_reader.hpp:195-199 | So is every whole text of a document between white space |
| ManifestReader.FromJson | offline/src/load/ego_log_reader.cpp:14-58 | The manifest made of a parsed text, or the parser's exception; without a "chunks" member the chunks found in the directory |
| ManifestReader.ManifestMembers | offline/src/load/ego_log_reader.cpp:14-39 | The members of a manifest object are session, times, count and chunks; a chunks member that is no array gives none |
| ManifestReader.ChunkMembers | offline/src/load/ego_log_reader.cpp:25-37 | The members of a chunk object, whatever else it holds |
| ManifestReader.ChunkDefaults | offline/src/load/ego_log_reader.cpp:25-37 | Missing members are zero or empty, an empty file falls back to filename, and a negative count wraps |
| ManifestReader.ListChunks | offline/src/load/ego_log_reader.cpp:40-56 | The numbered chunk files from 0 up to the first missing number; when there is none, ego.bin if it exists |
| ManifestReader.StringReadsBack | offline/include/ego_offline/json_reader.hpp:90-112 | The parser's unescaping undoes the runtime's escaping for every string, wherever the literal stands in a text |
| ManifestReader.NumberReadsBack | offline/include/ego_offline/json_reader.hpp:114-136 | A printed number below 2^63 is read back; a larger one throws |
| ManifestReader.ChunkReadsBack | runtimepc/src/chunk_writer.cpp:174-182 | The object printed for a chunk parses to that chunk's fields, exactly if all its numbers are below 2^63 |
| ManifestReader.ManifestTextReadsBack | runtimepc/src/chunk_writer.cpp:169-185 | Parsing a printed manifest gives the printed list for any number of chunks, exactly if every number is below 2^63; otherwise the parser throws |
| ManifestReader.ManifestReadsBack | offline/src/load/ego_log_reader.cpp:25-39 | The offline chunk list has the same names, times, counts and order, ids reduced to 32 bits |
| LegacyPacket.HeaderOfSerialized | runtimepc/protocol/serialization.hpp:36-77 | Deserialising a serialised header gives the header |
| LegacyPacket.SerializedOfHeader | runtimepc/protocol/serialization.hpp:36-77 | Serialising a deserialised header gives the bytes |
| LegacyPacket.PacketRoundTrip | runtimepc/protocol/serialization.hpp:79-96 | A serialised packet is read back exactly when its payload length fits the 32-bit size field; otherwise deserialising throws |
| LegacyPacket.DeserializeIsExact | runtimepc/protocol/serialization.hpp:87-96 | Whatever deserialises is the serialisation of its own header and payload |
| LegacyPacket.SerializedIsValid | runtimepc/protocol/validation.hpp:16-42 | A serialised packet under a well-formed header validates exactly when its payload fits the limit and the size field |
| LegacyPacket.ValidPacketBytes | runtimepc/protocol/validation.hpp:16-42 | The accepted packets by their bytes |
| StreamFraming.TurnIsStable | runtimepc/include/ego_runtime/sc589_unwrap.hpp:96-167 | A decision of the consume loop is never changed by bytes that arrive later |
| StreamFraming.ChunkingDoesNotMatter | runtimepc/include/ego_runtime/sc589_unwrap.hpp:33-63 | In both fixed modes packets, statistics and left-over bytes depend only on the concatenation of the fed bytes |
| StreamFraming.ValidStreamIsEmitted | runtimepc/include/ego_runtime/sc589_unwrap.hpp:96-192 | A stream of valid packets, bare or wrapped in at most 4096 bytes, cut anywhere, is handed over exactly and in order with nothing rejected or left |
| StreamFraming.BareModeResynchronises | runtimepc/include/ego_runtime/sc589_unwrap.hpp:96-127 | Any bytes in which no packet magic starts, then valid packets, cut anywhere: the bare mode drops exactly these bytes and hands over the packets in order |
| StreamFraming.AccountsAlwaysHold | runtimepc/include/ego_runtime/sc589_unwrap.hpp:169-192 | Whatever is fed: only valid packets are handed over, and rejections plus emissions equal dropped bytes plus frames seen |
| StreamFraming.WrappedDropIsFinal | runtimepc/include/ego_runtime/sc589_unwrap.hpp:129-156 | In any run of the wrapped mode at most one byte is dropped, and after it everything fed is only buffered |
| StreamFraming.StuckExactlyWhenJammed | runtimepc/include/ego_runtime/sc589_unwrap.hpp:59-62 | After any run the wrapped mode ignores all further input exactly when the unread bytes can no longer begin with A5 5A |
| StreamFraming.BadLengthLosesThePacket | runtimepc/include/ego_runtime/sc589_unwrap.hpp:129-156 | One frame start with length 0 makes the mode lose any wrapped packet that follows |
| StreamFraming.Sc589Unwrap.Feed | runtimepc/include/ego_runtime/sc589_unwrap.hpp:33-36 | The object after a feed is the drained state of the old buffer plus the data |
| StreamContents.FramesAreFiltered | runtimepc/include/ego_runtime/sc589_unwrap.hpp:96-192 | Whole frames around any packets, cut anywhere: the valid packets are handed over in order, the others rejected and counted one by one, and the boundary is never lost |
| StreamContents.BadLengthIsRejected | runtimepc/include/ego_runtime/sc589_unwrap.hpp:129-141 | Wrapped mode: a length outside 39 to 4092 drops one byte and nothing more is read |
| StreamContents.BadChecksumIsRejected | runtimepc/include/ego_runtime/sc589_unwrap.hpp:142-159 | Wrapped mode: an incomplete frame is waited for, and a whole one whose checksum is wrong drops one byte and counts as a checksum failure |
| StreamContents.OversizeIsDropped | runtimepc/include/ego_runtime/sc589_unwrap.hpp:96-118 | Bare mode: a size above the limit costs one byte; an incomplete packet is waited for |
| Sequencing.TransportGuard.ValidateDetailed | runtimepc/protocol/transport_guard.hpp:47-79 | The new counters and last number, the reason for every failed packet, and which reason goes with which counter |
| Sequencing.GuardCountsEveryNumber | runtimepc/protocol/transport_guard.hpp:47-79 | Over any run: wraparounds * 2^32 + last = first + accepted - 1 + lost, and accepted + rejected is the number of calls |
| Sequencing.SequencedStep | runtimepc/protocol/transport_guard.hpp:57-78 | A number is accepted when it is less than half the range ahead modulo 2^32; exactly the numbers jumped over are lost |
| Sequencing.GuardStep | runtimepc/protocol/transport_guard.hpp:47-79 | An invalid packet is only rejected; of a valid one bytes 22 to 25 are the number |
| Sequencing.ReasonsOfBytes | runtimepc/protocol/transport_guard.hpp:47-79 | Which reason is reported, by the bytes of the packet |
| Sequencing.DocumentedOrderHolds | runtimepc/TZ_ego_runtime_rpi5.md:124-128 | The documented rule and the signed difference agree exactly when the numbers are less than half the range apart |
| Sequencing.SmallerNumberIsAccepted | runtimepc/protocol/transport_guard.hpp:57-68 | A guard that has accepted packet 2^32 - 1 accepts packet 5 after it, with five numbers counted as lost |
| Sequencing.ContractTracker.TrackContractSeq | runtimepc/src/runtime_service.cpp:188-202 | The last number is the largest seen, and first + advances + lost equals it |
| LogReader.ScanLegacyChunk | offline/src/load/ego_log_reader.cpp:82-114 | Hands over the packets of the recursive reading of the file, up to the first the callback refuses |
| LogReader.ScanContractChunk | offline/src/load/ego_log_reader.cpp:116-152 | The same for contract frames, with the legacy view of their header, whose bytes are those of `LogReader.ContractHeadFields` |
| LogReader.ContractHeadFields | offline/src/load/ego_log_reader.cpp:116-152 | When a contract frame is read, and from which bytes time, number, type, size and payload come |
| LogReader.LegacyHeadFields | offline/src/load/ego_log_reader.cpp:82-114 | The same for legacy packets |
| LogReader.FormatOfFile | offline/src/load/ego_log_reader.cpp:60-80 | The first four bytes tell the format |
| LogReader.RefusalContinuesInNextChunk | offline/src/load/ego_log_reader.cpp:154-167 | For any chunk list, a refused packet is the last one handed over exactly when no chunk with packets follows a chunk in which the callback refuses one |
| LogReader.RefusedScanGoesOn | offline/src/load/ego_log_reader.cpp:154-167 | With two one-packet chunks and a callback that refuses everything, both packets are handed over |
| LogReader.LegacyLogReadsBack | offline/src/load/ego_log_reader.cpp:82-114 | A log of serialised packets is scanned back as the same headers, payloads and offsets |
| LogReader.LegacyLogIsScanned | offline/src/load/ego_log_reader.cpp:154-167 | A legacy log of any number of chunk files, some of them empty, is scanned back completely and in manifest order |
| LogReader.PacketAtOffset | offline/src/load/ego_log_reader.cpp:82-152 | Each scanned packet is found again at the offset it was given |
| LogIndex.EgoLogReader.Scan | offline/src/load/ego_log_reader.cpp:154-167 | All chunks in manifest order, missing files skipped, the format taken from the first chunk or, if unknown there, from each |
| LogIndex.EgoLogReader.BuildIndex | offline/src/load/ego_log_reader.cpp:197-209 | The index is a sorted permutation of the entries of all scanned packets |
| LogIndex.EntryBytes | offline/src/load/ego_log_reader.cpp:197-209 | The entry of a legacy packet, from the bytes it was read from |
| LogIndex.RereadFindsPacket | offline/src/load/ego_log_reader.cpp:228-253 | With distinct chunk ids, reading at an indexed offset gives the packet the entry was made from |
| LogIndex.LowerBound | offline/src/load/ego_log_reader.cpp:223-224 | The first entry not before the time |
| LogIndex.UpperBound | offline/src/load/ego_log_reader.cpp:225-226 | The first entry after the time |
| LogIndex.BoundsInOrder | offline/src/load/ego_log_reader.cpp:223-226 | The two search results are in order exactly when no indexed time lies strictly inside the inverted window |
| LogIndex.InvertedWindowRunsPast | offline/src/load/ego_log_reader.cpp:223-228 | For one entry at time 5 and the window from 9 to 1 the first iterator lies behind the second |
| LogIndex.IndexedReadIsFilter | offline/src/load/ego_log_reader.cpp:212-255 | For any sorted arrangement of the index, the window read through it is, as a multiset, the filtered full scan |
| LogIndex.EgoLogReader.ReadRange | offline/src/load/ego_log_reader.cpp:212-255 | Without an index the filtered scan; with one, for legacy logs with distinct chunk ids, the same multiset in order of time. It runs out of the index exactly when a packet lies strictly inside an inverted window |
| Playback.RecheckContract | offline/src/pipeline/pipeline.cpp:187-202 | The callback's check, computed with the table-driven checksum |
| Playback.RecheckIsValidation | offline/src/pipeline/pipeline.cpp:187-202 | The recorder's validation is that check plus header size and payload limit, across the two checksum codes |
| Playback.ScanReadsSession | offline/src/load/ego_log_reader.cpp:60-80 | Scanning the files of any recorded session, empty chunks included, gives its frames chunk by chunk |
| Playback.SessionFrames | offline/src/load/ego_log_reader.cpp:116-152 | Headers and payloads of the scanned packets are those of the recorded frames, in order, and all pass the check |
| Playback.RecordAndReplay | offline/src/pipeline/pipeline.cpp:161-202 | Record in at most 2^32 chunks, close, parse the manifest, scan, re-check: exactly the recorded frames come back and none is rejected, if and only if the manifest numbers are below 2^63 |
| Playback.LateFrameLosesTheManifest | offline/src/load/ego_log_reader.cpp:14-39 | One valid frame stamped 2^63 or later is recorded, and the manifest of its session makes the parser throw |
| EndToEnd.ClosedSessionReplays | offline/src/pipeline/pipeline.cpp:161-202 | A session closed after any interleaving of the threads is replayed with exactly the frames the buffer kept, in arrival order, if and only if no frame was pushed after the drain; always so after SESSION_ENDED, and then pushed frames are replayed plus dropped ones |
| EndToEnd.SessionShowsFrames | offline/src/load/ego_log_reader.cpp:116-152 | Scanned packet i has the start time, number, type and payload that stand in recorded frame i |
| EndToEnd.ZeroRateOfFrame | offline/src/pipeline/pipeline.cpp:101-104 | The divisor is zero exactly for frames of at least ten payload bytes whose type is 1 modulo 2^16 and whose payload bytes 2 to 5 are zero |
| EndToEnd.RecordAndAnalyse | offline/src/pipeline/pipeline.cpp:161-212 | Recording, replaying and counting valid frames divides by zero exactly when one of them is such a frame; otherwise packet i shows time, number, type and payload of frame i, every frame is counted as valid, first and last time are the least and greatest start times, and statistics and events are the reference ones |
| EndToEnd.StartedFrameDividesByZero | offline/src/pipeline/pipeline.cpp:101-104 | A SESSION_STARTED frame with ten zero payload bytes is valid for the recorder and is such a frame |
| Validator.ScanAccumulator.Feed | offline/src/pipeline/pipeline.cpp:47-145 | The update finishes exactly unless a checked packet is taken for an audio block with a sample rate of zero; after every finished update the accumulator holds the reference statistics and exactly the reference events of the stream so far, all between first and last time; what these count is stated in `StreamStatistics` |
| Validator.EventsAreCounted | offline/src/pipeline/pipeline.cpp:55-138 | There is one event per sequence gap, step back, jump, audio gap and telemetry gap |
| Validator.EventsBreakAtGaps | offline/src/pipeline/pipeline.cpp:55-71 | The error events of the accumulator are exactly those at valid packets before which more than ten numbers are missing |
| StreamStatistics.StepsBackAreCounted | offline/src/pipeline/pipeline.cpp:76-84 | The steps back are the packets earlier than the one before |
| StreamStatistics.JumpsAreCounted | offline/src/pipeline/pipeline.cpp:85-96 | The jumps are the packets later than the one before by more than the limit |
| StreamStatistics.EarliestIsLeast | offline/src/pipeline/pipeline.cpp:98 | The first time is the least one |
| StreamStatistics.LatestIsGreatest | offline/src/pipeline/pipeline.cpp:99 | The last time is the greatest one, and at least 0 |
| StreamStatistics.MissingIsTheRest | offline/src/pipeline/pipeline.cpp:55-71 | Of increasing numbers the missing ones are those between first and last that did not come |
| StreamStatistics.NothingMissing | offline/src/pipeline/pipeline.cpp:55-71 | Nothing is missing exactly when no number is above the 32-bit successor of the one before |
| StreamStatistics.ImuGapsAreCounted | offline/src/pipeline/pipeline.cpp:126-140 | The telemetry gaps are the packets later than the limit after one whose time is not 0 |
| StreamStatistics.AudioGapsAreCounted | offline/src/pipeline/pipeline.cpp:102-123 | In a stream of equal blocks of k samples at rate r the gaps are the places where a block comes later than the threshold for k * 10^9 / r nanoseconds |
| StreamStatistics.NoAudioGaps | offline/src/pipeline/pipeline.cpp:102-123 | There is none exactly when every block comes in time |
| StreamStatistics.EventsAreExplained | offline/src/pipeline/pipeline.cpp:55-140 | Every event stands at a packet that shows its anomaly, with its time, numbers, duration and severity |
| LogValidator.CheckSeqGaps | offline/src/validate/log_validator.cpp:245-266 | The second pass adds the numbers missing in the whole stream and exactly the reference gap events, with their times, numbers and severities |
| LogValidator.ValidateEgo | offline/src/validate/log_validator.cpp:66-199 | When a listed chunk file is missing nothing is read; otherwise it finishes exactly when no valid audio block has a sample rate of zero, and then the two-pass statistics are the reference statistics, plus the shortfall against the manifest count, and the events are those of the scan, then those of the gaps; what these count is stated in `StreamStatistics` |
| LogValidator.FailuresAre | offline/src/validate/log_validator.cpp:92-105 | CRC failures are all failures exactly when no packet fails for another reason |
| LogValidator.BadVersionIsNoCrcFailure | offline/src/validate/log_validator.cpp:92-105 | A packet of an unknown version is a failed packet and not a CRC failure |
| LogValidator.VerdictOnBytes | offline/src/validate/log_validator.cpp:92-105 | When a scanned packet is valid and when it fails its CRC, by its bytes; the recorder accepts it exactly when payload version and type are known and an empty payload has its checksum too |
| LogValidator.FailedAreReported | offline/src/validate/log_validator.cpp:92-105 | One truncation event for each failed packet, at its time and in order |
| LogValidator.OnePassEqualsTwoPass | offline/src/pipeline/pipeline.cpp:35-145 | On every legacy stream both computations divide by zero or neither does, exactly for a valid audio block of sample rate zero, and otherwise give the same nine counts and times; the CRC counters agree exactly when every failed packet failed its CRC, and the breaks agree as multisets exactly when no packet failed and no time is zero |
| ValidRanges.BuildRanges | offline/src/validate/log_validator.cpp:282-306 | Ranges are ordered, disjoint inside, free of inner breaks, long enough, bounded by breaks or stream ends, and contain every break-free interval of the minimum length |
| ValidRanges.OverlapsAreInside | offline/src/validate/log_validator.cpp:311-323 | Combined ranges are ordered, not empty, long enough and lie in a range of each stream |
| ValidRanges.OverlapsContain | offline/src/validate/log_validator.cpp:311-323 | Every long enough interval inside a range of each stream lies in a combined range |
| ValidRanges.ExtractValidRanges | offline/src/validate/log_validator.cpp:276-330 | The result is the overlaps, or the ego ranges when there are none |
| ValidRanges.TotalFits | offline/src/validate/log_validator.cpp:370-374 | Ordered ranges inside an interval are together no longer than it |
| ValidRanges.RangesByTheSecond | offline/src/validate/log_validator.cpp:282-306 | Every stretch without a break inside that lasts the minimum number of seconds lies in a range, and every range lasts that long |
| ValidRanges.TotalIsLong | offline/src/validate/log_validator.cpp:370-374 | Ranges that are each long enough last at least the minimum number of seconds together |
| ValidRanges.BuildReport | offline/src/validate/log_validator.cpp:356-376 | The integrity verdict, at least the minimum seconds for a report with ranges, and, with every event inside the stream as the accumulator makes them, a valid fraction between 0 and 1 |
| TimeSync.Resample | offline/src/sync/time_sync.cpp:131-140 | The speeds at the points where the forward cursor stands, on the one-second grid |
| TimeSync.CursorIsLast | offline/src/sync/time_sync.cpp:134-139 | On a track in time order the cursor stands at the last fix not after the grid time, or at the first fix |
| SyncTrials.SpeedIsHeld | offline/src/sync/time_sync.cpp:131-140 | The speed at a grid point is that of the last fix not after it |
| SyncTrials.SearchableExactly | offline/src/sync/time_sync.cpp:103-128 | The search runs exactly when both tracks have a good fix and the good ego fixes span four seconds |
| SyncTrials.GridCovers | offline/src/sync/time_sync.cpp:122-128 | The grid has a point for every whole second from the first good fix to the last |
| SyncTrials.GoodAreKept | offline/src/sync/time_sync.cpp:109-113 | A fix is used exactly when its quality is above 0 and its dilution below 5 |
| TimeSync.CauchySchwarz | offline/src/sync/time_sync.cpp:165-169 | s_xy^2 <= s_x2 * s_y2 for series of any length |
| TimeSync.Correlate | offline/src/sync/time_sync.cpp:159-172 | The correlation coefficient of the definition, none below the rounding guard |
| TimeSync.CorrIsBounded | offline/src/sync/time_sync.cpp:170-172 | Every correlation lies between -1 and 1 |
| TimeSync.SelfCorrelation | offline/src/sync/time_sync.cpp:165-172 | A series has correlation 1 with itself exactly when its variation reaches the guard |
| SyncTrials.CorrelationIsPearson | offline/src/sync/time_sync.cpp:159-172 | The two-loop coefficient is that of the five sums, and there is none below 1e-9 |
| SyncTrials.LinearCorrelation | offline/src/sync/time_sync.cpp:159-172 | A series that is a linear function of another correlates with it by 1 or -1, by the sign of the slope, exactly when it varies enough |
| TimeSync.Search | offline/src/sync/time_sync.cpp:149-174 | The smallest trial offset with the largest correlation among all trials in the window, 0 if there is none |
| SyncTrials.TriedExactly | offline/src/sync/time_sync.cpp:145-152 | From half a second on the trials are all multiples of 100 ms within the window; a smaller window has the single trial 0 |
| TimeSync.FitLine | offline/src/sync/time_sync.cpp:195-215 | The drift and the mean squared residual of the fitted line, those of `Drift.BestLineIsReported` |
| TimeSync.LineIsLeastSquares | offline/src/sync/time_sync.cpp:202-203 | No other line has a smaller sum of squared residuals |
| Drift.BestLineIsUnique | offline/src/sync/time_sync.cpp:202-203 | A line as good as the fitted one is the fitted one |
| Drift.BestLineIsReported | offline/src/sync/time_sync.cpp:195-215 | The drift is the parts per million by which the slope of the best line is above 1, the residual its mean squared error |
| Drift.PairsOnALine | offline/src/sync/time_sync.cpp:195-215 | Pairs on a line a + b * x have drift (b - 1) * 10^6 and no residual |
| TimeSync.DenominatorIsPositive | offline/src/sync/time_sync.cpp:202 | The line is defined exactly when two of the times differ |
| TimeSync.MovedLine | offline/src/sync/time_sync.cpp:197-214 | Points moved by a constant have drift 0 and residual 0 |
| TimeSync.SyncGnssXcorr | offline/src/sync/time_sync.cpp:96-218 | No estimate without good fixes and five grid points; otherwise the best trial, its confidence, and the line through the paired fixes; trials, pairs, confidence and drift are those of `SyncTrials` and `Drift` |
| SyncTrials.EstimateIsBest | offline/src/sync/time_sync.cpp:144-177 | Twice the confidence less 1 is the largest correlation of all trials, and the offset is a trial that has it; without any correlation both are 0 |
| SyncTrials.PairsAreClose | offline/src/sync/time_sync.cpp:182-194 | An ego fix is paired with the first of the closest source fixes, unless that is more than five seconds away |
| TimeSync.DelayedSourceIsFound | offline/src/sync/time_sync.cpp:127-177 | When the source is the ego track delayed by a tried offset and the speed varies enough, the result is the smallest trial with correlation 1, with confidence 1; it is the delay exactly when no smaller trial correlates perfectly, and then there is no drift |
| TimeSync.ConstantSpeedHasNoCorrelation | offline/src/sync/time_sync.cpp:170-171 | With constant ego speed no offset has a correlation |
| Mdf4Blocks.FlatOfSetLink | offline/src/mdf4/mdf4_lib_adapter.cpp:137-139 | Patching eight bytes at a link slot changes that link of that block and no other byte of the file |
| Mdf4Blocks.Buf.Patch64 | offline/src/mdf4/mdf4_lib_adapter.cpp:137-139 | The patch loop does exactly that; it can only be called on a link slot |
| Mdf4Blocks.Buf.BlkHdr | offline/src/mdf4/mdf4_lib_adapter.cpp:142-151 | Appends a block header with zeroed link slots and returns the place of the first |
| Mdf4Blocks.Buf.TextBlk | offline/src/mdf4/mdf4_lib_adapter.cpp:154-177 | Appends a NUL-terminated text padded to eight bytes, whose stored length is its extent |
| Mdf4Builder.MakeLayout | offline/src/mdf4/mdf4_lib_adapter.cpp:203-213 | Offsets and record size are the sums of the channel sizes modulo 2^32 |
| Mdf4Builder.WriteCn | offline/src/mdf4/mdf4_lib_adapter.cpp:332-369 | Appends a channel block with name and unit linked, and links it from the previous channel or the group |
| Mdf4Builder.WriteGroup | offline/src/mdf4/mdf4_lib_adapter.cpp:278-415 | Appends the finished blocks of a group and links it from the file header or the previous group |
| Mdf4Builder.BuildMdf4 | offline/src/mdf4/mdf4_lib_adapter.cpp:219-418 | The back-patched buffer equals the image of the file in which all links are in place from the start; what stands in its records is `Mdf4Contents.CellHoldsSample` |
| Mdf4Reader.FileIsTiled | offline/src/mdf4/mdf4_lib_adapter.cpp:219-418 | After the 64 identification bytes the file is tiled by blocks, and all stored lengths are the extents exactly when every record size fits 32 bits |
| Mdf4Reader.DtIsStored | offline/src/mdf4/mdf4_lib_adapter.cpp:384-385 | The stored data length is right exactly when the record size fits 32 bits |
| Mdf4Reader.WideGroupIsStoredShort | offline/src/mdf4/mdf4_lib_adapter.cpp:384-385 | One row of 2^29 doubles takes 2^32 + 8 bytes and is stored as 8 |
| Mdf4Reader.BlockReadsBack | offline/src/mdf4/mdf4_lib_adapter.cpp:142-151 | A block anywhere in a file is parsed back with its id, links and data |
| Mdf4Reader.ChannelsReadBack | offline/src/mdf4/mdf4_lib_adapter.cpp:332-380 | Following the channel chain gives the time master and then the channels in order, with names, units, types and offsets, exactly when the offsets fit 32 bits |
| Mdf4Reader.GroupReadsBack | offline/src/mdf4/mdf4_lib_adapter.cpp:278-415 | Following the links of one data group gives the group's name, channels, cycle count, record size and record bytes, exactly when the record size fits 32 bits |
| Mdf4Reader.FileReadsBack | offline/src/mdf4/mdf4_lib_adapter.cpp:219-418 | Following the links of the whole file gives exactly the groups that have channels and rows, in order, if and only if their record sizes fit 32 bits |
| Mdf4Reader.CellReadsBack | offline/src/mdf4/mdf4_lib_adapter.cpp:388-414 | The bytes at row * record size + offset are the encoding of that row and channel, NaN past the end of the data, and each row begins with its time; `Mdf4Contents.CellHoldsSample` writes the encoding out |
| Mdf4Contents.CellHoldsSample | offline/src/mdf4/mdf4_lib_adapter.cpp:388-414 | The cell of record r and channel i holds sample r of channel i, as a double, float, 16-bit or 8-bit number by its type, and NaN past the end |
| Mdf4Contents.ChannelsAreDescribed | offline/src/mdf4/mdf4_lib_adapter.cpp:332-380 | The channel blocks give type, width and offset of each channel, which follow one another and fill the record |
| Mdf4Contents.NamesAreGiven | offline/src/mdf4/mdf4_lib_adapter.cpp:278-330 | Names and units without NUL are the ones given |
| Mdf4Contents.FrontOfFile | offline/src/mdf4/mdf4_lib_adapter.cpp:219-277 | Identification, header block with start time and links, history block and comment stand at the front |
| Mdf4Reader.NulFreeText | offline/src/mdf4/mdf4_lib_adapter.cpp:154-164 | A name without NUL is read back whole |
| Mdf4Links.LinksAreTyped | offline/src/mdf4/mdf4_lib_adapter.cpp:235-415 | Every link of every block is zero or the start of a block of the kind its slot is for, and slots without a purpose stay zero |

## Left out
- Sockets, epoll, IPC framing, fork and exec, signals, fsync, uploads, clocks and identifiers: foreign calls. Clocks enter as booleans (chunk too old, flush due) and timestamps as arguments.
- Disk-write failures, and with them the Error session state and the handlers of failed writes: every write succeeds.
- `Recorder.Next`: `StartRecording` is one step, the operator and the storage monitor are one control thread, and the release of a pointer between another thread's test and use is not modelled; sync_file_mode and the shutdown of the daemon are not part of this model.
- `Arrivals.SessionIsRecorded`: about runs without an operator; with one, `Arrivals.HeldFrameIsPushed` says frame by frame what is pushed.
- The bounded wait for an empty buffer in `StopRecording` is one step that may end at any time.
- Session metadata, scenario metadata, reports, error log, configuration and command line: little to prove.
- `SessionFiles.RecordAndCheck`: asks for at most 2^32 chunks, because the chunk number has 32 bits; `WriteContractFrame` states what one chunk more does.
- `Playback.RecordAndReplay`: the same bound on chunks.
- `EndToEnd.ClosedSessionReplays`: the same bound on chunks; the session's pushed frames are the validated ones.
- `EndToEnd.RecordAndAnalyse`: the same bound; what the demultiplexer decodes from the payloads is not modelled.
- `ChunkWriter.ChunkWriter.WriteContractFrame`: after a chunk file has been reused the agreement of the files is lost, and the writes that follow are not modelled.
- Counters of 64 bits are unbounded, and signed differences of times do not overflow.
- `Sc589Unwrap` in its automatic mode, which drops a partial magic at the end of a chunk and so is not independent of chunking.
- `Json.Parser.ParseNumber`: keeps the text of a floating token; its rounding and the range error of stod are not modelled.
- `JsonTexts.TextIsRead`: about well-formed texts; of malformed ones only the recursive definition is given, and they may be accepted or thrown.
- Loading the index from CSV, and indexed reads of contract logs, which use the 34-byte header.
- `LogIndex.EgoLogReader.ReadRange`: what the loop does once it has run out of the index is undefined in the source; the model returns None.
- `ValidRanges.BuildReport`: nothing is claimed of the fraction for events outside the stream, which the two-pass validator can make from unchecked timestamps.
- `TimeSync.SyncGnssXcorr`: doubles are reals, the square root is a parameter with its law, a zero denominator of the line is a separate result, and the narrowing of the grid size is not modelled.
- `Mdf4Builder.BuildMdf4`: doubles and their casts are opaque parameters; nothing is claimed about the ASAM standard or about alignment, since records are not padded.
- SHA-256 of the MDF4 file: its code does not follow FIPS 180-4 for lengths that are not multiples of 64.
- JSON writing by `ObjectBuilder`, geodesy, interpolation, scene segmentation, the event-audio fallback, and uploads.
