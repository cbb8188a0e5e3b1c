# rsync, verified models

This project models the hard core of rsync 3.2.3 (`rsync/*.c`) in Dafny and
proves what that code is for. `dafny verify dfyconfig.toml` checks all of it.

| module | models |
|---|---|
| `ByteOrder`, `WireInts` | little-endian integers, varint and varlong, the stateful index codec |
| `MapFile` | the sliding file window, over a file that may be written meanwhile |
| `Checksum` | the rolling weak sum, the whole-file sum that keeps bytes back |
| `Delta`, `Matcher`, `Receiver`, `Transfer` | the delta transfer: blocks and tokens, the sender's search, the receiver's rebuild (in place too), one file end to end |
| `BlockSize` | the generator's choice of block length |
| `Frames`, `Mux` | the multiplexed output path with its two circular buffers |
| `IncRecurse` | generator, sender and receiver with lists that come and go |
| `Handshake` | the NDX_DONE phases and the goodbye |
| `FNameCmp`, `FileSort`, `FlistFind`, `FlistClean` | the order of the file list, its sort, its search and the removal of duplicates |
| `Streams`, `FlistWire`, `FlistCodec`, `FlistEnds` | the file list on the wire |
| `HashTable` | the open-addressing table |
| `Negotiate` | the choice of checksum and compression names |

Code that changes things in place is modelled by classes, arrays and loops
(the hash chains and the search, the file window, the circular buffers, the
merge sort, the skip links, the hash table, the encoders with static
variables), each proved against a function or relation on values. Concurrent
processes are state machines over FIFO queues, with theorems about every
interleaving. A file is a byte sequence in a `DiskFile` object, so that the
in-place case, in which reader and writer share one file, is real aliasing. The
strong digest, the digest core, the comparison function of the sort and the
hash of the hash table are parameters: the results hold for all of them.

## What was found

- **Re-alignment when updating in place** (`rsync/match.c:257-298`). The
  re-alignment test overwrites `sum`, and then perhaps `sum2`, before the jump
  back, so the block at the expected position is compared with sums that are not
  those of the window here. There are two wrong turns. If the window ahead also
  has weak sum 0, both sums are of the window ahead: a wrong block can be named
  even with the perfect digest, and the stream replays to another file
  (`Matcher.MisfireHappens`). If it has another weak sum, the weak sum of the
  window ahead is paired with the strong sum of the one here
  (`Matcher.CrossMisfireHappens`). `Matcher.ChooseRightInPlace` gives the exact
  condition when no two things compared have both sums equal: the choice is
  right if and only if not `Misfire`. For a whole run, whose choices are on
  record, `Matcher.Search.MatchSums`: the stream stands for the file if and only
  if none of them was a wrong turn. `Matcher.TrustedWhen` names a simple case
  without wrong turns. That replaying in place is safe does not need any of it.
- **io_flush(FULL_FLUSH)** asks for as much room as the buffers have at that
  moment. With a buffer that is shortened for the time being it can return with
  bytes left (`Mux.ShortFlushHappens`, one byte of data). `Mux.Output.FullFlush`
  and `Mux.Output.UnluckyFlush` give the exact condition, `Whole`: from such a
  state nothing is ever left, and from any other some way for the socket to take
  the bytes leaves something. Whole means that the data will be gone (`OutWhole`)
  and that there is such data, before which all messages go, or the message
  buffer is not shortened around a wrap (`MsgWhole`).
- **Negotiation.** `best` starts at `saw_len`, so a name whose rank is
  `saw_len` is passed over. The documentation says both sides take the first
  common name; on a build without zstd and lz4 a client that prefers "none" and
  a server with the default list choose differently
  (`Negotiate.DisagreementHappens`). `Negotiate.Negotiation` gives the exact
  condition.
- **Duplicate names.** A directory "." sorts before a non-directory "." while
  for all other names it is the other way round, so that pair is not found to
  clash. `FlistClean.CleanIffNoDotClash`: duplicates are gone if and only if no
  such pair came in.
- **f_name_has_prefix** is documented to match whole path elements. What it
  answers is `FNameCmp.PrefixAnswer`; `FNameCmp.DocumentedPrefix` says exactly
  when that is what is documented. It is for a directory, unless a file of its
  name is asked about. A file is found to be a prefix of every file beside it
  whose name starts the same (`FNameCmp.FilePrefixIsNotAnElement`), and "." of
  every file at the top (`FNameCmp.DotIsPrefixOfFiles`).
- **Removed entries** are documented to compare after all others
  (`rsync/flist.c:3142-3156`); the code, and the model, put them before
  (`FNameCmp.RemovedFirst`).
- **The counter of answers.** msgdone_cnt goes up whenever the generator waits
  for room in a write, so it can be past the value a wait is for before that
  wait begins (`Handshake.CounterRunsAhead`). `Handshake.WaitsExact`: a wait
  that tests for one value does what a test for too few answers would do.

## Model

| member | source | states |
|---|---|---|
| `ByteOrder.SignedRoundTrip` | rsync/byteorder.h:56-67 | a number stored in n bytes and read back as two's complement is itself, for every value of the width |
| `ByteOrder.IvalIsFromLe` | rsync/byteorder.h:121-125 | IVAL reads the little-endian value of the four bytes |
| `ByteOrder.Sival` | rsync/byteorder.h:127-131 | SIVAL stores the four little-endian bytes and touches nothing else |
| `WireInts.VarRoundTrip` | rsync/io.c:1731-1802 | decoding an encoded variable-length number gives it back and stops where it ends, whatever follows |
| `WireInts.VarintRoundTrip` | rsync/io.c:2024-2044 | the same for every 32-bit number |
| `WireInts.VarlongRoundTrip` | rsync/io.c:2046-2076 | the same for every 64-bit number with 3 to 8 minimum bytes |
| `WireInts.VarShrinks` | rsync/io.c:1731-1802 | every decoded number uses up at least one byte |
| `WireInts.WriteVar` | rsync/io.c:2024-2076 | the in-place loop (store, drop high zeros, fold the lead byte) writes the bytes of the round trip, and no string of bytes that is read as the same number is shorter |
| `WireInts.VarShortest` | rsync/io.c:1731-1802 | no string of bytes that is read as a number is shorter than what is written for it |
| `WireInts.VarintExamples` | rsync/io.c:2024-2044 | the bytes of 5, of numbers whose top bits share the lead byte, and of those for which it is all marker |
| `WireInts.NdxRoundTrip` | rsync/io.c:2178-2257 | one index above INT_MIN comes back, self-delimiting, and both sides' previous values stay equal |
| `WireInts.NdxsRoundTrip` | rsync/io.c:2178-2257 | the same for every sequence of indexes |
| `WireInts.NdxShortest` | rsync/io.c:2178-2222 | apart from a negative index by a one-byte difference of 0 or 255, which is never written, no string of bytes that is read as an index in a given state is shorter than what is written for it |
| `WireInts.NdxExamples` | rsync/io.c:2178-2222 | the bytes of the first index, of two negative ones, of a step of 300 and of a step back |
| `WireInts.NdxWriter.WriteNdx` | rsync/io.c:2178-2222 | write_ndx with its static variables writes the specified bytes and moves to the specified state |
| `WireInts.NdxReader.ReadNdx` | rsync/io.c:2225-2257 | read_ndx does what the specified decoder does, errors included |
| `MapFile.MapStruct.Fill` | rsync/fileio.c:294-308 | reading on, over short reads, makes the window agree with the file wherever it was not written since |
| `MapFile.MapStruct.Slide` | rsync/fileio.c:249-308 | moving the window, with or without reuse of the overlap, keeps it in agreement with the file |
| `MapFile.MapStruct.MapPtr` | rsync/fileio.c:232-311 | for any history of calls the bytes returned are the file's at every position not written meanwhile; the invalid read_size exit is not reached |
| `MapFile.MapStruct.MapPtrUnchanged` | rsync/fileio.c:232-311 | for an unchanged file the bytes returned are exactly the requested slice |
| `Checksum.GetChecksum1` | rsync/checksum.c:187-202 | the unrolled 32-bit loop computes the byte-at-a-time weak sum |
| `Checksum.SCharIs` | rsync/checksum.c:187-202 | a byte of the buffer counts as the signed number with its eight bits |
| `Checksum.TrimByte` | rsync/match.c:314-319 | taking the first byte out of s1 and s2 gives the sums of the shorter window modulo 2^16 |
| `Checksum.AddByte` | rsync/match.c:321-326 | adding a byte at the end gives the sums of the longer window modulo 2^16 |
| `Checksum.Joined` | rsync/match.c:187-193 | s1 and s2 that are right modulo 2^16 make the exact weak sum |
| `Checksum.FileSum.Update` | rsync/checksum.c:518-574 | however the pieces fall, the state depends on their concatenation only |
| `Checksum.FileSum.End` | rsync/checksum.c:580-625 | the digest is that of all bytes fed so far |
| `Delta.ReplayFaithful` | rsync/receiver.c:312-369 | a token stream in which each token has the right bytes at its place replays to the covered front of the file |
| `Delta.ReplayOnlyFaithful` | rsync/receiver.c:312-369 | and only such a stream does |
| `Delta.Sum2Is` | rsync/generator.c:751-763 | of a digest the first s2length bytes are used, or all it has |
| `Delta.Sum2Equal` | rsync/match.c:227-236 | two strong sums compare equal if and only if the digests agree in their first s2length bytes |
| `Matcher.ReceiveSums` | rsync/sender.c:66-118 | the block table has each block's offset, length and sums, and the rebuilt file length is exact |
| `Matcher.BuildHashTable` | rsync/match.c:53-86 | every block is on the chain of its hash, chains run downwards and end |
| `Matcher.TableHasRoom` | rsync/match.c:59-64 | the table has more than five slots to four blocks, not many more unless it is the smallest, and an odd number unless it is |
| `Matcher.HashAdds` | rsync/match.c:48-51 | in the smallest table the hash is the sum of the two halves of the weak sum modulo 2^16 |
| `Matcher.WalkChain` | rsync/match.c:187-236 | the chain walk, while it unlinks what can no longer be used, finds the block a linear scan over all usable blocks finds, and keeps every chain complete for later offsets; a matching block is passed over only if, in place, it lies behind the offset and is not flagged |
| `Matcher.ChooseSafe` | rsync/match.c:238-291 | the block chosen after want_i and re-alignment is usable at the offset chosen, and a flagged one stands at its own offset |
| `Matcher.ChoosePrefers` | rsync/match.c:238-291 | which block is preferred: in place the one whose own offset this is, then the one re-aligned to, then, if its sums and length fit, the one after the last match, and else the one found |
| `Matcher.ChooseRight` | rsync/match.c:238-291 | without in-place updating, if equal sums mean equal bytes, the chosen block has the file's bytes |
| `Matcher.ChooseRightInPlace` | rsync/match.c:241-291 | in place, if two equal sums mean equal bytes, the chosen block has the file's bytes if and only if the search takes neither wrong turn |
| `Matcher.MisfireHappens` | rsync/match.c:257-298 | a concrete file and basis, with the perfect digest, for which a wrong block is chosen, and the stream sent does not replay to the file |
| `Matcher.CrossMisfireHappens` | rsync/match.c:266-298 | another, where no two things compared have both sums equal, for the turn that pairs the sums of two windows; its stream does not replay to the file either |
| `Matcher.TrustedWhen` | rsync/match.c:257-298 | if windows and blocks with weak sum 0 are all alike and the strong sum keeps them apart from other blocks, no wrong turn is taken |
| `Matcher.OkReplays` | rsync/match.c:103-135 | a stream that covers the file replays to it if and only if every match has the right bytes at its place |
| `Matcher.ChooseExact` | rsync/match.c:238-291 | updating in place or not, if two equal sums mean equal bytes, the choice is right exactly when it is none of the wrong turns |
| `Matcher.RunExact` | rsync/match.c:138-340 | then a recorded run ends well with a stream that replays to the file if and only if none of its choices was a wrong turn |
| `Matcher.LiteralsAre` | rsync/match.c:138-340 | in a recorded run a byte is literal only where no block may be matched or a re-alignment went over it |
| `Matcher.Search.SendToken` | rsync/match.c:103-135 | the literal run and the match go out in order, keeping coverage, content and in-place safety |
| `Matcher.Search.Matched` | rsync/match.c:103-135 | the run since the last match and the block are sent and summed, and last_match moves to the end of the block |
| `Matcher.Search.PickBlock` | rsync/match.c:241-277 | the imperative choice with its aligned offset and index is the specified choice |
| `Matcher.Search.SendMatch` | rsync/match.c:284-308 | a hit is sent, flagged if at its own offset, and the search resumes after it with its invariants |
| `Matcher.Search.Roll` | rsync/match.c:309-336 | rolling by one byte keeps s1 and s2 the weak sum of the new window modulo 2^16 |
| `Matcher.Search.HashSearch` | rsync/match.c:138-340 | the search covers the whole file; with updating_basis_file every token is safe to replay in place, whatever the digests do |
| `Matcher.Search.MatchSums` | rsync/match.c:357-434 | the emitted tokens cover [0,len) without gap or overlap and their matches are the recorded choices, each the one the source makes in its situation; a byte is literal only where every block that matches there lies behind it in place and was not matched at its own offset before, or where a re-alignment went over it; the sender's sum was fed exactly the file; if two equal sums mean equal bytes, the stream replays to the file if and only if no choice was a wrong turn |
| `Receiver.Writer.Flush` | rsync/fileio.c:125-140 | however the writes fall short, the pending bytes end at their place and nothing else changes |
| `Receiver.Writer.WriteFile` | rsync/fileio.c:145-183 | the file as it will be after flushing is the old one with the data laid over it, and only promised positions differ on disk |
| `Receiver.Writer.SkipMatched` | rsync/fileio.c:188-208 | skipping flushes first and changes no byte |
| `Receiver.MatchToken` | rsync/receiver.c:335-369 | a match token, read through the window from the file being written or another, adds the block's original bytes |
| `Receiver.LiteralToken` | rsync/receiver.c:312-334 | a literal token adds its bytes |
| `Receiver.ReceiveData` | rsync/receiver.c:236-406 | the output is the replay of the tokens on the untouched basis, also when basis and output are one file and the stream is safe; the sum check compares the digest of that output |
| `Receiver.EndData` | rsync/receiver.c:371-405 | flushing and truncating leave exactly the output |
| `Transfer.GenerateSums` | rsync/generator.c:717-769 | each block of the basis is summed once, with its own length, and the first s2length bytes of its digest go out |
| `Transfer.TransferFile` | rsync/receiver.c:236-406 | generator, sender and receiver together: if two equal sums mean equal bytes, the target ends as the sender's file, new or updated in place, if and only if the sender took no wrong turn; where none is possible both whole-file sums agree; an accepted file always has the sender's digest |
| `BlockSize.HighBit` | rsync/generator.c:661-664 | the shifting loop finds the power of two c with c^2 <= len < 4c^2 |
| `BlockSize.SquareRoot` | rsync/generator.c:668-674 | setting bits from the top down to 8 gives the multiple of 8 with b^2 <= len < (b+8)^2 |
| `BlockSize.ChooseLength` | rsync/generator.c:656-677 | forced, small, capped and searched lengths, with the square-root bounds |
| `BlockSize.StrongLength` | rsync/generator.c:679-692 | the strong sum length is within its limits and, unless a limit holds it, so long that 2^(8 * s2length + 32) * blength exceeds 512 len^2, while with a byte less it would be below 2048 len^2 |
| `BlockSize.SumSizesSqroot` | rsync/generator.c:644-701 | count is the ceiling of len/blength or -1 exactly on overflow, len can be rebuilt from count, blength and remainder both ways it is done, and the strong sums are as long as len and blength need |
| `Frames.ParseEncoded` | rsync/io.c:1422-1453 | every sequence of frames parses back to itself, with whatever bytes follow |
| `Frames.ParseCut` | rsync/io.c:1422-1453 | a stream of frames cut anywhere parses into the first of them |
| `Frames.HeaderBytes` | rsync/io.c:1023 | three bytes of length, low byte first, and the code above 7 |
| `Frames.CircAppend` | rsync/io.c:1004-1019 | bytes stored behind a circular buffer's contents, wrapped or not, are appended to them |
| `Mux.Output.BeginFrame` | rsync/io.c:655-693 | the header reserved earlier is filled in with the length of the data behind it, and the next one is reserved without losing any |
| `Mux.Output.WriteOut` | rsync/io.c:804-851 | any short write takes bytes off the front of the frame under way, through wraps and size restoration |
| `Mux.Output.WriteMsg` | rsync/io.c:804-851 | the same for the message buffer |
| `Mux.Output.AppendOut` | rsync/io.c:2115-2138 | data goes in behind the data already there, split at the end of the buffer |
| `Mux.Output.AppendMsg` | rsync/io.c:976-1024 | header and payload go in behind the messages already there, the header unsplit, the buffer shortened for it if needed |
| `Mux.Output.GrowMsg` | rsync/io.c:965-974 | growing the message buffer keeps its contents |
| `Mux.Output.FlushStep` | rsync/io.c:655-693 | each step of the output loop reduces what is owed and keeps the stream |
| `Mux.Output.NeedOutRoom` | rsync/io.c:546-653 | waiting for room ends, and loses nothing |
| `Mux.Output.WriteBuf` | rsync/io.c:2115-2144 | the bytes written so far grow by exactly the argument |
| `Mux.Output.SendMsg` | rsync/io.c:939-1028 | the messages sent so far grow by exactly this one, if and only if it was accepted, which it is whenever it fits the buffer |
| `Mux.Output.FullFlush` | rsync/io.c:1996-2007 | from whole states nothing is owed afterwards and the wire parses into exactly what was written and sent; data behind the frame that shortened the buffer stays if it is no more than that; never more is left than the buffer was short |
| `Mux.Output.UnluckyFlush` | rsync/io.c:1996-2007 | from every other state the same turns can end both waits with bytes still owed |
| `Mux.Output.Turn` | rsync/io.c:655-693 | one turn of the output loop, however much of what it offers the socket takes: which bytes go, and what stays as it was |
| `Mux.ShortFlushHappens` | rsync/io.c:1996-2007 | a concrete history after which a full flush leaves a byte |
| `Mux.Output.WireIsFaithful` | rsync/io.c:1422-1453 | at every moment the wire parses into the first of the frames made, and one more at most is cut short; with nothing owed the data parsed is what was written and the other frames are the messages, both in order |
| `IncRecurse.FlistForNdx` | rsync/rsync.c:772-806 | the two walks find the list holding an index, and fail exactly when no held list has it |
| `IncRecurse.NextInv` | rsync/generator.c:2126-2215 | every step of any process keeps the invariant, in whatever order the entries of a list are gone through |
| `IncRecurse.GFinishInv` | rsync/generator.c:2193-2214 | retiring the oldest list when its counters are zero is sound |
| `IncRecurse.GStatusInv` | rsync/io.c:1041-1083 | taking in a status decrements the right list's counter, which is still held, and puts the index on the redo list exactly if the transfer failed |
| `IncRecurse.GRedoInv` | rsync/generator.c:2151-2191 | taking an index off the redo list, asked again, only mentioned, or neither, keeps the counters exact |
| `IncRecurse.SRecvInv` | rsync/sender.c:209-242 | the sender's handling of requests and retirements |
| `IncRecurse.RRecvInv` | rsync/receiver.c:905-949 | the receiver's handling of transfers, redo once and only once per file |
| `IncRecurse.SCreateInv` | rsync/flist.c:2047-2140 | a new list at the far end disturbs no queue |
| `IncRecurse.RunSafe` | rsync/generator.c:1914-1920 | in every state of every run in_progress and to_redo are exactly the outstanding work of each list, and no lookup was fatal |
| `IncRecurse.RunRequests` | rsync/receiver.c:905-949 | no index is requested more than twice, and twice only after a failed transfer |
| `IncRecurse.RunBalance` | rsync/io.c:1041-1083 | in every state of every run: each failed transfer of an index is a status under way, or on the redo list, or was taken off it; each request is with the sender, was refused or sent; what was sent is under way or was received; each request is under way somewhere or was answered |
| `IncRecurse.FinishedBalance` | rsync/generator.c:2151-2191 | at the end every failed transfer was taken off the redo list, exactly once, and every request was refused or received, and answered exactly once |
| `IncRecurse.RunMentions` | rsync/sender.c:240-275 | every index only mentioned is with the sender, on its way to the receiver, or was taken by it |
| `IncRecurse.RetiredForGood` | rsync/generator.c:2193-2214 | once NDX_DONE is sent for a list, in every later state no request, transfer, refusal, status or redo names its indexes |
| `IncRecurse.RunQueuesFit` | rsync/rsync.c:772-806 | every queued index will be inside its reader's window when its turn comes |
| `IncRecurse.NotStuck` | rsync/generator.c:2336-2357 | once the last list is known, some process can step until all lists are retired everywhere |
| `IncRecurse.RunEnds` | rsync/generator.c:2336-2357 | from then on a run has a bounded number of steps, however scheduled, and where none is possible everything was scanned, answered and retired by all three processes |
| `Handshake.BlocksAddUp` | rsync/generator.c:2361-2416 | whatever is delayed, the same number of NDX_DONEs is sent in all, and never too few for the next answer awaited |
| `Handshake.DelsOnce` | rsync/generator.c:2361-2416 | the deletion statistics are sent once if they are to be sent, before the late deletions only if there are none |
| `Handshake.DelayedLast` | rsync/generator.c:2361-2416 | the NDX_DONE of a delayed phase is written only once the phases before it were answered, and the statistics of late deletions after all of them |
| `Handshake.NextInv` | rsync/sender.c:220-242 | every step keeps the three processes in lockstep |
| `Handshake.Lockstep` | rsync/receiver.c:550-576 | where sender and receiver are is a function of the NDX_DONEs each has read; no protocol error occurs |
| `Handshake.WaitsExact` | rsync/generator.c:2374-2420 | although answers may be counted early, each wait for one value of the counter goes on exactly while there are too few |
| `Handshake.CounterRunsAhead` | rsync/io.c:857-864 | a run in which all answers are counted before the second wait begins |
| `Handshake.NoWorkAfterRedo` | rsync/main.c:868-899 | no file index is under way once a side has read the NDX_DONE that ends the redo phase |
| `Handshake.RunMoves` | rsync/rsync.c:327-341 | in every state of every run each index asked for is on its way to the sender, to the receiver or back, or came back; the deletion statistics are under way or read, and passed on only by a sender that is the server |
| `Handshake.NotStuck` | rsync/main.c:1058-1113 | no reachable state before the goodbye has all processes blocked |
| `Handshake.RunEnds` | rsync/main.c:1058-1113 | without new work a run has a bounded number of steps, however scheduled |
| `Handshake.EndsClean` | rsync/main.c:868-899 | at the end every NDX_DONE was read, the receiver sits in its last read |
| `FNameCmp.FNameCmp` | rsync/flist.c:3157-3274 | the state machine's sign is the specified order, for either answer of the dirname pointer test, and found_prefix is exact |
| `FNameCmp.TotalPreorder` | rsync/flist.c:3157-3274 | the order is a total preorder on all entries, removed ones included |
| `FNameCmp.EqualOnlySame` | rsync/flist.c:3142-3156 | two active entries compare equal if and only if they have the same full name and directory-ness |
| `FNameCmp.CompareIsByLevel` | rsync/flist.c:3142-3156 | the order is lexicographic on path levels, non-directories before directories at each level |
| `FNameCmp.LexMeans` | rsync/flist.c:3157-3274 | a list of symbols is less exactly where it ends first or has the smaller symbol at the first difference |
| `FNameCmp.DirectlyBefore` | rsync/flist.c:3142-3156 | a directory comes before its contents and nothing foreign stands between |
| `FNameCmp.FNameHasPrefix` | rsync/flist.c:3276-3284 | the exact answer in terms of the two names, for a directory, a file and "." as prefix, for either answer of the dirname pointer test |
| `FNameCmp.DocumentedPrefix` | rsync/flist.c:3276-3284 | exactly when the answer is that the name is a prefix of whole path elements, for a directory, a file and "." |
| `FNameCmp.FilePrefixIsNotAnElement` | rsync/flist.c:3276-3284 | a file name that is no path element of another is still found to be its prefix |
| `FNameCmp.DotIsPrefixOfFiles` | rsync/flist.c:3276-3284 | "." is found to be a prefix of a file at the top, with which it has no element in common |
| `FNameCmp.RemovedFirst` | rsync/flist.c:3166-3173 | a removed entry compares before every active one |
| `FNameCmp.DotsRunOn` | rsync/flist.c:3203-3274 | two entries "." with equal dirnames at different addresses reach the ends of both names with no exit taken |
| `FileSort.MergeCorrect` | rsync/flist.c:1679-1699 | merging two sorted lists gives a sorted list of the same elements with equals in order |
| `FileSort.MergeRest` | rsync/flist.c:1685-1699 | the merge with half a buffer never overwrites an element it still needs |
| `FileSort.FSortTmp` | rsync/flist.c:1663-1699 | with num/2 spare slots the stretch is sorted stably and nothing else is touched |
| `FileSort.FSort` | rsync/flist.c:1705-1717 | sorted, a permutation and stable, for every list and total preorder |
| `FlistFind.SkipUp` | rsync/flist.c:2741-2751 | following depth links reaches the next active entry, and the shortened link still spans removed entries only |
| `FlistFind.SkipDown` | rsync/flist.c:2752-2763 | the same for len32 links downwards |
| `FlistFind.Find` | rsync/flist.c:2732-2779 | the search stays in bounds, ends, and finds an equal active entry if and only if one exists between low and high |
| `FlistClean.Turn` | rsync/flist.c:2949-3008 | one entry is kept, dropped, or takes the place of a non-directory, keeping the invariant |
| `FlistClean.Clean` | rsync/flist.c:2936-3009 | no two active entries share a full name ("." apart), every name keeps an entry, the first of equals stays, low and high are active bounds |
| `FlistClean.FileList.SortAndClean` | rsync/flist.c:2921-3009 | the same after the stable sort, and for lists with nothing active |
| `FlistClean.EarliestWins` | rsync/flist.c:2967-2986 | an entry that stays is the first received of its kind |
| `FlistClean.NamesSurvive` | rsync/flist.c:2919-2921 | every name received has an entry that may stand for it |
| `FlistClean.DirectoryWins` | rsync/flist.c:2969-2984 | where a directory was received no non-directory of its name is left |
| `FlistClean.CleanIffNoDotClash` | rsync/flist.c:2919-2921 | all duplicates are gone if and only if no directory and non-directory "." came in |
| `FlistClean.DotClashHappens` | rsync/flist.c:2955-2966 | a list for which they are not, however it is sorted and cleaned |
| `FlistClean.CleanDotClash` | rsync/flist.c:2921-3009 | sorting and cleaning it leaves two entries of one name |
| `Streams.AllTaken` | rsync/flist.c:2554-2585 | if one item goes over between related states, a whole sequence does, up to its end |
| `FlistWire.FlagsRoundTrip` | rsync/flist.c:539-558 | the flags arrive in all three wire forms, and no entry is taken for the end of the list |
| `FlistWire.FlagsShortest` | rsync/flist.c:539-558 | flags are padded only where there are none, and in the older forms no shorter bytes are read as the same flags |
| `FlistWire.EndRoundTrip` | rsync/flist.c:2035-2045 | the end marker arrives with its error flags |
| `FlistWire.NameRoundTrip` | rsync/flist.c:529-565 | the name arrives from its difference to the last one |
| `FlistWire.RebuiltIs` | rsync/flist.c:725-730 | the name received is the C string in the buffer after the copy of the last name and the read, whatever the bytes between them were |
| `FlistWire.AttrsRoundTrip` | rsync/flist.c:575-666 | every attribute arrives, sent or same as before |
| `FlistWire.EntryRoundTrip` | rsync/flist.c:375-671 | one entry arrives, also abbreviated as a hard link, and both sides' static variables stay equal |
| `FlistWire.EntryGood` | rsync/flist.c:677-1188 | whatever bytes arrive, an entry that is not refused has a name and link target that fit, a length that is not negative, and a link to an entry received before it or to itself |
| `FlistCodec.ListRoundTrip` | rsync/flist.c:2554-2585 | a whole list arrives from any state in lockstep, whatever follows it, and leaves lockstep |
| `FlistCodec.ListGood` | rsync/flist.c:2554-2585 | whatever bytes arrive, a list that is not refused consists of such entries |
| `FlistCodec.RelatedMeans` | rsync/flist.c:1131-1136 | each field that the options keep is the sender's, and two entries are in one link group if and only if they are one inode |
| `FlistCodec.NextList` | rsync/flist.c:2047-2140 | the next list starts in lockstep from what this one left |
| `FlistEnds.CommonPrefix` | rsync/flist.c:529-532 | the loop finds the reused part of the last name |
| `FlistEnds.FlistSender.SendFileEntry` | rsync/flist.c:375-671 | the step-by-step encoder writes the specified bytes and moves to the specified state |
| `FlistEnds.FlistSender.SendFileList` | rsync/flist.c:2035-2045 | the entries one after another and the end are the specified stream |
| `FlistEnds.FlistReceiver.RecvFileEntry` | rsync/flist.c:677-1188 | reading byte by byte and assigning the static variables as it goes, the decoder takes the entry, the variables and the rest of the input that the grammar gives, and on a bad entry ends at the end of input or refuses it exactly as the grammar does |
| `FlistEnds.FlistReceiver.ReadVar` | rsync/io.c:1731-1802 | the number put together in the union is the one encoded, and nothing behind it is read |
| `FlistEnds.SendAndReceiveEntry` | rsync/flist.c:677-1188 | from related states, the entry one end sends, with anything behind it, is received as the same file in its link group, nothing behind it is read, and both ends are related again |
| `FlistEnds.FlistReceiver.RecvFileList` | rsync/flist.c:2554-2585 | the loop takes the list, the static variables and the rest of the input that the grammar gives, or fails as it does |
| `FlistEnds.SendAndReceive` | rsync/flist.c:2554-2585 | sender and receiver end with the same files, link groups and static variables |
| `FlistEnds.SendAndReceiveNext` | rsync/flist.c:2047-2140 | the list after that one too, from the variables and inodes that those before it left |
| `HashTable.Probe` | rsync/hashtable.c:158-175 | probing ends, because a free node remains, at the key or at the first free node of its path |
| `HashTable.TakeOver` | rsync/hashtable.c:177-184 | taking that node adds exactly one association |
| `HashTable.Table.constructor` | rsync/hashtable.c:24-56 | the size is a power of two that holds the request; the table is empty |
| `HashTable.Table.Find` | rsync/hashtable.c:80-185 | a lookup or insert in a finite map over nonzero keys of the width, null data included; growth never nests |
| `HashTable.Table.Grow` | rsync/hashtable.c:91-119 | doubling preserves all associations |
| `Negotiate.InitSaw` | rsync/compat.c:237-262 | saw is cleared and as long as the largest number needs |
| `Negotiate.ParseWords` | rsync/compat.c:266-309 | the words to send are the valid ones, each once, in the order they were first named, by main name, and saw holds their ranks |
| `Negotiate.ValidAre` | rsync/compat.c:266-309 | the valid words: each number named by some word, once, in the order of first naming |
| `Negotiate.DefaultList` | rsync/compat.c:443-483 | a number is in the default list if and only if it is in the table and not that of "none" on the client; each is there once, by main name, in the order of first rows |
| `Negotiate.DefaultsAre` | rsync/compat.c:443-483 | the default list up to any row of the table: the numbers of first rows, without that of "none" on the client, in order |
| `Negotiate.NoneOnlyOnServer` | rsync/compat.c:464 | "none" is in the default list only on the server, and there exactly if the table has it |
| `Negotiate.Pick` | rsync/compat.c:319-363 | the server takes its first acceptable word, the client the one it ranks best, and neither picks only if there is none |
| `Negotiate.ClientFinds` | rsync/compat.c:319-363 | the client's choice is the first common name if it ranks it below saw_len, else nothing |
| `Negotiate.ServerFinds` | rsync/compat.c:319-363 | the server's choice is the first common name if it ranks it below saw_len |
| `Negotiate.Agreement` | rsync/compat.c:319-363 | both finish with the same choice if and only if the first common name is ranked below saw_len by both, and then it is that name |
| `Negotiate.RankBound` | rsync/compat.c:237-262 | only the last name of a list of all numbers can have rank saw_len |
| `Negotiate.Negotiation` | rsync/compat.c:485-548 | the same for the whole exchange, from the users' lists to the choices; what is chosen is on both lists, and where the client named nothing it is never "none" |
| `Negotiate.DisagreementHappens` | rsync/compat.c:333-363 | tables and lists for which the sides choose differently |

## Left out

- Compression, `token.c`, character conversion and the digests themselves: tokens are an ideal FIFO of literals and matches, digests are parameters.
- System calls, timeouts, bandwidth limits, signals and keep-alives: short reads and writes are arbitrary, nothing else fails; a file that shrinks while it is read is not modelled.
- Append mode, sparse files, preallocation, partial directories and the file-system work of backup and delete.
- Protocol versions below 29 (below 30 for the file list), batch files, dry runs, `--prune-empty-dirs`, receiver-side `--chmod`.
- The input half of `perform_io` and its re-entrant calls: the output buffers' invariants hold between its steps.
- Hard-link chains (`hlink.c`), ACLs, extended attributes, filters, options, daemon, logging: they would add plumbing or need file-system state.
- 32-bit overflow of counters and offsets other than those named in a contract; blocks and files are small enough for the source's types.
- Matcher.Search.MatchSums: a false match that overshoots the file ends the modelled run with `ok` false; when two equal sums mean equal bytes, only a wrong turn can do that.
- Mux.Output.SendMsg: a payload of 2^24 bytes or more does not fit a frame and is not modelled; where a receiver's message does not fit the doubled buffer either, the source does not look and the modelled call ends with `ok` false.
- Mux.Output.WriteBuf: data of 2^24 bytes or more does not fit a frame and is not modelled, as the buffers are smaller.
- IncRecurse.NextInv: the model lets refusals overtake data on their way to the receiver (two queues for one stream), so it covers more runs than there are; the scan may ask for an entry it passed over, within the number of entries, which covers more runs too; hard links and a failing chdir in the sender are not modelled.
- Handshake.NextInv: the generator's writes between two waits, in which an answer may be read, are one step, and answers are read before or after it; what a file index does in between is not modelled.
- FlistWire.GetName: cleaning and splitting the received path, and refusing unsafe ones, is not modelled.
- FlistWire.EntryRoundTrip: user and group names that follow an id, and the mapping of ids, are not modelled (numeric ids).
- FlistClean.Clean: merging the flags of duplicate directories and the sending side's variant are not modelled.
- FNameCmp.FNameCmp: entries named "." with a dirname are excluded; for two of them with equal dirnames in different places the source reads past the end of a string (`FNameCmp.DotsRunOn`).
- HashTable.Table.Find: the hash is any function; keys outside the table's width are excluded.
- Negotiate.ParseWords: names are compared after case folding and the 256-byte buffer limit is not modelled.
- BlockSize.SumSizesSqroot: bits are set and cleared by adding and subtracting, which is the same here since a bit is never set twice.
