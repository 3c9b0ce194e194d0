# A verified model of the IRIX install server's codecs, protocols and indexes

The server hands IRIX installation media to old machines over BOOTP, TFTP, rsh and NFS. Most of its logic does not
depend on sockets or host files: it is decompressors, a stop-and-wait transfer, persistent indexes of filehandles,
directory paging, block mapping, caching and merging. This project models that logic in Dafny and proves what each part
is for. `dafny verify dfyconfig.toml` checks all of it.

Each part is modelled in the form the program has. A reader, a table, a cache or a ring is a class whose methods change
its fields and are proved against functions on values; protocols and interleavings are transition functions over events,
with theorems about every run. I/O, time and foreign code come in as parameters: the bytes an input will give and how it
ends, the script of packets and deadlines that reaches a sender, which fetches fail, what the host's tree looks like.

| module | part |
|---|---|
| `Bits`, `Streams` | shifts, masks and OR on integers; what a decompressing stream promises |
| `LzwDecoder`, `LzwReader`, `LzwRuns`, `LzwWriter`, `LzwRoundTrip` | compress(1): a dictionary of strings, the reader with its tables and stack, runs code by code, a writer of the format, and that reading undoes writing |
| `PackFormat`, `PackReader`, `PackCode`, `PackWriter`, `PackRoundTrip` | pack(1): the format, the reader, the code, the encoder, and that reading undoes writing |
| `Tftp`, `TftpSafety`, `TftpContents`, `TftpRuns`, `TftpSender`, `TftpPatience` | sender, receiver and channels as one system, what all its runs keep, whose bytes arrive, runs that end well and runs that show the limits, the sender's loops, and when it gives up |
| `SharePaths`, `PathTable`, `ShareInodes`, `ShareRenames` | filehandles of a share: renames on paths, the numbered path table and its log, inode handles and the search, and where they lead after a rename |
| `Xdr`, `Readdir`, `ReaddirClient`, `ReaddirPaging` | words and padded strings, READDIR pages, their bytes and budgets, a client that reads the bytes, and one that follows cookies |
| `ReplyCache` | the duplicate request cache of the UDP server |
| `EfsRead`, `ChunkCache`, `ChunkRecency`, `ChunkReaders` | reading an EFS file through extents, and the chunk cache under it: what it keeps, and many readers at once |
| `VfsMerge` | merging the layers of an install set |
| `InstallOrder` | the order install sets are put on |
| `DdCopy`, `TransferSignals`, `TransferHistory` | the shell's dd, its interrupt controller, and what the controller's state says of the events so far |

Some invariants and postconditions are written `Valid() == true`. This keeps the verifier from taking a large predicate
apart and proving its conjuncts one by one where it is known as a whole.

## Results

- **LZW.** Whatever the sizes of the buffers, the reader delivers exactly the bytes of an abstract decoder over a
  table of strings, then its end (`LzwReader.Reader.Read`, `LzwReader.ReadStream`). Codes are exact bit slices of
  their group, with no index outside the 16-byte buffer, and the walk back through prefixes ends because every prefix
  is smaller. A code is read in the least width that holds the table's size (`LzwRuns.WidthLaw`). Whatever text a
  writer compresses, with its own table and widths, comes back (`LzwRoundTrip.UncompressCompressed`,
  `LzwRoundTrip.ReadCompressed`).
- **pack.** For every complete code with the end symbol deepest, the patterns the encoder assigns are the ones the
  reader's level counts recognise; they are prefix-free, and reading what was written returns the input *if and only
  if* it is shorter than 2^32 bytes (`PackRoundTrip.UnpackPacked`, `PackRoundTrip.Pack`): the header's length is 32
  bits, and a longer input's end symbol is taken for a byte. For every accepted header the symbol index stays in the
  table and the level never passes the deepest (`PackFormat.WalkStaysInside`), so the reader's last corruption exit is
  dead.
- **TFTP.** In every run over channels that lose and duplicate but keep order, the receiver's bytes are the blocks as
  they went out, although block numbers wrap at 16 bits, and "ok" means that it has as many bytes as the file. They
  are the file's own, whatever the file holds, *if and only if every read filled its block*
  (`TftpContents.ReceivedIsPrefix`, `TftpContents.CompletionIsTrue`): the sender takes an end of file for success and
  ignores how many bytes came, so a short read, such as an EFS image that is cut short gives, sends what the block
  before left in the buffer (`TftpRuns.StaleBytes`). A transfer in lock step ends in "ok" with the file received
  (`TftpRuns.SteadyCompletes`). The sender gives up exactly at the deadline after the last resend its budget allows
  (`TftpPatience.GivesUpLast`, `TftpPatience.DeadlineResends`). Order is needed: `TftpRuns.OrderIsNeeded` shows a run
  in which an acknowledgement from 65536 blocks ago would end the transfer too early. The sender's loops are the
  system's sender (`TftpSender.LoopsAreSystem`).
- **Filehandles.** Replaying the path table's log rebuilds the table, before and after compaction; an operation keeps
  that so *if and only if* it loses no line, and a failed write while forgetting or moving is not noticed by the
  program. Numbers are never handed out twice, whatever lines are lost, *until the last uint64 has been*; from then on
  every new path gets that same number (`PathTable.Numbering.IdFor`, `PathTable.NumberTwice`). Setting a path keeps
  the maps inverse if and only if the path is not another number's, which is why a rename forgets its target first. In
  inode mode a handle is stale if and only if neither the place the cache gives nor any file that can be listed has
  its key: a file in a directory that cannot be listed is found through the cache alone (`ShareRenames.HiddenFile`).
  After a rename a handle under the source resolves, to the corresponding path under the target, if and only if the
  cache had it, or the listings lead into the target's directory and down to the file (`ShareRenames.FindMoved`); a
  handle elsewhere resolves as before, and one of the target's is stale. These are for a file of one path. With
  several, as hard links give it, a handle resolves, to one of them as the rename leaves it, if and only if the cache
  placed it outside the target or the listings lead to one of them (`ShareRenames.FindAfter`).
- **READDIR.** Following cookies while entries come and go, no name is listed twice, and every entry that was there
  throughout, always the first of its cookie, is listed once. In an unchanged directory being the first of its cookie
  is exactly what an entry needs: some client never sees a later one (`ReaddirPaging.ListedExactly`). A client whose
  counts take every entry is at the end within a page for each and one more (`ReaddirPaging.EndReached`). A version 3
  reply is within the client's count if and only if the count covers an empty reply (108 bytes), or entries are left
  and it covers the refusal to list them (92 bytes): a count of zero is exceeded by both (`Readdir.ReplyToNothing`). A
  page holds as many entries as its counts allow, and a client that reads its bytes gets every field of every entry
  and eof (`Readdir.PageFull`, `ReaddirClient.Ask3`).
- **Read path.** An EFS read through the chunk cache gives each byte as a byte-at-a-time read would, with binary
  search, holes and empty extents, from the extents that the search leaves. That is the file's own byte, whatever the
  disk holds, *if and only if no extent before the one the search finds holds it* (`EfsRead.SearchExact`), so always
  when ends rise with offsets or no extent is empty (`EfsRead.NoneHidden`). Empty extents can break it: with one
  sorted after an extent at its own offset, a read gives a wrong byte (`EfsRead.EmptyHides`). Each byte is of the
  disk's block that the extent and the partition's place name (`EfsRead.ByteInBlock`). The cache returns the object's
  own bytes and an exact end of file under every interleaving of its readers, keeps map and list the same, and keeps
  to its budget. It keeps the chunks used last (`ChunkRecency.KeepsRecent`), and every read ends
  (`ChunkReaders.ReadEnds`).
- **Merging.** Which layers are accepted and which bytes each path then serves do not depend on the order of the
  layers.
- **Install order, replies, dd.** An order is found exactly when every name reached is a set and none reaches itself;
  a resent call is answered from the cache if and only if it was run with fewer than 64 others stored since; dd in
  groups is dd one record at a time. An early end of its input is taken for the file's: dd reports success, and has
  written what it was asked for *if and only if no read fell short* (`DdCopy.Dd`, `DdCopy.ShortDd`).
- **Interrupts.** In every interleaving the write deadline has passed only while an interrupted transfer is active,
  and no byte sent while nothing was active interrupts a later transfer (`TransferSignals.Drive`). A transfer is
  interrupted *if and only if* an interrupt byte was taken while one was active with no close, disable or suspend in
  force, and since then some transfer has been active all along and nothing has disabled the controller
  (`TransferHistory.InterruptedIs`).

## Model

| member | source | states |
|---|---|---|
| `LzwDecoder.SliceSplit` | unixcompress/reader.go:239-258 | a code's low and high parts, shifted into place, are the whole bit slice |
| `LzwDecoder.SliceInByte` | unixcompress/reader.go:240-257 | within one byte a slice is a shift and a mask |
| `LzwDecoder.ReadyGroup` | unixcompress/reader.go:200-231 | the cursor returned holds a whole code inside the 16-byte buffer, short final groups included, and input is used up when a group is taken |
| `LzwDecoder.NextCode` | unixcompress/reader.go:200-261 | each code uses up input or group, which is why decoding ends |
| `LzwDecoder.CodeBound` | unixcompress/reader.go:200-261 | no code reaches 2^maxBits |
| `LzwDecoder.Learn` | unixcompress/reader.go:188-197 | the dictionary stays within 2^maxBits entries, with nothing at the clear code |
| `LzwDecoder.ClearStartsOver` | unixcompress/reader.go:156-163 | after a clear code decoding goes on as from a fresh stream, so nothing from before it is read |
| `LzwReader.Reader.constructor` | unixcompress/reader.go:96-113 | a new reader is to deliver the abstract decoder's run over its input |
| `LzwReader.Reader.Widen` | unixcompress/reader.go:201-216 | the width is the one the table's size calls for and at most maxBits |
| `LzwReader.Reader.Refill` | unixcompress/reader.go:201-231 | the group read, and every way it can fail, are the abstract cursor's |
| `LzwReader.Reader.GetCode` | unixcompress/reader.go:200-261 | the code is the abstract cursor's next code |
| `LzwReader.CutCode` | unixcompress/reader.go:232-260 | the assembled code is exactly the LSB-first slice of the group |
| `LzwReader.Reader.Unwind` | unixcompress/reader.go:175-182 | the walk through prefixes ends and stacks the code's string, last byte first |
| `LzwReader.Reader.Expand` | unixcompress/reader.go:164-184 | stacks the string the dictionary gives the code, KwKwK included, and fails exactly when there is none |
| `LzwReader.Reader.Clear` | unixcompress/reader.go:156-163 | the tables then stand for a fresh dictionary |
| `LzwReader.Reader.OnCode` | unixcompress/reader.go:150-186 | one code leaves what is to come unchanged: a string stacked, a clear, or corrupt data |
| `LzwReader.Reader.Decode` | unixcompress/reader.go:147-186 | ends with the next string stacked or with the decoder's own end |
| `LzwReader.Reader.NewEntry` | unixcompress/reader.go:188-197 | the tables then stand for the dictionary that has learnt the delivered string, frozen when full |
| `LzwReader.Reader.Deliver` | unixcompress/reader.go:124-135 | copies what fits of the string and learns it only once it is all out |
| `LzwReader.OwedAfter` | unixcompress/reader.go:124-135 | bytes delivered move from what is to come to what is done, wherever a string is cut |
| `LzwReader.Reader.Fill` | unixcompress/reader.go:122-140 | the buffer is filled from what was to come, or the end was reached |
| `LzwReader.Reader.Read` | unixcompress/reader.go:118-145 | what was to come is what was read and what is still to come; the end is reported once nothing is left |
| `LzwReader.NewReader` | unixcompress/reader.go:84-114 | accepts exactly the valid headers, with the right error for the others |
| `LzwReader.ReadOn` | unixcompress/reader.go:118-145 | any sequence of buffer sizes reads the same bytes and end |
| `LzwReader.ReadStream` | unixcompress/reader.go:80-145 | a stream read with any buffer sizes gives a prefix of its contents, all of it when the end is reported |
| `LzwRuns.RunDelivers` | unixcompress/reader.go:147-186 | a run delivers what it has delivered by any code, and what it delivers from there |
| `LzwRuns.WidthLaw` | unixcompress/reader.go:200-216 | in every state a run comes to, the next code is read in the least width from 9 up that holds the number of entries, or in the widest; so every code a writer can send next fits |
| `LzwRuns.CodeMeans` | unixcompress/reader.go:164-173 | in every such state a code gives its entry's string, the next entry's the previous string and its first byte; any other code is corrupt |
| `LzwRuns.LoneByte` | unixcompress/reader.go:217-231 | a last byte alone is a code of nine bits, the ninth from the group before; with a read error it is none |
| `LzwRuns.CutAtGroup` | unixcompress/reader_test.go:188-199 | cut where a run takes a new group, a stream gives what the run had given by then, and ends |
| `LzwRoundTrip.NextServes` | unixcompress/reader.go:200-261 | the next code a reader gets is the next the writer sent, across groups, widths and clears |
| `LzwRoundTrip.PhraseLearnt` | unixcompress/reader.go:164-197 | reader and writer agree on the string of the code sent, and on the table after it |
| `LzwRoundTrip.UncompressCompressed` | unixcompress/reader_test.go:122-141 | every text, compressed to any widest code, in block mode or not and with the table cleared anywhere, decompresses to itself |
| `LzwRoundTrip.ReadCompressed` | unixcompress/reader_test.go:143-151 | so it does through the reader, with buffers of any sizes |
| `PackFormat.WalkStaysInside` | unixpack/reader.go:187-208 | every index found is in the symbol table, at most one bit a level is used, no walk passes the deepest level; the index check fails only for a first bit 1 under an empty root |
| `PackFormat.ParseTables` | unixpack/reader.go:96-132 | accepted tables have at least two leaves at the deepest level and as many symbols as leaves |
| `PackFormat.Parse` | unixpack/reader.go:67-139 | the same of a whole header |
| `PackFormat.ParsedIs` | unixpack/reader.go:67-132 | accepted is exactly magic, 1 to 24 levels, at most 256 symbols by their counts, and all of these there; the length is the big-endian word |
| `PackReader.Reader.NextBit` | unixpack/reader.go:172-188 | takes the next bit, most significant first, into the code |
| `PackReader.Reader.Descend` | unixpack/reader.go:171-209 | one bit further in the walk the format describes; the exit for a level too deep is never taken |
| `PackReader.Reader.Walk` | unixpack/reader.go:170-209 | ends at the leaf the format finds, or with its error |
| `PackReader.Reader.Decode` | unixpack/reader.go:167-210 | one byte of what is to come, or its end |
| `PackReader.Reader.Fill` | unixpack/reader.go:151-160 | the buffer is filled from what was to come, or the end was reached |
| `PackReader.Reader.Read` | unixpack/reader.go:151-165 | what was to come is what was read and what is still to come |
| `PackReader.ReadCounts` | unixpack/reader.go:96-105 | the counts are the stored bytes and the total is theirs and one |
| `PackReader.ReadSymbols` | unixpack/reader.go:110-129 | the symbols in order, a spare zero, and where each level starts |
| `PackReader.CountInodes` | unixpack/reader.go:134-138 | the internal nodes of each level |
| `PackReader.BuildTables` | unixpack/reader.go:113-138 | the arrays hold the format's tables of the stored counts |
| `PackReader.NewReader` | unixpack/reader.go:67-140 | rejects exactly what the format rejects, with its error, and is else at the start of the text |
| `PackReader.ReadOn` | unixpack/reader.go:151-165 | any sequence of buffer sizes reads the same bytes and end |
| `PackReader.ReadFile` | unixpack/reader.go:63-165 | a file read with any buffer sizes gives a prefix of its contents, all of it when the end is reported |
| `PackCode.NodesPairUp` | unixpack/reader.go:134-138 | in a complete code everything at a depth is the children of the internal nodes above, so halving loses nothing |
| `PackCode.WordFound` | unixpack/reader.go:187-196 | a reader finds the leaf of every code word, whatever follows it |
| `PackCode.SymbolFound` | unixpack/pack_test.go:131-138 | the table has each symbol where its code word points, the end symbol's place last |
| `PackCode.PrefixFree` | unixpack/pack_test.go:111-124 | no code word begins another's |
| `PackCode.DecodeEncode` | unixpack/reader.go:170-209 | reading a text's code words gives the text and end of data, or the end symbol as a byte when the stored length differs |
| `PackCode.DecodeCut` | unixpack/reader.go:170-186 | of code words cut short a part of the text is read, taken for the whole exactly when as many bytes are out as the stored length says |
| `PackWriter.Levels` | unixpack/pack_test.go:96-109 | counts the codes of each length, finds the longest, refuses more than 24 bits |
| `PackWriter.AssignLevel` | unixpack/pack_test.go:115-121 | the codes of one length get their patterns and no others change |
| `PackWriter.BitPatterns` | unixpack/pack_test.go:111-124 | every pattern is the canonical code, left-aligned in 24 bits |
| `PackWriter.Header` | unixpack/pack_test.go:126-138 | the header's bytes |
| `PackWriter.PutWord` | unixpack/pack_test.go:140-162 | the text's bits are extended by exactly the code word, zeros after it |
| `PackRoundTrip.HeaderParses` | unixpack/reader.go:67-139 | the header written parses to the code's tables, the length modulo 2^32 and the text |
| `PackRoundTrip.PutText` | unixpack/pack_test.go:140-167 | the text holds the input's code words and the end symbol's |
| `PackRoundTrip.UnpackPacked` | unixpack/pack_test.go:126-166 | what is packed unpacks to the input if and only if that is shorter than 2^32 bytes |
| `PackRoundTrip.UnpackCut` | unixpack/reader.go:170-186 | a packed file cut short gives a part of the input, and end of data exactly when only the end symbol is missing |
| `PackRoundTrip.Pack` | unixpack/pack_test.go:96-167 | the encoder's output does so, however its input ends |
| `TftpSafety.NeighboursDiffer` | internal/tftp/tftp.go:654-654 | neighbouring blocks never share a number, wrap included |
| `TftpSafety.AwaitedIsCurrent` | internal/tftp/tftp.go:423-431 | an acknowledgement with the awaited number is the current block's, and the receiver has that block |
| `TftpSafety.TimeoutHolds` | internal/tftp/tftp.go:395-408 | a deadline keeps the invariant |
| `TftpSafety.AckHolds` | internal/tftp/tftp.go:632-654 | an acknowledgement keeps the invariant |
| `TftpSafety.ApplyHolds` | internal/tftp/tftp.go:394-446 | every event keeps the invariant: the receiver is at most a block behind and only the last two blocks' messages are under way |
| `TftpSafety.RunHolds` | internal/tftp/tftp.go:595-655 | so every run does |
| `TftpSafety.BlockBegun` | internal/tftp/tftp.go:605-614 | a block goes out as what its read brought, then what the block before left in the one buffer |
| `TftpSafety.ReceivedIsSent` | internal/tftp/tftp.go:595-655 | in every run the bytes received are those blocks in order, in number between what is acknowledged and what was sent |
| `TftpContents.RunAlike` | internal/tftp/tftp.go:595-655 | nothing but the bytes of a run depends on what the file holds |
| `TftpContents.ReceivedIsPrefix` | internal/tftp/tftp.go:607-614 | whatever the file holds, the bytes received are a prefix of it if and only if every read filled its block |
| `TftpContents.CompletionIsTrue` | internal/tftp/tftp.go:635-648 | "ok" implies as many bytes as the file has, and the file's own, whatever it holds, if and only if every read filled its block; with the final block unacknowledged at most that block is missing |
| `TftpRuns.StaleBytes` | internal/tftp/tftp.go:607-614 | a run with one short read that ends "ok" over a byte of the block before |
| `TftpRuns.SteadyAcks` | internal/tftp/tftp.go:595-655 | a run in lock step acknowledges every block it comes to |
| `TftpRuns.OrderIsNeeded` | internal/tftp/tftp.go:424-431 | in a run past 65536 blocks, an acknowledgement that the run sent 65536 blocks ago would give "ok" with the last block missing |
| `TftpRuns.SteadyCompletes` | internal/tftp/tftp.go:595-655 | a run in lock step to the end of any file ends in "ok", and the receiver has the file |
| `TftpSafety.RetransmissionEnds` | internal/tftp/tftp.go:395-445 | a sender still running has seen fewer deadlines than its budgets add up to |
| `TftpSender.AwaitAck` | internal/tftp/tftp.go:403-443 | passes over all but the awaited acknowledgement, a client error or the deadline |
| `TftpSender.SendAndWaitAck` | internal/tftp/tftp.go:394-446 | sends within the budget, and stands where the state machine stands |
| `TftpSender.ServeBlock` | internal/tftp/tftp.go:597-655 | one block of the state machine: read in whole, in part or not, sent and waited for |
| `TftpSender.Conclude` | internal/tftp/tftp.go:632-654 | the next block or the result the state machine comes to |
| `TftpSender.ServeFile` | internal/tftp/tftp.go:595-655 | the loops are the state machine: same final state, same packets in order, for every script |
| `TftpSender.LoopsAreSystem` | internal/tftp/tftp.go:595-655 | in every run of the system its sender is where the loops are on what they hear, and has sent the same packets |
| `TftpSender.ServeRun` | internal/tftp/tftp.go:635-648 | so "ok" from the loops means that the receiver has the file, if every read filled its block |
| `TftpPatience.GivesUpLast` | internal/tftp/tftp.go:395-446 | the sender gives up only after the option acknowledgement or a full block has gone out retries + 1 times in a row, and leaves a short block unacknowledged only after finalRetries + 1 times |
| `TftpPatience.RunGivesUpLast` | internal/tftp/tftp.go:618-653 | so it does in every run of the system |
| `TftpPatience.DeadlineResends` | internal/tftp/tftp.go:395-408 | until then each deadline sends the same packet once more, if the send works; the next one then ends the transfer |
| `TftpPatience.KeepsWaiting` | internal/tftp/tftp.go:409-441 | any packet but an error or the awaited acknowledgement changes nothing |
| `TftpPatience.ReadErrorIs` | internal/tftp/tftp.go:607-613 | a read error ends the transfer exactly when the next block has bytes and reading them fails, and sends nothing |
| `TftpPatience.AbortedIs` | internal/tftp/tftp.go:396-436 | it is aborted exactly by the client's error or a send that fails; a packet that is due and can be sent goes out, and no other |
| `TftpPatience.FirstSent` | internal/tftp/tftp.go:582-614 | a transfer begins with the option acknowledgement, or else with block 1, unless it cannot be read or sent |
| `TftpPatience.SentCounted` | internal/tftp/tftp.go:628-634 | every packet sent is counted once, as a block, a resend or the option acknowledgement |
| `SharePaths.RenameMoves` | internal/sharefs/sharefs.go:748-791 | names under the source follow it, names under the target are gone, the others stay; renaming back restores those kept |
| `PathTable.SetKeepsInverse` | internal/sharefs/table.go:109-116 | setting keeps the maps inverse if and only if the path is not another number's |
| `PathTable.DelKeepsInverse` | internal/sharefs/table.go:118-121 | deleting does if and only if the number is known or the empty path is not numbered |
| `PathTable.HandingOut` | internal/sharefs/table.go:132-136 | next is unused unless the last uint64 is used |
| `PathTable.Load` | internal/sharefs/table.go:68-107 | reading line by line is replaying |
| `PathTable.Rewrite` | internal/sharefs/table.go:41-50 | the compacted file replays to the same numbers and next in any order of its lines, and to the same table if the maps were inverse |
| `PathTable.CompactReplays` | internal/sharefs/table.go:46-50 | some numbers' lines replay to the table restricted to them, with the full next |
| `PathTable.CompactNumbers` | internal/sharefs/table.go:46-50 | the same of numbers and next for maps that are not inverse |
| `PathTable.Numbering.Open` | internal/sharefs/table.go:30-66 | opening gives what the file replays to, and loses nothing of inverse maps by rewriting it |
| `PathTable.Numbering.SetEntry` | internal/sharefs/table.go:166-167 | memory changes whether or not the line is written |
| `PathTable.Numbering.DelEntry` | internal/sharefs/table.go:153-154 | memory changes whether or not the line is written |
| `PathTable.Numbering.IdFor` | internal/sharefs/table.go:125-138 | a new path's number was never handed out before, except the last uint64; a failed write changes nothing |
| `PathTable.LastRepeats` | internal/sharefs/table.go:109-116 | once the last uint64 is next, each new path takes it from the one before |
| `PathTable.NumberTwice` | internal/sharefs/table.go:125-138 | a file of one line from which two new paths get the same number |
| `PathTable.Numbering.Remove` | internal/sharefs/table.go:147-157 | exactly the path and what is under it are forgotten, in any map order; the file replays to memory if no line is lost, and else still has a forgotten number |
| `PathTable.Numbering.Move` | internal/sharefs/table.go:159-170 | exactly the path and what is under it move, with their numbers, in any map order; the file replays to memory if and only if no line is lost |
| `PathTable.TargetFree` | internal/sharefs/table.go:163-168 | partway through a move the next place is never taken |
| `PathTable.Numbering.Rename` | internal/sharefs/sharefs.go:748-752 | numbers follow the rename and the target's are forgotten; the file replays to memory if and only if no line of either is lost |
| `PathTable.Reopen` | internal/sharefs/table.go:30-66 | a restart gives what the file replays to: the same table when no line was lost |
| `PathTable.Operate` | internal/sharefs/table.go:125-170 | each operation hands out a number at most once, save the last uint64, and keeps file and memory the same when it loses no line |
| `PathTable.Drive` | internal/sharefs/table.go:125-170 | over any run with restarts and lost lines no number but the last uint64 is handed out twice; with none lost, file and memory agree and the maps are inverse |
| `ShareInodes.Inodes.Stat` | internal/sharefs/sharefs.go:192-218 | a file looked at is remembered where it is |
| `ShareInodes.Inodes.Scan` | internal/sharefs/sharefs.go:374-387 | finds the key among a directory's entries, or lists its directories once each |
| `ShareInodes.Inodes.Visit` | internal/sharefs/sharefs.go:367-388 | the queue never holds a directory twice, so the search ends |
| `ShareInodes.Inodes.Search` | internal/sharefs/sharefs.go:359-390 | finds a reachable file with the key, or there is none |
| `ShareInodes.Inodes.NodeByHandle` | internal/sharefs/sharefs.go:332-357 | a file returned has the key now; stale exactly when the cache's place and every listable file lack it |
| `ShareInodes.Inodes.Forget` | internal/sharefs/sharefs.go:761-775 | exactly what is at or under the path is forgotten, in any map order |
| `ShareInodes.Inodes.NoteMove` | internal/sharefs/sharefs.go:777-791 | exactly what is at or under the path moves, in any map order |
| `ShareInodes.Inodes.Rename` | internal/sharefs/sharefs.go:736-754 | the cache after a rename |
| `ShareInodes.RenameStaysAccurate` | internal/sharefs/sharefs.go:777-791 | of a file the cache places, hard links included: it is placed after the rename too, at its new path and with the same key |
| `ShareInodes.RenameMakesStale` | internal/sharefs/sharefs.go:748-752 | a file only under the target is stale after it, whatever the cache held |
| `ShareRenames.LeadsElsewhere` | internal/sharefs/sharefs.go:359-390 | away from source and target the listings lead to the same files before and after a rename |
| `ShareRenames.LeadsUnderTarget` | internal/sharefs/sharefs.go:359-390 | they lead to a file under the target exactly when they lead into the target's directory and the directories from the source down can be listed |
| `ShareRenames.LeadsChain` | internal/sharefs/sharefs.go:359-390 | which they can be, if the listings led to the file before |
| `ShareRenames.AccurateAfter` | internal/sharefs/sharefs.go:761-791 | the cache is right about a file after a rename exactly when it was before |
| `ShareRenames.FindMoved` | internal/sharefs/sharefs.go:736-754 | a handle of a file of one path, under the source, resolves to the corresponding path under the target if and only if the cache had it or the listings lead there |
| `ShareRenames.FindElsewhere` | internal/sharefs/sharefs.go:736-754 | a handle of a file of one path, elsewhere, resolves as it did before |
| `ShareRenames.FindReplaced` | internal/sharefs/sharefs.go:736-754 | a handle of a file only under the target is stale |
| `ShareRenames.PlacedAfter` | internal/sharefs/sharefs.go:761-791 | for any key, hard links included: the cache is right after a rename exactly when it was before, outside the target |
| `ShareRenames.FindableAfter` | internal/sharefs/sharefs.go:359-390 | for any key, a search finds a file after a rename exactly when the listings led to one elsewhere, or lead into the target's directory and down from the source to one |
| `ShareRenames.FindAfter` | internal/sharefs/sharefs.go:736-754 | for any key, a handle resolves after a rename if and only if one of these is so, to a path of the key as the rename leaves it |
| `ShareRenames.HiddenFile` | internal/sharefs/sharefs.go:367-373 | a file in a directory that cannot be listed is found by no search, and through the cache alone |
| `Readdir.FirstAfter` | nfs/nfs2.go:490-497 | the first entry with a greater cookie |
| `Readdir.ReaddirStart` | nfs/nfs2.go:485-499 | the loop finds it, or counts positions |
| `Xdr.PutOpaque` | nfs/xdr.go:82-89 | length, bytes and zeros to a multiple of four |
| `Xdr.OpaqueRead` | nfs/xdr.go:82-89 | which a strict reader reads back |
| `Xdr.WordsRead` | nfs/xdr.go:66-68 | so are eight-byte numbers |
| `Readdir.PutEntry` | nfs/nfs3.go:377-381 | an entry's bytes, as many as it was charged for |
| `Readdir.PutPlus` | nfs/nfs3.go:423-425 | the attributes and handle READDIRPLUS adds |
| `Readdir.PutEntries` | nfs/nfs3.go:335-346 | entries go in while they fit and the budget is never overspent, but for version 2's first |
| `Readdir.PageFull` | nfs/nfs3.go:330-350 | a page keeps to the client's counts, and with one entry more it would not |
| `Readdir.DirCostIs` | nfs/nfs3.go:407-415 | what counts as names alone is the bytes of fileid, name and cookie |
| `Readdir.ReaddirEntries` | nfs/nfs3.go:330-350 | the page and its bytes; nothing when not even the first entry fits |
| `Readdir.Reply3` | nfs/nfs3.go:367-436 | a version 3 reply's bytes; within the count if and only if that covers an empty reply, or entries are left and it covers the refusal |
| `Readdir.ReplyToNothing` | nfs/nfs3.go:382-386 | an empty directory's reply and a refusal, both longer than a count of zero |
| `ReaddirClient.BodyRead` | nfs/nfs3.go:342-349 | a client that reads the entry list as XDR gets every entry's fields, in order, and eof |
| `ReaddirClient.Ask3` | nfs/nfs3.go:367-436 | a version 3 reply is read as the page it holds: attributes, verifier, each entry's fileid, name, cookie, attributes and handle, and eof; or as the refusal |
| `ReaddirClient.Ask2` | nfs/nfs2.go:508-542 | so is the entry list of a version 2 reply |
| `ReaddirPaging.NoNameTwice` | nfs/nfs2.go:485-506 | however pages are cut and entries change between them, no name is listed twice |
| `ReaddirPaging.NothingSkipped` | nfs/nfs2.go:485-506 | an entry there throughout, always the first of its cookie, is listed once the end is reached |
| `ReaddirPaging.CollisionSkips` | internal/sharefs/sharefs.go:411-419 | budgets that hide any entry with an earlier one of its cookie from a client of an unchanged directory |
| `ReaddirPaging.ListedExactly` | internal/sharefs/sharefs.go:411-419 | every client that reaches the end of an unchanged directory lists an entry if and only if it is the first of its cookie |
| `ReaddirPaging.EndReached` | nfs/nfs3.go:330-350 | in an unchanged directory, a client whose counts take every entry is at the end within a page for each entry and one more |
| `ReaddirPaging.ByPosition` | nfs/nfs2.go:498-505 | without cookies, a directory that does not change is listed in order and whole |
| `ReplyCache.NoTwoSlots` | nfs/rpc.go:134-184 | no sender's call has two live entries |
| `ReplyCache.ResendAnswered` | nfs/rpc.go:116-120 | a resend with fewer than 64 stored since gets the first reply and is not run again |
| `ReplyCache.OnlyResends` | nfs/rpc.go:116-120 | and only such a resend is answered without being run |
| `ReplyCache.Ring.Lookup` | nfs/rpc.go:161-174 | the slots hold the last 64 entries, and the one of the call is found |
| `ReplyCache.Ring.Put` | nfs/rpc.go:176-184 | the ring stays the last 64 entries |
| `ReplyCache.Ring.Handle` | nfs/rpc.go:111-120 | one datagram of a run |
| `ReplyCache.ServeUDP` | nfs/rpc.go:103-126 | every call of every run is answered or run as the lemmas say |
| `ReplyCache.NonIdempotentIs` | nfs/rpc.go:145-159 | the calls kept are exactly those of SETATTR, CREATE, MKDIR, SYMLINK, MKNOD, REMOVE, RMDIR, RENAME and LINK, by the procedure numbers of versions 2 and 3 |
| `ReplyCache.CallsKept` | nfs/rpc.go:147-159 | so of calls as a client sends them, by program, version and procedure |
| `EfsRead.FirstPast` | efs/inode.go:170-173 | the search halves as described, whatever the extents |
| `EfsRead.HalvedIs` | efs/inode.go:170-173 | when ends rise with offsets, every extent before the one found ends by the offset |
| `EfsRead.RestNext` | efs/inode.go:170-173 | in any order by offset without overlaps, what the search leaves ends past the offset wherever it holds anything |
| `EfsRead.SearchExact` | efs/inode.go:170-191 | what the search leaves has the whole list's bytes in a range, for every disk, if and only if no extent before it holds a position of the range |
| `EfsRead.NoneHidden` | efs/inode.go:170-173 | which is so when ends rise with offsets, and when no extent is empty |
| `EfsRead.EmptyHides` | efs/inode.go:158-214 | a read that gives zero where the file has another byte: an empty extent is sorted after the one that holds it |
| `EfsRead.HolderIs` | efs/inode.go:187-191 | in order, only one extent can hold a position |
| `EfsRead.HoleIs` | efs/inode.go:176-186 | between two extents nothing holds a position, empty extents notwithstanding |
| `EfsRead.ByteInBlock` | efs/inode.go:187-195 | a byte in a block of an extent is the disk's in the block that is as far from the partition's first and the extent's first |
| `EfsRead.ByteInHole` | efs/inode.go:180-186 | a byte in a block of no extent is zero |
| `EfsRead.PartitionMoves` | efs/inode.go:194-194 | what stands before the partition changes no byte |
| `EfsRead.Extract` | efs/inode.go:187-202 | part of an extent through the cache, or up to where the disk is cut short or a fetch fails |
| `EfsRead.Stretch` | efs/inode.go:175-209 | every round passes an extent or gets bytes |
| `EfsRead.ReadAt` | efs/inode.go:158-214 | over the cache each byte is the one a byte at a time would give from what the search leaves, and the file's when nothing is hidden; as many as fit and there are; no error exactly when all were read, end of data when file or disk end |
| `ChunkCache.PromotedOK` | internal/source/cachingreaderat.go:102-107 | a hit moved to the front keeps the cache consistent |
| `ChunkCache.EvictedOK` | internal/source/cachingreaderat.go:131-146 | eviction ends within the budget or with one chunk, and keeps the newest |
| `ChunkCache.InsertedOK` | internal/source/cachingreaderat.go:115-129 | an insert, raced or not, keeps the cache consistent and its chunk in front |
| `ChunkCache.ShareIs` | internal/source/cachingreaderat.go:79-86 | a chunk's part of a read is the object's own bytes, and at least one |
| `ChunkCache.Chunks.Lookup` | internal/source/cachingreaderat.go:101-108 | a hit is returned and promoted |
| `ChunkCache.Chunks.EvictLocked` | internal/source/cachingreaderat.go:131-146 | the loop evicts as the function does |
| `ChunkCache.Chunks.Insert` | internal/source/cachingreaderat.go:115-129 | the first to fetch wins; either way the object's chunk is returned |
| `ChunkCache.Chunks.Fetch` | internal/source/cachingreaderat.go:148-170 | the chunk, the last one cut to the object |
| `ChunkCache.Chunks.ChunkAt` | internal/source/cachingreaderat.go:97-129 | the object's chunk, cached or not, unless its fetch fails |
| `ChunkCache.Chunks.ReadAt` | internal/source/cachingreaderat.go:55-95 | the object's bytes and nothing else changed, no error on a full read, end of file exactly when short because the object ends |
| `ChunkRecency.EvictedIs` | internal/source/cachingreaderat.go:131-146 | eviction keeps the front of the list, and gives up nothing that would have fit with what is kept |
| `ChunkRecency.KeepsRecent` | internal/source/cachingreaderat.go:97-146 | however it is used, the cache keeps the chunks used last, in that order |
| `ChunkReaders.RunOK` | internal/source/cachingreaderat.go:58-146 | in every interleaving map, list and resident agree, the budget is kept, and every reader has only the object's bytes |
| `ChunkReaders.ReadsAgree` | internal/source/cachingreaderat.go:58-95 | what a read comes to does not depend on the cache or the other readers, unless a fetch of its own fails |
| `ChunkReaders.TurnBrings` | internal/source/cachingreaderat.go:97-129 | a reader's own turn brings it on, and no other changes it |
| `ChunkReaders.ReadEnds` | internal/source/cachingreaderat.go:58-95 | whatever the others do, a read is over within three turns a byte |
| `ChunkReaders.FailsByOwn` | internal/source/cachingreaderat.go:110-113 | and fails only by a fetch of its own |
| `VfsMerge.MergeAllIs` | internal/vfs/build.go:351-390 | merging succeeds exactly when all copies of a path agree, and serves the earliest copy or the configured winner's |
| `VfsMerge.WinnerChosen` | internal/vfs/build.go:370-376 | a configured winner is served exactly when it has a copy |
| `VfsMerge.OrderFree` | internal/vfs/build.go:351-476 | acceptance and the bytes served do not depend on the order of the layers |
| `VfsMerge.SameContent` | internal/vfs/build.go:399-436 | comparing by blocks is comparing |
| `VfsMerge.Builder.MergeChild` | internal/vfs/build.go:351-390 | one copy joins what was there, or cannot |
| `VfsMerge.Builder.CheckCollisions` | internal/vfs/build.go:455-476 | every configured winner won |
| `VfsMerge.Builder.Build` | internal/vfs/build.go:65-75 | the loops accept exactly what is accepted, and leave its tree |
| `VfsMerge.CheckNames` | internal/vfs/build.go:505-512 | no layer is named twice |
| `InstallOrder.OrderShows` | internal/config/config.go:569-571 | an order has everything that can be reached, and shows that there is no cycle and no unknown name |
| `InstallOrder.CycleShown` | internal/config/config.go:580-581 | a name met while it is being visited is on a cycle |
| `InstallOrder.Walk.Visit` | internal/config/config.go:576-599 | the recursion ends, with the name in the order or a proof that there is none |
| `InstallOrder.Walk.Follow` | internal/config/config.go:591-595 | everything a set names is in the order before it |
| `InstallOrder.OrderFor` | internal/config/config.go:569-604 | succeeds exactly when every name reached is a set and none reaches itself; holds each once, after all it names, the requested set last |
| `DdCopy.OneByOneIs` | internal/instcmd/shell.go:1320-1324 | one record at a time everything is written, and the records are quotient and remainder |
| `DdCopy.BufferSizeIs` | internal/instcmd/shell.go:1294-1297 | a buffer is as many whole records as 32768 bytes hold, or one larger record |
| `DdCopy.LooksAre` | internal/instcmd/shell.go:1302-1318 | a copy looks at the controller before each read and after each that brought something |
| `DdCopy.WrittenIs` | internal/instcmd/shell.go:1302-1318 | with the bytes written by each look |
| `DdCopy.CopyBuffers` | internal/instcmd/shell.go:1292-1334 | the bytes and records of a copy in groups, of an input that ends or ends in a read error; interrupted exactly when a look at the controller sees a signal, at the first that does and with the bytes written by then |
| `DdCopy.Copy` | internal/instcmd/shell.go:1292-1342 | are those of one record at a time; an interrupted copy has written a prefix, a failed one all that was read |
| `DdCopy.Dd` | internal/instcmd/shell.go:1259-1342 | the same from skip and count; a dd that reports success has written what was asked for if and only if no read fell short |
| `DdCopy.AskedIs` | internal/instcmd/shell.go:1269-1288 | what is asked for is the file from skip\*ibs to its end or (skip+count)\*ibs |
| `DdCopy.ShortDd` | internal/instcmd/shell.go:1326-1333 | a run that reports success with half a record missing |
| `TransferSignals.Controller.Interrupt` | internal/instcmd/shell.go:154-166 | interrupts only an active transfer that is not disabled, suspended or closed, with a byte of the same busy period |
| `TransferSignals.Controller.Admit` | internal/instcmd/shell.go:116-139 | a transfer is accepted until the controller is closed; the first of a busy period empties the channel |
| `TransferSignals.Controller.FinishLocked` | internal/instcmd/shell.go:257-270 | the last transfer's end clears interrupt and deadline, an earlier one neither |
| `TransferSignals.Controller.TakeSignal` | internal/instcmd/shell.go:95-102 | takes the first byte, which interrupts if it is one, or meets the end of the channel |
| `TransferSignals.Controller.Switch` | internal/instcmd/shell.go:103-152 | what disabling, suspending, restoring and closing change |
| `TransferSignals.Controller.Step` | internal/instcmd/shell.go:85-270 | every step is the state machine's, all its fields, and keeps: a deadline set means interrupted, interrupted means active and not disabled |
| `TransferSignals.Drive` | internal/instcmd/shell.go:85-270 | so does every interleaving; with none active the deadline is cleared, and no interrupt came from a byte sent while idle |
| `TransferHistory.SwitchesAre` | internal/instcmd/shell.go:103-114 | disabled: a disable was taken; suspended: a suspend was, and no restore since; and so of closed, looping and open |
| `TransferHistory.LiveIs` | internal/instcmd/shell.go:115-145 | the active transfers are those begun before a close and not finished since |
| `TransferHistory.ChannelIs` | internal/instcmd/shell.go:118-133 | the channel holds what has arrived but for what was taken, one byte each time, and what was dropped as a busy period began |
| `TransferHistory.InterruptedIs` | internal/instcmd/shell.go:154-166 | interrupted if and only if an interrupt byte was taken with a transfer active and no close, disable or suspend in force, and since then some transfer was active all along and nothing has disabled it |
| `TransferHistory.DeadlineIs` | internal/instcmd/shell.go:162-164 | the write deadline is set by the first interrupt of a busy period, if it can be, for as long as that is in force, and by nothing else |
| `TransferHistory.TransferStops` | internal/instcmd/shell.go:95-166 | a byte that arrives and is taken so interrupts until the last finish or a disable, and a blocked write returns |

## Left out

- compress(1) itself, which the repository does not have: the writer follows the format, with the table cleared
  wherever a caller says. Of a stream cut inside a group the codes that lack bits are read with the group before's
  (`LzwRuns.LoneByte`); how many of them that gives is not stated.
- Huffman tree building by heap in the encoder of pack(1): any complete set of lengths with the end symbol deepest is
  taken.
- Real time, sockets, retry timing and backoff: a deadline is an event that may happen at any point.
- TFTP option negotiation, request parsing and the packet bytes: the block size, budgets and whether options were
  accepted are given; the receiver is a lock-step client as section 2 of RFC 1350 describes it, not part of the
  repository.
- Text of the path table's file: lines are records, so malformed lines and quoting are not modelled.
- PathTable.Numbering.Open: says when the rewritten file replays to the table only for inverse maps; after lost lines
  the maps read back may not be, and only numbers and next are kept then.
- PathTable.Numbering.Rename: requires that neither path lies inside the other, as a host's rename does.
- Handle bytes, share ids and errno mapping, and the table mode's NodeByHandle, which is one map lookup.
- ShareInodes.Inodes.Search: does not model host files that change while the search runs, or entries that vanish
  between listing and stat.
- Readdir.PutEntries: a version 2 reply may exceed its count by its first entry, as the program allows.
- READDIR call decoding, attributes' contents and the failure replies around the entry list.
- EfsRead.ReadAt: requires extents sorted by offset, as the program sorts them, and that those that are not empty do
  not overlap, as a well-formed inode's do not; what a read does with overlapping ones is not modelled.
- EfsRead.Extract: one reader at a time; the cache's other readers are the matter of `ChunkReaders`.
- Inode parsing and directory blocks of EFS, and the direct and indirect extent tables.
- ChunkCache.Chunks.Fetch: a failed fetch is a failure, whatever its cause.
- Layer replacements, symbolic links and read errors in the merge of layers; a layer is the sequence of files and
  directories its walk comes to.
- DdCopy.Dd: does not model int64 overflow in skip\*ibs and count\*ibs, operand parsing, failed writes or standard
  input in place of a file.
- TransferSignals.Controller.Step: a transfer's number is begun again only after it has finished.
- ReplyCache.ServeUDP: calls come one at a time, as the UDP loop takes them; what running a call does is a given
  answer.
- BOOTP, portmap, MOUNT, the remaining NFS procedures, volume headers, logging, configuration text and the command
  line: mostly fixed-field copying and formatting.
