# Verified model of EdgeFS and NatProbe

Four parts of the repository, modelled in Dafny and proved against what they are for.

**EdgeFS, the chunk store** (`Fs*.dfy`). A file name is hashed to a head chunk; the chunks of all files that meet at a head
are linked into one list, a coalesced hash table. `FsModel` is the state as a value and its invariant; `FsWrite`, `FsRead`
and `FsBitmap` say what writing, reading and allocating do; `FsAppend`, `FsRefine`, `FsRepeat` and `FsRuns` prove what that
means for the files; `FsStore` and `FsDisk` are the classes over arrays that do it; `FsSizing` is the sizing step. The store
refines a map from digests to byte strings as long as no allocation repeats a chunk; and whatever the allocator does, a
repeated chunk costs only the file that is being written. `FsFailures` holds inputs on which the code fails.

**SHA-1** (`Sha1*.dfy`). `Sha1Spec` is FIPS 180-4, `Sha1Example` one digest of it computed out. `Sha1Rounds` has the 80
unravelled macros, `Sha1Stream` the streaming object. File names reach the store through it.

**cJSON** (`Json*.dfy`). `JsonModel` says how a tree prints, `JsonParse` what a text denotes; `JsonReader`,
`JsonUnbuffered`, `JsonBuffer`, `JsonMinify` and `JsonList` are the loops over text, buffers and linked nodes;
`JsonRoundTrip`, `JsonLiteral`, `JsonMinifyPrint` and `JsonMinifyMeaning` prove how these fit together. `JsonGrammar` is the
grammar of RFC 8259, `JsonSyntax` that of the texts that are accepted, `JsonErrors` says where the others fail,
`JsonCharacter` what characters stand for, `JsonComments` what comments cost, `JsonLayout` how a formatted print looks,
`JsonSizes` when the lengths fit an `int`.

**The NAT probe** (`Nat*.dfy`). `NatServer` and `NatService` are the server, `NatProbe` the client in a network that may
lose, delay and repeat, `NatMessage` the messages as JSON text; `NatSafety`, `NatExact`
and `NatVerdict` say what a verdict is worth.

`Common` holds bytes, options and a few facts about numbers and sequences. `dafny verify dfyconfig.toml` checks everything.

## What the code does that one might not expect

- The Fast allocator can hand out a chunk twice (`FsBitmap.FastRepeats`), and a write then loses bytes, already the first
  one to a new index (`FsFailures.FirstWriteLosesBytes`). `FsRepeat.WriteAppendsExactly` is the exact condition.
- `calcReadVariable` clips at the end of the file only for reads that begin in the last chunk; other reads past the end
  return bytes the file does not have, and a remainder near 2^32 wraps. `FsRead.ReadIsFaithful` is the exact condition,
  `FsFailures.ReadOverruns` and `FsFailures.ReadWraps` are inputs.
- An offset equal to the length of a file whose last chunk is full passes the check and then indexes past the list of
  chunks; the model answers `None` exactly there (`FsRead.StartExactly`, `FsStore.EdgeFs.Read`). `FsFailures.ReadLeavesList`
  is an input.
- A reload sets the allocation counter to zero (`FsRuns.ReloadKeeps`), so a full store allocates as an empty one.
- Sizes are cut to 32 bits before they are checked; more than a chunk is wasted exactly when that cut the chunk count. Memory
  for a multiple of 2^32 records makes the sizing divide by zero (`FsSizing.ZeroDivisorExactly`). `FsSizing.ZeroDivisor`
  and `FsSizing.AlmostAllWasted` are inputs.
- Where `long` has 64 bits, SHA-1 loads eight bytes for each word, the last time reaching into `local`; the masks drop the rest.
- An empty object prints with one tab less than its depth, and `{`, a line break and `}` at the top.
- The lengths for printing are added up in an `int`, which they can leave before the text does
  (`JsonSizes.EstimateLeavesInt`); `JsonSizes.SizesFitExactly` is the exact condition. The pointer that buffered printing
  returns for a formatted object is the start of the text only at the top, where alone it is used.
- The reader takes bytes from 1 to 32 for white space, a zero before other digits, and a minus alone for zero
  (`JsonSyntax.AcceptedExactly`).
- A high surrogate followed by an escape that is no low surrogate loses both (`JsonCharacter.LostUnits`).
- The star that opens a block comment can also close it: `1/*/2` is minified to `12` (`JsonComments.ShortBlock`).
- Twice the allocation counter is taken in 32 bits, so a store of 2^31 chunks or more can be full and count as empty
  (`FsBitmap.FastExactly`).
- A comment in the server says that the full cone probe is answered from the same port; it is answered from port 61621.
  The last address of the table never answers that probe, and more than five addresses do not fit the table.
- An address-restricted NAT can be reported as a full cone, because the symmetric test has contacted the second server.

## Model

| member | source | states |
|---|---|---|
| `FsRuns.FreshRunRefines` | EdgeFS/src/EdgeFS.cpp:375-594 | from a fresh index, every run of writes, reads and reloads whose allocations are distinct and whose reads are faithful gives the answers of a map from digests to bytes with a budget of chunks, and ends with that map's files |
| `FsRuns.RunRefines` | EdgeFS/src/EdgeFS.cpp:375-594 | the same from any well-formed state |
| `FsRuns.StepRefines` | EdgeFS/src/EdgeFS.cpp:375-594 | one write, read or reload of the store is the same step of the map: same answer, same files, and the state is well-formed again |
| `FsRuns.FileSurvives` | EdgeFS/src/EdgeFS.cpp:375-594 | in any run, whatever the allocator hands out to others: a file whose own allocations are distinct holds exactly what its granted writes wrote, and every faithful read of it answers with exactly the requested slice |
| `FsRuns.StepKeeps` | EdgeFS/src/EdgeFS.cpp:375-594 | a write with any draws, a read and a reload leave a well-formed store: every walk ends, no used chunk is empty, only the last chunk of a file has room, bits and records agree |
| `FsRuns.ReachableState` | EdgeFS/src/EdgeFS.cpp:416-522 | in every state that a run with distinct allocations reaches from a fresh index, whatever it reads and however often it reloads: bit set if and only if record used, no used chunk empty, only a file's last chunk has room, no chunk with two used predecessors, every walk ends at a chunk without a link and repeats none, every used chunk is one of its file's chunks; and counter = number of bits unless the run reloads |
| `FsRuns.RunCounts` | EdgeFS/src/Bitmap.cpp:134-149 | over every run with distinct allocations, whatever it reads and however often it reloads, the lists stay disjoint and every used chunk stays with its file; without a reload the allocation counter stays the number of set bits |
| `FsRuns.ReloadKeeps` | EdgeFS/src/Bitmap.cpp:16-22 | a reload leaves a well-formed store and keeps every file; the counter then agrees with the bitmap if and only if the store is empty |
| `FsRuns.WalkEnds` | EdgeFS/src/EdgeFS.cpp:301-344 | from any used chunk the walk over the links visits no chunk twice and ends within as many steps as there are chunks |
| `FsRuns.WriteIsAppend` | EdgeFS/src/EdgeFS.cpp:375-527 | a write with a distinct grant appends exactly its buffer to its file and to no other, or, when the chunks it needs are not left, changes nothing and answers -1; counter, disjoint lists and whole files are handed on |
| `FsRuns.ReadMatches` | EdgeFS/src/EdgeFS.cpp:529-594 | a faithful read answers with the requested slice of the map's file, or fails exactly when the file is missing or the offset is beyond its end |
| `FsAppend.WriteAppends` | EdgeFS/src/EdgeFS.cpp:416-522 | after a write to d that took distinct chunks, d's content is its old content followed by the buffer |
| `FsAppend.WriteKeepsOthers` | EdgeFS/src/EdgeFS.cpp:416-522 | every other file keeps its content, whatever chunks the write took, also when it shares the list, is entered midway or owns the tail that is relinked |
| `FsAppend.WriteKeepsValid` | EdgeFS/src/EdgeFS.cpp:416-522 | a write that took any idle chunks, repeated or not, leaves a well-formed store |
| `FsAppend.WriteKeepsTidy` | EdgeFS/src/EdgeFS.cpp:459-519 | with distinct chunks no two used chunks come to link to the same chunk, and every used chunk stays among the chunks of its file |
| `FsAppend.WalkAfter` | EdgeFS/src/EdgeFS.cpp:459-519 | after a write the walk from any used chunk is its old walk, followed by the fresh chunks if it ended where they were hung on; it ends, and meets no chunk twice |
| `FsAppend.FreshIdsAre` | EdgeFS/src/EdgeFS.cpp:480-520 | the walk over the fresh chunks meets all of them in order if and only if none repeats, and fewer otherwise |
| `FsAppend.FindTails` | EdgeFS/src/EdgeFS.cpp:301-344 | the two tail searches find the end of the bucket's list and the last chunk of the file on it |
| `FsAppend.FileIdsAfter` | EdgeFS/src/EdgeFS.cpp:459-519 | writing to d appends the fresh chunks that can be reached to d's chunk list and changes no other file's, whether the bucket was in use, fresh or idle |
| `FsAppend.HaveAfter` | EdgeFS/src/EdgeFS.cpp:480-520 | the used chunks after a write are the old ones and the fresh ones |
| `FsAppend.OldBytesAfter` | EdgeFS/src/EdgeFS.cpp:424-449 | filling the tail chunk appends its part of the buffer to the file and leaves every other file's old bytes |
| `FsAppend.FreshBytesAfter` | EdgeFS/src/EdgeFS.cpp:480-520 | the fresh chunks hold exactly the rest of the buffer |
| `FsRepeat.AppendsExactlyWhenDistinct` | EdgeFS/src/EdgeFS.cpp:459-522 | a write appends its buffer if and only if the allocation it got repeats no chunk |
| `FsRepeat.RepeatLosesBytes` | EdgeFS/src/EdgeFS.cpp:480-520 | with a repeated chunk the file ends up strictly shorter than it should |
| `FsRepeat.WriteAppendsExactly` | EdgeFS/src/EdgeFS.cpp:375-527 | told from the store and the draws before the call: a write is refused, changing nothing, only when too few chunks are idle; otherwise it appends its buffer if and only if the store counts as half full, nothing has to be drawn, or the accepted draws are apart from each other and from the scan |
| `FsRepeat.HalfFullWriteAppends` | EdgeFS/src/EdgeFS.cpp:375-527 | a write to a store with at least half of its chunks counted as used is refused for want of chunks, changing nothing, or appends its buffer, whatever is drawn |
| `FsRepeat.GrantDistinctExactly` | EdgeFS/src/Bitmap.cpp:24-96 | a grant repeats no chunk if and only if that condition on the store and the draws holds |
| `FsFailures.FirstWriteLosesBytes` | EdgeFS/src/Bitmap.cpp:60-93 | an input: the first write of all, of two chunks and a part, with every draw the same, is given [bucket, c, c], answers with the full length, and the file is shorter |
| `FsFailures.ReadOverruns` | EdgeFS/src/EdgeFS.cpp:665-675 | an input: after one write a read from offset 0 of a file that ends with a part-filled chunk returns more bytes than the file has |
| `FsFailures.ReadWraps` | EdgeFS/src/EdgeFS.cpp:655 | an input: after one write a read of 2^32 - 1 bytes from offset 2 returns the rest of the first chunk only |
| `FsFailures.ReadLeavesList` | EdgeFS/src/EdgeFS.cpp:627-643 | an input: after one write of a full chunk the offset at its end passes the check and has no chunk to start in |
| `FsBitmap.AllocateContract` | EdgeFS/src/Bitmap.cpp:24-119 | on success exactly the needed number of ids, in range, idle, led by the unused head if there is one; failure only when fewer chunks are idle than needed |
| `FsBitmap.SteadyIsExact` | EdgeFS/src/Bitmap.cpp:98-119 | the Steady variant takes the smallest idle ids in increasing order after the head, so its result has no repetition |
| `FsBitmap.HalfFullIsExact` | EdgeFS/src/Bitmap.cpp:24-49 | with fewer than 2^31 chunks counted, from half full on: a grant succeeds if and only if enough chunks are idle, and is the head and then the smallest idle chunks in ascending order, each once, whatever is drawn |
| `FsBitmap.FastExactly` | EdgeFS/src/Bitmap.cpp:42-48 | the drawing variant is chosen if and only if twice the counter is below the chunk count, or, as twice the counter is 32 bits wide, the counter is 2^31 or more and what it exceeds that by is less than half the count |
| `FsBitmap.DrawsComeFirst` | EdgeFS/src/Bitmap.cpp:51-96 | below half full: behind the head come the idle ones of the first 10 * need - 1 draws, in the order in which they are drawn, and only when these are too few the smallest idle chunks |
| `FsBitmap.ScanIsComplete` | EdgeFS/src/Bitmap.cpp:82-93 | the head and the scan together name every idle chunk exactly once |
| `FsBitmap.FastRepeats` | EdgeFS/src/Bitmap.cpp:60-93 | below half full, two equal draws of an idle chunk are both kept, behind the head or without one |
| `FsBitmap.FastDistinctExactly` | EdgeFS/src/Bitmap.cpp:60-93 | the Fast result is free of repetitions if and only if the head suffices, or the draws it accepts are distinct and none is met again by the scan |
| `FsBitmap.Bitmap.constructor` | EdgeFS/src/Bitmap.cpp:16-22 | a zeroed map: no chunk set, counter zero |
| `FsBitmap.Bitmap.InitBitmap` | EdgeFS/src/Bitmap.cpp:16-22 | taking over an existing map keeps the bits and resets the counter |
| `FsBitmap.Bitmap.IsHave` | EdgeFS/src/Bitmap.cpp:121-132 | the bit test by byte and mask is membership in the set of used chunks |
| `FsBitmap.Bitmap.Insert` | EdgeFS/src/Bitmap.cpp:134-149 | setting a bit adds that chunk and no other, counts it, and refuses ids out of range |
| `FsBitmap.Bitmap.Scan` | EdgeFS/src/Bitmap.cpp:82-93 | the scanning loop collects the smallest idle ids until there are enough |
| `FsBitmap.Bitmap.GenerateIdleChunkidsForSteady` | EdgeFS/src/Bitmap.cpp:98-119 | the Steady loop computes the specified allocation |
| `FsBitmap.Bitmap.GenerateIdleChunkidsForFast` | EdgeFS/src/Bitmap.cpp:51-96 | the Fast loops compute the specified allocation from the given draws |
| `FsBitmap.Bitmap.GenerateIdleChunkids` | EdgeFS/src/Bitmap.cpp:24-49 | head first, then Fast below half full and Steady from there on |
| `FsRefine.SteadyGrantIsDistinct` | EdgeFS/src/Bitmap.cpp:24-49 | from half full on every grant is distinct, whatever the draws |
| `FsRefine.GrantIsUsable` | EdgeFS/src/EdgeFS.cpp:404-413 | the allocator is called as its contract asks, and its grant is what the write needs |
| `FsRefine.NeedIsGrowth` | EdgeFS/src/EdgeFS.cpp:267-299 | the number of chunks asked for is the growth of the file's chunk count |
| `FsRefine.FileLength` | EdgeFS/src/EdgeFS.cpp:610-624 | a file fills all its chunks but the last, which fixes its length by its chunk count |
| `FsWrite.CalcWriteSplits` | EdgeFS/src/EdgeFS.cpp:267-299 | the split into first part, full chunks and last part adds up to the length, with the last part never empty |
| `FsWrite.PutChunksGather` | EdgeFS/src/EdgeFS.cpp:480-520 | what the loop writes into the fresh chunks reads back as the rest of the buffer |
| `FsRead.ReadExact` | EdgeFS/src/EdgeFS.cpp:529-594 | a read returns the requested slice, cut at the end of the file, if and only if it begins in the last chunk or its 32-bit round-up does not wrap and it ends inside the file or the file ends with a full chunk |
| `FsRead.ReadFails` | EdgeFS/src/EdgeFS.cpp:549-558 | a read fails exactly when the file is missing or the offset is beyond its end |
| `FsRead.StartExactly` | EdgeFS/src/EdgeFS.cpp:553-558 | the chunk a read starts in is missing exactly at the length of a file whose last chunk is full |
| `FsRead.ReadAtMost` | EdgeFS/src/EdgeFS.cpp:627-678 | a read never yields more bytes than were asked for |
| `FsRead.PlanInside` | EdgeFS/src/EdgeFS.cpp:627-678 | every planned piece lies in the chunk it names |
| `FsRead.PlanIsRange` | EdgeFS/src/EdgeFS.cpp:627-678 | for a request inside the file whose round-up does not wrap: the pieces take one chunk of the file each, in order, each inside the written part of its chunk, and their lengths add up to the length asked for |
| `FsRead.MoreIsPrefix` | EdgeFS/src/EdgeFS.cpp:655-677 | a plan that does not run past the file collects the bytes asked for |
| `FsRead.MoreOverruns` | EdgeFS/src/EdgeFS.cpp:665-675 | a plan past a file that ends with a part-filled chunk collects bytes the file does not have |
| `FsRead.GatherFromOffset` | EdgeFS/src/EdgeFS.cpp:627-650 | the chunk and the skip that an offset is split into are where that byte of the file lies |
| `FsDisk.WriteInChunk` | EdgeFS/src/EdgeFS.cpp:360-363 | writing inside the byte range of one chunk changes that chunk and no other |
| `FsDisk.DataMgr.Write` | EdgeFS/src/common/FileOper.cpp:35-49 | the given part of the buffer replaces that range of the file |
| `FsDisk.DataMgr.Read` | EdgeFS/src/common/FileOper.cpp:70-86 | the range of the file replaces that part of the buffer |
| `FsStore.EdgeFs.constructor` | EdgeFS/src/EdgeFS.cpp:173-208 | a fresh index is well-formed with disjoint lists, no file and counter zero |
| `FsStore.EdgeFs.Write` | EdgeFS/src/EdgeFS.cpp:375-527 | the call by file name makes the specified step for the SHA-1 digest of the name; with any draws it leaves a well-formed store and every other file as it was, and with a distinct grant it is an append or a refusal that changes nothing |
| `FsStore.EdgeFs.Read` | EdgeFS/src/EdgeFS.cpp:529-594 | the call by file name returns -1 exactly for a missing buffer or file or an offset beyond the end, marks exactly the read at the length of a file with a full last chunk, and for a faithful request fills the buffer with exactly the slice, touching nothing behind it |
| `FsStore.EdgeFs.Reload` | EdgeFS/src/EdgeFS.cpp:210-260 | the state stays, but the counter is zero |
| `FsStore.EdgeFs.WriteFile` | EdgeFS/src/EdgeFS.cpp:387-527 | the arrays after the loops are the specified state, the result the specified answer |
| `FsStore.EdgeFs.ReadFile` | EdgeFS/src/EdgeFS.cpp:540-594 | the buffer and the result are those of the specified read, marked where the first chunk does not exist |
| `FsStore.EdgeFs.FindFileTailMetaInfo` | EdgeFS/src/EdgeFS.cpp:321-344 | the loop ends and returns the file's last chunk on the list, an unused head, or null |
| `FsStore.EdgeFs.FindChunkTailMetaInfo` | EdgeFS/src/EdgeFS.cpp:301-319 | the loop ends and returns the list's last chunk, or an unused head |
| `FsStore.EdgeFs.CalcWriteVariable` | EdgeFS/src/EdgeFS.cpp:267-299 | the three lengths of the write plan |
| `FsStore.EdgeFs.FillTailChunk` | EdgeFS/src/EdgeFS.cpp:424-458 | the tail chunk takes its part of the buffer |
| `FsStore.EdgeFs.AttachChunks` | EdgeFS/src/EdgeFS.cpp:422-478 | the tail chunk takes its part, and the list tail is linked to the first fresh chunk, for a new file through a temporary link of its head to itself |
| `FsStore.EdgeFs.TakeChunk` | EdgeFS/src/EdgeFS.cpp:492-518 | one fresh chunk gets its bytes, its record and its bit |
| `FsStore.EdgeFs.FillChunks` | EdgeFS/src/EdgeFS.cpp:480-521 | the loop over the fresh chunks leads to the specified state and writes the whole buffer |
| `FsStore.EdgeFs.GenerateReadChunkids` | EdgeFS/src/EdgeFS.cpp:596-625 | the walk returns the file's chunks in order, its length and the fill of its last chunk |
| `FsStore.EdgeFs.CalcReadVariable` | EdgeFS/src/EdgeFS.cpp:627-678 | the pairs of offset and length are the planned pieces, in order |
| `FsStore.EdgeFs.ReadPieces` | EdgeFS/src/EdgeFS.cpp:582-593 | reading the pairs one after another concatenates their bytes |
| `FsStore.GenerateHashKey` | EdgeFS/src/EdgeFS.cpp:365-373 | the head chunk is always in range |
| `FsStore.KeyIsWord` | EdgeFS/src/EdgeFS.cpp:365-373 | the head chunk is the remainder of the number whose bytes, lowest first, are the first four of the digest |
| `FsSizing.InitFSCalcVariable` | EdgeFS/src/EdgeFS.cpp:122-159 | the computed sizes, and acceptance exactly under the checks of the code; marked where the code divides by zero |
| `FsSizing.ZeroDivisorExactly` | EdgeFS/src/EdgeFS.cpp:110-126 | memory that passes the check divides by zero if and only if it holds a multiple of 2^32 records |
| `FsSizing.ZeroDivisor` | EdgeFS/src/EdgeFS.cpp:110-126 | an input: memory for 2^32 records and the header is below 2^64, passes the check and divides by zero |
| `FsSizing.AlmostAllWasted` | EdgeFS/src/EdgeFS.cpp:122-159 | an input: a disk of 2^32 + 1 chunks of the least size is accepted, one chunk of it is used and 2^32 are not |
| `FsSizing.AcceptedSizes` | EdgeFS/src/EdgeFS.cpp:122-159 | for accepted sizes: the data fits the disk, less than one chunk is wasted if and only if the chunk count was not cut to 32 bits, the bitmap has a bit for each chunk and under a byte to spare, the index fits the memory |
| `FsSizing.ChunkSizeBounds` | EdgeFS/src/EdgeFS.cpp:122-130 | the chunk size is a multiple of 4096 between 1 MiB and 128 MiB for all inputs |
| `FsSizing.ChunkSizeGreatest` | EdgeFS/src/EdgeFS.cpp:125-128 | the chunk size is the greatest multiple of 4096 with which every record can have a chunk of the disk, where that lies between the two limits, and the nearer limit where it does not, as long as the quotient is not cut to 32 bits |
| `FsSizing.AcceptedExactly` | EdgeFS/src/EdgeFS.cpp:134-156 | sizes are accepted if and only if there is a chunk, fewer than 2^32 - 7 of them, and the index fits the memory |
| `FsSizing.SizesOfOneGiB` | EdgeFS/src/EdgeFS.cpp:122-159 | an input: 1 GiB of disk and memory for 100 records give 100 chunks of 2621 pages |
| `FsSizing.AlignDownByMask` | EdgeFS/src/EdgeFS.cpp:127 | masking the low bits is rounding down to a multiple of 4096 |
| `FsSizing.ChunkidRoundTrip` | EdgeFS/src/EdgeFS.cpp:346-358 | from chunk id to record pointer and back is the identity |
| `FsSizing.IndexIsTiled` | EdgeFS/src/EdgeFS.cpp:173-208 | header, bitmap and records tile the mapped index, every record and every chunk lies inside, and those of different chunks are disjoint |
| `Sha1Rounds.MacroIsRound` | EdgeFS/src/common/sha1.cpp:48-72 | one macro computes one round of FIPS 180-4 section 6.1.2, whatever the six names hold, with "or" for "exclusive or" and the addends in another order |
| `Sha1Rounds.WideRotation` | EdgeFS/src/common/sha1.cpp:40-46 | where the word type has 64 bits, the mask gives the rotation of 32-bit words |
| `Sha1Rounds.Unravel1` | EdgeFS/src/common/sha1.cpp:151-152 | the first twenty macros leave the working variables after 20 rounds |
| `Sha1Rounds.Unravel2` | EdgeFS/src/common/sha1.cpp:153-154 | macros 21 to 40 |
| `Sha1Rounds.Unravel3` | EdgeFS/src/common/sha1.cpp:155-156 | macros 41 to 60 |
| `Sha1Rounds.Unravel4` | EdgeFS/src/common/sha1.cpp:157-158 | macros 61 to 80 |
| `Sha1Stream.FGLoop` | EdgeFS/src/common/sha1.cpp:175-178 | twenty times the generic macro is twenty rounds |
| `Sha1Stream.SwapIsBigEndian` | EdgeFS/src/common/sha1.cpp:92-99 | the little-endian load and the byte swap give the big-endian word |
| `Sha1Stream.ShaInfo.LoadWords` | EdgeFS/src/common/sha1.cpp:92-142 | the 80 words are the message schedule of the block |
| `Sha1Stream.ShaInfo.Transform` | EdgeFS/src/common/sha1.cpp:76-163 | the unravelled transform compresses the block into the digest, for every block and digest |
| `Sha1Stream.ShaInfo.TransformGeneric` | EdgeFS/src/common/sha1.cpp:174-184 | the four generic loops leave the same digest |
| `Sha1Stream.ShaInfo.constructor` | EdgeFS/src/common/sha1.cpp:190-200 | the initial hash value, nothing absorbed |
| `Sha1Stream.ShaInfo.Count` | EdgeFS/src/common/sha1.cpp:209-214 | the split counter adds eight times the byte count exactly, through the carry, below 2^64 bits |
| `Sha1Stream.ShaInfo.Update` | EdgeFS/src/common/sha1.cpp:204-238 | the message grows by the buffer, and digest, counters, partial block and its length are what FIPS 180-4 gives for it |
| `Sha1Stream.ShaInfo.PadBlock` | EdgeFS/src/common/sha1.cpp:249-258 | the padding of section 5.1.1, in this block or this and the next |
| `Sha1Stream.ShaInfo.Final` | EdgeFS/src/common/sha1.cpp:242-290 | the twenty bytes are the FIPS 180-4 digest of everything absorbed |
| `Sha1Stream.CalcSha` | EdgeFS/src/common/Sha1Helper.h:17-23 | the one-shot digest is FIPS 180-4's SHA-1 |
| `Sha1Stream.CalcShaOfParts` | EdgeFS/src/common/sha1.cpp:293-303 | any sequence of updates gives the SHA-1 of the concatenation |
| `Sha1Stream.CountBytes` | EdgeFS/src/common/sha1.cpp:259-266 | the two counter halves written out are the 64-bit length |
| `Sha1Stream.BlocksSnoc` | EdgeFS/src/common/sha1.cpp:224-235 | one more block is one more compression |
| `Sha1Example.DigestOfAbc` | EdgeFS/src/common/sha1.cpp:76-290 | SHA-1 of "abc" is a9993e364706816aba3e25717850c26c9cd0d89d: padding, schedule, eighty rounds and byte order, computed out |
| `Sha1Example.ConstantIsRoot` | EdgeFS/src/common/sha1.cpp:35-38 | the four constants are the whole parts of 2^30 times the square roots of 2, 3, 5 and 10 |
| `JsonRoundTrip.ParsePrinted` | NatProbe/cjson/cJSON.c:445-478 | parsing the print of any tree of null, booleans, 32-bit integers, C strings, arrays and objects, formatted or not, at any depth, returns the tree and stops exactly at the end of the text |
| `JsonRoundTrip.ReadsValue` | NatProbe/cjson/cJSON.c:501-539 | the same wherever the print stands in a longer text, before a delimiter |
| `JsonRoundTrip.PrintIsInjective` | NatProbe/cjson/cJSON.c:480-487 | different trees never print alike, at whatever depth or format |
| `JsonSyntax.AcceptedExactly` | NatProbe/cjson/cJSON.c:445-478 | a text is accepted to its end as a tree if and only if it is the spelling of a syntax tree with that meaning: any white space between tokens, literals in any spelling, numbers with a sign, a zero and digits |
| `JsonSyntax.NumberExactly` | NatProbe/cjson/cJSON.c:102-131 | where a sign, a zero and digits stand before no further digit, they are read as the number they mean, unless an exponent or a fraction follows or the number is beyond 32 bits, which is what is left out |
| `JsonSyntax.PrefixIsRead` | NatProbe/cjson/cJSON.c:445-478 | without the demand for the end, a spelling before a delimiter is read up to where it ends |
| `JsonErrors.ErrorIsExact` | NatProbe/cjson/cJSON.c:445-478 | where a text is said to fail: what stands before that place can be completed to an accepted text, and no text that agrees with this one for five more characters is accepted |
| `JsonErrors.FailureIsFinal` | NatProbe/cjson/cJSON.c:445-478 | such a text fails at the same place |
| `JsonLayout.PrintIsLaidOut` | NatProbe/cjson/cJSON.c:800-960 | every formatted print passes a check of its layout that knows only the open brackets: a tab after a colon, a blank after a comma in an array, a line for each member with a tab for each open bracket, one less before the closing brace, two less between the braces of an empty object, and no other white space |
| `JsonGrammar.PrintIsJson` | NatProbe/cjson/cJSON.c:542-958 | every printed text, at any depth, formatted or not, belongs to the grammar of RFC 8259 sections 2 to 7, written independently of the reader |
| `JsonRoundTrip.ReadsNumber` | NatProbe/cjson/cJSON.c:102-131 | a printed integer is read back |
| `JsonRoundTrip.ReadsString` | NatProbe/cjson/cJSON.c:243-335 | a printed string is read back byte for byte |
| `JsonReader.ParseWithOpts` | NatProbe/cjson/cJSON.c:445-472 | for a text shorter than 2^31 bytes the cursor reader returns what the grammar says: value and end, or the error position |
| `JsonReader.ReadValue` | NatProbe/cjson/cJSON.c:501-539 | the dispatch on the first characters |
| `JsonReader.ReadNumber` | NatProbe/cjson/cJSON.c:102-131 | sign, zero and digits of an integer |
| `JsonReader.ReadString` | NatProbe/cjson/cJSON.c:243-335 | two passes: the second writes the decoded literal and stays inside the buffer the first one sized, whose length is an int |
| `JsonReader.ReadArray` | NatProbe/cjson/cJSON.c:613-645 | the loop over commas takes the items in order |
| `JsonReader.ReadPrinted` | NatProbe/cjson/cJSON.c:445-478 | the reading loops on the print of any printable tree, formatted or not, at any depth, return the tree and stop exactly at its end |
| `JsonReader.ReadObject` | NatProbe/cjson/cJSON.c:754-804 | the loop over members takes names and values in order |
| `JsonReader.ReadHex4` | NatProbe/cjson/cJSON.c:213-241 | four digits of either case, or zero |
| `JsonReader.PutUtf8` | NatProbe/cjson/cJSON.c:301-321 | writing backwards, six bits at a time, gives the UTF-8 bytes |
| `JsonReader.UnicodeFits` | NatProbe/cjson/cJSON.c:256-322 | no escape yields more bytes than the first pass counts for it |
| `JsonReader.TailByMask` | NatProbe/cjson/cJSON.c:310-317 | the masks of a continuation byte in arithmetic |
| `JsonReader.MarkByOr` | NatProbe/cjson/cJSON.c:319 | the lead byte marks in arithmetic |
| `JsonReader.PairByMask` | NatProbe/cjson/cJSON.c:298 | the surrogate formula in arithmetic |
| `JsonReader.SkipSpace` | NatProbe/cjson/cJSON.c:438-442 | stops at the first character that is not white space |
| `JsonLiteral.DecodesMeaning` | NatProbe/cjson/cJSON.c:243-335 | a literal spelled by any row of well-formed pieces decodes to their meanings: escapes, UTF-16 units and pairs as UTF-8, zero and lone surrogates dropped, a false second half lost with the first |
| `JsonLiteral.DecodedIsSpelled` | NatProbe/cjson/cJSON.c:243-335 | and whatever decodes is spelled by such a row |
| `JsonLiteral.Utf8RoundTrip` | NatProbe/cjson/cJSON.c:301-321 | the bytes for a character have the lead and continuation form of RFC 3629 section 3 and give the character back |
| `JsonCharacter.HexTable` | NatProbe/cjson/cJSON.c:213-241 | the value of a hexadecimal digit is its place in the table, in either case; the digits printed are the lower-case ones |
| `JsonCharacter.SpelledExactly` | NatProbe/cjson/cJSON.c:213-241 | four characters are read as a 16-bit number if and only if they are its four digits, each in either case |
| `JsonCharacter.CharacterMeans` | NatProbe/cjson/cJSON.c:280-323 | any character but the first, escaped as its one or two UTF-16 units with digits in either case, is decoded to its UTF-8 bytes, whatever follows |
| `JsonCharacter.LostUnits` | NatProbe/cjson/cJSON.c:283-299 | a zero and a low surrogate give nothing; a high surrogate without a low one gives nothing and takes the escape after it along |
| `JsonCharacter.LetterTable` | NatProbe/cjson/cJSON.c:266-279 | after a backslash b, f, n, r and t stand for the codes 8, 12, 10, 13 and 9, any other character but u for itself |
| `JsonCharacter.EscapeTable` | NatProbe/cjson/cJSON.c:404-426 | what is printed for a character: the letter after a backslash for those codes, a backslash before quotes and backslashes, six characters for the other control codes, and the character itself otherwise |
| `JsonCharacter.ReadEscapes` | NatProbe/cjson/cJSON.c:243-335 | the reading method on a literal in which every character of a text is escaped returns the text in UTF-8 and stops behind the closing quote |
| `JsonMinify.Minify` | NatProbe/cjson/cJSON.c:1276-1303 | in place, with the write cursor never past the read cursor: the buffer holds exactly the kept text and its terminator, and nothing behind the text changes |
| `JsonMinify.CopyString` | NatProbe/cjson/cJSON.c:1291-1299 | a string literal is copied whole, escapes included |
| `JsonMinifyPrint.MinifiesPrint` | NatProbe/cjson/cJSON.c:1276-1303 | minifying the formatted or unformatted print of any tree gives exactly its unformatted print |
| `JsonMinifyPrint.MinifyPrinted` | NatProbe/cjson/cJSON.c:1276-1303 | in a buffer that holds the print of any tree, formatted or not, the in-place method leaves exactly the unformatted print and its terminator |
| `JsonMinifyPrint.CopyPrinted` | NatProbe/cjson/cJSON.c:1291-1299 | printed strings survive byte for byte |
| `JsonMinifyMeaning.MinifyKeepsMeaning` | NatProbe/cjson/cJSON.c:1276-1303 | any text that is accepted to its end, however laid out, is minified to a text accepted to its end as the same tree |
| `JsonMinifyMeaning.MinifyAccepted` | NatProbe/cjson/cJSON.c:1276-1303 | the same for the buffer: the in-place method leaves a text accepted to its end as the same tree |
| `JsonComments.MinifiedRow` | NatProbe/cjson/cJSON.c:1276-1303 | a text in parts (blanks, line comments, block comments, literals, other characters) is minified to its literals and other characters |
| `JsonComments.MinifiedIsRow` | NatProbe/cjson/cJSON.c:1276-1303 | and every text that minifying gets through is one in such parts |
| `JsonComments.GapsAreNothing` | NatProbe/cjson/cJSON.c:1281-1290 | a blank or a comment put between two parts changes nothing in what is left |
| `JsonComments.CommentsKeepMeaning` | NatProbe/cjson/cJSON.c:1276-1303 | an accepted text with comments and blanks put between its parts is minified to a text accepted as the same tree |
| `JsonComments.MinifyCommented` | NatProbe/cjson/cJSON.c:1276-1303 | the same for the buffer and the in-place method |
| `JsonComments.ShortBlock` | NatProbe/cjson/cJSON.c:1286-1290 | an input: the star that opens a block comment also closes it, so 1/*/2 becomes 12 |
| `JsonMinifyMeaning.StringKept` | NatProbe/cjson/cJSON.c:1291-1299 | any well-formed literal is kept whole and still means the same string |
| `JsonWriter.NewString` | NatProbe/cjson/cJSON.c:338-422 | the escaped string fills its buffer of length + 3 exactly, where that is an int |
| `JsonWriter.MeasureString` | NatProbe/cjson/cJSON.c:345-374 | the counted length is that of the escaped text, where that is an int |
| `JsonWriter.FillString` | NatProbe/cjson/cJSON.c:352-420 | either way of copying writes the quoted text and its terminator |
| `JsonWriter.NumberFits` | NatProbe/cjson/cJSON.c:183-197 | every 32-bit integer fits the 21 bytes |
| `JsonWriter.PrintNoNul` | NatProbe/cjson/cJSON.c:730-732 | printed texts contain no terminator, so their lengths can be measured |
| `JsonUnbuffered.PrintValue` | NatProbe/cjson/cJSON.c:582-610 | a fresh buffer holds the print of the tree, whenever every length added up for it is an int |
| `JsonUnbuffered.PrintArray` | NatProbe/cjson/cJSON.c:700-749 | an array at any depth, inside the summed length estimate, which is an int |
| `JsonUnbuffered.PrintObject` | NatProbe/cjson/cJSON.c:885-956 | an object at any depth, inside the summed length estimate, which is an int |
| `JsonUnbuffered.JoinedFits` | NatProbe/cjson/cJSON.c:712-716 | the items with their separators never exceed the sum of the estimates |
| `JsonUnbuffered.LinesFit` | NatProbe/cjson/cJSON.c:900-908 | the members' lines never exceed the sum of the estimates |
| `JsonUnbuffered.CollectItems` | NatProbe/cjson/cJSON.c:708-719 | the first pass: the texts of all items and the sum, never leaving int on the way |
| `JsonUnbuffered.CollectMembers` | NatProbe/cjson/cJSON.c:897-909 | the first pass over names and values, never leaving int on the way |
| `JsonUnbuffered.FillEmptyObject` | NatProbe/cjson/cJSON.c:817-833 | the text of an empty object, one tab less than its depth |
| `JsonSizes.SizesFitExactly` | NatProbe/cjson/cJSON.c:700-749 | every length added up for a tree is an int if and only if its own text, when it is a string or an object, and the text of each array in it together with its number of items, stay a constant below 2^31 |
| `JsonSizes.ArrayExact` | NatProbe/cjson/cJSON.c:705-719 | the length added up for a non-empty array is that of its text, one for each item, and four or five more |
| `JsonSizes.ObjectExact` | NatProbe/cjson/cJSON.c:885-908 | the length added up for a non-empty object is that of its text and six more, however many members it has |
| `JsonSizes.ShortTextFits` | NatProbe/cjson/cJSON.c:712-719 | so every tree whose text is shorter than 2^30 bytes, nesting included, is printed without a length leaving int |
| `JsonSizes.EstimateLeavesInt` | NatProbe/cjson/cJSON.c:705-719 | an input: the text of an array of 0x3000_0000 zeros is shorter than 2^31 bytes, the length added up for it is not |
| `JsonGrow.GrowthLimit` | NatProbe/cjson/cJSON.c:133-142 | some power of two that is large enough is an int if and only if the size asked for is at most 2^30 |
| `JsonGrow.Pow2gt` | NatProbe/cjson/cJSON.c:133-142 | the least power of two that is not below the argument |
| `JsonBuffer.PrintBuffered` | NatProbe/cjson/cJSON.c:489-498 | from any first size that is a positive int the buffer ends up holding the text of the unbuffered print, and the pointer returned is to its start |
| `JsonBuffer.PrintBuffer.Ensure` | NatProbe/cjson/cJSON.c:151-172 | room for the request, in the present buffer whatever its size, or in a new one that begins with all of the old one |
| `JsonBuffer.PrintBuffer.Update` | NatProbe/cjson/cJSON.c:174-180 | lands on the terminator |
| `JsonBuffer.PrintBuffer.PrintValue` | NatProbe/cjson/cJSON.c:542-581 | the text is appended and terminated, what was written before is kept |
| `JsonBuffer.PrintBuffer.PrintArray` | NatProbe/cjson/cJSON.c:668-698 | an array, every write inside the granted room |
| `JsonBuffer.PrintBuffer.PrintObject` | NatProbe/cjson/cJSON.c:834-884 | an object, every write inside the granted room; the pointer returned for a formatted one counts the tabs instead of keeping the start, which no caller but the outermost looks at |
| `JsonList.AddItemToArray` | NatProbe/cjson/cJSON.c:1000-1013 | the links become those of the sequence with the item at its end |
| `JsonList.DetachItemFromArray` | NatProbe/cjson/cJSON.c:1038-1048 | the links become those of the sequence without that item, which is returned with no links |
| `JsonList.InsertItemInArray` | NatProbe/cjson/cJSON.c:1067-1081 | the links become those of the sequence with the item before that index, or at the end |
| `JsonList.ReplaceItemInArray` | NatProbe/cjson/cJSON.c:1082-1094 | the links become those of the sequence with that item replaced, the old one without links; out of range nothing changes |
| `JsonList.GetArrayItem` | NatProbe/cjson/cJSON.c:968-973 | the item of that index, negative ones counting as zero, or null |
| `JsonList.GetArraySize` | NatProbe/cjson/cJSON.c:961-967 | the length of the sequence |
| `JsonList.EditsAt` | NatProbe/cjson/cJSON.c:968-1094 | in the index as it is given: inside the list the item meant is that of the index, detaching, inserting and replacing happen there; a negative index counts as zero; one beyond the end gives null, changes nothing, appends, changes nothing |
| `JsonList.ApplyAll` | NatProbe/cjson/cJSON.c:1000-1094 | any run of edits, in which detached items may be put back as often as one likes, leaves next and prev as mirror images of the sequence the run makes, and the detached items without links |
| `JsonList.RunConserves` | NatProbe/cjson/cJSON.c:1000-1094 | such a run loses and doubles no item: each is once on the list, or detached, or deleted by a replacement |
| `JsonList.LinkChildren` | NatProbe/cjson/cJSON.c:622-640 | the links that parsing makes child by child are those of a list |
| `JsonList.InsertDetach` | NatProbe/cjson/cJSON.c:1038-1081 | detaching undoes inserting and inserting undoes detaching |
| `JsonList.ReplaceIsDetachInsert` | NatProbe/cjson/cJSON.c:1082-1094 | replacing is detaching and inserting, and exchanges just that item |
| `NatServer.CreateSocket` | NatProbe/nat_probe_server.c:61-128 | for up to five addresses the table is laid out as specified: two ports an address, as many entries without sockets, the rest cleared; failure exactly when the system has no socket |
| `NatServer.AnswersFrom` | NatProbe/nat_probe_server.c:262-317 | a request to address k is answered by itself, for the full cone probe by port 61621 of address k + 1 and not at all by the last one, for the restricted cone probe by its own port 61621 |
| `NatServer.ProcessFullConeNat` | NatProbe/nat_probe_server.c:262-276 | the search returns the socket three entries on |
| `NatServer.ProcessRestrictedConeNat` | NatProbe/nat_probe_server.c:279-292 | the search returns the socket of the next entry, inside the table |
| `NatServer.ProcessRequest` | NatProbe/nat_probe_server.c:295-317 | the choice by network type |
| `NatService.NpServer.ReadCallback` | NatProbe/nat_probe_server.c:320-346 | for every text whose reading is modelled, each request overwrites both shared messages before it is answered |
| `NatService.AnsweredOverTheWire` | NatProbe/nat_probe_server.c:131-259 | from request text to response text: the client reads back its own number and the address the server saw, whatever follows in the buffers |
| `NatMessage.RequestRoundTrip` | NatProbe/nat_probe_client.c:160-209 | an encoded request is understood, whatever bytes follow it in the buffer |
| `NatMessage.ResponseRoundTrip` | NatProbe/nat_probe_client.c:212-279 | an encoded response is understood, whatever bytes follow it in the buffer |
| `NatMessage.RequestFits` | NatProbe/nat_probe_server.c:143-151 | every request fits 128 bytes |
| `NatMessage.ResponseFits` | NatProbe/nat_probe_client.c:220-228 | every response fits 128 bytes |
| `NatMessage.RequestText` | NatProbe/nat_probe_client.c:167-171 | the text of a request line by line: its braces, the two names, their values |
| `NatMessage.ResponseText` | NatProbe/nat_probe_server.c:219-227 | the text of a response: the number, the address as a string of decimal digits, the port |
| `NatMessage.FirstOfName` | NatProbe/cjson/cJSON.c:974-979 | a name stands for the first member that has it |
| `NatMessage.OtherKinds` | NatProbe/nat_probe_server.c:143-184 | in a request a number counts for itself, true for one, and any other value for zero |
| `NatMessage.CaseTable` | NatProbe/cjson/cJSON.c:43-50 | names are compared without regard to the case of letters, and only of letters |
| `NatProbe.NpClient.GenerateMsgid` | NatProbe/nat_probe_client.c:56-67 | the first number comes from the process id, each later one is one more |
| `NatProbe.NpClient.SendAndRecvOne` | NatProbe/nat_probe_client.c:303-326 | the retry loop, with the slot holding the matching answer on success |
| `NatProbe.NpClient.NpSendAndRecvMsg` | NatProbe/nat_probe_client.c:282-333 | the loops over servers and retries compute the specified exchange; on success the slots hold the answers in order |
| `NatProbe.NpClient.NpNetworkTypeProbe` | NatProbe/nat_probe_client.c:440-497 | the five tests in order, their verdict, and the stored type |
| `NatSafety.AttemptKeeps` | NatProbe/nat_probe_client.c:303-326 | an accepted answer belongs to this attempt's own request |
| `NatSafety.ExchangeKeeps` | NatProbe/nat_probe_client.c:282-333 | numbers stay unique, only port 61620 is contacted, and each accepted answer belongs to a request of this exchange with a number given after all earlier ones |
| `NatSafety.VerdictRests` | NatProbe/nat_probe_client.c:440-497 | every verdict rests on answers to that test's own requests |
| `NatSafety.ConeVerdict` | NatProbe/nat_probe_client.c:392-421 | a full or restricted cone verdict rests on a reply from a port 61621 endpoint the client never contacted, let in by the NAT |
| `NatSafety.PortFilterNeverACone` | NatProbe/nat_probe_client.c:392-421 | a NAT that filters on address and port is never reported as either, for every loss, delay and repetition |
| `NatSafety.PublicVerdict` | NatProbe/nat_probe_client.c:335-359 | a public verdict means that a server saw the client at a local address |
| `NatSafety.SymmetricVerdict` | NatProbe/nat_probe_client.c:362-389 | a symmetric verdict means that two servers saw different addresses or ports |
| `NatSafety.AddressRestrictedReportedFullCone` | NatProbe/nat_probe_client.c:458-478 | a concrete run in which an address-restricted NAT is reported as a full cone |
| `NatExact.MisreportExactly` | NatProbe/nat_probe_client.c:392-405 | such a run exists if and only if some server that the client asks answers the full cone probe from an address that the client asks |
| `NatExact.ConditionIsNeighbours` | NatProbe/nat_probe_server.c:262-276 | that is, if and only if the first bound entry of an asked address has a next address in the table that is asked too and whose other port is bound |
| `NatExact.MisreportByList` | NatProbe/nat_probe_client.c:392-405 | the misreport in these terms, both ways |
| `NatVerdict.PublicExactly` | NatProbe/nat_probe_client.c:335-360 | the verdict is public if and only if a server answers the first probe and the NAT shows the client to it at a local address |
| `NatVerdict.SymmetricExactly` | NatProbe/nat_probe_client.c:362-390 | after a first probe that is not public the verdict is symmetric if and only if two servers answer the second one and the NAT shows the client to them at different addresses or ports |
| `NatVerdict.PromptVerdict` | NatProbe/nat_probe_client.c:440-497 | when every request is sent and every answer that the NAT lets in comes at once, and all sockets of two or more servers are bound: public, symmetric, restricted by ports if ports are filtered, and a full cone otherwise, told by the NAT alone |
| `NatVerdict.ExampleIsPrompt` | NatProbe/nat_probe_client.c:440-497 | there are such runs, the misreporting one among them |

## Left out

- FsStore.EdgeFs.Write: the data file never refuses a write, so a write that fails half way, which leaves a link to an unused chunk, is not modelled; nor is crash recovery.
- FsStore.EdgeFs.Read: the data file never refuses a read; what the read that indexes past the chunk list does is not modelled.
- FsStore.EdgeFs.WriteFile: the data file never refuses a write, as above.
- FsStore.EdgeFs.ReadFile: the data file never refuses a read, as above.
- FsStore.EdgeFs.Reload: the checks of the mapped header, and the refusals when it does not fit, are not modelled; the reload succeeds.
- FsDisk.DataMgr.Write: the seek and the write of the original can fail; here they succeed.
- FsDisk.DataMgr.Read: the seek and the read of the original can fail; here they succeed.
- FsRuns.FreshRunRefines: files are identified by their SHA-1 digest, so colliding names are one file.
- FsStore.GenerateHashKey: the switch `kHashCollisions`, which sends every file to one chunk, is off as in the code; the lemmas below the class hold for any hash.
- Opening, mapping and unlinking the index and data files, the header's magic number and the logs.
- The random numbers of the Fast allocator are an argument.
- JsonReader.ParseWithOpts: texts with a fraction, an exponent, an integer beyond 32 bits, or a literal that is cut short are marked `Outside` and not read; their reading goes through `double` or past the terminator. Texts of 2^31 bytes and more are left out.
- JsonUnbuffered.PrintValue: trees are values, and numbers are 32-bit integers; `%f` and `%e` are not modelled, nor is a null string or an allocation that fails. Trees for which a summed length leaves `int` are left out (`SizesFit`, which is `JsonSizes.SizesFitExactly` in terms of texts).
- JsonUnbuffered.PrintArray: the same bound on the summed length.
- JsonUnbuffered.PrintObject: the same bound on the summed length.
- JsonUnbuffered.CollectItems: the same bound on the summed length.
- JsonUnbuffered.CollectMembers: the same bound on the summed length.
- JsonWriter.NewString: the escaped text and its quotes are shorter than 2^31 bytes.
- JsonWriter.MeasureString: the escaped text is shorter than 2^31 bytes.
- JsonReader.ReadString: the literal is shorter than 2^31 bytes, and is not cut short.
- JsonReader.ReadArray: the children are a value list; that the same steps link their nodes is JsonList.LinkChildren.
- JsonReader.ReadObject: the children are a value list, as for arrays.
- JsonReader.ReadValue: the texts that ParseWithOpts leaves out, and texts of 2^31 bytes and more.
- JsonBuffer.PrintBuffered: the text and 20 bytes fit 2^30 bytes or the first buffer; a buffer cannot grow beyond 2^30 bytes, as the next power of two is no `int` (`JsonGrow.GrowthLimit`).
- JsonBuffer.PrintBuffer.Ensure: the text and the request fit 2^30 bytes or the present buffer, for the same reason.
- JsonBuffer.PrintBuffer.PrintValue: the same bound.
- JsonBuffer.PrintBuffer.PrintArray: the same bound.
- JsonBuffer.PrintBuffer.PrintObject: the same bound.
- JsonMinify.Minify: the text ends its strings and comments; otherwise both cursors run past the terminator.
- JsonList.ApplyAll: what is put on the list is detached when its turn comes, as an item that is still linked would take its links along; deletion of subtrees, duplication and references are not modelled.
- JsonList.ReplaceItemInArray: the item replaced is deleted in the original; here it is left without links.
- NatService.NpServer.ReadCallback: requests with a fraction, an exponent, an integer beyond 32 bits or a literal that is cut short are left out; the server answers some of them.
- NatServer.CreateSocket: at most five addresses, because the table has twenty entries and is filled with four for each.
- NatProbe.NpClient.NpNetworkTypeProbe: name resolution, `is_local_ip` and the sockets are arguments; the NAT shows the client to one destination always at the same address; nobody else sends packets.
- NatMessage.DecodeResponse: a response whose address is no string is taken for one that cannot be read; the source passes a null pointer to `strtoul`.
- Which type is reported when messages are lost is not bounded below: the model proves what a verdict means, not that it is reached.
- `sha_stream`'s file reading, the other byte orders, hexadecimal conversion, the PunchHole programs, logging and the demo programs.
