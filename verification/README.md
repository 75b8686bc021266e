# A verified model of zftpd

zftpd is an FTP and HTTP daemon written in C for consoles and POSIX systems. This project models
the parts of it whose correctness is not visible from one function and proves what they promise:

- **The memory arena** (`Powers`, `BuddyTree`, `BuddySpec`, `BuddyCanon`, `PalAlloc`, `PalTouch`,
  `PalClear`, `PalAligned`, `PalFrames`, `PalAllocator`, `PalStale`): the buddy allocator with its
  headers and intrusive free lists kept inside the memory it hands out. The ghost state is a binary tree of blocks; the C loops
  are proved against a top-down reference (`Split`, `Release`) that knows nothing about lists or XOR.
- **The transfer engines**: the double-buffered STOR pipe with its writer thread (`StorPipe`), the
  sendfile/read loop of RETR (`Retr`), the ChaCha20 stream (`Cipher`, `CipherRounds`), the token
  bucket (`TokenBucket`), the lock-free buffer pool (`BufferPool`) and the background copy hand-off
  (`BackgroundCopy`).
- **The control channel and the session**: the line reader and command parser (`Control`), path
  normalization and confinement (`Path`), what a path means (`PathMeaning`), whole sessions (`Session`)
  and what single commands do to them (`SessionRules`).
- **HTTP uploads**: the in-place header parser (`HttpParser`) and the upload framing (`HttpUpload`).
- **exFAT extraction** (`Exfat`): the cluster walk with short reads.

`Common` holds what several of these need: bytes, C strings and concatenation.

Code that updates variables or buffers step by step is modelled by methods over arrays, sequences
and class fields; code shared by threads is a state machine whose steps are single critical
sections, system calls or atomic accesses, and a run is any interleaving. System calls, clocks, the
file system and the peer are oracles: parameters that answer each call, about which nothing is
assumed that the statement does not say.

## Where the code does not do what one would expect

Each of these has a lemma or method with the failing case, and one with the exact condition.

- STOR pipe: if a second buffer is handed over before the writer has taken the first, the writer
  takes the newer one and both threads sleep for ever. `OverrunExample` is such a run;
  `FinishableIff` says that an upload can still be completed exactly when this has not happened.
- Allocator: `size + 16` is computed in `size_t`. A block holds the requested size exactly when
  that sum does not wrap (`HoldsIffNoWrap`, whose condition covers both cases).
- Allocator: `free` of an aligned pointer first reads the bytes before its back pointer as a header.
  Their contents are left over from earlier owners of the memory, and some contents make it free a
  place inside the block (`Misled`); `StaleContents` is a run of the allocator that gets there. It
  finds the right block exactly when they do not look like the header of a live block (`TargetIff`).
  Up to an alignment of 16 they never do, and beyond that the caller can tell from the memory before
  the allocation (`ClearWhen`, `AlignedRoundTrip`).
- Upload: a `Content-Length` line left blank lets `strtoull` run on into the lines that follow and
  into the body, so that the length depends on how much of the body has arrived (`BlankLength`).
  `FramedIffSettled` is the exact condition under which the header block alone fixes the length.
- Rate limiter: a request above the cap, or a rate of 1, can keep the loop sleeping for ever
  (`NeverReturns`, on a clock that `HalfSecondsHonest` shows to be an honest one). `ServedIff` is the
  exact condition under which a call gets its tokens on every honest clock.
- Control channel: a line that is empty after its ending is cut off returns 0 like a closed
  connection, so it ends the session and the lines behind it are lost (`EmptyLineExample`). Every
  line is read exactly when none is blank (`AllReadIff`).
- Command parser: the line is a C string, so a NUL cuts it (`NulExample`). A command is parsed back
  exactly when neither its name nor its arguments hold one (`ParseRoundTrip`, `ParseBare`).
- Paths: a name of 4094 bytes in the top directory that does not exist yet is refused, because it is
  joined to that directory with a second slash before it is normalized again (`LongNameRefused`).
  `ResolveMeans` says for every path what it resolves to, this case included.
- Cipher: the block counter has 32 bits, so a context repeats its keystream after 2^32 blocks
  (`KeystreamRepeats`). Two blocks of a key are alike exactly when their numbers agree in 32 bits
  (`BlocksDiffer`).
- RETR: the retry loop after an unproductive sendfile also retries the errors that the code before
  it treats as fatal, contrary to the comment at src/ftp_commands.c:936-951 (`FatalRetried`). In every
  transfer a fatal answer is followed by another sendfile call exactly when it was given to a retry
  before the last (`Retrieve`).

One more, with nothing to prove: the comment at src/http_server.c:673 gives the upload chunk as
256 KB; include/http_config.h:141 sets 512 KB.

A suspicion that does not hold: the STOR writer takes a failed write with `errno` 0 for a success,
so that a 226 means a complete file exactly when every failed write sets `errno` (`ConfirmedIff`).
The function it calls to write always does (`StorPipe.WriteAll`).

## Model

| member | source | states |
|---|---|---|
| Powers.FloorLog2 | src/pal_alloc.c:123-130 | the shift loop finds the exponent k with 2^k <= v < 2^(k+1) |
| Powers.CeilLog2 | src/pal_alloc.c:132-139 | the least exponent whose power reaches v |
| Powers.XorIsBuddy | src/pal_alloc.c:493 | XOR with the block size is the arithmetic buddy (parity of the quotient), for every offset |
| Powers.AndTest | src/pal_alloc.c:653 | `(a & (a - 1)) == 0` holds exactly for powers of two |
| BuddyTree.Siblings | src/pal_alloc.c:493-500 | a subtree and the one at its buddy offset are the two halves of one parent |
| BuddyTree.XorSiblings | src/pal_alloc.c:493-500 | the same for the offset the code computes with XOR |
| BuddySpec.BlocksDisjoint | src/pal_alloc.c:383-398 | two blocks of any arena shape never overlap |
| BuddySpec.BlocksCover | src/pal_alloc.c:383-398 | every byte of the arena lies in a block aligned to its own size |
| BuddySpec.SplitStep | src/pal_alloc.c:383-398 | one pass of the splitting loop composes with the passes before it into the recursive split |
| BuddySpec.SplitEnd | src/pal_alloc.c:400-405 | handing out the block left over completes the recursive split |
| BuddySpec.MergeStep | src/pal_alloc.c:508-522 | with a free sibling, releasing a block is releasing its parent: the loop follows the top-down reference |
| BuddySpec.NoMerge | src/pal_alloc.c:501-506 | without a free sibling the reference stops exactly there |
| BuddySpec.ReleaseCoalesced | src/pal_alloc.c:492-525 | releasing keeps the arena free of pairs of free buddies |
| BuddySpec.ReleaseUsed | src/pal_alloc.c:434-526 | releasing removes exactly the used blocks of the released range, in both directions |
| BuddySpec.BytesTotal | src/pal_alloc.c:309-327 | free, used and held bytes add up to the arena |
| BuddySpec.SumFreeIsBytes | src/pal_alloc.c:309-327 | adding up list lengths order by order gives the free bytes |
| BuddySpec.NothingLiveIsRoot | src/pal_alloc.c:273-280 | a coalesced arena with nothing live is the single block made by init |
| BuddySpec.StepKeeps | src/pal_alloc.c:349-526 | an allocation or a free keeps the arena coalesced and changes the live blocks by exactly its own block |
| BuddySpec.RunKeeps | src/pal_alloc.c:349-539 | every run of allocations and frees keeps the arena settled and maximally coalesced |
| BuddySpec.GiveAllRestoresRoot | src/pal_alloc.c:434-539 | freeing everything live, in any order, is always possible and restores the one root block |
| BuddyCanon.LiveDecides | src/pal_alloc.c:434-526 | two coalesced arenas with the same live blocks are cut into blocks in the same way |
| BuddyCanon.RunsAgree | src/pal_alloc.c:349-539 | whatever two runs did and in whatever order, leaving the same blocks live they leave the same arena |
| BuddyCanon.GiveUndoesTake | src/pal_alloc.c:349-526 | freeing what was just allocated restores the arena, block by block |
| PalAlloc.BuddyHeaderIsReal | src/pal_alloc.c:492-506 | the header a merge reads at the XOR offset belongs to a real block, whatever callers stored in theirs, and it says "free of this order" exactly when that is true |
| PalAlloc.NoFreeSibling | src/pal_alloc.c:501-506 | when that header does not say so, the reference does not merge either |
| PalAlloc.Relist | src/pal_alloc.c:141-178 | any rewiring of one free list keeps headers, links, lists and tree in step |
| PalAlloc.UnlinkInv | src/pal_alloc.c:159-178 | taking node i out of a list keeps the invariant and leaves its block held |
| PalAlloc.UnlinkFrame | src/pal_alloc.c:159-178 | and it touches no live memory and only links of that list |
| PalAlloc.PushKeeps | src/pal_alloc.c:152-157 | pushing a held block keeps the invariant, makes it free and disturbs no live memory |
| PalAlloc.JoinKeeps | src/pal_alloc.c:508-522 | one merge keeps the invariant with the block at the lower offset |
| PalAlloc.PayloadWrite | src/pal_alloc.c:405 | a caller writing anywhere in its live block, header fields apart, cannot break the allocator |
| PalAlloc.RequestOrder | src/pal_alloc.c:360-363 | the order chosen is the least that holds the request, and at least the minimum |
| PalAlloc.ArenaOrder | src/pal_alloc.c:250-260 | the largest order, up to the maximum, that fits in the buffer |
| PalAlloc.ListLength | src/pal_alloc.c:316-324 | a free list is as long as there are free blocks of its order |
| PalAlloc.OutcomeLive | src/pal_alloc.c:349-406 | a successful allocation adds exactly one fresh block to the live ones and its size to the used bytes |
| PalAlloc.OutcomeFits | src/pal_alloc.c:349-381 | where size + 16 does not wrap, the block given is the smallest power of two, from 32 up, that holds a byte or the size and the header; NULL means that no free block would hold them |
| PalAlloc.FreeKeeps | src/pal_alloc.c:473-525 | marking a block held and releasing it is one give-back step, and the used bytes fall by its size |
| PalAlloc.HoldsIffNoWrap | src/pal_alloc.c:355 | the block given holds size bytes and a header if and only if size + 16 does not wrap |
| PalAlloc.RegionsDisjoint | src/pal_alloc.c:405 | live user regions never overlap and lie inside the arena |
| PalAlloc.PayloadSurvives | src/pal_alloc.c:590-631 | what is stored in one live block survives an operation on others |
| PalAlloc.GrowBlocks | src/pal_alloc.c:624-629 | the block realloc gets is another, strictly larger one, and the old one stays live until freed |
| PalAlloc.AlignUp | src/pal_alloc.c:663-667 | the rounded address is aligned, leaves room for the back pointer before it and for size bytes after it |
| PalAllocatorObject.PalAllocator.constructor | src/pal_alloc.c:250-283 | on an aligned buffer init makes one free block of the largest power of two that fits, nothing live, zero statistics |
| PalAllocatorObject.Init | src/pal_alloc.c:234-286 | init fails exactly when fewer than 32 bytes are left from the next multiple of 16 on; otherwise the arena is the largest power of two of them |
| PalAllocatorObject.PalAllocator.ListPop | src/pal_alloc.c:141-150 | NULL exactly when the list is empty, otherwise its head becomes held; live memory untouched |
| PalAllocatorObject.PalAllocator.ListPush | src/pal_alloc.c:152-157 | the held block becomes free; live memory untouched |
| PalAllocatorObject.PalAllocator.FindNode | src/pal_alloc.c:159-178 | the walk finds the target exactly when it is a free block of that order, with the node before it |
| PalAllocatorObject.PalAllocator.ListRemove | src/pal_alloc.c:159-178 | found exactly when the target is a free block of that order; then held, otherwise nothing changes |
| PalAllocatorObject.PalAllocator.Search | src/pal_alloc.c:368-381 | the smallest order with a free block, or NULL and no free block of any sufficient order |
| PalAllocatorObject.PalAllocator.SplitOnce | src/pal_alloc.c:383-398 | one block becomes a held lower half and a free upper half |
| PalAllocatorObject.PalAllocator.SplitDown | src/pal_alloc.c:383-405 | the loop leaves exactly the recursive split of the block found |
| PalAllocatorObject.PalAllocator.AllocLocked | src/pal_alloc.c:349-406 | NULL exactly when no free block would hold the size and its header, otherwise one take step at the smallest order that does; live memory untouched |
| PalAllocatorObject.PalAllocator.Malloc | src/pal_alloc.c:408-432 | the same; the calls and failures are counted, the block is added to the bytes in use and the peak is kept; the new block is linked to nothing, and nothing was written but where blocks start afterwards |
| PalAllocatorObject.PalAllocator.MergeOnce | src/pal_alloc.c:492-523 | one pass of the loop: it merges exactly when the reference does, and the rest to be released stays the same |
| PalAllocatorObject.PalAllocator.Coalesce | src/pal_alloc.c:492-525 | the bottom-up XOR loop with list removal computes the top-down release |
| PalAllocatorObject.PalAllocator.FreePtr | src/pal_alloc.c:434-539 | the live block that a plain or an aligned pointer names is given back and refunded; NULL and an already freed block change nothing; nothing is written but where blocks started before, so other live memory and the old contents stay |
| PalAllocatorObject.PalAllocator.FreeAll | src/pal_alloc.c:528-539 | freeing the live pointers one by one, in any order, ends with one free block and no byte in use |
| PalAligned.TargetPlain | src/pal_alloc.c:440-479 | for a pointer to the start of a block the header found is that block's if it is live, and none if it is free |
| PalAligned.TargetIff | src/pal_alloc.c:440-470 | for an aligned pointer the header found is its block's if and only if the bytes before the slot do not look like a live header |
| PalAligned.Misled | src/pal_alloc.c:440-443 | for every aligned pointer more than 16 bytes into its block there are contents of the bytes before its slot that make free take them for a block |
| PalAligned.SafePlace | src/pal_alloc.c:147 | up to 16 bytes in, what precedes the slot is the zeroed pad or the cleared link of the header, never a live header |
| PalAligned.ClearWhen | src/pal_alloc.c:657-666 | after an aligned allocation free will be misled exactly when the pointer lies further in and the memory there looked like a live header before the allocation |
| PalStale.StaleContents | src/pal_alloc.c:434-668 | from an empty arena, allocating it, storing, freeing and allocating at an alignment of 64 leads to a pointer whose free would free a place inside its block |
| PalAligned.FindTarget | src/pal_alloc.c:434-479 | the look for the header finds the live block to be freed, or nothing |
| PalAllocatorObject.PalAllocator.ArenaFree | src/pal_alloc.c:309-327 | the total over the lists is the free bytes, and with bytes_in_use it makes up the arena |
| PalAllocatorObject.PalAllocator.Store | src/pal_alloc.c:405 | callers may store anything in their blocks between operations |
| PalAllocatorObject.PalAllocator.CopyPayload | src/pal_alloc.c:628 | the copy moves the whole old user region and writes nothing outside the new block |
| PalAllocatorObject.PalAllocator.MoveBlock | src/pal_alloc.c:628-629 | after copy and free the contents are in the new block, the old one is free and every other live block is as it was |
| PalFrames.FreedOthers | src/pal_alloc.c:434-526 | a free leaves the memory of every other live block as it was |
| PalFrames.MovedOthers | src/pal_alloc.c:624-629 | so does an allocation followed by a copy into it and a free |
| PalClear.ClearedBytes | src/pal_alloc.c:574-576 | the memset zeroes exactly the bytes asked for, partial granules at either end included |
| PalClear.CallocGuard | src/pal_alloc.c:569 | the division test is exactly the overflow of the product |
| PalClear.OutcomeKept | src/pal_alloc.c:574-576 | clearing a block just handed out disturbs nothing that was live before |
| PalAllocatorObject.PalAllocator.Calloc | src/pal_alloc.c:559-578 | NULL and no change on overflow, otherwise an allocation of the product, every byte of which is zero |
| PalAllocatorObject.PalAllocator.Realloc | src/pal_alloc.c:590-631 | NULL allocates, 0 frees, a block with room is returned as it is, otherwise its whole contents are in a larger block and the old one is freed; on failure nothing changes; no other live block is touched in any case |
| PalAllocatorObject.PalAllocator.AlignedAlloc | src/pal_alloc.c:643-668 | NULL for anything but a power of two, otherwise an aligned region of size bytes inside one allocated block, with the raw pointer in the slot before it |
| PalAllocatorObject.PalAllocator.AlignedRoundTrip | src/pal_alloc.c:643-668 | an aligned allocation that is freed leaves the arena as it was; it is safe to free exactly when the pointer is at most 16 bytes into its block or the memory before its slot did not look like a live header beforehand, and always up to an alignment of 16 |
| StorPipe.StepKeeps | src/ftp_commands.c:1209-1249 | every step of either thread keeps the invariant of the pipe |
| StorPipe.RunKeeps | src/ftp_commands.c:1558-1612 | so does every interleaving |
| StorPipe.HandedIsReceived | src/ftp_commands.c:1580-1603 | what was handed over and is in flight is what was received, in order |
| StorPipe.Delivery | src/ftp_commands.c:1605-1620 | a joined writer without an error has written every received chunk once and in order |
| StorPipe.AtomicCommit | src/ftp_commands.c:1657-1677 | the destination is the old file or, exactly after a 226, the whole upload; no receive failed before a 226 |
| StorPipe.OkFollows | src/ftp_commands.c:1581-1612 | in every run the transfer counts as good exactly as long as no receive has failed |
| StorPipe.ReplyIs | src/ftp_commands.c:1581-1677 | where failed writes set errno, the answer is 426 exactly after a failed receive or write, and otherwise 226 or 451 exactly as the rename went |
| StorPipe.OneCommit | src/ftp_commands.c:1657-1677 | there is one attempt to rename, at most |
| StorPipe.Exclusion | src/ftp_commands.c:1576-1580 | recv never fills the buffer that is being drained |
| StorPipe.Conservation | src/ftp_commands.c:1232-1238 | written plus buffered bytes are the bytes handed over |
| StorPipe.OverrunIsFinal | src/ftp_commands.c:1598-1602 | after an overrun no continuation gets past the producer's wait without a write error |
| StorPipe.DeadlockIff | src/ftp_commands.c:1215-1217 | both threads sleep for ever exactly when the pipe overran, no write failed and both wait |
| StorPipe.CanFinish | src/ftp_commands.c:1558-1677 | from every state that has not overrun a schedule leads to a 226 |
| StorPipe.FinishableIff | src/ftp_commands.c:1558-1677 | an upload without errors so far can be completed if and only if it has not overrun |
| StorPipe.OverrunExample | src/ftp_commands.c:1598-1602 | a ten-step run that overruns, writes the second chunk first and deadlocks |
| StorPipe.ConfirmedIff | src/ftp_commands.c:1233-1237 | an upload that was answered 226 had no failed receive, and it is complete if and only if every failed write set errno |
| StorPipe.WriteAll | src/pal_fileio.c:1336-1371 | the write the pipe makes stores all of its data or fails with errno set |
| Retr.Retry | src/ftp_commands.c:979-1013 | the retries either send something more of the file or leave the state as it was |
| Retr.Burst | src/ftp_commands.c:920-1069 | the burst sends a further piece of the file in order and leaves the read position in step when it stalls |
| Retr.ReadPath | src/ftp_commands.c:1094-1137 | the cooldown sends exactly its limit, or fails with a proper prefix sent |
| Retr.Pass | src/ftp_commands.c:917-1146 | a pass ends the transfer or sends at least a cooldown more, so the loop terminates whatever the kernel answers; it ends short only after a call of its own that failed, or without a buffer |
| Retr.Retrieve | src/ftp_commands.c:821-1179 | 550 exactly for a bad restart offset and 425 without a data connection; otherwise the peer gets a prefix of the file from the offset on, 226 exactly when it is all of it; 426 only with a failed read or send as the last call, or no buffer, so that with a buffer, reads that bring something and sends that go through the answer is 226 whatever sendfile does; a fatal sendfile answer is followed by another sendfile call exactly when a retry before the last got it |
| Retr.FatalRetried | src/ftp_commands.c:979-1013 | whenever the first call sends nothing and the first retry fails for good, sendfile is called again |
| Retr.HelpfulNeverFails | src/ftp_commands.c:1094-1137 | with a buffer, no failing read and no send cut short, no call of a transfer fails |
| Path.Normalize | src/ftp_path.c:57-173 | the in-place tokenizer with its component stack computes the component walk, errors included |
| Path.NormalIsCanonical | src/ftp_path.c:57-173 | a normalized path is absolute, has no ".", ".." or empty component and fits its buffer |
| Path.CanonicalIsFixed | src/ftp_path.c:57-173 | canonical paths that fit are left as they are |
| Path.Idempotent | src/ftp_path.c:57-173 | normalizing twice is normalizing once |
| Path.RenderInjective | src/ftp_path.c:150-170 | two component lists with one spelling are the same list |
| Path.WithinRootIff | src/ftp_path.c:291-329 | on canonical paths the textual test is: the root's components come first |
| Path.SplitCanonical | src/ftp_path.c:374-459 | dirname and basename are all components but the last, and the last |
| Path.JoinSplit | src/ftp_path.c:464-502 | joining dirname and basename gives the path back |
| Path.ResolveConfined | src/ftp_path.c:182-282 | every path that resolves is canonical, fits and lies, as text, below the root; where realpath fails the text is all that was checked |
| PathMeaning.ResolveMeans | src/ftp_path.c:182-282 | where realpath changes nothing, a path resolves to the components it leads to, from the top if it is absolute and from the working directory if not; the failures are exactly: too long, too deep, outside the root |
| PathMeaning.LongNameRefused | src/ftp_path.c:263-267 | a new name of 4094 bytes in the top directory is refused, although its path fits |
| PathMeaning.JoinedMeans | src/ftp_path.c:100-137 | a path, a slash and another path lead where the second leads from where the first leads |
| PathMeaning.ParentMeans | src/ftp_path.c:124-128 | ".." leads to the directory above, and stays at the top |
| PathMeaning.ChildMeans | src/ftp_path.c:129-136 | a name leads to that entry of the directory |
| PathMeaning.DotMeans | src/ftp_path.c:122-123 | "." leads nowhere else |
| Control.Channel.Scan | src/ftp_session.c:836-882 | the inner loop copies up to the first line end or to the end of the receive buffer |
| Control.Channel.ReadCommand | src/ftp_session.c:818-911 | the next line of the stream is judged and exactly it is consumed, whatever chunks it came in; it is refused as too long exactly from 511 bytes on |
| Control.ReadSession | src/ftp_session.c:224-269 | the session's reads are a function of the byte stream and the idle tests alone, so the cutting into recv chunks makes no difference |
| Control.ServedIs | src/ftp_session.c:224-269 | the reads are those of the whole stream, cut short only by a QUIT or an idle client |
| Control.ParseCommandLine | src/ftp_protocol.c:213-278 | the split, upper-case copy and trimming loops compute the parsed command, errors included |
| Control.ToUpperIs | src/ftp_protocol.c:239-250 | the upper-case copy changes the 26 letters and nothing else |
| Control.WireReads | src/ftp_session.c:818-911 | the lines before the first blank one are read back, and nothing after it; an over-long line is dropped whole and affects no other |
| Control.AllReadIff | src/ftp_session.c:818-911 | every line sent is read if and only if none is blank |
| Control.EmptyLineExample | src/ftp_session.c:864-877 | the command behind an empty line is never read |
| Control.ParseRoundTrip | src/ftp_protocol.c:213-278 | a command with padded arguments is parsed back, upper-cased and trimmed, if and only if it holds no NUL |
| Control.ParseBare | src/ftp_protocol.c:213-278 | a bare command is parsed back without arguments if and only if it holds no NUL |
| Control.NulExample | src/ftp_protocol.c:213-278 | what follows a NUL in the arguments is lost |
| Control.CommandsRead | src/ftp_session.c:818-911 | each of a series of commands, bare or with arguments, ended by LF or CRLF, is read and parsed back in its place |
| Control.SessionRoundTrip | src/ftp_session.c:224-269 | commands sent as lines, cut into recv chunks in any way, come out of the channel and the parser in order, up to the end, a QUIT or an idle client |
| Session.FindCommand | src/ftp_protocol.c:283-296 | the first table entry with that name in any case, or none |
| Session.FtpSession.ProcessCommand | src/ftp_session.c:916-990 | the new session state is the specified one and the result is 1 exactly for QUIT |
| Session.FtpSession.Cwd | src/ftp_commands.c:331-364 | the working directory is the old one, or a canonical path below the root that names a directory and is what the argument resolves to, which `SessionRules.CwdMeans` spells out |
| Session.NextKeeps | src/ftp_session.c:916-990 | one command line keeps the session invariant on any file system |
| Session.RunKeeps | src/ftp_session.c:224-269 | over every run: the directory stays below the root, logged in means USER or PASS has run, and only the nine named commands run before |
| Session.CwdBelowRoot | src/ftp_commands.c:331-378 | the root's components are always a prefix of the working directory's |
| Session.QuitIs | src/ftp_session.c:916-990 | a line ends the session exactly when it parses as QUIT without arguments, in every state |
| SessionRules.LoginIs | src/ftp_session.c:916-990 | after a line the session is logged in exactly if it was before, or the line is USER with a name or PASS |
| SessionRules.BeforeLogin | src/ftp_session.c:942-952 | before login only USER, PASS, QUIT, NOOP, FEAT, SYST, AUTH, OPTS and CLNT run |
| SessionRules.TransferIs | src/ftp_session.c:942-961 | RETR and STOR are refused before login and change nothing; afterwards they run exactly when they have an argument |
| SessionRules.OnlyCwd | src/ftp_commands.c:331-378 | no command but CWD and CDUP changes the directory, and none the root |
| SessionRules.CwdMeans | src/ftp_commands.c:331-364 | where realpath changes nothing, CWD goes to the directory its argument leads to from the working directory exactly when that fits, lies below the root and is one |
| SessionRules.CdupMeans | src/ftp_commands.c:369-378 | CDUP drops the last component of the working directory exactly when what is left lies below the root and is a directory |
| Session.TraceIsRun | src/ftp_session.c:224-269 | a chain of states that follow one another line by line ends where the run ends |
| Session.Thread | src/ftp_session.c:208-311 | the session thread takes the session through the states of its command lines, whatever bytes arrive and in whatever chunks |
| Session.ServeClient | src/ftp_session.c:208-311 | a session fed any bytes ends with its directory below the root |
| Cipher.LoadStore | src/ftp_crypto.c:101-114 | storing a word and loading it gives the word |
| Cipher.RotationAmounts | src/ftp_crypto.c:70-72 | each rotation is multiplication with the overflow coming back at the bottom |
| Cipher.QuarterInvertible | src/ftp_crypto.c:82-96 | the quarter round can be undone for all inputs |
| CipherRounds.QuarterOfEnds | src/ftp_crypto.c:82-96 | for every word: equal outer words cancel, and the others come out turned by 8 and by 15 bits |
| CipherRounds.QuarterOfMiddle | src/ftp_crypto.c:82-96 | for every word: where the sums cancel, the second word is turned by 7 bits and nothing else changes |
| CipherRounds.QuarterOfLast | src/ftp_crypto.c:82-96 | for every word: the last word is turned by 16 bits and then by 8 |
| CipherRounds.QuarterOfSecond | src/ftp_crypto.c:82-96 | for every word: the second word is turned by 12 bits and then by 8 |
| CipherRounds.DoubleRoundIs | src/ftp_crypto.c:127-138 | a double round is the quarter round on the four columns and then on the four diagonals of the state matrix |
| CipherRounds.RoundsInjective | src/ftp_crypto.c:127-138 | any number of rounds can be undone |
| Cipher.QuarterRound | src/ftp_crypto.c:82-96 | the in-place version updates four words as section 2.1 of RFC 7539 says and no other |
| Cipher.ChachaBlock | src/ftp_crypto.c:122-149 | ten double rounds, the addition of the input and little-endian output make the block of section 2.3 of RFC 7539 |
| CipherRounds.BlockOpens | src/ftp_crypto.c:122-149 | the words of a block, less the state it was made from, are that state after twenty rounds |
| Cipher.Context.constructor | src/ftp_crypto.c:163-191 | a new context stands at stream position 0 |
| CipherRounds.KeyStored | src/ftp_crypto.c:155-187 | the first state holds the bytes of "expand 32-byte k", the key, a zero counter and the nonce, in this order |
| Cipher.Context.XorInPlace | src/ftp_crypto.c:193-222 | any range of any length is XORed with the keystream at the current position, which moves on by its length; `CipherRounds.BlocksDiffer` says when two blocks of it are alike |
| CipherRounds.CounterIs | src/ftp_crypto.c:204 | the state of block n has the low 32 bits of n in its counter word and is the key's in every other |
| CipherRounds.KeystreamRepeats | src/ftp_crypto.c:203-207 | the keystream starts again after 2^32 blocks |
| CipherRounds.BlocksDiffer | src/ftp_crypto.c:203-207 | after any number of rounds two blocks of a key are alike if and only if their numbers agree in 32 bits |
| Cipher.CryptConcat | src/ftp_crypto.c:193-222 | cutting the data anywhere makes no difference |
| Cipher.CryptTwice | src/ftp_crypto.c:193-222 | encrypting twice at one position gives the data back |
| Cipher.ChunkingIrrelevant | src/ftp_session.c:741-764 | any series of pieces is encrypted like the whole |
| Cipher.SendData | src/ftp_session.c:741-764 | what reaches the wire is the encryption of a prefix, all of it exactly when the call reports all, and less only because the peer took less than all of one piece |
| Cipher.ReceiveData | src/ftp_session.c:780-809 | whatever pieces recv returns, the data is the wire decrypted from the current position on |
| Cipher.SenderToReceiver | src/ftp_session.c:720-809 | what one side sends under a key and nonce the other reads, however either cuts it up |
| Cipher.Transfer | src/ftp_session.c:720-809 | with one context at each end, what the receiver has is the data sent, all of it when the sender reports all, and less only where the connection cut a piece short |
| HttpParser.FindCrlf | src/http_parser.c:68-76 | the first CRLF, or the end |
| HttpParser.ParseRequestLine | src/http_parser.c:96-147 | the line is split at its first two spaces, rejected exactly when a word or the version is missing, and nothing outside it is written |
| HttpParser.LineRoundTrip | src/http_parser.c:96-147 | a line made of a method, a URI and a version is split back into them exactly when the version is accepted |
| HttpParser.ParseHeaderLine | src/http_parser.c:166-187 | the name and the value behind colon and blanks are added unless there is no colon or 32 are there, and nothing outside the line is written |
| HttpParser.ParseRequest | src/http_parser.c:209-254 | on any buffer the outcome is the specified one, truncated and malformed requests included, and no byte of the body is written |
| HttpParser.CompleteRequest | src/http_parser.c:209-254 | with a complete header block the request line alone decides, and the body starts right after the first blank line |
| HttpParser.HeadersSound | src/http_parser.c:230-251 | every header reported is a line of the block with its first colon and its value, in line order |
| HttpParser.HeadersComplete | src/http_parser.c:230-251 | until 32 are reported no header line is left out |
| HttpParser.HeaderEndExtends | src/http_server.c:822-824 | later bytes do not move the end of the header block |
| HttpUpload.FindHeaderEnd | src/http_server.c:823 | the first blank line with no NUL before it, or none |
| HttpUpload.ScanHeaders | src/http_server.c:246-267 | the loop finds the last Content-Length line of the header block |
| HttpUpload.LastIsLast | src/http_server.c:246-267 | behind the line that counts no other line of the block names a content length |
| HttpUpload.ParseBasic | src/http_server.c:203-270 | method, URI, header length and content length, or a failure exactly when the line is malformed or the block incomplete |
| HttpUpload.FirstLineUnique | src/http_server.c:223-244 | a request line has one reading |
| HttpUpload.LengthRoundTrip | src/http_server.c:257-264 | a length written in decimal is read back, saturating at the largest size_t |
| HttpUpload.FramedIffSettled | src/http_server.c:257-264 | the length is independent of the body bytes already received if and only if the last Content-Length line is not blank to the end of the block |
| HttpUpload.BlankLength | src/http_server.c:257-264 | every request whose only header line is a blank Content-Length fails that condition |
| HttpUpload.Connection.WriteAll | src/http_server.c:744-761 | the bytes the system accepted, in order, are appended to the file |
| HttpUpload.AcceptedOne | src/http_server.c:744-761 | one write takes what it reports, at most what is left, and an interrupted one nothing |
| HttpUpload.AcceptedMore | src/http_server.c:744-761 | a series of writes goes on where the last one stopped, unless one returned 0 |
| HttpUpload.Connection.Stream | src/http_server.c:699-801 | between events nothing received is lost; the outcome (waiting, saved, dropped) is decided by the bytes missing, read and accepted |
| HttpUpload.Connection.ParseInPlace | src/http_server.c:840-843 | parsing in the buffer leaves the body bytes behind the header untouched |
| HttpUpload.Connection.Open | src/http_server.c:963-1016 | the body bytes in the buffer, and no more than were announced, start the file |
| HttpUpload.SeenUnique | src/http_server.c:822-841 | the bytes received can be read as a request in one way only |
| HttpUpload.Connection.Look | src/http_server.c:822-835 | no complete header block, a malformed line, or the request with its length, exactly |
| HttpUpload.Connection.Check | src/http_server.c:841-962 | the order of the refusals: 403, 400, a silent drop, 500, and only then the file; no file is opened unless the request parses and token, path, directory and open are all in order |
| HttpUpload.EventMeans | src/http_server.c:822-1063 | the exact condition of each answer to a request: refused with 403 or 500, saved at once, dispatched, dropped, waiting |
| HttpUpload.Connection.Admit | src/http_server.c:1022-1063 | in 64-bit arithmetic, a request is dispatched exactly when its whole body is in the buffer and refused exactly when it cannot fit |
| HttpUpload.WrappedPasses | src/http_server.c:1025-1041 | without the first comparison a body that is not there would be dispatched exactly when the sum wraps into the buffer |
| HttpUpload.Connection.OnRead | src/http_server.c:657-1072 | after any event the file is the start of the body, confirmed means all of it, and the outcome is a function of the bytes and the answers given; an upload begins only if every check passed |
| HttpUpload.GoodStart | src/http_server.c:822-1016 | when nothing stands in the way, the first read that completes the header block starts the upload or, with the whole body there, ends it |
| HttpUpload.Connection.Serve | src/http_server.c:657-1072 | over every series of reads a confirmed file is exactly the announced body; nothing is written unless all checks passed at one of them; and every complete upload whose header fits and settles the length is confirmed when the system cooperates |
| HttpUpload.ChunkingIrrelevant | src/http_server.c:657-1072 | two connections that read one stream in different pieces save the same file when the header settles the length |
| Exfat.FileByteIs | src/exfat_unpacker.c:193-215 | byte k of a file is byte k mod size of cluster number k div size of its chain |
| Exfat.ClustersInRow | src/exfat_unpacker.c:211-215 | cluster 2 starts the heap, and each cluster starts where the one before it ends |
| Exfat.NthIs | src/exfat_unpacker.c:193-199 | a contiguous file counts its clusters up, any other takes each from the FAT, which ends the chain where it ends itself |
| Exfat.CompleteIffEnough | src/exfat_unpacker.c:460-506 | nothing is missing if and only if the chain has enough clusters |
| Exfat.ContiguousIsChain | src/exfat_unpacker.c:494-505 | the contiguous walk equals the FAT walk where the FAT links each cluster to the next |
| Exfat.Sink.Write | src/exfat_unpacker.c:530-541 | all of the data if it fits, otherwise as much as fits and a failure; nothing else is written |
| Exfat.ReadCluster | src/exfat_unpacker.c:467-487 | whatever short reads occur, the wanted bytes of a cluster arrive in order |
| Exfat.ReadFileData | src/exfat_unpacker.c:448-508 | success means everything the chain holds up to the length, failure a prefix and a named cause; it returns on a cyclic FAT too |
| Exfat.ExtractToBuffer | src/exfat_unpacker.c:567-581 | the count is the number of file bytes now in the buffer, all of them read from inside the image; the rest of the buffer is untouched, and the full length means the chain was long enough |
| BufferPool.StepKeeps | src/ftp_buffer_pool.c:67-113 | every atomic access of any thread keeps the invariant |
| BufferPool.ExclusiveOwners | src/ftp_buffer_pool.c:67-113 | in every reachable state a bit is set exactly when a thread owns the slot, and only one does |
| BufferPool.AcquireIsAtomic | src/ftp_buffer_pool.c:79-97 | the slot taken was free at the exchange, and NULL is returned only while every slot is taken |
| BufferPool.FailureIsInterference | src/ftp_buffer_pool.c:79-98 | a failed exchange or re-check means another thread has changed the mask since the load |
| BufferPool.RetriesBounded | src/ftp_buffer_pool.c:67-99 | a thread has retried no more often than the others have changed the mask |
| BackgroundCopy.RunKeeps | src/ftp_commands.c:2751-2846 | every interleaving of session and workers keeps the protocol invariant |
| BackgroundCopy.OneWorkerAtATime | src/ftp_commands.c:2782-2846 | at most one worker still needs the mutex, and none does while the session joins with it held or destroys it |
| BackgroundCopy.BusyIsTrue | src/ftp_commands.c:2785-2791 | "already in progress" is said only while a worker is copying |
| BackgroundCopy.JoinedOnce | src/ftp_session.c:184-188 | no worker is joined twice, and each has returned and been joined once before the mutex is destroyed |
| BackgroundCopy.JoinNeverDeadlocks | src/ftp_commands.c:2824-2828 | the join under the mutex waits for at most one step, which needs no mutex |
| BackgroundCopy.CanFinish | src/ftp_session.c:184-188 | from every state a schedule ends the session with all workers returned |
| TokenBucket.Limiter.RateLimit | src/ftp_session.c:456-516 | the bucket after a call is the one after its clock readings less the bytes, and the loop stopped at the first reading that allowed it; a fresh bucket serves up to the cap, and one that holds enough serves, at the first reading |
| TokenBucket.Burst | src/ftp_session.c:456-516 | two calls at one clock reading share the burst of a fresh limiter |
| TokenBucket.ObserveBound | src/ftp_session.c:479-487 | one refill brings no more than the rate allows, even when the product wraps |
| TokenBucket.RateBound | src/ftp_session.c:456-516 | over any series of granted calls, bytes plus tokens left stay within the tokens at the start and the rate |
| TokenBucket.NoMoreThanTheRate | src/ftp_session.c:456-516 | between refills at t0 and t1 no more than cap + rate * (t1 - t0) / 10^9 bytes pass |
| TokenBucket.NoLessThanTheRate | src/ftp_session.c:456-516 | while nothing wraps, k readings fill the bucket or bring all the rate gives in that time, less a token each |
| TokenBucket.WaitIsLeast | src/ftp_session.c:489-499 | the sleep asked for is the shortest, in whole microseconds, that brings the missing tokens, or half a second |
| TokenBucket.Returns | src/ftp_session.c:490-509 | within the cap, at a rate of at least 2 and with honest sleeps and no overflow, enough tokens come |
| TokenBucket.NeverReturns | src/ftp_session.c:490-509 | above the cap or at a rate of 1 there is a clock on which the loop never ends although time goes on |
| TokenBucket.HalfSecondsHonest | src/ftp_session.c:490-509 | on that clock no sleep is cut short and nothing wraps |
| TokenBucket.ServedIff | src/ftp_session.c:456-516 | where 64-bit arithmetic has room, a call whose first reading is at a given time gets its tokens on every honest clock if and only if they are there at that reading, or the request is within the cap and the rate at least 2 |
| TokenBucket.LimitServed | src/ftp_session.c:456-516 | under that condition the call returns on an honest clock with the bytes granted |

## Left out

- PalAllocatorObject.PalAllocator.Realloc: assumes that size + 16 does not wrap; a wrapping size gets a block that is too small (`HoldsIffNoWrap`) and the copy would leave it.
- PalAllocatorObject.PalAllocator.AlignedAlloc: assumes that its sum of sizes does not wrap.
- PalAllocatorObject.PalAllocator.FreePtr: takes NULL, a pointer to the user region of a block, or an aligned pointer that `TargetIff` finds the block of; the run of `free` on any other pointer is not modelled.
- TokenBucket.ServedIff: the products and sums of the limiter are assumed to fit in 64 bits; the rate bound (`NoMoreThanTheRate`) holds without that.
- malloc and free hold the allocator's lock throughout; what other threads do between the malloc, the copy and the free of a realloc, or before the memset of a calloc, is not modelled.
- PalAllocatorObject.PalAllocator.Store: memory is seen in 32-byte granules, so a store replaces a whole granule.
- Control.Channel.ReadCommand: interrupted or timed-out recv calls in the middle of a line are not modelled; after one the code scans its last chunk again.
- HttpUpload.Connection.Stream: the chunk buffer of the streaming phase is a value, not an array.
- BufferPool.StepKeeps: threads release only buffers they own; the mask is a set of bits rather than a machine word.
- PalAllocatorObject.PalAllocator.Calloc: assumes that the product plus 16 does not wrap, as for realloc.
- posix_memalign, the statistics reset and the global allocator wrappers add only easy members.
- The single-buffer STOR path, APPE and REST resume, and the directory listings are not modelled.
- The session slot pool of src/ftp_server.c: single ownership and exact counting are not invariants of that code.
- exfat_read_directory: it does not bound a cyclic chain and skips entries that cross a cluster.
- HTTP API endpoints, CSRF tokens, console hooks, logging, start-up and key derivation are outside the model.
- FTP_PATH_MAX is 4096 as in the POSIX build, and the number of stream buffers is the default 32.
- Sockets, files, clocks and the scheduler are oracles; fairness is not assumed, so liveness is stated as the existence of a schedule.
