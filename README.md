# A verified model of the dsh student shell's core

dsh is a small Unix shell written for an operating-systems course, and dash is its C++
predecessor. This project models, in Dafny, the parts of both that are plain logic over
strings, argument vectors and a shared-memory segment, and proves what they do.

- **Mailbox segment** (`dsh_src/prog3.c`; modules `SegmentLayout`, `RwProtocol`, `Mailbox`,
  `LockTrace`). `createMailboxes` lays out one System V shared-memory segment: two header
  words (`numBoxes`, `boxSize`), one reader/writer lock per box and `numBoxes` boxes of
  `boxSize` K bytes. `writeToMailbox`, `readMailbox` and `copyMailbox` check the box ids,
  compute offsets, truncate writes and follow the first-reader/last-reader lock protocol.
  - The segment is a `Segment` class: a byte array for the bytes, typed arrays for the
    header and the locks, and a ghost trace of semaphore operations and box accesses.
    Each sem_wait, sem_post, memcpy, strcpy and printf of a box is a `Segment` method that
    acts and appends its own event, so the trace follows the order the code runs in.
  - Semaphores are natural-number counters. A wait is a step that needs the counter above
    zero; a post adds one.
  - `RwProtocol` runs any number of processes through the reader and writer steps on one
    lock, in any order, as a state machine. It proves an invariant that gives mutual
    exclusion.
  - `LockTrace` proves that every write of box bytes happens while the writer holds that
    box's `rw_mutex`, and that each operation gives back every semaphore it takes, for any
    sequence of calls a process makes (`RunCalls`).
- **Segment lifecycle** (`dsh_src/prog3.c`, file variant; module `Lifecycle`). This is
  `mboxinit`, `mboxdel` and the exit hook. The marker file `.dsh_shmem_info` holds pid then
  shmid. `startSharedMemory`, `stopSharedMemory`, `onExit`, `getshmemAddr`,
  `getshmemParent` and `shmemServer` are functions from one host state (marker file and
  segment) to the next. What the system answers is a parameter: the pid, whether fopen and
  shmget succeed, and the new id.
- **String helpers** (`dsh_src/helperfunctions.c`; module `HelperFunctions`). `strToInt` and
  `getArgs` are methods with their loops. Each is proved against a specification function
  (`StrToIntSpec`, `Split`).
- **Argument scanners** (`dsh_src/prog2.c`; module `ArgScan`). These are `isPipe`,
  `isRedirect` and `isRemotePipe`, plus how `doPipe` and `doRedirect` split the vector at
  the token they find. The processes these two start are left out.
- **Dispatch** (`dsh_src/dsh.c`; module `Dsh`). This is `handleCommand`'s decision chain and
  the main loop, which ends on the line `exit`.
- **/proc helpers** (`dsh_src/prog1.c`; module `ProcFiles`). These are the path assembly in
  `getProcName` and `getProcCmdline`, the 300-byte buffer `fgets` fills, and the loop that
  turns NULs into spaces.
- **dash** (`prog1/Source/dash.cpp`; module `Dash`). This covers `parse_first_arg`, `cmdnm`'s
  check of its pid argument and its NUL-to-space loop, `print_usage_if_needed`, the prefix
  dispatch and exit test of `main`, and the main loop over input events.

Sizes follow an LP64 glibc target:
- `int` is 4 bytes;
- `sem_t` is 32 bytes, so a padded lock of two semaphores and a count is 72 bytes;
- a pointer is 8 bytes.

`Text` holds the shared vocabulary: bytes, C strings, and memcpy as `Splice`.

## Model

| member | source | states |
|---|---|---|
| Text.Splice | dsh_src/prog3.c:738 | memcpy's effect: the copied part lies at the offset and every other element is unchanged |
| Text.NulIndex | dsh_src/prog3.c:731 | strlen: the index of the first NUL, with no NUL before it |
| Text.CString | dsh_src/prog3.c:877 | the C string at the front of a buffer: the bytes before the first NUL, followed by it |
| Text.CStringIs | dsh_src/prog3.c:877 | a buffer holding s and then a NUL holds exactly the C string s |
| Text.RewriteNuls | dsh_src/prog1.c:374-390 | NUL-to-space rewrite up to a stopping point: no NUL remains before it, non-NULs are unchanged and everything from the stopping point on is as it was |
| Text.CopyInto | dsh_src/prog3.c:738 | the byte-copy loop behind memcpy leaves the array equal to the splice of the source into it |
| SegmentLayout.BoxCap | dsh_src/prog3.c:724 | a box of size K-units is size·1024 bytes, at least 1024 once size is at least 1 |
| SegmentLayout.LockWithinSegment | dsh_src/prog3.c:721 | lock b lies after the 8-byte header and before the first box, inside the segment length shmget is asked for |
| SegmentLayout.BoxWithinSegment | dsh_src/prog3.c:724 | box b lies after the locks and ends before the pointer slack, inside the segment |
| SegmentLayout.BoxesDisjoint | dsh_src/prog3.c:724 | two different boxes never overlap |
| SegmentLayout.SlackUnused | dsh_src/prog3.c:647 | the last box ends exactly where the num·sizeof(char*) slack begins, so no box offset ever reaches the slack |
| SegmentLayout.SizeNonnegWhenCreated | dsh_src/prog3.c:648-651 | a segment shmget can grant with at least one box has a box size of at least 0 |
| RwProtocol.WaitMutex | dsh_src/prog3.c:791 | sem_wait on mutex: possible only when it is above 0; it lowers mutex by one and touches nothing else |
| RwProtocol.PostMutex | dsh_src/prog3.c:803 | sem_post on mutex raises it by one and touches nothing else |
| RwProtocol.WaitRw | dsh_src/prog3.c:799 | sem_wait on rw_mutex: possible only when it is above 0; it lowers rw_mutex by one and touches nothing else |
| RwProtocol.PostRw | dsh_src/prog3.c:818 | sem_post on rw_mutex raises it by one and touches nothing else |
| RwProtocol.Inv | dsh_src/prog3.c:791-822 | the lock invariant: mutex plus the processes inside a mutex section is 1, readCount counts the readers that counted themselves in, and rw_mutex plus the writers plus the reader group that holds it is 1 |
| RwProtocol.Step | dsh_src/prog3.c:734-822 | one process's next step, or None when it would block: an idle process starts a read with sem_wait(mutex) or a write with sem_wait(rw_mutex), and a busy one takes the next statement of readMailbox's entry and exit or gives rw_mutex back |
| RwProtocol.Init | dsh_src/prog3.c:679-690 | the open lock (1, 1, 0) with every process idle satisfies the lock invariant |
| RwProtocol.StepPreservesInv | dsh_src/prog3.c:791-822 | every reader step and writer step that is not blocked keeps the invariant. The invariant is: mutex plus holders is 1, readCount is the number of counted readers, and free rw_mutex plus writers plus the reader group is 1 |
| RwProtocol.HolderStepPreservesInv | dsh_src/prog3.c:794-819 | the invariant is kept by the steps a reader takes while holding mutex: counting in or out, the first reader's wait on rw_mutex, the last reader's post |
| RwProtocol.OtherStepPreservesInv | dsh_src/prog3.c:734-741 | the invariant is kept by a writer taking or giving back rw_mutex, and by a reader taking mutex |
| RwProtocol.MutexHolderAlone | dsh_src/prog3.c:791-803 | under the invariant, at most one process is inside a mutex-protected section |
| RwProtocol.RunPreservesInv | dsh_src/prog3.c:791-822 | every sequence of steps from a state satisfying the invariant ends in one satisfying it |
| RwProtocol.MutualExclusion | dsh_src/prog3.c:797-818 | at most one writer holds rw_mutex, and while one does no reader is past the first-reader gate |
| RwProtocol.ReadersExcludeWriter | dsh_src/prog3.c:794-800 | a positive readCount rules out a writer, except when the only counted reader is the first, still waiting at the gate |
| RwProtocol.FirstReaderBlockedBehindWriter | dsh_src/prog3.c:794-799 | that exception is reachable: a writer inside, readCount 1, and the first reader blocked on rw_mutex |
| RwProtocol.ReaderAlone | dsh_src/prog3.c:791-822 | one complete read on a lock nobody else uses leaves mutex, rw_mutex and readCount as it found them |
| Mailbox.Box | dsh_src/prog3.c:724 | box b of a segment image is the slice of cap bytes at its offset |
| Mailbox.SetBox | dsh_src/prog3.c:724 | replacing box b keeps the segment's length, and box b then reads as the new contents |
| Mailbox.OtherBoxesUnchanged | dsh_src/prog3.c:721-724 | replacing box b leaves every other box, and the header and lock bytes before the boxes, unchanged |
| Mailbox.SetBoxKeepsTerminated | dsh_src/prog3.c:750-751 | replacing one box by a NUL-terminated box keeps every box NUL-terminated |
| Mailbox.BoxUpdate | dsh_src/prog3.c:724 | splicing new contents at box b's offset is replacing box b, and it keeps every box terminated |
| Mailbox.CopyLayout | dsh_src/prog3.c:856-861 | the source and destination slices copyMailbox computes are boxes f and t; the spliced copy replaces box t and keeps every box terminated |
| Mailbox.BoxUpdateAt | dsh_src/prog3.c:724 | the box update stated for the offset and capacity the caller computed |
| Mailbox.BoxAt | dsh_src/prog3.c:788 | box b is the slice at the offset the caller computed |
| Mailbox.ZerosTerminated | dsh_src/prog3.c:651 | the zero-filled segment shmget grants has every box NUL-terminated |
| Mailbox.WriteBox | dsh_src/prog3.c:731-753 | the box after writeToMailbox keeps its length and a terminated last byte. A message shorter than cap-1 goes over the front with no terminator; a longer one is cut to cap-1 bytes and then a NUL |
| Mailbox.ReadAfterWrite | dsh_src/prog3.c:731-753 | after a write, a read of a short message shows the message followed by the C string the box held from the message's end on; a read of a long one shows its first cap-1 bytes |
| Mailbox.HelloBox | dsh_src/prog3.c:738 | a box holding "hello" and then a NUL, used as the example state |
| Mailbox.StaleTail | dsh_src/prog3.c:738 | "hi" written over "hello" reads back as "hillo" |
| Mailbox.WriteBoxTerminated | dsh_src/prog3.c:731-753 | the corrected write keeps the box length and always leaves a terminator after at most cap-1 message bytes |
| Mailbox.ReadAfterTerminatedWrite | dsh_src/prog3.c:731-753 | after the corrected write a read shows exactly the message, cut to cap-1 bytes, whatever the box held |
| Mailbox.CopyBox | dsh_src/prog3.c:877 | strcpy between boxes of equal capacity: the destination keeps its length and stays terminated |
| Mailbox.CopyReadsBack | dsh_src/prog3.c:877 | after the copy, the destination's C string is the source's |
| Mailbox.ShortWriteGuard | dsh_src/prog3.c:731 | the test `strlen(message) < size*K - 1` as the C code evaluates it: the unsigned 32-bit `size*K - 1`, wrapped, compared with the length |
| Mailbox.ShortWriteGuardPlain | dsh_src/prog3.c:712 | for every box size whose capacity fits in 32 bits, the unsigned length test is "shorter than cap-1" |
| Mailbox.ZeroSizeGuardAdmitsOverrun | dsh_src/prog3.c:731 | with box size 0 the unsigned test wraps, so a 9-byte message passes it and its memcpy ends past the 88-byte segment |
| Mailbox.LockAfterInit | dsh_src/prog3.c:676-692 | every lock before the first failed sem_init is (1, 1, 0). The lock where it fails keeps what was set before the failure, and every later lock stays zero |
| Mailbox.Segment.Create | dsh_src/prog3.c:664-692 | header word 0 is num and word 1 is size, each lock is what LockAfterInit says, the bytes are zero and the trace is empty |
| Mailbox.Segment.WaitRwOn | dsh_src/prog3.c:734 | sem_wait on box b's rw_mutex: possible only when it is above 0; lock b becomes WaitRw of what it was, no other lock changes, and the wait is appended to the trace |
| Mailbox.Segment.PostRwOn | dsh_src/prog3.c:741 | sem_post on box b's rw_mutex: lock b becomes PostRw of what it was, no other lock changes, and the post is appended to the trace |
| Mailbox.Segment.WaitMutexOn | dsh_src/prog3.c:791 | sem_wait on box b's reader mutex: possible only when it is above 0; only lock b changes, to WaitMutex of what it was, and the wait is traced |
| Mailbox.Segment.PostMutexOn | dsh_src/prog3.c:803 | sem_post on box b's reader mutex: only lock b changes, to PostMutex of what it was, and the post is traced |
| Mailbox.Segment.StoreShort | dsh_src/prog3.c:738 | the short path's memcpy leaves the segment equal to the WriteBox result spliced in at the box, and appends the write of box b to the trace |
| Mailbox.Segment.StoreCut | dsh_src/prog3.c:750-751 | the long path's memcpy and NUL leave the segment equal to the WriteBox result spliced in at the box, and append the write of box b to the trace |
| Mailbox.Segment.StoreTerminated | dsh_src/prog3.c:738 | the corrected store leaves the segment equal to the WriteBoxTerminated result spliced in at the box, and appends the write to the trace |
| Mailbox.Segment.ShowBox | dsh_src/prog3.c:805-807 | the printf of a terminated box shows exactly its C string, changes no byte, and appends the read of box b to the trace |
| Mailbox.Segment.StoreCopy | dsh_src/prog3.c:877 | strcpy leaves the segment equal to the CopyBox result spliced in at the destination, and appends the read of the source and the write of the destination to the trace |
| Mailbox.Segment.WriteUnderLock | dsh_src/prog3.c:731-754 | either write path runs sem_wait(rw_mutex), its store and sem_post(rw_mutex) as three recorded steps, so the trace grows by wait, write and post in the order the code runs them. Every lock ends as it was, and only the box bytes change, to WriteBox of the old box |
| Mailbox.Segment.WriteTerminatedUnderLock | dsh_src/prog3.c:731-754 | the corrected store run as the same three recorded steps: the trace grows by wait, write and post in that order, every lock ends as it was, and only the box bytes change, to WriteBoxTerminated of the old box |
| Mailbox.Segment.WriteToMailbox | dsh_src/prog3.c:706-762 | an id outside [0, numBoxes) gives -1 with bytes, locks and trace unchanged. Otherwise it gives 0, only box b changes (to WriteBox of its old contents), locks end as they began, and a terminated segment stays terminated |
| Mailbox.Segment.WriteToMailboxTerminated | dsh_src/prog3.c:706-762 | the same with the corrected write, whose result a read shows in full |
| Mailbox.Segment.BeginRead | dsh_src/prog3.c:791-803 | reader entry raises readCount by one, and takes rw_mutex exactly when the count was 0; the trace grows by the mutex wait, the rw_mutex wait when first, and the mutex post, in that order |
| Mailbox.Segment.EndRead | dsh_src/prog3.c:811-822 | reader exit lowers readCount by one, and gives rw_mutex back exactly when the count was 1; the trace grows by the mutex wait, the rw_mutex post when last, and the mutex post, in that order |
| Mailbox.Segment.ReadMailbox | dsh_src/prog3.c:770-827 | an out-of-range id gives -1 and shows nothing. Otherwise it gives 0 and shows the box's C string; locks end as they began and no byte changes. The trace grows by reader entry, the read and reader exit, each recorded by the step that performs it |
| Mailbox.Segment.CopyUnderLocks | dsh_src/prog3.c:864-889 | the steps run in the code's order and each records itself: the destination's rw_mutex wait, reader entry on the source, strcpy, reader exit, the rw_mutex post. Every lock ends as it began, and only the destination box changes, to CopyBox of the two old boxes |
| Mailbox.Segment.CopyMailbox | dsh_src/prog3.c:836-896 | an out-of-range id on either side, or from == to, gives -1 with nothing changed. Otherwise box to gets box from's C string and terminator, and every other byte and every lock is as before |
| Mailbox.CreateMailboxes | dsh_src/prog3.c:644-697 | -1 and no segment when shmget refuses. Otherwise the granted id and a fresh segment laid out as Create states |
| Mailbox.CreateMailboxesChecked | dsh_src/prog3.c:644-697 | the corrected createMailboxes refuses counts and sizes below 1, so every segment it makes is usable and terminated |
| LockTrace.NetAppend | dsh_src/prog3.c:791-822 | waits less posts over two traces in a row is the sum over each |
| LockTrace.NetBracket | dsh_src/prog3.c:734-741 | a wait and its post around a stretch leave that stretch's count unchanged |
| LockTrace.ReaderNets | dsh_src/prog3.c:791-822 | reader entry and exit each give mutex back; entry holds rw_mutex afterwards exactly when first, and exit gives it back exactly when last |
| LockTrace.WriteEventsSound | dsh_src/prog3.c:734-741 | writeToMailbox writes only while holding the box's rw_mutex, and gives back everything it takes |
| LockTrace.ReadEventsSound | dsh_src/prog3.c:791-822 | readMailbox writes nothing and gives back every semaphore it takes |
| LockTrace.CopyEventsSound | dsh_src/prog3.c:864-889 | copyMailbox between two boxes writes the destination only while holding its rw_mutex, and gives back every semaphore |
| LockTrace.CopyHoldsDestination | dsh_src/prog3.c:864-889 | copyMailbox's first event takes the destination's rw_mutex, and every later event, the source's reader entry and exit and the copy among them, comes while that rw_mutex is held |
| LockTrace.AppendSound | dsh_src/prog3.c:706-896 | two sound traces in a row make a sound trace |
| LockTrace.RunSound | dsh_src/prog3.c:706-896 | any run of successful writes, reads and copies leaves a trace in which every write held its box's rw_mutex and every semaphore was given back |
| LockTrace.RunCall | dsh_src/prog3.c:706-896 | one writeToMailbox, readMailbox or copyMailbox call on a segment whose locks are all open and whose trace is sound leaves the locks open, keeps the segment terminated and the trace sound, and returns 0 exactly when the ids pass the range test |
| LockTrace.RunCalls | dsh_src/prog3.c:706-896 | a process making any sequence of those calls, one after another, keeps the trace sound throughout (every write while its box's rw_mutex is held, every semaphore given back), and call k returns 0 exactly when its ids pass the range test |
| Lifecycle.ServerMarkerRoundTrip | dsh_src/prog3.c:527-569 | when shmemServer creates a segment, getshmemAddr reads back its id and getshmemParent its pid. Otherwise both read -1 and the segment is unchanged |
| Lifecycle.ServerKeepsExisting | dsh_src/prog3.c:538-544 | shmemServer leaves an existing marker file untouched and never removes a segment |
| Lifecycle.StartRefusesWhenPresent | dsh_src/prog3.c:68-72 | mboxinit is refused with -1, changing nothing, while the marker yields an address above 0 |
| Lifecycle.FreshStartCreates | dsh_src/prog3.c:52-121 | on a clean host, "mboxinit num size" returns 0. When the thread, fopen and shmget all succeed, the marker then names the new segment and the caller as its owner; otherwise no segment exists and there is no address to read |
| Lifecycle.StartRefusesBadNumber | dsh_src/prog3.c:74-86 | a count or size strToInt refuses makes mboxinit return -1, changing nothing |
| Lifecycle.StopRemoves | dsh_src/prog3.c:157-177 | mboxdel with an address above 0 removes both the segment and the marker file, returning 0; otherwise it returns -1 and changes nothing |
| Lifecycle.OnExitOwnerOnly | dsh_src/prog3.c:317-324 | onExit changes nothing unless the marker names the caller as owner; in the owner, it removes segment and marker |
| Lifecycle.ConsistentPreserved | dsh_src/prog3.c:52-569 | each routine keeps the marker and the segment in step: a marker that names a segment names the one that exists |
| Lifecycle.EmptyMarkerIsStuck | dsh_src/prog3.c:547-559 | the empty marker file a failed creation leaves blocks every later mboxinit, mboxdel and onExit |
| Lifecycle.ZeroIdIsStuck | dsh_src/prog3.c:162 | a segment with id 0 can be neither replaced, nor removed by mboxdel or by its owner's exit |
| Lifecycle.CheckedStopRemovesEvery | dsh_src/prog3.c:162 | with the test as 0 <= addr, every segment a marker names is removed by mboxdel and by its owner's exit, and a second mboxinit is refused |
| Lifecycle.ServerWritesNonnegativeId | dsh_src/prog3.c:555-564 | the id shmemServer records is never negative, so the checked routines always see it |
| Lifecycle.GetShmemAddr | dsh_src/prog3.c:380-405 | the shmid field of the marker file; -1, the value fread leaves in place, when the file is missing or empty |
| Lifecycle.GetShmemParent | dsh_src/prog3.c:411-436 | the pid field of the marker file, or -1 in the same cases |
| Lifecycle.ShmemServer | dsh_src/prog3.c:527-569 | gives up when the marker file exists or fopen fails; otherwise creates the file, and writes pid and shmid into it when createMailboxes succeeds, leaving it empty when it fails |
| Lifecycle.StartSharedMemory | dsh_src/prog3.c:52-121 | mboxinit: -1 with nothing changed for fewer than three words, an address above 0, or a count or size strToInt refuses; otherwise 0, with shmemServer's effect when the thread starts |
| Lifecycle.StopSharedMemory | dsh_src/prog3.c:157-177 | mboxdel: with an address above 0 the segment of that id is removed and the file unlinked, giving 0; otherwise -1 and nothing changes |
| Lifecycle.OnExit | dsh_src/prog3.c:317-324 | the exit hook runs mboxdel only in the process the marker names as owner |
| Lifecycle.StopSharedMemoryChecked | dsh_src/prog3.c:162 | mboxdel with the address test as 0 <= addr |
| Lifecycle.StartSharedMemoryChecked | dsh_src/prog3.c:68-72 | mboxinit refusing whenever the marker gives an id, 0 included |
| Lifecycle.OnExitChecked | dsh_src/prog3.c:317-324 | the exit hook with the checked mboxdel |
| HelperFunctions.StrToInt | dsh_src/helperfunctions.c:162-208 | the digit loop computes exactly StrToIntSpec: (0, -1) on an empty or malformed string, otherwise the signed decimal value with ok 0 |
| HelperFunctions.StrToIntSpec | dsh_src/helperfunctions.c:162-208 | strToInt's answer: (0, -1) for an empty string or one with a non-digit after the optional '-', otherwise the signed decimal value with ok 0 |
| HelperFunctions.StrToIntCases | dsh_src/helperfunctions.c:168-207 | the empty string and any non-digit after the optional '-' give (0, -1); "-" alone gives (0, 0); a well-formed number gives its signed value |
| HelperFunctions.DigitChar | dsh_src/helperfunctions.c:191 | the digit character of d is a digit whose value is d |
| HelperFunctions.DecimalDigits | dsh_src/helperfunctions.c:189-199 | the decimal notation of n is a non-empty string of digits whose value is n |
| HelperFunctions.StrToIntRoundTrip | dsh_src/helperfunctions.c:162-208 | strToInt reads every integer printed in decimal back with ok 0 |
| HelperFunctions.IndexOf | dsh_src/helperfunctions.c:82 | strchr from an index: the first position of c at or after it, or -1 when there is none |
| HelperFunctions.Split | dsh_src/helperfunctions.c:80-95 | getArgs's words: the line cut at every single space, consecutive spaces giving empty words |
| HelperFunctions.CountSpacesIsMultiplicity | dsh_src/helperfunctions.c:64-71 | the count of the first loop is the number of spaces in the line |
| HelperFunctions.ArgVector | dsh_src/helperfunctions.c:74-77 | the vector getArgs returns has one entry per word, then NULL |
| HelperFunctions.SplitCount | dsh_src/helperfunctions.c:64-96 | splitting yields one word more than the line has spaces |
| HelperFunctions.SplitSpaceFree | dsh_src/helperfunctions.c:80-95 | no word contains a space |
| HelperFunctions.JoinSplit | dsh_src/helperfunctions.c:80-95 | joining the words with single spaces gives the line back exactly, consecutive spaces yielding empty words |
| HelperFunctions.SplitJoin | dsh_src/helperfunctions.c:80-95 | splitting space-free words joined by single spaces gives the words back |
| HelperFunctions.SplitIsWordsFrom | dsh_src/helperfunctions.c:80-95 | scanning with strchr from a position yields the split of the rest of the line |
| HelperFunctions.CountSpacesLoop | dsh_src/helperfunctions.c:64-71 | getArgs's first loop counts exactly the spaces of the line |
| HelperFunctions.GetArgs | dsh_src/helperfunctions.c:51-99 | NULL gives NULL. Otherwise the vector is the split words then NULL, its word count is the number of spaces plus 1, and entry wordCount is NULL |
| HelperFunctions.CopyWords | dsh_src/helperfunctions.c:80-95 | the do-while fills a fresh vector with the words in order, then NULL |
| HelperFunctions.CopyWord | dsh_src/helperfunctions.c:82-94 | one pass copies the next word into its entry and resumes the scan after the space that ends it |
| ArgScan.FirstIndex | dsh_src/prog2.c:240-248 | the first index of a target token, with no target before it, or the length when there is none |
| ArgScan.ScanResult | dsh_src/prog2.c:236-251 | a scanner's answer is below argc. It is positive exactly when the first match is after index 0, and then it is that match; it is 0 exactly when the match is at index 0 or nothing matches |
| ArgScan.Scan | dsh_src/prog2.c:240-250 | the pointer loop returns ScanResult of the first argc tokens |
| ArgScan.IsPipe | dsh_src/prog2.c:236-251 | the index of the first pipe token in argv[0..argc) or 0, with no pipe token before it |
| ArgScan.IsRedirect | dsh_src/prog2.c:385-400 | the index of the first ">" or "<" in argv[0..argc), or 0 |
| ArgScan.IsRemotePipe | dsh_src/prog2.c:415-430 | the index of the first "))" or "((" in argv[0..argc), or 0 |
| ArgScan.MatchAtFrontIsAbsent | dsh_src/prog2.c:137-141 | a match at index 0 gives the same answer, 0, as no match |
| ArgScan.DoPipe | dsh_src/prog2.c:120-221 | returns 1 with fewer than 3 words or no pipe after the first word. Otherwise the left command is argv[0..pLoc) then NULL, the right is argv[pLoc+1..), and argv is restored |
| ArgScan.DoRedirect | dsh_src/prog2.c:268-370 | returns 1 as doPipe does. Otherwise argv[pLoc] becomes NULL and stays so, and "<" reads from the named file while ">" writes to it |
| Dsh.HandleCommand | dsh_src/dsh.c:120-231 | handleCommand's chain as a value: nothing without a first word, then pipe, redirect and remote pipe by their scanners, then a builtin by exact name, "exit" and "" doing nothing, and execCmd otherwise |
| Dsh.HandleCommandOrder | dsh_src/dsh.c:120-231 | each outcome holds exactly in its case. Nothing happens without a first word; then pipe, redirect, remote pipe, then a builtin by exact name; "exit" and "" do nothing, and any other name is executed |
| Dsh.LineCommand | dsh_src/dsh.c:87-90 | the command handleCommand picks for a line, on the words getArgs gives |
| Dsh.RunLine | dsh_src/dsh.c:87-90 | one pass dispatches the command of the line's getArgs words |
| Dsh.LineCommands | dsh_src/dsh.c:71-100 | one command per line, in order |
| Dsh.LineCommandsAt | dsh_src/dsh.c:71-100 | entry k of the commands is the command of line k |
| Dsh.LineHost | dsh_src/dsh.c:191-199 | what one line does to the marker file and the segment: mboxinit runs startSharedMemory on the line's words, mboxdel runs stopSharedMemory, any other command leaves both as they were; a consistent host stays consistent |
| Dsh.HostAfter | dsh_src/dsh.c:71-100 | the marker file and segment after a run of lines, line k answered by answer(k); a consistent host stays consistent |
| Dsh.HostAfterUntouched | dsh_src/dsh.c:191-199 | lines that are neither mboxinit nor mboxdel leave the marker file and the segment as they were |
| Dsh.RunLineOn | dsh_src/dsh.c:81-90 | one pass of the loop extends the commands by the line's command, and the host by the line's effect |
| Dsh.DshMain | dsh_src/dsh.c:58-104 | the loop exits exactly when some line is "exit". It handles every line up to and including the first "exit", or all lines when none is, each in order. The host is what those lines left, and after an "exit" onExit then runs once on it; a consistent host stays consistent |
| Dsh.FirstIndexAt | dsh_src/dsh.c:100 | the first "exit" is pinned down by being "exit" with no "exit" before it |
| Dsh.ExitWithArgumentIsIgnored | dsh_src/dsh.c:100 | "exit now" is a no-op and does not end the loop |
| Dsh.WordsCommand | dsh_src/dsh.c:87-90 | the scanners see exactly the words of the line |
| Dsh.PipeAtFrontIsExec | dsh_src/dsh.c:132 | a line whose first word is the pipe token, then "wc", is not taken as a pipe and goes to execCmd |
| Dsh.PipeBeatsBuiltin | dsh_src/dsh.c:132-183 | "cd", the pipe token, then "wc" makes a pipe, not the builtin cd |
| Dsh.BlankLinesDoNothing | dsh_src/dsh.c:216-221 | an empty line, and a single space, do nothing |
| Dsh.MboxinitCreates | dsh_src/dsh.c:191-194 | on a clean host, the line "mboxinit 2 1" with every system call succeeding leaves a marker naming this shell and the new segment |
| Dsh.InitThenExitCleansUp | dsh_src/dsh.c:100-102 | the lines "mboxinit 2 1" then "exit", run by the shell that made the segment, end with onExit removing both the segment and the marker file |
| ProcFiles.ProcPath | dsh_src/prog1.c:296-302 | the file name is "/proc/", the pid and the leaf, with no NUL inside |
| ProcFiles.PathPidRoundTrip | dsh_src/prog1.c:296-302 | the pid can be read back from the path built from it |
| ProcFiles.PathSplices | dsh_src/prog1.c:296-302 | the three memcpy calls leave the path at the front of the buffer and the rest untouched |
| ProcFiles.StatusPath | dsh_src/prog1.c:295-304 | getProcName's buffer of strlen(pid)+15 holds the status path with its terminator at 13+strlen(pid), inside the buffer |
| ProcFiles.CmdlinePath | dsh_src/prog1.c:339-348 | getProcCmdline's buffer of strlen(pid)+16 holds the cmdline path with its terminator at 14+strlen(pid), inside the buffer |
| ProcFiles.FgetsLength | dsh_src/prog1.c:364 | fgets stores at most room characters, stopping after the first newline or at the end of the file |
| ProcFiles.CmdlineBuffer | dsh_src/prog1.c:360-364 | the 300-byte buffer holds what fgets read and NULs after it |
| ProcFiles.GetProcName | dsh_src/prog1.c:292-324 | NULL when fopen fails; otherwise the first line, of fewer than 100 characters |
| ProcFiles.FirstNulPair | dsh_src/prog1.c:377-380 | the first position of two NULs in a row |
| ProcFiles.RewriteCmdlineNuls | dsh_src/prog1.c:366-392 | on a buffer holding a NUL pair, the loop stops at the second NUL of the first pair. Every NUL before that becomes a space, the first of the pair included, and every other byte is unchanged |
| ProcFiles.CmdlineStop | dsh_src/prog1.c:366-392 | the corrected loop stops at the second NUL of the first pair, or at the buffer's last byte when there is none |
| ProcFiles.RewriteCmdlineNulsBounded | dsh_src/prog1.c:366-392 | the loop bounded by the buffer's last byte rewrites the NULs before its stopping point and nothing else |
| ProcFiles.RewriteTerminated | dsh_src/prog1.c:366-392 | the bounded loop leaves a C string ending exactly at its stopping point |
| ProcFiles.CmdlineText | dsh_src/prog1.c:360-392 | the text getProcCmdline returns for a file: the buffer fgets fills, with the loop's NUL rewrite, up to its stopping point |
| ProcFiles.ReadCmdlineBuffer | dsh_src/prog1.c:360-364 | a fresh 300-character buffer holding what fgets read and NULs after it |
| ProcFiles.GetProcCmdline | dsh_src/prog1.c:336-398 | as written, on a file whose buffer holds a NUL pair: NULL when fopen fails; otherwise the command line with its NULs turned into spaces, a NUL-free string shorter than the buffer |
| ProcFiles.GetProcCmdlineBounded | dsh_src/prog1.c:336-398 | with the loop bounded by the buffer, on every file: NULL when fopen fails; otherwise CmdlineText of the file, a NUL-free string shorter than the buffer |
| ProcFiles.ShortReadHasPair | dsh_src/prog1.c:360-364 | a read of fewer than 299 characters leaves a NUL pair, so the loop as written stays in the buffer |
| ProcFiles.LongReadOverruns | dsh_src/prog1.c:366-392 | a 299-character command line leaves no NUL pair in the buffer |
| ProcFiles.CmdlineOfTwoWords | dsh_src/prog1.c:366-392 | "ls", NUL, "-l", NUL reads back as "ls -l " |
| Dash.FindWhite | prog1/Source/dash.cpp:72 | find_first_of on space, tab and newline: the first separator at or after the start, or -1 when there is none or the start is -1 |
| Dash.FindNonWhite | prog1/Source/dash.cpp:82 | find_first_not_of on space, tab and newline: the first other character at or after the start, or -1 |
| Dash.ParseFirstArg | prog1/Source/dash.cpp:62-114 | no separator gives "", and the result never holds a separator |
| Dash.ParseFirstArgIsSecondWord | prog1/Source/dash.cpp:82-110 | a name, a run of separators, a word, then the end or a separator: the result is that word |
| Dash.ParseFirstArgOnlySeparators | prog1/Source/dash.cpp:92-98 | only separators after the first one give "" |
| Dash.SpacePrefix | prog1/Source/dash.cpp:142 | atoi skips exactly the leading isspace characters |
| Dash.DigitPrefix | prog1/Source/dash.cpp:142 | atoi reads exactly the leading digits |
| Dash.ClampLong | prog1/Source/dash.cpp:142 | strtol's overflow rule: a value past either end of a 64-bit long gives that end, one inside is kept |
| Dash.ToInt32 | prog1/Source/dash.cpp:142 | the cast of a long to int: a value in int range, congruent to the long modulo 2^32, and equal to it when it fits |
| Dash.Atoi | prog1/Source/dash.cpp:142 | atoi as (int) strtol: white space, a sign, the leading digits, clamped to a long and cast to int, so the result is always in int range |
| Dash.AtoiOfDigits | prog1/Source/dash.cpp:142 | on a digit string atoi is its value when that fits an int, -1 past LONG_MAX, and 0 exactly when the value fits a long and is a multiple of 2^32 |
| Dash.CheckPid | prog1/Source/dash.cpp:142-150 | cmdnm's test: refused when atoi gives 0 for a non-empty argument or a character is not a digit, quiet return when the argument is empty, accepted otherwise |
| Dash.CheckPidMeaning | prog1/Source/dash.cpp:142-150 | an argument is accepted exactly when it is a non-empty digit string whose value is not a multiple of 2^32 within a long's range; an empty one returns quietly; any other is refused, "0" included |
| Dash.CheckPidOfIntRange | prog1/Source/dash.cpp:142-150 | for a digit string whose value fits an int, the test accepts exactly the non-empty ones of positive value |
| Dash.CmdnmWrappedRefused | prog1/Source/dash.cpp:142-146 | "cmdnm 4294967296" is refused as not an integer, since atoi gives 0 for 2^32 |
| Dash.CmdnmZeroRefused | prog1/Source/dash.cpp:142-146 | "cmdnm 0" is refused as not an integer |
| Dash.CmdnmLetterRefused | prog1/Source/dash.cpp:142-146 | "cmdnm 12x" is refused |
| Dash.CmdnmWithoutArgument | prog1/Source/dash.cpp:147-150 | "cmdnm" alone returns quietly |
| Dash.NulsToSpaces | prog1/Source/dash.cpp:169-174 | after the loop the line has the same length and no NUL, and every NUL has become a space with every other character unchanged |
| Dash.Prefix | prog1/Source/dash.cpp:398 | substr(0, n) is the first n characters, or the whole line when it is shorter |
| Dash.IsExitStmt | prog1/Source/dash.cpp:398-400 | the exit test: the first five characters are "exit " or "exit\t", or the line is "exit" |
| Dash.IsExitStmtMeaning | prog1/Source/dash.cpp:398-404 | the exit test holds exactly for "exit" and for "exit" followed by a space or a tab |
| Dash.Dispatch | prog1/Source/dash.cpp:456-481 | the builtin main runs for a trimmed line: cmdnm, pid or systat by the name and a space, a tab or the end after it, tried in that order |
| Dash.DispatchMeaning | prog1/Source/dash.cpp:456-481 | a builtin runs exactly when the line starts with its name followed by a space, a tab or the end |
| Dash.DispatchExamples | prog1/Source/dash.cpp:456-463 | "cmdnm 42" runs cmdnm, and "cmdnmx" runs nothing |
| Dash.Trim | prog1/Source/dash.cpp:450-453 | a line holding a non-separator loses exactly its leading separators; an all-separator line is kept |
| Dash.PrintUsageIfNeeded | prog1/Source/dash.cpp:372-413 | usage is shown exactly when the line is not blank, is not an exit statement, and ran no builtin |
| Dash.PassesOf | prog1/Source/dash.cpp:433-489 | one pass per input event |
| Dash.FirstExit | prog1/Source/dash.cpp:433-434 | the first event after which the loop test sees an exit statement, with none before it |
| Dash.FirstExitAt | prog1/Source/dash.cpp:433-434 | the first exit is pinned down by its two defining facts |
| Dash.PassOf | prog1/Source/dash.cpp:449-487 | one pass as a value: an end of input keeps the text read; a line is trimmed, dispatched, and shows usage when it is not blank, not an exit statement and ran no builtin |
| Dash.RunPass | prog1/Source/dash.cpp:449-487 | one pass trims the line, runs the builtin Dispatch names, and shows usage as PassOf says |
| Dash.DashMain | prog1/Source/dash.cpp:425-491 | the loop ends exactly when some event's command is an exit statement, after the first such; it makes one pass per event, and end of input keeps the text read |
| Dash.ExitWithArgumentEnds | prog1/Source/dash.cpp:433-434 | "  exit now" trims to an exit statement: the loop ends, and no usage is shown |
| Dash.ExitJoinedIsUnknown | prog1/Source/dash.cpp:398-409 | "exitnow" is not an exit statement, and usage is shown |

## Left out

- System calls are inputs or are left out: shmget, shmat, shmdt and shmctl; fopen, fread,
  fwrite and unlink; getpid; pthread_create. A segment appears as a `Segment` object or as
  a value in `Lifecycle.Host`. The answers of the system (grant or refusal, new id, pid) are
  parameters.
- Blocking and true concurrency are left out. A sem_wait is a step that needs its counter
  above 0: the methods demand it, and `RwProtocol.Step` answers None. Interleavings are
  modelled as step sequences on one lock. Deadlock freedom is not modelled.
- The header and lock bytes at the front of the segment are stood in for by typed arrays,
  `header` and `locks`. So a write that runs past its box (the size-0 case of the second
  finding) is shown as an offset past the end, not as corruption of those bytes.
- The polling loop and its timeout message in `startSharedMemory` (prog3.c:101-119) are
  timing only. So is the pthread_detach on a thread that failed to start (prog3.c:97).
- Lifecycle.StartSharedMemory: the malloc of `info` is never freed. Error paths in
  `createMailboxes` return without shmdt, and a failed creation leaves the marker file
  open. None of these changes what the routines decide.
- Lifecycle.StopSharedMemory: shmctl on an id whose segment cannot be removed is treated
  like removal of nothing. The model removes only the segment whose id matches.
- The `_START_CWD` directory (dsh.c:60) is left out; the marker file is one value.
- The socket variants (`USE_SHMEM_SOCKETS`) of shmemServer, shmemClient and
  stopSharedMemory are disabled in the build and are network I/O.
- readBox, writeBox and copyBox (prog3.c:186-312) are the builtin wrappers that parse
  arguments and attach. They are not part of this model.
- HelperFunctions.StrToInt: C `int` overflow is not modelled, since integers are
  unbounded. So are `size*K` in createMailboxes and the `int` segment length.
  `Mailbox.ShortWriteGuard` models the unsigned wrap of the test itself.
- HelperFunctions.GetArgs: for a NULL input the source leaves the word count unset; the
  model returns 0.
- getInput's read of stdin, and every printf and cout, are left out.
- Dsh.DshMain: the lines are a finite sequence, and a run that uses them all up without an
  "exit" simply ends, with no onExit. In the source, at end of input getline returns -1, so
  getInput reads `input[len-1]` with len equal to SIZE_MAX (helperfunctions.c:28-31): that
  read is outside the buffer, and what follows it is not modelled.
- ProcFiles.GetProcCmdline: it requires that the buffer hold two NULs in a row, since
  without them the loop as written reads past the 300 bytes (the third finding).
  `ProcFiles.GetProcCmdlineBounded` has no such requirement and covers every file.
- execCmd and the fork, exec, pipe, dup and wait in `doPipe` and `doRedirect` are left
  out. `ArgScan.DoPipe` and `ArgScan.DoRedirect` take the children's status as a
  parameter.
- `ArgScan.DoRedirect` does not put its token back (prog2.c:293-295 has no restore). The
  model states that it stays NULL.
- doServer, doClient (the remote pipe) and the socket listeners in prog2.c are left out.
- systat, pid(), getPID's directory walk, and the file reads in cmdnm are /proc reading and
  formatting, so they are left out. So is signal handling in prog1.c. `Dash.Dispatch`
  records which builtin would run.
- ProcFiles.GetProcName: a status file that opens but is empty makes fgets leave the
  buffer unset. The model returns the empty line.
- Dash.DashMain: getline's behaviour at end of input is modelled by `Eof` events, which
  carry the text read before the end. The model does not capture cin.clear and cin.ignore.
- prog2/Source/dash.cpp is not part of this model. Its loop calls `exit_command`, which is
  defined in dash1_funcs.cpp, and that file is not among these sources.

## Findings

| source | as written | input that shows it | evidently intended | confidence | as-written member | corrected member |
|---|---|---|---|---|---|---|
| dsh_src/prog3.c:738 | the short write path copies strlen(message) bytes and no terminator | a box holding "hello", then "mboxwrite" of "hi": a read shows "hillo" | a read after a write shows exactly the message written | high; not executed | Mailbox.StaleTail | Mailbox.ReadAfterTerminatedWrite |
| dsh_src/prog3.c:731 | the length test `strlen(message) < size*K - 1` is unsigned, and createMailboxes accepts a box size of 0 | "mboxinit 1 0" gets an 88-byte segment; writing a 9-byte message passes the test, and memcpy ends past the segment | box sizes below 1 refused, so that every write stays inside its box | medium; not executed | Mailbox.ZeroSizeGuardAdmitsOverrun | Mailbox.CreateMailboxesChecked |
| dsh_src/prog1.c:366-392 | the NUL-rewrite loop stops only at two NULs in a row | a command line of 299 or more characters with no newline fills the buffer up to its last byte, and the loop reads past the 300 bytes | stop at the end of the buffer at the latest | medium; not executed | ProcFiles.LongReadOverruns | ProcFiles.GetProcCmdlineBounded |
| dsh_src/prog3.c:162 | an address is treated as present only when above 0, and shmget may return the id 0 | a segment created with id 0 is refused by mboxdel and by onExit, and cannot be removed | every id shmget returns (0 or more) recognised | medium; not executed | Lifecycle.ZeroIdIsStuck | Lifecycle.CheckedStopRemovesEvery |
