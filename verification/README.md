# A verified model of the AESD character device and its socket server

The AESD character device keeps the last ten newline-terminated commands written to it and shows
them as one byte stream. A socket server in front of it frames lines received from clients,
appends each line to the device under a file mutex and sends the whole stream back. This project
models both in Dafny and proves what holds of them over all runs and all interleavings.

| file | holds |
|---|---|
| `Bytes.dfy` | byte strings and their concatenation |
| `CircularBuffer.dfy` | the ten-slot ring, its lookup with 32-bit totals, and the class that updates it in place |
| `CommandLog.dfy` | the reference: an unbounded log of commands, grouped from written chunks |
| `Driver.dfy` | the device as a value: ring, pending entry, size counter, kernel heap; each call as a function |
| `DriverInvariant.dfy` | every call keeps device and log in step and every block accounted for |
| `DriverRuns.dfy`, `RunLaws.dfy` | whole runs: refinement, conservation, seeking, lookup, losses, failed calls |
| `Answers.dfy` | what a caller is told: failures, seeks, and the numbers of the source |
| `OpenFiles.dfy` | requests through open files with their positions: seeking and reading back, failed writes, splitting a write |
| `Ownership.dfy` | who owns the blocks of the kernel heap, and what unloading releases |
| `ReadBack.dfy` | successive reads from any position |
| `CharDevice.dfy` | the driver as classes with a mutable heap, ring and mutex, proved against `Driver.dfy` |
| `Interleaving.dfy`, `Serialisation.dfy` | threads inside the driver, interleaved at every small step |
| `Availability.dfy` | the converse: every sequence of calls is an interleaving, and a waiting call can be served |
| `Framing.dfy` | line framing in the server |
| `FileBuffer.dfy` | what reads leave in the server's file buffer, and the string that is sent of it |
| `Server.dfy`, `Sessions.dfy` | the server's threads, mutual exclusion, and the reply a client gets |
| `Progress.dfy` | every ready thread can finish its session, so the runs that the end-to-end law speaks of exist |
| `Clients.dfy` | from the message a client sends to the reply it gets; shutdown |
| `PortList.dfy` | the linked list of threads and ports |
| `Departures.dfy` | an input for each departure listed below |

Where the code departs from what its comments, its names or POSIX promise, the model follows the
code. One lemma gives the exact condition under which code and promise agree, a condition that a
caller can look at before the call, and another gives an input at which they do not:

- The lookup adds sizes in 32 bits: it is right at every offset if and only if the live bytes number
  below 2^32 (`WidthBound`). No offset finds a command of 2^32 bytes (`WrappedCommandInvisible`). Ten
  blocks of the largest size that `kmalloc` grants stay far below the bound, so only a kernel without
  such a limit would meet it.
- A read copies, and moves the file position over, all that is left of a command even when fewer
  bytes were asked for. Position and report agree if and only if the request covers the entry's size
  less the offset in it (`CopyFitsIff`, `CopiesRest`), and reading back yields the stream if and only
  if every request covers what it meets (`StreamReadBack`). `ShortRead` asks for one byte of two.
- The server ignores what `fread` returns and sends the string in its file buffer, where the driver
  has left more than it reported. A client is sent the right reply if and only if the stream is
  shorter than the buffer and every read, the last command's aside, asked for what it met
  (`EndToEnd`). `GarbledReply` is a run with two commands in which one is laid over the end of the
  other.
- The size counter is never reduced: it equals the live bytes if and only if at most ten commands have
  been written (`Conservation`), and SEEK_END, which also ignores its offset, is right if and only if
  the offset equals the bytes evicted (`LseekPosixIff`). `SeekEndBeyondStream` has more than ten.
- Read buffers are never freed and neither is an unfinished command: unloading leaves no block behind
  if and only if no command is unfinished and no read got as far as copying (`UnloadReleases`), which
  is a read that starts inside the stream (`CopiesInside`). `ReadLeavesBlock` and
  `UnfinishedLeavesBlock` each leave one.
- A write looks at the last byte of its block, so it stays inside its blocks if and only if it brings
  a byte or something is pending (`CommittableIff`). `EmptyWriteHasNoLastByte` is a write of no bytes
  to a freshly loaded device.
- Framing can read past its buffer: it stays inside if and only if two bytes are left behind the plain
  prefix, or one that is a newline (`FramingInBoundsIff`; `FullBufferOverruns`). The line also ends
  before the buffer does, as `strlen` needs, if and only if prefix and terminator are shorter than the
  buffer (`FramingTerminatedIff`; `FullLineUnterminated`).
- A server thread that sees the terminate flag unlocks a mutex it may not hold: the mutex guards the
  critical section throughout a run if and only if no such unlock happens while another thread is
  inside (`ExclusionIff`); `TwoInside` is a run in which two threads end up inside.
- Removal from the list of ports promises a status, and its name promises the list without the item.
  It delivers both if and only if the first match lies behind the head (`RemovedAsPromisedIff`): a
  match at the head returns no value (`HeadRemovalReturnsNothing`), and an absent port leaves the list
  without a head (`AbsentPortLosesList`, `NothingLostIff`). Addition promises a status too and never
  returns a value (`AddItem`).

Modelling decisions:

- `kmalloc`, `copy_from_user`, `copy_to_user` and `mutex_lock_interruptible` succeed or fail as a
  parameter of each call says. A block is a fresh address with its bytes; every `kfree` is logged, so
  a second free of a block or the use of a freed one would show. Fresh blocks hold arbitrary bytes.
- A call is entered with a file position and leaves with one; positions are private to calls, as the
  virtual file system passes the driver a pointer to a local copy. Runs allow every position for
  every call; `OpenFiles.dfy` threads positions through the calls and seeks of any number of files.
- A write of no bytes with nothing pending indexes the byte before its block (`main.c` line 182). The
  class method requires that there be a byte to look at, which `CommittableIff` shows is exactly what
  it takes; runs skip such a call.
- A function of the list that runs off its end without a `return` has the status `NoValue`. Removal
  from an empty list follows a null head (`queue.h` line 80), so it requires a first node.
- `size_t` values are unbounded numbers; the 32-bit totals of the lookup are not.
- Whether plain `char` is signed is a parameter of framing (`wide`): only an unsigned `char` can
  equal the constant 0xDA.
- stdio is taken as any split of a line into non-empty writes, and as reads of any size until the
  device answers 0 or the reply buffer is full. Each read goes straight to the file buffer, behind the
  bytes reported so far. A session records what its reads asked for, and its end records how many
  lines all clients had handed over by then.
- An operation of a state machine that cannot happen in a state leaves the state as it is.

## Model

| member | source | states |
|---|---|---|
| CircularBuffer.Buffer.constructor | aesd-char-driver/aesd-circular-buffer.c:121-124 | a new ring is all zero: NULL entries, both offsets 0, not full |
| CircularBuffer.Buffer.AddEntry | aesd-char-driver/aesd-circular-buffer.c:74-90 | the ring in memory changes as the value-level add says, slot, offsets and flag |
| CircularBuffer.Buffer.RefBuff | aesd-char-driver/aesd-circular-buffer.c:97-100 | returns the block in the slot the next add overwrites: in every ring made by adds, the oldest live block if ten are live, NULL before that |
| CircularBuffer.Buffer.FindEntryOffsetForFpos | aesd-char-driver/aesd-circular-buffer.c:30-65 | the wrapped loop with 32-bit totals finds what the walk over the live entries finds |
| CircularBuffer.AddedLive | aesd-char-driver/aesd-circular-buffer.c:80-89 | an add appends to the live entries; on a full ring it drops the oldest, which is the one in the overwritten slot |
| CircularBuffer.OverwritesOldest | aesd-char-driver/aesd-circular-buffer.c:80-100 | the slot the next add overwrites holds the block that drops out of the live entries, none before the ring is full |
| CircularBuffer.LiveIsLatest | aesd-char-driver/aesd-circular-buffer.c:74-90 | after any adds the ring read oldest to newest is the last ten entries of the whole history |
| CircularBuffer.ClosedForm | aesd-char-driver/aesd-circular-buffer.c:80-124 | offsets and flag as functions of the number of adds, and each surviving entry k in slot k mod 10 |
| CircularBuffer.WalkAgrees | aesd-char-driver/aesd-circular-buffer.c:54-63 | below 2^32 live bytes every iteration of the 32-bit walk agrees with unbounded indexing |
| CircularBuffer.WidthBound | aesd-char-driver/aesd-circular-buffer.c:38-63 | the walk is right at every offset if and only if the sizes sum below 2^32 |
| CircularBuffer.ResolvesUnique | aesd-char-driver/aesd-circular-buffer.c:20-29 | at most one entry and offset resolve a position |
| CircularBuffer.ResolvesByte | aesd-char-driver/aesd-circular-buffer.c:20-29 | the resolved position holds the byte of the concatenation, and the stream goes on from there |
| CommandLog.AcceptAllIsGroup | aesd-char-driver/main.c:157-193 | writing chunk by chunk equals cutting the chunk list after each chunk that ends in a newline |
| CommandLog.GroupKeepsBytes | aesd-char-driver/main.c:157-193 | commands end in a newline, the unfinished rest does not, and together they are the bytes written |
| CommandLog.ChunkingIff | aesd-char-driver/main.c:157-195 | on the log, splitting a write changes nothing if and only if no piece before the last ends in a newline |
| CommandLog.EvictionShift | aesd-char-driver/aesd-circular-buffer.c:80-89 | a command on a full log shifts the stream by the oldest command's size, byte for byte |
| DriverInvariant.KfreeAccounted | aesd-char-driver/main.c:178-184 | freeing a block in use moves it from owned to freed and it is owned nowhere else |
| DriverInvariant.GatheredHolds | aesd-char-driver/main.c:157-180 | after gathering, the pending entry holds old bytes and chunk, the ring is intact and the ledger balances |
| DriverInvariant.CommittedLedger | aesd-char-driver/main.c:183-192 | committing keeps the ledger balanced; on a full ring it frees the oldest block, which was in use and never freed before, and otherwise it frees none |
| DriverInvariant.CommittedHolds | aesd-char-driver/main.c:182-193 | after a commit the ring holds the last ten commands, nothing is pending and the counter has grown by the command |
| DriverInvariant.WriteKeeps | aesd-char-driver/main.c:138-201 | a write with any outcome keeps the invariant for the log it makes and answers what the log answers |
| DriverInvariant.ReadKeeps | aesd-char-driver/main.c:88-136 | a read with any outcome keeps the invariant for the same log and answers what the log answers |
| DriverInvariant.StepRefines | aesd-char-driver/main.c:88-201 | every call on slots and blocks is the same call on the log, reply and position included |
| DriverRuns.WholeRun | aesd-char-driver/main.c:88-201 | after any run the ring is the last ten grouped commands, the pending entry the unfinished rest, all blocks accounted for, all bytes kept |
| DriverRuns.AnswersRefine | aesd-char-driver/main.c:88-201 | every call in every run answers as the grouped log does |
| Answers.FailureReported | aesd-char-driver/main.c:102-170 | in every run a call reports a negative number if and only if it fails: -512 for an interrupted lock, -12 for a write without memory, -14 otherwise; position, user data and view then stay, and a write that succeeds reports and moves by its bytes |
| Answers.FailsInside | aesd-char-driver/main.c:111-126 | below 2^32 live bytes the reads that can fail for want of memory or in the copy are those that start inside the stream |
| DriverRuns.RunView | aesd-char-driver/main.c:157-193 | closed form of offsets, flag, contents, pending bytes and counter after any run |
| DriverRuns.NewlineInvariant | aesd-char-driver/main.c:182-193 | in every run each live block ends in a newline and the pending one does not |
| Answers.TenLiveCommands | aesd-char-driver/aesd-circular-buffer.h:26 | with the numbers written out: in every run the last 10 commands are live, each ends in byte 10, and no lookup reaches offset 4294967295 |
| Ownership.RunOwnership | aesd-char-driver/main.c:157-192 | in every run each address is owned once or freed once, slots never share a block, no block is freed twice |
| Ownership.UnloadReleases | aesd-char-driver/main.c:299-304 | unloading frees each slot's block once; what stays is the pending block and one buffer for each read that got as far as copying, and nothing stays if and only if no command is unfinished and no read got that far |
| RunLaws.Conservation | aesd-char-driver/main.c:180-189 | bytes accepted are live, evicted or pending; the counter is live plus evicted, and equals live if and only if at most ten commands were written |
| RunLaws.SeekEndReadsNothing | aesd-char-driver/main.c:217-227 | in every reachable state a read at the SEEK_END position answers 0 and changes nothing |
| RunLaws.LseekPosixIff | aesd-char-driver/main.c:203-228 | seeking agrees with POSIX lseek() on the live bytes if and only if, for SEEK_END, the offset equals the bytes evicted |
| Answers.SeekIs | aesd-char-driver/main.c:203-228 | in every run the result of a seek for every offset and origin; SEEK_END gives live plus evicted bytes, which are the bytes of all commands completed, whatever the offset |
| RunLaws.LookupIsIndexing | aesd-char-driver/aesd-circular-buffer.c:30-65 | in every reachable ring below 2^32 bytes the lookup finds an entry if and only if the offset is inside the stream, and then the stream's byte |
| RunLaws.EvictionShiftsStream | aesd-char-driver/main.c:182-193 | a write that completes a command on a full ring drops the evicted entry's bytes from the front of the stream and appends the command |
| RunLaws.EvictionShiftsLookup | aesd-char-driver/main.c:182-193 | the byte the lookup finds at an offset after such a write is the one it found before at that offset plus the evicted size, then come the bytes of the command, then none |
| RunLaws.CopiesInside | aesd-char-driver/main.c:111-123 | below 2^32 live bytes a read gets as far as copying if and only if it is granted or faults in the copy and starts inside the stream |
| RunLaws.LeakedIsLosses | aesd-char-driver/main.c:114-128 | in every run the blocks lost number the reads that got as far as copying |
| RunLaws.ErasedRunSame | aesd-char-driver/main.c:150-170 | erasing all failed writes from a run at any positions leaves the same view, as many blocks in use and lost, and no call that tells the difference; the runs differ by one freed block for each copy that failed |
| OpenFiles.SiftedRun | aesd-char-driver/main.c:150-228 | leaving the failed writes out of any requests through open files leaves exactly the other calls, each at the same position |
| OpenFiles.FailedWritesInvisible | aesd-char-driver/main.c:150-228 | whatever writes, reads and seeks were asked through any files, leaving out the failed writes leaves every file position, the view, the blocks in use and lost and every later answer the same; one block less is freed for each copy that failed |
| OpenFiles.ChunkingIndependence | aesd-char-driver/main.c:157-195 | in every run, splitting a write leaves every open file at the position of the single write, and is invisible in ring, pending bytes and counter if and only if no piece before the last ends in a newline |
| OpenFiles.WriteOutEndsAt | aesd-char-driver/main.c:194-195 | the position threaded through the replies of any writes ends behind all their bytes, and no other file moves |
| OpenFiles.SeekMoves | aesd-char-driver/main.c:203-228 | where a seek leaves its file, for every origin, from the old position and the bytes committed; an invalid one leaves it, and no other file or call changes |
| OpenFiles.FailedRequestStays | aesd-char-driver/main.c:88-201 | a write or read is made at its file's position and moves no file when it fails, and never another file |
| OpenFiles.SeekAndReadBack | aesd-char-driver/main.c:88-228 | from any state of the files, a seek to p and ten reads through one file leave it behind the stream, give the stream from p on if and only if each covers what it meets, move no other file and leave the view |
| OpenFiles.FreshFileReads | aesd-char-driver/main.c:88-136 | a file not used yet reads the stream from its start |
| ReadBack.GainedIff | aesd-char-driver/main.c:123-128 | successive reads give all they move over if and only if each asks for what it meets |
| ReadBack.RemainderIsNext | aesd-char-driver/main.c:111-128 | below 2^32 live bytes a read meets the next bytes of the stream, and none if and only if the position is at or past the end |
| ReadBack.RemainderIs | aesd-char-driver/main.c:111-119 | a read at a position inside a visible command meets the rest of that command, up to its last byte |
| ReadBack.AheadDecreases | aesd-char-driver/main.c:111-128 | each read inside the stream leaves strictly fewer commands ahead |
| ReadBack.StreamReadBack | aesd-char-driver/main.c:88-136 | from any position ten reads reach the end, return the rest of the stream if and only if each covers what it meets, then answer 0; the view is unchanged |
| ReadBack.CopyFitsIff | aesd-char-driver/main.c:113-128 | in every run a read copies all that is left of the entry it finds, and moves by what it reports if and only if the count covers the entry's size less the offset; without an entry it answers 0 and stays |
| ReadBack.CopiesRest | aesd-char-driver/main.c:111-128 | the same in terms of commands: reply, position and bytes of a read at a given offset of a given visible command |
| CharDevice.Chardev.constructor | aesd-char-driver/main.c:263-274 | the loaded device is empty, unlocked and stands for the empty log |
| CharDevice.CommittableIff | aesd-char-driver/main.c:157-184 | in every standing device a write looks at and frees live blocks only if and only if it brings a byte or something is pending |
| CharDevice.Chardev.Fill | aesd-char-driver/main.c:163-170 | gathered bytes then user bytes fill the whole new block; no other block changes |
| CharDevice.Chardev.Gather | aesd-char-driver/main.c:157-180 | allocation, copies and swap of the pending block, with both failure paths |
| CharDevice.Chardev.Commit | aesd-char-driver/main.c:183-192 | free on full, add, count, reset as the value-level commit says |
| CharDevice.Chardev.CommitIfComplete | aesd-char-driver/main.c:182-193 | commits if and only if the last byte of the pending block is a newline |
| CharDevice.Chardev.DoWrite | aesd-char-driver/main.c:138-201 | the whole system call in the source's order, given that the blocks it touches are live; everything after the lock happens with the mutex held |
| CharDevice.Chardev.Write | aesd-char-driver/main.c:138-201 | new device, reply and position are those of the value-level write; every access is to a live block; the mutex is free again on every path; the log grows as the write says |
| CharDevice.Chardev.CopyOut | aesd-char-driver/main.c:113-128 | the rest of the entry goes out through a block that is never freed, with both failure paths |
| CharDevice.Chardev.DoRead | aesd-char-driver/main.c:88-136 | the whole system call in the source's order, given that the block it finds is live; the copy happens with the mutex held |
| CharDevice.Chardev.Read | aesd-char-driver/main.c:88-136 | device, reply and position are those of the value-level read; every access is to a live block; the mutex is free again on every path |
| CharDevice.Chardev.Seek | aesd-char-driver/main.c:203-228 | returns the position the value-level seek gives, which `SeekIs` spells out |
| CharDevice.Chardev.Unload | aesd-char-driver/main.c:287-304 | the free loop frees slot blocks that are live, each once, and leaves only pending and lost blocks |
| CharDevice.PerformAll | aesd-char-driver/main.c:88-201 | a device in memory that goes through any calls is the device of the run, stands for its log and gives its answers |
| Interleaving.FinishedMeansDone | aesd-char-driver/main.c:102-200 | a call whose small steps have reached the unlock has done exactly what the call does |
| Serialisation.Serialised | aesd-char-driver/main.c:102-200 | in every interleaving, whenever the mutex is free the device and all answers are those of the completed calls run one by one in lock order |
| Serialisation.AlwaysReleases | aesd-char-driver/main.c:133-135 | from every reachable state, whatever path the holder's call is on and whatever the other threads do in between, ten turns of its own and a release make its call the next one done and free the mutex |
| Availability.WaitingServed | aesd-char-driver/main.c:102-200 | in every reachable state with the mutex free, a waiting call with a byte to look at can be admitted and is the next one done, whatever the others do meanwhile, with the answer of the sequential run |
| Availability.WaitingServedAfterHolder | aesd-char-driver/main.c:102-200 | with the mutex taken, the holder's call and then the waiting one can be the next two done |
| Availability.EverySequenceHappens | aesd-char-driver/main.c:102-200 | every sequence of calls, each with a byte to look at in its turn, made by any threads, is what some interleaving does, with device and answers of the sequential run |
| Availability.InterruptedLeavesNoTrace | aesd-char-driver/main.c:102-103 | a wait that is interrupted changes nothing but that its thread may call again |
| Serialisation.SeekSeesBeforeOrAfter | aesd-char-driver/main.c:203-219 | the seek that takes no mutex sees the counter before or after the call in progress, never another |
| Framing.StopAt | server/aesdsocket.cpp:175-185 | the first index whose byte stops the copying loop, or the length |
| Framing.CopyPlain | server/aesdsocket.cpp:174-185 | the loop copies exactly the bytes before the first byte that stops it, and touches nothing behind them |
| Framing.PutTerminator | server/aesdsocket.cpp:186-198 | the branches complete the framed line in place, or an index leaves the buffer |
| Framing.Frame | server/aesdsocket.cpp:174-198 | the file buffer starts with the framed line and is otherwise unchanged |
| Framing.FramedLine | server/aesdsocket.cpp:174-198 | every message for which framing stays inside its buffer becomes its longest plain prefix and one terminator, for all terminators and both kinds of char |
| Framing.FramedNumbers | server/aesdsocket.cpp:14-16 | with the numbers written out: what plain bytes followed by nothing, 10, 13, 13 10, 13 13 or 13 0xDA become |
| Framing.FramingInBoundsIff | server/aesdsocket.cpp:174-198 | framing reads inside the receive buffer if and only if two bytes are left behind the plain prefix, or one that is a newline |
| Framing.FramingTerminatedIff | server/aesdsocket.cpp:174-227 | a NUL also follows the line, as `strlen` needs, if and only if prefix and terminator are shorter than the buffer |
| Framing.FramedIsLine | server/aesdsocket.cpp:174-198 | a framed line is non-empty, NUL-free and has no newline before its last byte |
| Framing.ReframedIff | server/aesdsocket.cpp:174-198 | framing a framed line again, in any buffer that holds it, gives it back if and only if it ends in a newline |
| FileBuffer.FilledHolds | server/aesdsocket.cpp:228-230 | after any reads of a stream shorter than the buffer: it holds the stream so far if only the last command was cut short, otherwise less than has been read, and zeros behind |
| FileBuffer.FilledIff | server/aesdsocket.cpp:228-246 | reads until one reports nothing leave the whole stream as the string in the buffer if and only if each, the last command's aside, asked for what it met |
| Server.NextGuarded | server/aesdsocket.cpp:199-243 | every step of every thread but a stray unlock keeps each thread in the section the holder of the mutex, so that there is at most one |
| Server.ExclusionIff | server/aesdsocket.cpp:164-243 | the section is guarded throughout a run if and only if no stray unlock happens in it |
| Server.UnlocksOwnMutex | server/aesdsocket.cpp:232-243 | in every orderly run a thread that ends its session holds the mutex and is alone in the section; the mutex is then free, or still held if unlocking gave up |
| Server.OrderlyBeforeTerminate | server/aesdsocket.cpp:164-166 | before the terminate flag is set no unlock is stray |
| Server.TwoInside | server/aesdsocket.cpp:164-166 | a run in which shutdown lets two threads into the section |
| Sessions.NextSound | server/aesdsocket.cpp:163-254 | every step keeps device, lines handed over and each thread's progress in agreement: pieces written and their positions, bytes read, buffer below its length while reading |
| Sessions.ReadAllIff | server/aesdsocket.cpp:228-230 | the string that a session's reads leave in the file buffer is the stream, where it fits, if and only if each read, the last command's aside, asked for what it met |
| Sessions.OwnLineLast | server/aesdsocket.cpp:226-230 | a line that ends in a newline completes exactly one command and ends the stream |
| Sessions.EndToEnd | server/aesdsocket.cpp:173-247 | in every orderly run a thread about to send after its session sends the last ten commands made of all clients' lines in lock order, its own line last, if and only if they are shorter than its buffer and each of its reads, the last command's aside, asked for what was left of the command it met |
| Sessions.ReadsInsideBuffer | server/aesdsocket.cpp:228-230 | in every orderly run, while the stream is shorter than the file buffer, what the driver copies stays inside it, whatever was asked for |
| Sessions.LongRequestsSuffice | server/aesdsocket.cpp:229-247 | so it does whenever each read asked for at least the longest command |
| Progress.ReadsOut | server/aesdsocket.cpp:229-230 | a thread that asks for whole buffers reads to the end of the stream |
| Progress.SessionCompletes | server/aesdsocket.cpp:163-246 | whenever the mutex is free, a thread with a line ready can finish its session, free the mutex and send the right reply |
| Clients.LineStep | server/aesdsocket.cpp:163-254 | a step of any thread gives a thread the framing of the message it takes, only sending takes its line away, and nothing else changes it |
| Clients.CarriesMessage | server/aesdsocket.cpp:169-246 | in every run a thread that takes a message carries its framing until it sends |
| Clients.LinesAreFramed | server/aesdsocket.cpp:174-227 | in every run the lines handed over are the framings, in lock order, of the messages their threads took |
| Clients.HandedOverReceived | server/aesdsocket.cpp:169-227 | each of those messages was received in the run |
| Clients.WritesBehindEnd | server/aesdsocket.cpp:226-227 | in every orderly run each piece of a line is written behind the bytes committed, where SEEK_END pointed, and the line's earlier pieces |
| Clients.ClientReply | server/aesdsocket.cpp:169-246 | in every orderly run a client whose data was received is sent the last ten commands made of the framings of the messages handed over, its own data's prefix and terminator last, if and only if they are shorter than the buffer and the reads, the last command's aside, asked for what they met |
| Clients.ClientEcho | server/aesdsocket.cpp:199-246 | a client whose thread gave up on the mutex is sent its own data's prefix and terminator |
| Clients.GivesUp | server/aesdsocket.cpp:199-211 | giving up on the mutex leads there and touches neither device nor lines nor mutex |
| Clients.LongestLine | server/aesdsocket.cpp:12 | lines of plain bytes and a newline can be served if and only if they are below 100000 bytes |
| Clients.NextLine | server/aesdsocket.cpp:163-254 | while the flag is clear a thread between two lines can take any message that it can frame, and nothing but its phase changes |
| Clients.ClientServed | server/aesdsocket.cpp:163-246 | whenever mutex and flag are clear, a thread between two lines can serve any client: it sends the right reply to the data's prefix and terminator and frees the mutex |
| Clients.FirstClient | server/aesdsocket.cpp:163-246 | there is a run in which the first client, whatever line it sends, gets exactly that line back |
| Clients.NoneStartsAfterShutdown | server/aesdsocket.cpp:164-167 | once the flag is set a thread at the top never takes another message, and has stopped for good after one look at the flag |
| PortList.FirstWith | server/queue.h:115-124 | the index of the first item with the port, or the length if there is none |
| PortList.LinkedList.constructor | server/queue.h:19 | a new list is empty |
| PortList.LinkedList.AddItem | server/queue.h:46-73 | the heap list stays acyclic, keeps its nodes and gains one fresh node at the end, as promised; the promised status is never returned |
| PortList.LinkedList.MoveHeadTo | server/queue.h:85-96 | the head itself is moved to the first match, or off the end, with the node before it in hand |
| PortList.LinkedList.Unlink | server/queue.h:86-88 | the chain without the node stays acyclic and in order, and the node is freed once |
| PortList.LinkedList.RemoveItem | server/queue.h:74-99 | the first match is unlinked and freed once; a search that fails loses the whole list; list and status are those of the code's removal on sequences |
| PortList.LinkedList.CountItems | server/queue.h:100-112 | returns the number of items |
| PortList.LinkedList.GetItem | server/queue.h:113-125 | returns the node of the first match, null if and only if there is none |
| PortList.LinkedList.Destroy | server/queue.h:33-45 | frees every node once, first to last |
| PortList.RemovedAsPromisedIff | server/queue.h:74-99 | on a non-empty list removal leaves the promised list and returns the promised status if and only if the first match lies behind the head; the list alone is right if and only if the port is present, the status alone if and only if the head does not match |
| PortList.RunConserves | server/queue.h:33-99 | over any run every item added is, once, in the list, freed or lost |
| PortList.NothingLostIff | server/queue.h:85-97 | a run loses nodes if and only if some removal misses |
| PortList.PerformAll | server/queue.h:33-99 | a list in memory that goes through any operations has the items, freed and lost nodes that the laws over runs speak of, each node in one place |
| Departures.ShortRead | aesd-char-driver/main.c:113-128 | a read of one byte from a two-byte command reports one, copies two and moves by two |
| Departures.SeekEndBeyondStream | aesd-char-driver/main.c:217-227 | after n > 10 bare newlines SEEK_END gives n where the stream ends at ten |
| Departures.ReadLeavesBlock | aesd-char-driver/main.c:299-304 | after one write and one read unloading leaves a block behind |
| Departures.UnfinishedLeavesBlock | aesd-char-driver/main.c:299-304 | after one write without a newline unloading leaves a block behind |
| Departures.WrappedCommandInvisible | aesd-char-driver/aesd-circular-buffer.c:38-63 | a command of 2^32 bytes is the stream, yet every read answers 0 |
| Departures.EmptyWriteHasNoLastByte | aesd-char-driver/main.c:182 | a write of no bytes to a freshly loaded device has no byte to look at |
| Departures.FullBufferOverruns | server/aesdsocket.cpp:175-198 | a receive buffer of letters only, of any length, is read past its end |
| Departures.FullLineUnterminated | server/aesdsocket.cpp:186-198 | any letters and a newline that fill their buffer are framed whole, with no NUL behind them |
| Departures.GarbledReply | server/aesdsocket.cpp:226-247 | an orderly run in which two clients send the same line and reads of one byte make the server send three bytes instead of four, the second command laid over the end of the first |
| Departures.AbsentPortLosesList | server/queue.h:84-97 | removing a port that no item has from a list of one loses the item |
| Departures.HeadRemovalReturnsNothing | server/queue.h:80-83 | removing the item at the head leaves the promised list and returns no value instead of 0 |

## Left out

- Kernel registration, `container_of`, `printk` and the print helpers: calls into the kernel without effect on the data modelled.
- The ring structure itself is one allocation made at load and freed at unload (`main.c` lines 268 and 304); the heap ledger covers the command, pending and read blocks.
- `aesd_circular_buffer_read_entry` and the second constructor of `linkedList`: short wrappers.
- The check of the ring pointer against NULL comes after its first use (`aesd-circular-buffer.c` lines 39 and 44); the model has a ring.
- Sizes above 2^64 and wrap-around of `size_t` and `loff_t`: no allocation of such a size succeeds.
- A user copy that fails part-way may have changed part of the user's buffer; the model reports no data in that case.
- Socket creation, `accept`, signals, daemonising and the bound on the number of threads: plumbing around the threads modelled.
- Timestamps: compiled out in the configuration modelled.
- The counters of the lock and unlock retry loops are one step that gives up; how often they retry does not matter to what is proved.
- A read that stdio serves through a buffer of its own: if it asks for what it meets it leaves the same bytes in the file buffer as one that goes there directly, and otherwise the driver writes past the end of that buffer, whose neighbours are not modelled.
- FileBuffer.Laid: bytes that the driver would copy past the end of the file buffer are not recorded; `ReadsInsideBuffer` shows when there are none.
- Sessions.EndToEnd: other processes that open the device beside the server are not modelled, so every command comes from a client's line; `fopen`, `fwrite` and device calls are taken to succeed there.
- `malloc` failing in the linked list: the code either throws or follows a null pointer.
