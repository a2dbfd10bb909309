# The AESD "last ten commands" store, modelled and proved

The repository keeps the last ten newline-terminated commands written to a
character device and serves them, through a threaded socket server, to clients.
This project models the store in three layers and proves what each promises to
the one above it.

- **Ring** (`Ring.dfy`): ten slots, two offsets and a full flag. The class holds
  the code; its invariant says that the fields are what a history of added
  entries determines. Everything said about the ring is said for every history.
- **Driver** (`Lines.dfy`, `Ledger.dfy`, `Store.dfy`, `Coded.dfy`, `Positions.dfy`,
  `Driver.dfy`): line assembly on write, short reads, size, seek and cleanup over
  manually allocated blocks. `Store` has the writes as functions of the *log*
  (every command ever added, as bytes) and the pending bytes; `Coded` has the
  write as coded in closed form; `Positions` has reads and seeks as functions of
  the log; `Driver.AesdDev` is the code, each method tied to those functions, with
  the memory ledger as its invariant.
- **Server** (`Framing.dfy`, `Session.dfy`, `Server.dfy`, `Replies.dfy`,
  `Release.dfy`, `Serving.dfy`): the per-connection framing loop, one client's
  exchange on the real device class, and all client threads as a state machine
  whose steps (a device call, a mutex operation, a local action) interleave
  freely. `Replies` says what clients are answered, `Release` exactly when the
  mutex can come free again, `Serving` that then every line sent can be served.
- **Threads** (`ThreadList.dfy`, `Lifecycle.dfy`, `Reaping.dfy`, `Progress.dfy`):
  the pointer-linked thread list, spawn / add / mark / exit / reap / final join as
  a second machine, exactly which threads its reaping loop joins, and that it can
  always go on to the next connection or to a complete shutdown.

## Where the code differs from its promise

The code is modelled as it is. Four places do not do what they are for.

1. *Write* (`aesd-char-driver/main.c:160`): the size of a command is measured
   from the start of the buffer, not from `cmd_start`. `Store.LiteralWriteDeviates`
   gives an input, `Store.LiteralWriteExact` the exact condition: the write is
   right if and only if pending plus incoming bytes hold at most one newline.
   Bytes the code copies from behind the buffer are a parameter (`junk`, which may
   differ from round to round) that every theorem quantifies over. `FromBuffer` is the code, `FromCommand` what is
   meant; `WriteIntended` is the second one and is not in the repository.
   `Coded.LiteralWriteCoded` is what the code does do with any number of newlines,
   byte for byte.
   `Server.LiteralIsReference` shows that the server never triggers it.
2. *Seek* (`aesd-char-driver/main.c:258`, `:269-276`): command numbers are
   physical slots. `Positions.SeekDeviates` gives a ring, `Positions.LiteralSeekExact`
   the exact condition: seeks land where they should if and only if the slot
   sizes are unchanged by rotating the slots to reading order (in particular
   whenever `out_offs` is 0). `OrderedSeek` is the seek in reading order, right in
   every ring. In every ring the coded seek still goes one-to-one and in slot order
   onto the contents (`Positions.LiteralSeekDefined`, `Positions.LiteralSeekOrdered`,
   `Positions.LiteralSeekOnto`).
3. *Failed seek* (`server/aesdsocket.c:272-275`): the loop continues without
   releasing `file_mutex`. `Release.StuckRunIsReal` is a run from the start, a seek
   packet sent to the empty store, after which no continuation releases it;
   `Server.FailedSeekFreezes`: no packet of any client reaches the device
   afterwards. `Release.SeekReleases` gives the exact condition for one seek, the
   device's own range test, `Release.StuckIffSeekFails` that over whole runs, and
   `Release.ReleaseExact` says for every reachable state whether the mutex can
   come free: if and only if no seek failed and the holder is not about to seek in
   an empty store. A packet that is no seek never stands in the way
   (`Release.WriterReleases`). The thread itself goes on receiving and at its next
   newline waits for the mutex it holds (`Release.FailedSeekDeadlocks`).
4. *Early mark* (`server/aesdsocket.c:187-193`, `:309`): a worker that marks itself
   between its creation and the addition of its entry is never reaped, only freed
   at shutdown. `Reaping.EarlyMarkRun` is such a run from the start, three steps
   long, `Reaping.EarlyMarkIsNeverReaped` what follows from it.
   `Reaping.ReapedIffMarkedAfterAdd` is the exact condition: the next reaping loop
   that comes by joins the thread if and only if it marked itself after the
   addition (`Reaping.LateMarkRun` is a run where it does).

The comment at `aesd-char-driver/aesd-circular-buffer.c:68` says the overwritten
entry is returned; the code returns its `buffptr`, and so does the model.

## Model

| member | source | states |
|---|---|---|
| Ring.CircularBuffer.constructor | aesd-char-driver/aesd-circular-buffer.c:110-113 | an initialised ring is the ring of the empty history |
| Ring.CircularBuffer.AddEntry | aesd-char-driver/aesd-circular-buffer.c:70-105 | appends to the history and returns the buffer of the entry that falls out of the last ten, NULL if none does |
| Ring.SlotsClosedForm | aesd-char-driver/aesd-circular-buffer.c:82-96 | for every history, slot i holds the newest entry whose number is i modulo ten, or is unused |
| Ring.LogicalOrder | aesd-char-driver/aesd-circular-buffer.c:38-51 | walking ten slots from `out_offs` meets the last ten entries, oldest first, then only unused slots |
| Ring.Rotated | aesd-char-driver/aesd-circular-buffer.h:41-48 | the slots rotated by `out_offs` are the last ten entries padded with unused ones |
| Ring.CircularBuffer.FindEntryOffsetForFpos | aesd-char-driver/aesd-circular-buffer.c:29-59 | finds an entry exactly when the position is below the total size; the entry's bytes before it plus the offset give the position back |
| Ring.LocateUnique | aesd-char-driver/aesd-circular-buffer.c:21-27 | at most one (entry, offset) pair lies at a position, zero-size entries included |
| Ring.PhysicalSum | aesd-char-driver/aesd-circular-buffer.h:75-78 | summing slots in physical order gives the size of the logical contents, for every rotation |
| Ledger.Kernel.Kmalloc | aesd-char-driver/main.c:133 | hands out a block never handed out before, contents unspecified |
| Ledger.Kernel.Kfree | aesd-char-driver/main.c:199 | frees only a live block; every block handed out is live or freed, never both |
| Ledger.Kernel.Extend | aesd-char-driver/main.c:131-142 | one fresh block with the old bytes and the new ones, the old block freed |
| Ledger.Kernel.CopyCommand | aesd-char-driver/main.c:161-174 | of the two blocks allocated per command exactly the entry's own survives, holding the copied bytes |
| Ledger.Kernel.MoveRest | aesd-char-driver/main.c:190-199 | what a block holds from some place on, in one fresh block, the old block freed |
| Ledger.OwnsExactly | aesd-char-driver/main.c:131-207 | the ledger: live blocks are the ring's blocks and the pending block, all different |
| Ledger.OwnsAdd | aesd-char-driver/main.c:165-180 | adding an entry and freeing the evicted one keeps the ledger |
| Ledger.CoversSlots | aesd-char-driver/main.c:376-384 | however rotated, the slots point to exactly the live blocks, each once |
| Store.LiteralWriteExact | aesd-char-driver/main.c:155-185 | the coded write leaves the promised log, ring contents and pending bytes if and only if it meets at most one newline |
| Store.LiteralWriteDeviates | aesd-char-driver/main.c:160-162 | two complete lines in one write: the second command is too long |
| Store.LaterCommandsMalformed | aesd-char-driver/main.c:156-184 | every command after the first in one write carries bytes behind its newline |
| Store.IntendedLoopSplits | aesd-char-driver/main.c:152-185 | with the size measured from `cmd_start` the loop is the line splitter for any number of newlines |
| Store.LiteralBytesExact | aesd-char-driver/main.c:158-185 | the coded write conserves bytes if and only if it meets at most one newline |
| Coded.LiteralWriteCoded | aesd-char-driver/main.c:131-207 | closed form of the coded write, for any number of newlines and both ways: with `end(k)` the bytes of the first k lines, line k is reached if `end(1) + … + end(k)` and the line itself fit in the buffer; its command has `end(k + 1)` bytes, read from `end(k)` on and past the buffer's end from memory; what is pending starts at `end(n)` for the n lines reached |
| Store.WriteCut | aesd-char-driver/main.c:131-207 | two writes leave what one write of both leaves, for every cut (splitter) |
| Store.ReferenceRunIsOneWrite | aesd-char-driver/main.c:131-207 | any sequence of writes is one write of the stream (splitter) |
| Store.LiteralRunExact | aesd-char-driver/main.c:131-207 | over a run of writes the code and the splitter agree if and only if no write carries two newlines |
| Store.StreamTheorem | aesd-char-driver/main.c:131-207 | from a fresh device: the log is the lines of the whole stream and the tail is pending, if and only if each write carries at most one newline |
| Store.PacketWrites | server/aesdsocket.c:278-285 | a packet and its newline as two writes add exactly that one command and leave nothing pending, in the code and in the splitter |
| Lines.SplitUnique | aesd-char-driver/main.c:152-207 | lines and tail are the only way to cut a stream into terminated lines and a newline-free rest |
| Driver.AesdDev.constructor | aesd-char-driver/main.c:342-352 | a fresh device: empty log, nothing pending, nothing live |
| Driver.AesdDev.Stage | aesd-char-driver/main.c:131-150 | pending and incoming bytes end up in one block; ledger kept |
| Driver.AesdDev.AddCommand | aesd-char-driver/main.c:160-180 | adds the copied bytes to the log; pending bytes and ledger kept |
| Driver.AesdDev.AddNext | aesd-char-driver/main.c:156-184 | one round of the loop: adds the command as sized and copied, of `cmd_break + 1` bytes in the code, and moves past its newline; the window stays in the buffer and `read_size` decreases |
| Driver.AesdDev.AddLines | aesd-char-driver/main.c:153-185 | the loop adds the commands, and stops where, the measure of sizes determines |
| Driver.AesdDev.KeepRest | aesd-char-driver/main.c:187-207 | the rest becomes pending; the pending block is NULL exactly when nothing is left |
| Driver.AesdDev.Write | aesd-char-driver/main.c:119-218 | the coded write, on every input and for any memory behind the buffer, down to its closed form; equal to the splitter if and only if it meets at most one newline |
| Driver.AesdDev.WriteIntended | aesd-char-driver/main.c:152-207 | the write as meant is the splitter on every input |
| Driver.AesdDev.Read | aesd-char-driver/main.c:72-116 | returns the contents from the position on, within one entry, and nothing exactly at the end or for a zero count; what it returns stands in the history of all commands behind the evicted bytes |
| Driver.AesdDev.Size | aesd-char-driver/main.c:394-403 | the length of the contents, in every rotation |
| Driver.AesdDev.AdjustFileOffset | aesd-char-driver/main.c:247-286 | moves the position as coded or fails and leaves it; on success it is inside the contents, so the next read returns a byte |
| Driver.AesdDev.Cleanup | aesd-char-driver/main.c:363-384 | nothing stays live: every block ever allocated was freed |
| Driver.AesdDev.FreeSlots | aesd-char-driver/main.c:376-384 | frees every non-NULL slot and clears its pointer, keeping sizes |
| Positions.ReadLengthBounds | aesd-char-driver/main.c:87-98 | a read is non-empty exactly below the size, and never runs over it |
| Positions.ReadTakes | aesd-char-driver/main.c:97-101 | a read from inside a command takes what is asked for, up to the command's end |
| Positions.EntryAt | aesd-char-driver/aesd-circular-buffer.c:42-52 | the bytes found at (entry, offset) are the contents at the sum of earlier sizes plus the offset |
| Positions.TenStay | aesd-char-driver/aesd-circular-buffer.c:70-105 | up to ten commands the contents are the whole history |
| Positions.NextEvictsOldest | aesd-char-driver/aesd-circular-buffer.c:70-105 | with ten or more, a further command evicts exactly the oldest of the last ten |
| Positions.VisibleIsHistorySuffix | aesd-char-driver/aesd-circular-buffer.c:77-101 | the contents are the history of all commands without the evicted bytes |
| Positions.ReadIsHistory | aesd-char-driver/main.c:87-111 | what a read returned stands at that place of the history of all commands at any later time |
| Positions.ReadGap | aesd-char-driver/main.c:87-111 | between two reads a reader misses one stretch of the history, as long as the commands evicted in between: first read, missed bytes and second read follow each other there |
| Positions.SizeChange | aesd-char-driver/main.c:156-185 | a write changes the size by bytes completed less bytes evicted; all bytes are evicted, visible or pending |
| Positions.VisibleEndsWith | aesd-char-driver/aesd-circular-buffer.c:82-96 | the contents end with the newest command |
| Positions.LiteralSeekExact | aesd-char-driver/main.c:251-283 | coded seeks land on the command and offset asked for, and agree with the ordered seek, if and only if the slot sizes are rotation invariant |
| Positions.SeekDeviates | aesd-char-driver/main.c:258-276 | a rotated ring where asking for command 0 lands in command 1 |
| Positions.UnrotatedSeek | aesd-char-driver/main.c:251-283 | with `out_offs` 0 every coded seek is right |
| Positions.LiteralSeekInside | aesd-char-driver/main.c:257-282 | a successful coded seek is inside the contents in every ring |
| Positions.LiteralSeekDefined | aesd-char-driver/main.c:251-263 | a coded seek succeeds if and only if the number is below ten and the offset inside the newest command of that number modulo ten |
| Positions.LiteralSeekOrdered | aesd-char-driver/main.c:266-282 | in every ring coded seeks keep the order of slots and offsets, so no two land in the same place |
| Positions.LiteralSeekOnto | aesd-char-driver/main.c:266-282 | in every ring each position of the contents is where some coded seek lands |
| Positions.OrderedSeekFinds | aesd-char-driver/main.c:238-246 | the ordered seek succeeds exactly for a visible command and an offset in it, and its bytes are found there |
| Framing.ClientHandler.constructor | server/aesdsocket.c:222-227 | an empty zeroed buffer |
| Framing.ClientHandler.TakeByte | server/aesdsocket.c:302-304 | a byte that is no newline lengthens the tail and completes no packet, up to the last place of the buffer |
| Framing.ClientHandler.TakeNewline | server/aesdsocket.c:246-294 | a newline completes the tail as one packet and clears the buffer |
| Framing.ClientHandler.ProcessBuffer | server/aesdsocket.c:244-305 | the packets of a buffer are the next lines of all bytes received, however they were chunked |
| Framing.ClientHandler.SeekTestSeesPacket | server/aesdsocket.c:255-293 | as long as a zero is left behind the packet, `strstr` on the whole buffer sees exactly the packet |
| Framing.SeekTextInside | server/aesdsocket.c:255 | a packet is a seek if and only if its text contains the nineteen bytes of `AESDCHAR_IOCSEEKTO:` |
| Framing.CStringEnds | server/aesdsocket.c:255 | the text of a buffer is its longest start without a zero |
| Session.Drain | server/aesdsocket.c:296-301 | repeated reads of any positive counts, different each time or not, give the whole rest of the contents, and end |
| Session.WritePacket | server/aesdsocket.c:277-285 | on the device class the two writes add one command and leave nothing pending |
| Session.Execute | server/aesdsocket.c:254-286 | the branch under the mutex: a seek moves the position as the device has it, or fails and leaves it; any other packet becomes one command |
| Session.ServePacket | server/aesdsocket.c:250-301 | a packet is answered with the contents from the position on, the one sought for a seek packet; from position 0 the answer to any other packet ends with it and its newline; a failed seek is not answered |
| Session.LookUp | aesd-char-driver/aesd-circular-buffer.c:29-59 | in every ring the lookup undoes the seek over commands in order: it finds a slot and offset if and only if that seek, asked for them, gives the position |
| Session.SeekThenLookUp | aesd-char-driver/main.c:251-283 | with `out_offs` 0 a successful seek followed by the lookup at its position gives back the command and offset asked for; with rotation-invariant sizes, the slot so many places from the oldest |
| Server.ServerSafety | server/aesdsocket.c:229-306 | for every interleaving: with the mutex free the log is the non-seek packets in acquisition order and nothing is pending; each log line is one client's line; of what a client sent every byte was processed or still waits, and its lines are served in order, once, and all of them when nothing waits |
| Server.StepKeeps | server/aesdsocket.c:229-306 | every step of every thread keeps the protocol invariant |
| Server.RunReceives | server/aesdsocket.c:231-305 | over any run, what arrives at a connection is processed or waits in the receive buffer, in order and complete |
| Server.LiteralIsReference | aesd-char-driver/main.c:155-185 | on every server run the coded write loop and the splitter give the same steps and states |
| Server.FailedSeekFreezes | server/aesdsocket.c:272-275 | after a failed seek no packet of any client reaches the device |
| Release.SeekReleases | server/aesdsocket.c:272-290 | after a seek the mutex can come free if and only if the seek found its place |
| Release.StuckIffSeekFails | server/aesdsocket.c:272-275 | over any run that starts with nobody stuck, a thread is stuck at its end, with the mutex, if and only if a seek of the run failed |
| Release.WriterReleases | server/aesdsocket.c:277-290 | the holder of a packet that is no seek can always go on to release the mutex |
| Release.ReleaseExact | server/aesdsocket.c:250-290 | in every reachable state the mutex can come free if and only if nobody is stuck and the holder is not about to seek in an empty store |
| Release.ReleaseAfterRun | server/aesdsocket.c:250-290 | the same for every run from the start, in terms of the seeks of the run |
| Release.StuckRunIsReal | server/aesdsocket.c:272-275 | from the start, a seek packet sent to the empty store, whatever its numbers, leaves the mutex locked for good |
| Release.FailedSeekDeadlocks | server/aesdsocket.c:272-275 | after a failed seek the thread collects the next line behind the seek packet, and then waits for the mutex it holds itself, in every continuation |
| Serving.EveryLineServed | server/aesdsocket.c:229-306 | from every reachable state in which the mutex can come free, and for any client whose lines fit the buffer, some continuation serves and answers all the lines it sent, in order; another client may take part in it |
| Serving.HangUpIsFinal | server/aesdsocket.c:234-242 | after a hang-up the client's thread takes no further step |
| Server.UnlockedWritesSplice | server/aesdsocket.c:250-290 | were two threads in the section at once, a run of four of their steps would make one command of both packets, and an empty one |
| Replies.ChunkInHistory | server/aesdsocket.c:296-301 | on every run, evictions included, each chunk sent stands in the history at the end of the run, at its position behind the bytes evicted when it was read |
| Replies.SentInPieces | server/aesdsocket.c:296-301 | on every run, evictions included, what a client is sent between two seeks of its own is pieces of the history in order, none twice |
| Replies.SentSegment | server/aesdsocket.c:296-301 | while nothing is evicted, what a client is sent between two seeks of its own is one contiguous stretch, whatever other threads do |
| Replies.PositionIsSent | server/aesdsocket.c:296-301 | without seeks a descriptor's position advances by exactly the bytes sent, over any number of packets |
| Replies.SentIsContents | server/aesdsocket.c:296-301 | all answers to a connection that never seeks, over a run that evicts nothing, are together the contents up to its position |
| Replies.Reply | server/aesdsocket.c:296-301 | when a drain ends the client was sent everything visible from where it stood before |
| Replies.EchoFirstPacket | server/aesdsocket.c:276-301 | a connection's first packet is answered with the whole contents, ending with that packet |
| Replies.SeekReply | server/aesdsocket.c:266-301 | a seek packet is answered with everything visible from the position sought; with `out_offs` 0 that begins with the command and offset asked for |
| ThreadList.ThreadManager.Add | server/aesdsocket.c:365-381 | prepends |
| ThreadList.ThreadManager.Search | server/aesdsocket.c:390-391 | finds the first entry with the id, or none |
| ThreadList.ThreadManager.MarkComplete | server/aesdsocket.c:413-438 | sets the flag of the first entry with the id and nothing else; -1 if there is none |
| ThreadList.ThreadManager.Unlink | server/aesdsocket.c:393 | takes out one entry, order of the rest kept |
| ThreadList.ThreadManager.Remove | server/aesdsocket.c:383-411 | takes out and frees the first entry with the id; -1 and unchanged if there is none |
| ThreadList.ThreadManager.JoinHead | server/aesdsocket.c:445-452 | joins the first thread and frees its entry |
| ThreadList.ThreadManager.FreeAll | server/aesdsocket.c:440-454 | joins and frees every entry in list order, and ends |
| Lifecycle.LifecycleSafety | server/aesdsocket.c:179-207 | for every interleaving: ids in the list are unique; the join that either loop is about to issue names a thread that exists and was not joined, the one whose entry is visited; no thread is joined twice; entries are freed once and only after exit and join; after the final loop every thread started was joined and freed |
| Lifecycle.StepKeeps | server/aesdsocket.c:179-207 | every step of the main thread or a worker keeps the invariant |
| Lifecycle.JoinsVisited | server/aesdsocket.c:201-203 | the thread joined is the one whose entry is visited, although ids are reused |
| Lifecycle.RemovedOwn | server/aesdsocket.c:205 | the entry freed is the one whose thread was just joined |
| Reaping.MarkShows | server/aesdsocket.c:187-193 | a thread's mark shows in its entry if and only if the entry was added before |
| Reaping.ReapedIffSeen | server/aesdsocket.c:198-207 | the next loop that comes by joins a thread past its mark if and only if its entry shows the mark |
| Reaping.ReapedIffMarkedAfterAdd | server/aesdsocket.c:187-207 | the next loop that comes by joins a thread if and only if it marked itself after its entry was added |
| Reaping.EarlyMarkRun | server/aesdsocket.c:187-193 | three steps from the start after which a listed thread is past its mark and shows none |
| Reaping.EarlyMarkIsNeverReaped | server/aesdsocket.c:198-207 | after that run no reaping ever joins the thread, whatever follows short of shutdown |
| Reaping.LateMarkRun | server/aesdsocket.c:198-207 | a run from the start in which the first loop joins the thread that marked itself after the addition; its id may then be given out again |
| Progress.ShutdownClearsAll | server/aesdsocket.c:440-454 | from every reachable state some continuation ends the final loop with every thread joined and its entry freed |
| Progress.NextConnection | server/aesdsocket.c:152-208 | from every reachable state before shutdown some continuation takes in a further connection, whichever it is |

## Left out

- Failed allocations, failed user copies and interrupted locks: allocation and copies succeed, as do the server's device writes and reads.
- NULL arguments of the ring functions, and zero-size allocations as a special pointer (`kmalloc(0)` is a block of no bytes here).
- Store.LiteralWrite: bytes read from behind the buffer are arbitrary values; that the C code is undefined there is not modelled further.
- `aesd_llseek`: it relies on the kernel's `fixed_size_llseek`, which is not part of this model.
- Widths of `size_t`, `loff_t` and `uint8_t`: offsets stay below ten and sizes within memory; the truncation of the server's seek numbers to 32 bits is modelled.
- Parsing of the seek text: which packets are seeks is modelled, but the numbers parsed are arbitrary, which covers that `sscanf` reads another buffer.
- Framing.ClientHandler.ProcessBuffer: excludes a byte that arrives when the buffer is full: in C another byte is written past its end, and at a newline the string test reads past it.
- Each driver call is one atomic step; the unlocked ring accesses of seek and size are not interleaved with other calls.
- Lifecycle.LifecycleSafety: the reaping loop reads the successor from the entry it has just freed; here it is captured before, and shutdown does not interrupt the loop.
- Closing of descriptors, and failures of `accept`, `open` and `pthread_create`.
- Sockets, daemon mode, signals, timers, timestamps, logging, `aesd_print_cb`, module and device registration: calls into the system only.
- The other programs and scripts of the repository: nothing in them spans operations.
