# Verified model of the KVM hypervisor

The project models a small hypervisor that runs one writer VM and any number of reader VMs, and proves
that its parts do what its documentation promises, one by one and together.

| module | what it is about |
|---|---|
| `Protocol` | the state behind the buffer mutex, every critical section as a step on it, and the port dispatch |
| `SharedBuffer` | the same code as classes updated in place, proved equal to `Protocol` |
| `Broadcast` | any number of VM threads in any interleaving, with sleeping, spurious wake-ups and aborts |
| `Rounds` | guests that run the protocol for any number of rounds: nobody is refused, nobody gets stuck, everybody finishes |
| `PrivateFiles` | the simple system the file layer stands for: a VM with private copies of all shared files |
| `HostFiles` | the host's regular files and open descriptors, every call of which may fail |
| `FileTable`, `FileIo` | the copy-on-write file layer of one VM, class and specification |
| `FileLaws` | what each file request means, in the numbers the guest passes and the bytes it finds, and what follows for several requests |
| `ExistenceTest` | the one host call whose failure the file layer does not recover from |
| `FileService` | the file layers of all VMs on one host, from their start on |
| `FilePort`, `Names` | pending results of nested requests; local paths |
| `PageTables` | both page-table builders, the four-level walk of section 5.3 of the AMD64 Architecture Programmer's Manual, Volume 2, and image loading |
| `GuestPrograms`, `Hypervisor` | the default guest, its interrupt handler, the host's run loop and failures, as one state machine |
| `InterruptHandler` | the handler as it is written, loops over a byte buffer on top of the ports and the real file layer, shown to make the steps of the state machine |
| `Completion`, `Termination`, `Success` | what its runs come to: delivered data, exit status, the end of every run, and that success is reached |
| `Deployment` | the same runs on the file layers of all VMs on one host |
| `Launch`, `Cli` | what main sets up and decides, the exit loop, and the command line |

Main results:

- **Broadcast.** In every run of disciplined VMs, each reader's acknowledged payloads are the writer's
  payloads, in order, at most the last one missing; each protocol step is a step of an atomic broadcast
  channel. The discipline (a reader asks for a size before it reads or acknowledges) is necessary: a
  concrete run shows what goes wrong without it. The host's guards let an early operation through exactly
  in generation 0, and hand out a byte of no published payload exactly to a reader that is not between a
  size and its acknowledgement; runs show both.
- **Copy-on-write.** Every sequence of file requests of all VMs, started with eager copies, gives the
  results and memory that private copies would have given; originals never change; no host descriptor
  leaks, is shared or is closed twice. Any host call may fail, with one exception: the theorem holds up
  to the first open for which the existence test fails although the VM has its own file of a shared
  name. After such an open the next write removes that file, so the exception is exact: an open for
  writing and a write agree with the private system iff the test has not misled the open.
- **File requests.** What is written is read back after a seek, wherever in the file and whatever buffers
  are used; a seek to the end and a write append; a closed descriptor is gone for good. A request is told
  from its 24 bytes in guest memory, lowest byte first.
- **Page tables.** For every accepted memory size both builders map exactly the guest's memory to itself,
  and loading an image leaves this as it is.
- **Whole runs.** Every run ends within a bound that depends on the number of VMs only. A run that has
  ended exits with success iff nothing failed outside the protocol, and then every reader's `reader.txt`
  begins with the first 256 bytes of the writer's `guest.txt`; if the writer has that file there is such
  a run. All this holds on one host shared by the file layers of all VMs.
- **Command line.** Arguments are accepted with a configuration iff they say it, in any order of the
  options and in either spelling of each.

Assumptions: shared originals lie outside `vm_files`, nothing but the hypervisor changes the files,
guest memory is zero at first, and each critical section is atomic (it runs under the buffer mutex).
In the whole-run model a VM's file system is a private one from `PrivateFiles`; `Deployment` carries its
runs over to the real file layers. The boot code may make any file requests.

## Model

| member | source | states |
|---|---|---|
| Protocol.DecodeExact | host/src/shared_buffer.cpp:214-263 | an operation gets through its own port access iff role and mode state admit it, and no port access reaches any other operation |
| Protocol.PortTable | host/src/shared_buffer.cpp:214-263 | port 0x510 or 0x520, direction, access size, role and mode state of every operation, in literal numbers, and the count or byte it carries |
| SharedBuffer.SharedBufferState.FinishWriterData | host/src/shared_buffer.cpp:47-53 | the round becomes readable under a new generation, the writer remembers it, and sleepers are notified |
| SharedBuffer.SharedBufferState.BeginWriterRound | host/src/shared_buffer.cpp:68-95 | in place, exactly the critical section that the protocol theorems are about, wait and refusal included |
| SharedBuffer.SharedBufferState.WriteSharedByte | host/src/shared_buffer.cpp:97-119 | same, with the data array written in place and bytes beyond 256 consumed without a trace |
| SharedBuffer.SharedBufferState.FinishWriterRound | host/src/shared_buffer.cpp:121-148 | same, for the writer's final wait |
| SharedBuffer.SharedBufferState.BeginReaderRound | host/src/shared_buffer.cpp:150-174 | same, for a reader's request for a size |
| SharedBuffer.SharedBufferState.ReadSharedByte | host/src/shared_buffer.cpp:176-188 | same, for one byte handed to a reader |
| SharedBuffer.SharedBufferState.FinishReaderRound | host/src/shared_buffer.cpp:190-209 | same, for an acknowledgement |
| SharedBuffer.SharedBufferState.HandleSharedBufferIo | host/src/shared_buffer.cpp:214-263 | every port access runs the critical section it decodes to, or is refused without any change |
| SharedBuffer.SharedBufferState.AbortSharedBuffer | host/src/shared_buffer.cpp:265-270 | only the stop flag changes, and sleepers are notified |
| Broadcast.StepInv | host/src/shared_buffer.cpp:47-209 | every disciplined action of any VM keeps the protocol invariant (round state, writer's and readers' generations, logs, acknowledgement count) |
| Broadcast.RunInv | host/src/shared_buffer.cpp:47-209 | the invariant holds throughout every disciplined run |
| Broadcast.SilentStepsKeepWaitersBlocked | host/src/shared_buffer.cpp:47-52 | a critical section that does not notify cannot make any other VM's wait predicate true |
| Broadcast.NoLostWakeups | host/src/shared_buffer.cpp:74-163 | in every run, disciplined or not, a sleeper that has not been notified would go straight back to sleep |
| Broadcast.BroadcastDelivery | host/src/shared_buffer.cpp:121-209 | each reader's acknowledged payloads are the published ones, in order, all or all but the last; no generation is skipped or acknowledged twice; the host's count is the number of readers level with the generation |
| Broadcast.WriterFinishesLast | host/src/shared_buffer.cpp:121-148 | when a writer's round finishes, all readers hold everything published, and the count returned is the length kept of the last transfer |
| Broadcast.RefinesChannel | host/src/shared_buffer.cpp:47-209 | each action is a step of a channel that publishes only when every reader has taken everything, and delivers the oldest payload not taken |
| Broadcast.SnapshotStep | host/src/shared_buffer.cpp:102-105 | no action of any VM changes data, size or generation while some reader is between its size and its acknowledgement |
| Broadcast.SnapshotStable | host/src/shared_buffer.cpp:150-209 | so they stay the same over that whole interval |
| Broadcast.BytesInOrder | host/src/shared_buffer.cpp:176-209 | in that interval a reader holds a prefix of the payload in transit, and it acknowledges all of it, under its true length |
| Broadcast.ReaderOutcomes | host/src/shared_buffer.cpp:150-209 | what a reader that has asked for a size before gets from each operation, told from the logs: a size is refused only after a stop or in mid-transfer and waits exactly while everything published is acknowledged; it is the length of the oldest payload not acknowledged; bytes and acknowledgement are accepted exactly as that payload allows |
| Broadcast.WriterOutcomes | host/src/shared_buffer.cpp:68-148 | when each of the writer's operations is refused, waits or is done, told from the logs, and that the end of a round returns how many bytes were kept |
| Broadcast.StoppedIsFinal | host/src/shared_buffer.cpp:265-270 | after a stop no operation changes the buffer or any VM's progress |
| Broadcast.StoppedWakesAll | host/src/shared_buffer.cpp:265-270 | after a stop no operation blocks, and every sleeper has been notified |
| Broadcast.UndisciplinedReaderBreaksBroadcast | host/src/shared_buffer.cpp:176-201 | a run without the discipline in which the writer's round completes although its reader got a byte that was never sent |
| Broadcast.EarlyOperationAccepted | host/src/shared_buffer.cpp:181-199 | a reader that has not asked for a size is served exactly in generation 0, within the announced size |
| Broadcast.DisciplineIsExact | host/src/shared_buffer.cpp:176-209 | an accepted acknowledgement keeps the invariant iff the reader has asked for a size before; an accepted byte is the next one of a published payload iff the reader is between a size and its acknowledgement |
| Broadcast.BytesAreExact | host/src/shared_buffer.cpp:176-188 | in every disciplined run an accepted byte is the next one of a published payload iff its reader is between a size and its acknowledgement |
| Broadcast.LateByte | host/src/shared_buffer.cpp:181-186 | a disciplined run in which a reader that has acknowledged is handed a byte of no published payload, once a larger round is announced |
| Rounds.MoveTied | guest/src/interrupts.c:22-62 | every step of the guests' programs keeps their position, their logs and the protocol state in agreement |
| Rounds.NeverRefused | guest/src/interrupts.c:22-62 | while nobody has stopped the buffer, the host refuses none of the guests' operations |
| Rounds.DeadlockFree | host/src/shared_buffer.cpp:68-209 | until all programs are finished some VM has a step that is not a spurious wake-up |
| Rounds.SpuriousWakeupIsStutter | host/src/shared_buffer.cpp:74-163 | a wake-up without notification changes nothing |
| Rounds.MoveDecreases | host/src/shared_buffer.cpp:68-209 | every other step lowers a measure in which a reader's round counts at most 258 operations |
| Rounds.RoundsComplete | host/src/shared_buffer.cpp:68-209 | every schedule of k rounds has a bounded length, and where it cannot go on all VMs have completed their transfers and all readers hold all messages, each cut to 256 bytes |
| PrivateFiles.NameAtIs | host/src/file_io.cpp:73-91 | guest memory holds at most one valid name at an address |
| PrivateFiles.FlagsAreBitFields | host/src/file_io.cpp:93-116 | the accepted flag words and the access they give are those of the bit masks, negative words included |
| PrivateFiles.StepWellFormed | host/src/file_io.cpp:244-375 | under any request and any fault every open descriptor names an existing file, descriptors stay below the next one, and no file disappears |
| PrivateFiles.OnlyWritesChangeFiles | host/src/file_io.cpp:286-375 | the content of a file changes only by a successful write through a writable descriptor of its name |
| PrivateFiles.OverwriteReadsBack | host/src/file_io.cpp:343-344 | written bytes are found where they were written, a gap is zero, and nothing else has moved |
| FileIo.RecordDecoded | host/src/file_io.cpp:423-426 | the request read from memory is the one whose six fields stand there as four little-endian bytes each, in two's complement where signed, and no other |
| FileLaws.OpenLaw | host/src/file_io.cpp:244-284 | when an open is accepted, by flag numbers and the file there is; it gives the next number at offset 0, and creates an empty file only where there was none |
| FileLaws.NoNameLaw | host/src/file_io.cpp:244-254 | an open whose name address holds no valid name is refused |
| FileLaws.CloseLaw | host/src/file_io.cpp:286-297 | after a close, refused or not, the descriptor is gone and nothing else has changed |
| FileLaws.ReadLaw | host/src/file_io.cpp:299-319 | a read gives the bytes of the file from the offset on, the count of them or up to the end, at the buffer and nowhere else, and moves the offset behind them; at or past the end it gives none |
| FileLaws.TransferRefused | host/src/file_io.cpp:303-345 | which reads and writes are refused, and that a count of zero does nothing |
| FileLaws.FlagsStayProper | host/src/file_io.cpp:244-284 | no request opens a descriptor with other than the six accepted flag words |
| FileLaws.WriteLaw | host/src/file_io.cpp:321-345 | the bytes at the buffer stand in the file at the offset, a gap is zero, every other byte, file and descriptor is as before, and the offset is behind them |
| FileLaws.SeekLaw | host/src/file_io.cpp:347-375 | whence 1 goes to the given offset and 2 to the end of the file; the position is returned unless above 0x7fffffff; everything else is refused without a change |
| FileLaws.UnknownOperation | host/src/file_io.cpp:380-392 | any other operation number is refused |
| FileLaws.FaultLaw | host/src/file_io.cpp:286-345 | a refusal by the host leaves everything but the closed descriptor as it was; a short write is a write of fewer bytes |
| FileLaws.SeekThenRead | host/src/file_io.cpp:299-375 | a seek to a position and a read give the bytes of the file at that position |
| FileLaws.WriteThenReadBack | host/src/file_io.cpp:299-375 | a write, a seek back to where it began and a read of the same count give the bytes written, for any position and buffers |
| FileLaws.SeekThenAppend | host/src/file_io.cpp:321-375 | a seek to the end and a write append to the file |
| FileLaws.ClosedForGood | host/src/file_io.cpp:244-375 | after a close, refused or not, and any requests, every close, read, write and seek with that number is refused and no open gives it out again |
| FileIo.IsValidGuestFileName | host/src/file_io.cpp:43-56 | accepts exactly non-empty strings over the ASCII letters, digits and the dot, in literal ranges, that start with a letter |
| FileIo.ReadGuestFileName | host/src/file_io.cpp:73-91 | finds the name at a guest address iff such a string of at most 255 characters and a zero byte stand there within memory |
| FileIo.GuestFiles.constructor | host/inc/file_io.hpp:23-28 | a VM starts with no descriptors, no pending results and descriptor 3 as the next one |
| FileIo.GuestFiles.ResolveFile | host/src/file_io.cpp:138-156 | a VM's own file takes precedence over a shared original, unless the existence test fails for it: a failing test counts as no |
| FileIo.GuestFiles.OpenHostFile | host/src/file_io.cpp:256-272 | whether the existence test fails or not, an original is opened read-only and never created; a failed open leaves files and descriptors as they were |
| FileIo.GuestFiles.OpenFile | host/src/file_io.cpp:244-284 | to the guest, opening is opening in the private system, unless the existence test has misled it; then the descriptor is on the original beside the VM's own file |
| FileIo.GuestFiles.CloseFile | host/src/file_io.cpp:286-297 | the descriptor leaves the table and its host descriptor the host, every other one and all files stay, and -1 is returned for an unknown one; to the guest, this is closing in the private system, also when the host's close fails |
| FileIo.GuestFiles.ReadFile | host/src/file_io.cpp:299-319 | to the guest, result, memory and offset are those of a read of the private copy |
| FileIo.GuestFiles.WriteFile | host/src/file_io.cpp:321-345 | to the guest, a write of the private copy, done fully, in part or not at all, with the original untouched; after a misled open it is refused and removes the VM's own file |
| FileIo.GuestFiles.SeekFile | host/src/file_io.cpp:347-375 | to the guest, a seek in the private system, positions beyond the range of int included |
| FileIo.GuestFiles.CloseReopenedFiles | host/src/file_io.cpp:158-163 | exactly the descriptors opened so far are closed again |
| FileIo.GuestFiles.ReopenEach | host/src/file_io.cpp:167-195 | every shared descriptor of the name has a second one on the copy at the same offset, or everything is as before |
| FileIo.GuestFiles.CommitReopened | host/src/file_io.cpp:197-202 | the old host descriptors are closed and exactly the matching entries moved |
| FileIo.GuestFiles.ReopenSharedFiles | host/src/file_io.cpp:165-205 | all matching descriptors move to the copy and the view stays, or table and descriptors stay |
| FileIo.GuestFiles.CopyOriginal | host/src/file_io.cpp:213-230 | the original is copied to a name that is free, or nothing changes; a file already there is removed |
| FileIo.GuestFiles.AdoptCopy | host/src/file_io.cpp:232-241 | the fresh copy takes the original's place for all descriptors of the name, or is removed with everything as before |
| FileIo.GuestFiles.PrepareFileForWrite | host/src/file_io.cpp:207-242 | privatisation is all or nothing and never shows: on success no descriptor of the name is left on the original, on failure files, descriptors and offsets are as before, an incomplete copy being removed; only after a misled open it fails by removing the VM's own file |
| FileIo.GuestFiles.ProcessFileRequest | host/src/file_io.cpp:377-393 | lazy copy-on-write refines eager copies: every request gives the private system's result, memory and new state, with a fault only if a host call failed, and stays within the VM, unless the existence test misleads an open |
| FileIo.GuestFiles.HandleFileIo | host/src/file_io.cpp:398-447 | an OUT to port 0x278 performs the request whose fields stand at its address as little-endian two's complement bytes, and no other; a record beyond memory gives -1; each IN takes the latest pending result, whatever the requests were |
| FileIo.GuestFiles.CloseGuestFiles | host/src/file_io.cpp:449-457 | the table is emptied and exactly its host descriptors are closed |
| FileTable.PrivatisedView | host/src/file_io.cpp:165-242 | moving the descriptors to a fresh copy keeps the table in order and the guest's view as it was |
| FileTable.PrivatisedConfined | host/src/file_io.cpp:165-242 | and no other VM's file or descriptor takes part in it |
| FileTable.RolledBack | host/src/file_io.cpp:176-192 | closing the descriptors opened so far restores the host's descriptors, offsets included |
| FileTable.OpenedView | host/src/file_io.cpp:267-283 | a descriptor added to the table is the private system's next descriptor at offset 0 |
| FileTable.WrittenView | host/src/file_io.cpp:343-344 | a host write through one descriptor shows in the view as a write of that name, with the offsets of all other descriptors kept |
| FileTable.ReadView | host/src/file_io.cpp:317-318 | a host read shows in the view as a read of that name |
| FileTable.NobodyOn | host/src/file_io.cpp:145-155 | no descriptor is on a local file that does not exist, so removing a fresh copy removes no file in use |
| FileLaws.WriteAndReadBack | host/src/file_io.cpp:299-375 | on the copy-on-write layer, a write, a seek back and a read without host failure give the bytes written, be the file shared or the VM's own |
| ExistenceTest.OpenThenWrite | host/src/file_io.cpp:143-155 | an open for writing and a write without host failure through it agree with the private system iff the existence test has not misled the open; if it has, the write is refused and removes the VM's own file |
| ExistenceTest.OwnFileLost | host/src/file_io.cpp:224-229 | an input on which a VM so loses what it had written |
| FileTable.OtherVmUnaffected | host/src/file_io.cpp:138-156 | a change confined to one VM leaves another VM's table in order and its view as it was |
| FileService.FreshServes | host/inc/file_io.hpp:23-28 | with no descriptor open and empty tables every guest sees its eager copies: the originals it has no file of its own for, and its own files |
| FileService.StartFiles | host/src/main.cpp:70-81 | the file layers of all VMs so start, each with its own number |
| FileService.PrivateMeansPrivate | host/src/file_io.cpp:138-375 | in the reference a VM's files do not depend on other VMs' requests |
| FileService.OthersKept | host/src/file_io.cpp:138-242 | after a request of one VM all tables are in order, no host descriptor belongs to two VMs or to none, and every other VM's view is as it was |
| FileService.ServeOne | host/src/file_io.cpp:377-447 | one request of one of many VMs that is not misled: its reply is the private system's, nothing outside its directory changes |
| FileService.Serve | host/src/file_io.cpp:138-447 | every sequence of requests of all VMs, up to the first the existence test misleads, gives the replies of private systems, without faults if no host call failed; no original changes; open host descriptors are exactly those of the tables |
| FilePort.OneOperation | host/src/file_io.cpp:415-444 | what one port operation does to the pending results |
| FilePort.BalancedRestoresStack | host/src/file_io.cpp:415-444 | a well-nested trace leaves the pending results as it found them |
| FilePort.MatchExists | guest/src/file.c:7-11 | in a well-nested trace every IN has its own OUT |
| FilePort.MatchingResult | host/src/file_io.cpp:429-441 | and returns the result of that OUT, at any depth of nesting and whatever was pending before |
| FilePort.SubmitFileRequest | guest/src/file.c:7-11 | a request interrupted by any well-nested requests between its OUT and its IN gets its own result |
| FilePort.NothingPending | host/src/file_io.cpp:435-440 | an IN with nothing pending returns -1 |
| Names.LocalPathInjective | host/src/file_io.cpp:140-141 | different VMs or different valid names have different local paths |
| Names.DecimalReadsBack | host/src/file_io.cpp:141 | the decimal numeral in a directory name determines the VM |
| PageTables.FlaggedPage | host/src/vm.c:146-172 | or-ing the flags into a page-aligned address adds them: address and flags stay separate |
| PageTables.Identity4K | host/src/vm.c:131-155 | over the 4 KiB tables the walk maps every address below the memory size to itself, writable and user, and faults on every other canonical address |
| PageTables.Identity2M | host/src/vm.c:157-174 | the same over the 2 MiB directory |
| PageTables.SameTranslation | host/src/vm.c:191-195 | both builders define the same translation |
| PageTables.BelowLoadAddress | host/inc/vm.h:14 | what happens at or above 0x8000 cannot change the tables |
| PageTables.TableRegionIsTight | host/src/vm.c:141-142 | the tables fit below 0x8000 iff memory is at most 8 MiB, and end exactly there iff it is 8 MiB |
| PageTables.WriteEntry | host/src/vm.c:146-152 | storing an entry changes that entry and no other |
| PageTables.EntryBytes | host/src/vm.c:146-152 | the value of an entry stands in memory as eight bytes, lowest first |
| PageTables.FillPageTable | host/src/vm.c:148-153 | one page table is filled and no other table is touched |
| PageTables.SetupPageTables4K | host/src/vm.c:131-155 | the loops build all 4 KiB tables and leave every other entry as it was |
| PageTables.SetupPageTables2M | host/src/vm.c:157-174 | the loop builds the 2 MiB directory and leaves every other entry as it was |
| PageTables.SetupLongMode | host/src/vm.c:176-197 | from zeroed memory, the bytes of every entry of the chosen kind of tables at their literal addresses, and zeros everywhere else |
| PageTables.LoadGuestImage | host/src/vm.c:205-241 | succeeds iff the image can be read and fits; what could be read is at the load address and all other memory is untouched, also on failure |
| PageTables.PrepareGuest | host/src/vm_runner.cpp:172-194 | after setup and loading, the walk is the identity on guest memory and image byte i is found at virtual address 0x8000 + i |
| GuestPrograms.LoadIsPrefix | guest/src/interrupts.c:24-28 | if the handler's file requests succeed, what it sends is the beginning of guest.txt, at most 257 bytes |
| GuestPrograms.LoadReportsFailures | guest/src/interrupts.c:25-39 | a load of which the host refuses a request, the close included, does not count as loaded |
| GuestPrograms.SaveHoldsPayload | guest/src/interrupts.c:56-61 | if the handler reports success, reader.txt begins with what was received, whatever it held before |
| GuestPrograms.SaveReportsFailures | guest/src/interrupts.c:56-61 | a save of which the host refuses any of the four requests is not reported as a success |
| InterruptHandler.Submit | guest/src/file.c:7-11 | a request the guest submits gets the private system's reply |
| InterruptHandler.LoadMessage | guest/src/interrupts.c:25-28 | open, read and close on the copy-on-write layer load what `GuestPrograms` says, for the host failures that occur |
| InterruptHandler.SendMessage | guest/src/interrupts.c:30-35 | the loop makes exactly the accesses of the writer's program, in order, for any message and any answers |
| InterruptHandler.WriteSharedBuffer | guest/src/interrupts.c:22-39 | both together; it reports success iff the state machine does |
| InterruptHandler.FetchBytes | guest/src/interrupts.c:51-52 | the loop leaves in the buffer the bytes answered, in order, and changes no other memory |
| InterruptHandler.ReceiveMessage | guest/src/interrupts.c:41-54 | the reader's program from the size to the acknowledgement, a size over 256 included, which is acknowledged as zero |
| InterruptHandler.SaveMessage | guest/src/interrupts.c:56-61 | open, seek, write and close save what `GuestPrograms` says, for the host failures that occur |
| InterruptHandler.ReadSharedBuffer | guest/src/interrupts.c:41-62 | both together: what is saved is what was acknowledged, and nothing is saved for a size over 256 |
| InterruptHandler.Guest.Irq0Handler | guest/src/interrupts.c:65-89 | the first interrupt makes one access, for the mode, and no request; every later one makes the transfer of the role and records its success |
| Hypervisor.ModeReadIsMode | guest/src/interrupts.c:72-74 | the first interrupt's IN is answered with the VM's role |
| Hypervisor.TransferIsMove | guest/src/interrupts.c:30-54 | during a transfer the host resolves every port access to the operation the guest means |
| Hypervisor.EventKeeps | host/src/vm_runner.cpp:210-295 | every event, failures included, keeps the invariant that ties host counters, guest variables, protocol and files |
| Hypervisor.MachineRunInv | host/src/vm_runner.cpp:145-317 | the invariant holds throughout every run |
| Completion.TwoInterruptsOneTransfer | host/src/vm_runner.cpp:251-266 | a VM is interrupted at most twice and attempts at most one transfer, and exactly so when its guest reports back; host and guest agree on the mode and on whether it is known |
| Completion.PortNeverMistaken | host/src/shared_buffer.cpp:224-250 | in no run is the one-byte IN on port 0x510 mistaken between mode and data |
| Completion.ReaderFileHoldsMessage | guest/src/interrupts.c:22-62 | a reader whose guest reports success has a reader.txt that begins with what the writer sent, cut to 256 bytes |
| Completion.SuccessMeansDelivered | host/src/main.cpp:83-114 | a successful exit means that every VM completed its transfer, generation 1 was acknowledged by all readers, and every reader.txt begins with the first 256 bytes of the writer's guest.txt |
| Completion.StoppedReachesAll | host/src/vm_runner.cpp:308-312 | once one VM has failed, the next operation of every VM in a transfer is refused and nobody stays asleep |
| Completion.StoppedIsFinalForAll | host/src/vm_runner.cpp:271-275 | after a stop the buffer does not change, and a VM that had not completed its transfer never does and never succeeds |
| Completion.ExitStatus | host/src/main.cpp:99-114 | a run that has ended exits with success iff no guest crashed, no thread failed to be created or joined, and no file request of a handler failed: the protocol alone never makes a VM fail; VMs after a thread that could not be created have no thread to wait for |
| Termination.SomebodyGoesOn | host/src/vm_runner.cpp:210-317 | after any failures, until every thread has ended some thread has a step that is not a spurious wake-up |
| Termination.EventUsesFuel | host/src/vm_runner.cpp:210-317 | every event that changes anything lowers a measure |
| Termination.EveryRunEnds | host/src/vm_runner.cpp:210-317 | a run of n VMs without spurious wake-ups has at most (8n + 2)(259n(n + 1) + n + 1) steps (`StepBound`), and where it cannot go on every thread has ended |
| Success.FailureFreeRunSucceeds | host/src/main.cpp:83-114 | a run without failures that cannot go on exits with success, everything delivered |
| Success.SuccessIsPossible | guest/src/interrupts.c:22-62 | from power-on there is such a run, if the writer has a file guest.txt |
| Deployment.RunFiles | guest/src/file.c:7-11 | in every run the files of every VM are what its requests make of its private file system |
| Deployment.ServeRun | host/src/vm_runner.cpp:233-237 | the requests of a run, served by the file layers of all VMs on one host that fails as the run says, leave every guest with the files the run gives it; after a successful exit the writer's data is in the readers' files on the host |
| Launch.ConfigureSharedFiles | host/src/main.cpp:19-44 | accepts exactly the lists of regular files with valid, pairwise different base names, and maps each name to its original and nothing else |
| Launch.ConfiguredIsShared | host/src/main.cpp:19-44 | what it accepts is what the file layer assumes of shared originals |
| Launch.BaseNameIsLastPart | host/src/main.cpp:30 | the guest name of a path is the part behind its last slash |
| Launch.StartFileLayers | host/src/main.cpp:66-81 | with an accepted list every VM's file layer starts as eager copies, ready for any sequence of requests |
| Launch.AssignRoles | host/src/main.cpp:63-81 | the first guest is the writer, all others are readers and counted as such: an initial state of the protocol |
| Launch.RunVirtualMachine | host/src/vm_runner.cpp:206-296 | the loop ends at the first exit that is not handled, succeeds iff that is a halt after a completed transfer, and uses the first two interrupt windows and no others |
| Launch.StartAndJoin | host/src/main.cpp:83-114 | success iff every thread was created, joined and completed; the buffer is stopped iff a thread could not be created or joined |
| Cli.TakeOperands | host/src/cli.cpp:180-188 | the inner loop takes the longest run of operands |
| Cli.TakeOption | host/src/cli.cpp:128-222 | one pass of the loop takes the option's values and stops behind them, or refuses |
| Cli.ParseArguments | host/src/cli.cpp:109-252 | the arguments give a configuration iff they say it: the memory sizes 0x200000, 0x400000 and 0x800000 as 2, 4 and 8, the page sizes 0x1000 and 0x200000 as 4 and 2, images and files as they stand |
| Cli.AcceptsExactlyCommandLines | host/src/cli.cpp:109-252 | the same told by option groups in some order, each kind at most once, with memory, page size and images |
| Cli.ConfigurationsExactly | host/src/cli.cpp:26-252 | for every configuration, it is accepted from exactly the arguments that say it, in any order of the options and in either spelling of each |
| Cli.HelpExactly | host/src/cli.cpp:122-126 | help is shown iff a help option follows valid groups only |
| Cli.AcceptedConfig | host/src/cli.cpp:26-70 | an accepted configuration has one of three memory sizes, one of two page sizes and at least one image |

## Left out

- KVM ioctls, memory mapping, segment and control registers, and the bounds check of I/O data against the mapped run page: calls into the kernel.
- Serial console, output buffering, usage and error texts: user interface.
- The mutex and the condition variable themselves: a critical section is one atomic step, a wait is a sleep that a notification or a spurious wake-up ends.
- Broadcast.RunInv: needs the discipline that readers ask for a size first, because the code's guards compare with initial zeros in generation 0; `Broadcast.DisciplineIsExact` gives the exact condition, and says when bytes read after an acknowledgement are not of a published payload.
- FileService.Serve: what happens after a misled open is followed only to the next write through it (`ExistenceTest`); files removed while descriptors are open on them are not modelled further.
- InterruptHandler.Guest.Irq0Handler: its file requests are taken not to be misled by the existence test.
- FileIo.GuestFiles.PrepareFileForWrite: removing the fresh copy is taken to succeed.
- FileIo.GuestFiles.ReadFile: a read of a regular file returns all that is available up to the count, or fails; POSIX.1-2017 allows fewer bytes only when a signal interrupts the read, and the hypervisor installs no signal handler.
- Interleaving of one VM's host calls with another VM's inside a file request: requests are atomic in `FileService`; that no request touches another VM's files or descriptors is proved.
- File permissions, links, directories in place of files, and changes of the files by others.
- Wrap-around of the 64-bit generation and of the 32-bit descriptor counter.
- Reserved bits of page-table entries, the no-execute bit and paging caches.
- GuestPrograms.SaveHoldsPayload: the guest's request records are passed by value; that the guest's stack keeps the name and the buffer intact between its own stores is an assumption (`SaveReady`, `LoadReady`).
- In `Hypervisor` a handler's file requests are one event, since no other VM can see or disturb them.
- In `Launch` the handling of each exit is an input of the loop; `Hypervisor` models what the handling does.
- The test guests under tests: particular scenarios of the general theorems.
