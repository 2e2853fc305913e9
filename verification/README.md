# A verified model of an i386 Linux emulator's core

This project models, in Dafny, the parts of a user-mode i386 Linux emulator written in Go that carry
the most state, and proves what they promise over every input and every run. It covers

- the guest address space: the list of mappings, page permissions, and guest memory;
- the memory system calls mmap2, munmap, mremap and brk;
- signal delivery and rt_sigreturn, with handlers nested to any depth;
- pipes, and the descriptor tables of all processes that share them;
- futexes and the waits of scheduled tasks;
- the cooperative scheduler with wait4 and with system calls that block on pipes, futexes and children,
  running over those same descriptor tables, pipes and futex queues;
- the initial process stack and the reader of argument vectors;
- REL and RELR relocation;
- arithmetic flags, branch conditions and multi-limb addition and subtraction.

Objects whose methods change them in place are classes (`AddressSpace`, `MemoryKernel`, `SignalKernel`,
`PipeBuffer`, `PipeHandle`, `DescriptorTables`, `FutexTable`, `Scheduler`, `FlagUnit`); their methods are
proved against functions and step relations on values, and the theorems are lemmas about runs of those
steps: `PipeWorlds` (descriptors and pipes), `Futexes`, `Signals`, and `Systems` (all tasks with the
descriptors, pipes and futexes they share), whose runs `SystemRuns` splits into runs of the former.
Registers and addresses are integers in 32-bit ranges, and every wrap-around is written out with `Add32`
and `Sub32`. `dafny verify dfyconfig.toml` checks the project.

## Where the code departs from what one would expect

The model follows the code. For each of these, the property one would expect is stated with the exact
condition under which the code meets it, or with what the code does instead.

- Removing a range strictly inside a mapping that has a successor loses every later mapping, because the
  filter appends two entries to the slice it is still reading (`Mappings.RemoveExact`,
  `Mappings.RemoveLosesSuccessor`, `Mappings.RemoveSplit`); on a list with repeated entries, exactly when
  only copies of the split mapping follow it (`Mappings.RemoveTidyExact`).
- Such a removal leaves the right part of the mapping several times. Changing the permission of a range of
  a repeated mapping can then leave the list out of order, and a further change can succeed on a hidden
  copy without effect (`Mappings.ProtectOrderIff`, `Mappings.ProtectEffectIff`, `Mappings.ProtectHidden`).
- Adding a mapping sorts the list by start. On a list that such a change has left out of order this can
  undo the change; it leaves other addresses alone, however ties are broken, exactly when every address
  already has the permission of the mappings of lowest start there (`Sortings.AddsOnlyIff`,
  `Sortings.AddUndoes`).
- So can a call that fails. A non-fixed mmap2 without PROT_WRITE under protection, and an mremap that cannot
  write what it has added, add a mapping, are refused its zero-fill and remove it again; only MAP_FIXED puts
  the saved list back. What is left is a sort of the list (`Sortings.UndoneIsSort`), so the error can make a
  read-only page writable again (`MemorySyscalls.MmapUndoesProtect`, `MemorySyscalls.MremapUndoesProtect`).
  Every address keeps its permission exactly when the call fails before adding or every address already has
  the permission of the mappings of lowest start there (`Sortings.FailureKeepsPermissionsIff`); a list ordered
  up to repeated entries is given back as it was.
- MAP_FIXED replaces exactly its range only away from address 0 and where removal is safe; at address 0
  it unmaps the range and maps elsewhere (`MemorySyscalls.FixedExact`, `MemorySyscalls.FixedAtZero`).
  A moving mremap has the corresponding condition (`MemorySyscalls.MoveExact`).
- A length of 0xfffff001 rounds to 0 pages. A failing mremap of that old length that is otherwise possible
  zeroes the hole it would have moved to, and only then can a failing mremap change bytes
  (`MemorySyscalls.FailureKeepsBytesIff`, `MemorySyscalls.FailureZeroes`).
- SBB adds the borrow to the subtrahend in 32 bits, so a subtrahend of 0xffffffff with a borrow loses the
  borrow, and the overflow flag is wrong exactly for the largest positive subtrahend with a borrow
  (`Flags.SbbBorrowExact`, `Flags.SbbOverflowExact`). A subtraction chain is exact exactly when no limb
  loses its borrow (`Limbs.SubChainCorrectIff`).
- A RELR bitmap before the first address entry is applied relative to address 0 instead of the load base
  (`Relocations.RelrTargetsExact`).
- In an address space smaller than one page FindHole returns 0x1000, which is out of range.
- A new signal frame overlaps a live one exactly when the interrupted stack pointer is from 32 to 367 bytes
  above that frame's base (`Signals.OverlapIff`); the outer handler's return can then give the inner
  handler's context (`Signals.OverlapLoses`).
- Cloning a thread copies every descriptor of the process as fork does and then drops the copies without
  closing them; a task that is killed by a signal, or is a thread, does not close its descriptors when it
  ends, even as the last to use their table. These turns lose the ends of pipes, and no others do
  (`Leaks.LostIff`). A drained pipe that no live task can write is at its end exactly when no turn lost its
  write end, and a pipe that no live task can read gives EPIPE exactly when none lost its read end
  (`Leaks.EndsUnlessLost`, `Leaks.BreaksUnlessLost`, `Leaks.KilledReaches`); otherwise its readers, or its
  writers once it is full, are stuck for the rest of the run (`Leaks.ReadsStuckForever`,
  `Leaks.WritesStuckForever`).

## Model

| member | source | states |
|---|---|---|
| Mappings.RemoveExact | internal/i386/address_space.go:79-99 | on a sorted list the in-place removal loop equals interval subtraction, and equals the pointwise unmapping, if and only if the range is not strictly inside a mapping that has a successor |
| Mappings.RemoveSplit | internal/i386/address_space.go:79-99 | splitting mapping i of n leaves the first i mappings, the left part, and the right part n-i times |
| Mappings.RemoveForgets | internal/i386/address_space.go:79-99 | on a list ordered up to repeated entries, after such a split every address from the end of the split mapping up is unmapped, all others as asked |
| Mappings.RemoveTidyExact | internal/i386/address_space.go:79-99 | on any list ordered up to repeated entries, removal unmaps exactly the range if and only if only copies follow a mapping that the range is strictly inside |
| Mappings.RemoveLosesSuccessor | internal/i386/address_space.go:79-99 | a concrete list on which unmapping the middle page of a mapping loses the mapping above it |
| Mappings.RemovedTidy | internal/i386/address_space.go:79-99 | whatever is removed, the list stays ordered up to repeated entries, and within bounds |
| Mappings.InsertedAt | internal/i386/address_space.go:64-77 | adding a mapping to a free range sets exactly its addresses to its permission and leaves all others |
| Mappings.FreeIff | internal/i386/address_space.go:194-204 | with no empty mapping in the list, a range is free if and only if none of its addresses is mapped |
| Mappings.InsertRemove | internal/i386/address_space.go:64-99 | removing a mapping just added gives the list back exactly |
| AddressSpaces.RemoveInPlace | internal/i386/address_space.go:79-99 | the loop over the shared backing array, with any spare capacity, computes the specified in-place result |
| AddressSpaces.AddressSpace.Add | internal/i386/address_space.go:64-77 | on any list, succeeds exactly when the range is non-empty, in bounds and free; then the list is some sorting by start of the old entries and the new one, which in a tidy list is an insertion; else nothing changes |
| Sortings.AddsOnlyIff | internal/i386/address_space.go:64-77 | on any list, adding leaves all other addresses alone under every sorting if and only if each address already has the permission of every mapping of lowest start there |
| Sortings.TidyLowestFirst | internal/i386/address_space.go:64-77 | on a list ordered up to repeated entries that condition always holds |
| Sortings.AddUndoes | internal/i386/address_space.go:64-77 | on the list that protecting a page of a repeated mapping leaves, adding any mapping elsewhere undoes that protection |
| Sortings.SortingInserts | internal/i386/address_space.go:64-77 | in a list ordered up to repeated entries every sorting puts the new mapping in its place and moves nothing else |
| AddressSpaces.AddressSpace.Remove | internal/i386/address_space.go:79-99 | on any list, succeeds exactly when the range is non-empty and in bounds, and leaves what the in-place loop leaves; keeps a tidy list tidy, and a sorted one sorted where removal is safe |
| AddressSpaces.AddressSpace.Protect | internal/i386/address_space.go:101-128 | on any list, succeeds exactly when one mapping covers the range, and then splits the first that does; a sorted list stays sorted |
| Mappings.ProtectEffectIff | internal/i386/address_space.go:101-128 | on any list, the permission changes for exactly the addresses of the range if and only if no earlier mapping hides part of it with another permission |
| Mappings.ProtectOrderIff | internal/i386/address_space.go:101-128 | the list stays ordered up to repeated entries if and only if the covering mapping is not repeated or nothing changes |
| Mappings.TidyExposed | internal/i386/address_space.go:101-128 | on a list ordered up to repeated entries the change always takes effect |
| Mappings.ProtectHidden | internal/i386/address_space.go:101-128 | from a concrete list reached by one removal, two successful permission changes of which the second has no effect |
| Mappings.RepeatedReached | internal/i386/address_space.go:79-99 | a removal from a sorted list reaches that list |
| AddressSpaces.AddressSpace.FindHole | internal/i386/address_space.go:130-163 | on any list, returns the hint, the remembered hint or the result of the scan, in that order, as a function of the list; on a tidy one with at least one page the hole is free, in range and at or above 0x1000, and there is none only if no such start exists |
| AddressSpaces.AddressSpace.FirstFit | internal/i386/address_space.go:130-163 | on any list, the scan past the mappings; on a tidy one it finds the lowest start that fits, or there is none |
| AddressSpaces.AddressSpace.MapAnonymous | internal/i386/address_space.go:206-222 | on any list and in an address space of any size, maps the asked range or the hole that FindHole gives, and fails exactly when that range is not in bounds and free |
| AddressSpaces.AddressSpace.CheckRange | internal/i386/address_space.go:165-192 | on any list, the walk from mapping to mapping; in ascending order of start it succeeds exactly when every byte of the range is mapped with all requested permissions |
| Sortings.WalkAllows | internal/i386/address_space.go:165-192 | in ascending order of start the walk succeeds exactly when every byte is mapped with all requested permissions |
| AddressSpaces.AddressSpace.CheckAccess | internal/i386/memory.go:25-43 | on any list, access is granted exactly when it is in bounds and, once protection is on, the walk of CheckRange gets through; in ascending order of start, exactly when every byte is permitted |
| AddressSpaces.AddressSpace.MappingAt | internal/i386/address_space.go:224-231 | finds the mapping of an address exactly when it is mapped |
| AddressSpaces.AddressSpace.WriteBytes | internal/i386/memory.go:132-138 | on any list, writes all bytes exactly when access is granted, and otherwise none |
| Bytes.LittleEndian | internal/i386/memory.go:92-130 | words are stored and read low byte first |
| AddressSpaces.AddressSpace.ReadCString | internal/i386/memory.go:140-166 | on any list, returns the NUL-terminated string below the limit whose bytes can each be read, and fails exactly when there is none |
| MemorySyscalls.PageLengthRounds | internal/kernel/syscalls/memory/page_length.go:3-8 | the page length is a multiple of the page size at or above the length, except 0xfffff001, which gives 0 |
| MemorySyscalls.MemoryKernel.Munmap | internal/kernel/syscalls/memory/munmap.go:5-14 | on any list, succeeds exactly for an aligned address, a proper length and an in-range result, and then removes the range; else EINVAL |
| MemorySyscalls.MemoryKernel.Mmap2 | internal/kernel/syscall.go:1986-2075 | on any list, succeeds exactly when the length is proper, the file is readable, the place chosen is in range and free and, under protection, will be writable; then each byte of the new range is the file's, or 0 past its end or without a file, each address can be read, written and executed as asked, and no other byte changes; EINVAL, EBADF, ENOMEM and EFAULT each in their cases; every error keeps all bytes; an error with MAP_FIXED, or before a mapping was added, gives back the list, any other leaves a sort of it, which is the same list if it was tidy and has the same permissions if the mappings of lowest start came first; without MAP_FIXED the heap stays mapped |
| MemorySyscalls.MappedGives | internal/kernel/syscall.go:2003-2075 | what a mapping just made gives the program: the bytes of the file and then zeros, and exactly the access asked for |
| Sortings.UndoneIsSort | internal/kernel/syscall.go:2061-2075 | on any list, what adding a mapping over a free range and removing it again can leave are exactly the sorts of the list |
| Sortings.FailureKeepsPermissionsIff | internal/kernel/syscall.go:2061-2075 | on any list, every address keeps its permission after a failed call, however the sort breaks ties, if and only if the call had not added a mapping or each address already has the permission of every mapping of lowest start there |
| MemorySyscalls.MmapUndoesProtect | internal/kernel/syscall.go:2061-2075 | on the list that protecting a page of a repeated mapping leaves, a non-fixed mmap2 of a read-only page fails and undoes that protection |
| MemorySyscalls.MremapUndoesProtect | internal/kernel/syscall.go:2080-2164 | on that list, an mremap that tries to move the protected page fails and undoes that protection |
| MemorySyscalls.AddableIff | internal/i386/address_space.go:130-222 | on a tidy list memory can be mapped exactly when there is room for it: at the asked address, or somewhere from 0x1000 up |
| MemorySyscalls.HoleOkIff | internal/kernel/syscall.go:2022-2065 | on a tidy list a non-fixed mmap2 finds a place exactly when there is room somewhere from 0x1000 up, whatever the hint |
| MemorySyscalls.MemoryKernel.ReplaceFixed | internal/kernel/syscall.go:2017-2075 | on any list, the MAP_FIXED half succeeds exactly under the stated conditions and gives back the list and all bytes on every failure |
| MemorySyscalls.FixedExact | internal/kernel/syscall.go:2017-2075 | on any list ordered up to repeated entries, MAP_FIXED replaces exactly its range, if and only if the address is not 0 and only copies follow a mapping that the range is strictly inside; in a sorted list, if it is not strictly inside a mapping with a successor |
| MemorySyscalls.FixedAtZero | internal/kernel/syscall.go:2045-2061 | with protection on and page 0 mapped, MAP_FIXED at address 0 succeeds, leaves address 0 unmapped and maps elsewhere |
| MemorySyscalls.MemoryKernel.Mremap | internal/kernel/syscall.go:2080-2164 | on any list, succeeds exactly when a chain of adjacent like mappings covers the old range and it can be shrunk, extended in place or moved; an error before a mapping was added gives back the list, any other leaves a sort of it, as for mmap2; the bytes after an error are as FailedBytes says, which is unchanged unless the old length is 0xfffff001; EINVAL, ENOMEM and EFAULT each in their cases; a range that can grow in place is not moved, a move goes where FindHole or the caller says |
| MemorySyscalls.FailureKeepsBytesIff | internal/kernel/syscall.go:2080-2164 | a failing mremap changes no byte if and only if the request is not an otherwise possible one of old length 0xfffff001, or its hole held only zeros |
| MemorySyscalls.FailureZeroes | internal/kernel/syscall.go:2125-2164 | a family of inputs on which a failing mremap zeroes bytes |
| MemorySyscalls.HoleBesidePage | internal/kernel/syscall.go:2125-2164 | a concrete list of that family |
| MemorySyscalls.HeapKeptByRemap | internal/kernel/syscall.go:2080-2164 | a successful mremap of a mapping that is not the heap keeps the heap mapped, where the removals it makes are safe |
| MemorySyscalls.HeapKeptByMove | internal/kernel/syscall.go:2125-2164 | the case of a move |
| MemorySyscalls.MemoryKernel.Move | internal/kernel/syscall.go:2125-2164 | on any list, succeeds exactly when the old bytes are readable and a writable target exists; puts the old bytes and then zeros at a fresh range and changes no other mapped byte; a failure leaves the list, or a sort of it once a target was added |
| MemorySyscalls.MoveExact | internal/kernel/syscall.go:2125-2164 | a move unmaps the old range, maps the new one with the old permission and changes no other address, if and only if removal is safe in the list with the new mapping, whose place is computed from the list before the call |
| MemorySyscalls.MemoryKernel.Covered | internal/kernel/syscall.go:2092-2101 | on any list, the walk over adjacent mappings succeeds exactly when a chain of mappings like the first reaches the end; in a tidy one, exactly when every byte has the permission and name of the first |
| MemorySyscalls.ContiguousIff | internal/kernel/syscall.go:2087-2101 | on a tidy list mremap accepts the old range exactly when all of it is mapped with the permission and name of its first byte |
| MemorySyscalls.MemoryKernel.GrowInPlace | internal/kernel/syscall.go:2114-2123 | on any list, grows exactly when the pages that follow are in range, free and, under protection, will be writable, and zeroes them; otherwise keeps all bytes and leaves the list, or a sort of it once the mapping was added |
| MemorySyscalls.MemoryKernel.Unmap | internal/kernel/syscall.go:2070-2075 | on any list, removing a mapping just added over a free range leaves a sort of the list before |
| MemorySyscalls.MemoryKernel.Brk | internal/kernel/syscall.go:498-528 | keeps the invariant that the read-write heap is exactly the pages from the heap start to the break, below HeapEnd; grown bytes are zero even after shrinking; a refused request changes nothing |
| Signals.ContextRoundTrip | internal/kernel/signal.go:59-249 | the words that encode a context decode to that context, and are refused if and only if its stack pointer is 0 |
| Signals.NewMaskBits | internal/kernel/signal.go:115-118 | the handler's mask blocks what was blocked, what the action blocks and, without SA_NODEFER, the signal |
| Signals.SignalKernel.DeliverSignal | internal/kernel/signal.go:24-126 | on any mapping list, succeeds exactly for a valid number, a handler, a restorer, no SA_SIGINFO, enough stack and a frame each word of which is writable; then the handler starts as HandlerStarts says and exactly the frame is written, else no register changes, and no byte outside the frame |
| Signals.HandlerStarts | internal/kernel/signal.go:24-126 | EIP is the handler, ESP is aligned to 16 and 192 to 207 bytes lower, the words there are the restorer and the signal number, the mask blocks what it should, and every other register, segment and x87 field is as before |
| Signals.FrameLayout | internal/kernel/signal.go:51-113 | each field of the saved context is at its offset in the frame |
| Signals.SignalKernel.FindFrame | internal/kernel/signal.go:132-150 | takes the frame at the stack pointer, else the one a word below, by magic and version |
| Signals.SignalKernel.RtSigreturn | internal/kernel/signal.go:128-249 | restores exactly the context in the found frame, and fails, changing nothing, exactly when there is no sound readable frame |
| Signals.SignalKernel.TakePendingSignal | internal/kernel/syscall.go:633-644 | takes the lowest pending signal that is not blocked, and only that, or finds there is none |
| Signals.ReturnRestores | internal/kernel/signal.go:24-249 | from the frame's base or one word above it, rt_sigreturn gives back the saved context, unless its stack pointer is 0, which is refused |
| Signals.OverlapIff | internal/kernel/signal.go:42-46 | a new frame overlaps another if and only if the stack pointer is from 32 to 367 bytes above that frame |
| Signals.OverlapLoses | internal/kernel/signal.go:24-249 | an overlapping delivery before which the outer return would restore the outer context, and after which it restores the inner one, which differs |
| Signals.RunKeeps | internal/kernel/signal.go:24-249 | throughout every run whose deliveries overlap no live frame, on whatever stacks, live frames stay intact and pairwise disjoint |
| Signals.NestedRestore | internal/kernel/signal.go:24-249 | however deliveries nest, when a handler has returned the whole context and the outer frames are what they were when its signal arrived |
| Signals.NotTakenAgain | internal/kernel/signal.go:115-123 | a signal delivered without SA_NODEFER is not delivered again before its handler returns, unless guest code changes the mask |
| Pipes.PipeHandle.CloneHandle | internal/kernel/handles.go:163-172 | gives a new handle on the same end and counts it |
| Pipes.PipeHandle.ReadNonblocking | internal/kernel/handles.go:203-222 | hands out the oldest bytes, as many as asked for unless that empties the pipe; end of file exactly when empty without writers, blocks exactly when empty with writers |
| Pipes.PipeHandle.WriteNonblocking | internal/kernel/handles.go:224-247 | appends what fits; EPIPE exactly without readers, blocks exactly when full; the buffer stays within 65536 bytes |
| Pipes.PipeHandle.Close | internal/kernel/handles.go:290-305 | uncounts the handle once, however often it is closed |
| Pipes.ReadInOrder | internal/kernel/handles.go:203-222 | a read returns the oldest bytes, fewer than asked for only if none is left; end of file, blocking and refusal each exactly in their states |
| Pipes.WriteInOrder | internal/kernel/handles.go:224-247 | a write appends a prefix that fills the pipe unless it is whole; EPIPE, blocking and refusal each exactly in their states |
| Descriptors.DescriptorTables.AllocateFd | internal/kernel/syscall.go:1431-1444 | returns the lowest free descriptor from the start up |
| Descriptors.DescriptorTables.Dup | internal/kernel/syscalls/io/dup.go:3-17 | dup2 and dup3 give EINVAL and EBADF exactly in their cases and else the new descriptor, which they replace by a clone, keeping the count invariant |
| Descriptors.DescriptorTables.DupInstall | internal/kernel/dup_callback.go:3-18 | closes exactly the handle it replaces and installs a clone on the same end |
| Descriptors.DescriptorTables.FcntlDup | internal/kernel/syscall.go:1629-1691 | F_DUPFD clones into the lowest free descriptor from the argument up, with the error cases |
| Descriptors.DescriptorTables.MakePipe | internal/kernel/syscall.go:1700-1739 | puts the two ends of a new pipe in the lowest free descriptors and stores their numbers; a fault in guest memory undoes both and leaves at most the first number stored; exact error conditions |
| Descriptors.DescriptorTables.Close | internal/kernel/syscall.go:451-453 | succeeds exactly when something is behind the descriptor, closes its handle and no other |
| Descriptors.DescriptorTables.CloseDescriptor | internal/kernel/io_callbacks.go:3-8 | empties the slot, closes exactly its handle and clears its marks |
| Descriptors.DescriptorTables.Fork | internal/kernel/syscall.go:339-358 | whatever the order of the loop, the child gets a clone of each descriptor on the same file, and no other table changes |
| Descriptors.DescriptorTables.CloseCloexec | internal/kernel/syscall.go:1588-1600 | closes exactly the marked descriptors of the process |
| Descriptors.DescriptorTables.CloseOnExit | internal/kernel/syscall.go:1602-1607 | closes exactly the descriptors of the process |
| Descriptors.DescriptorTables.Read | internal/kernel/syscall.go:1035-1036 | a read through a descriptor is the Reads step: it moves bytes of its pipe only and keeps the invariant |
| Descriptors.DescriptorTables.Write | internal/kernel/syscall.go:1250-1251 | a write through a descriptor is the Writes step: it moves bytes of its pipe only and keeps the invariant |
| PipeWorlds.CountsAreHandles | internal/kernel/handles.go:144-172 | in every state of a run, readers and writers equal the numbers of unclosed handles on the ends, and each such handle is in exactly one slot |
| PipeWorlds.InstallKeeps | internal/kernel/handles.go:163-172 | installing a clone keeps counts equal to holders and every handle in one slot |
| PipeWorlds.ShedKeeps | internal/kernel/handles.go:290-305 | closing a slot keeps counts equal to holders and every handle in one slot |
| PipeWorlds.CreateKeeps | internal/kernel/handles.go:144-147 | a new pipe keeps counts equal to holders and every handle in one slot |
| PipeWorlds.StepKeeps | internal/kernel/syscall.go:339-358 | pipe, its undoing, dup, fcntl, open, close, fork, exec, exit, read and write each keep the invariant; none but read and write moves a byte |
| PipeWorlds.RunKeeps | internal/kernel/handles.go:144-305 | in every state of every run of those calls, by any processes in any order, counts are numbers of handles and each handle is in one slot |
| PipeWorlds.BytesConserved | internal/kernel/handles.go:203-247 | over every run, the bytes buffered first followed by the bytes written are, in order, the bytes read followed by the bytes buffered now, within capacity |
| PipeWorlds.EndOfFileForever | internal/kernel/handles.go:203-222 | once a read has returned end of file, so does every later read of at least one byte of that pipe |
| PipeWorlds.BrokenPipeForever | internal/kernel/handles.go:224-247 | once a write has returned EPIPE, so does every later write of at least one byte to that pipe |
| Futexes.FutexTable.Wait | internal/kernel/syscall.go:816-828 | blocks, last in its queue, exactly when no wait of the task is pending; else leaves every queue as it was |
| Futexes.FutexTable.Admit | internal/kernel/syscall.go:792-815 | the checks of a wait, with their error codes |
| Futexes.FutexTable.Wake | internal/kernel/syscall.go:872-891 | takes the oldest waiters from the front of the queue and releases them, as many as asked for unless that empties the queue, and returns how many; no channel is closed twice |
| Futexes.WokenWakes | internal/kernel/syscall.go:872-891 | what a wake leaves: the old queue is the released waiters followed by the new queue, at most the asked number are released, and fewer only if none is left |
| Futexes.WakesOldest | internal/kernel/syscall.go:872-891 | over every run, a wake lets a task resume from then on if and only if fewer waiters were before it in its queue than the wake is for |
| Futexes.FutexTable.RemoveWaiter | internal/kernel/syscall.go:897-912 | removes that waiter and keeps the order of the others |
| Futexes.FutexTable.TryResume | internal/kernel/syscall.go:231-255 | completes exactly when the deadline has passed or a wake released the waiter |
| Futexes.FutexTable.Futex | internal/kernel/syscall.go:780-895 | the whole call: dispatch, alignment, unknown operations, the checks of a wait, and exactly the queue effect of wait or wake |
| Futexes.StepKeeps | internal/kernel/syscall.go:780-912 | wait, wake, resume and refusal each keep every queued waiter unreleased, queued once and in order of arrival, and every blocked task queued or released |
| Futexes.RunKeeps | internal/kernel/syscall.go:780-912 | the same in every state of every run |
| Futexes.FirstComeFirstServed | internal/kernel/syscall.go:872-891 | over every run, of two tasks waiting at an address the earlier one is released no later |
| Futexes.RunOrderly | internal/kernel/syscall.go:872-891 | in every state of every run, of two tasks waiting at an address the earlier one is released if the later one is |
| Futexes.NoLostWakeup | internal/kernel/syscall.go:872-891 | over every run, after a wake for at least as many waiters as are queued each of them can resume whenever asked |
| Futexes.ReleasedByWakes | internal/kernel/syscall.go:780-912 | between any two states of a run, exactly the waiters that some wake counted are released |
| Futexes.ResumesIffWoken | internal/kernel/syscall.go:231-255 | a wait resumes if and only if some wake since it began released it, or it has a deadline and that has passed |
| Scheduling.Scheduler.Wait4 | internal/guest/scheduler.go:94-129 | returns and reaps the earliest-created unreaped child of the caller that was asked for, once it has exited, and stores its status; while that child lives, 0 with WNOHANG, else the caller blocks; ECHILD exactly when there is no such child, EFAULT when the status cannot be stored |
| Tasks.WaitMeans | internal/guest/scheduler.go:94-129 | the same of the value that specifies the loop, in terms of the tasks alone |
| Scheduling.Scheduler.Resume | internal/kernel/syscall.go:269-330 | a blocked call completes exactly when its child has exited, its futex was released or timed out, or its pipe can move bytes or fail, as read from the shared tables; it clears its record and leaves the result that ResumedCompletes states; else nothing changes |
| Scheduling.Scheduler.ResumeWait | internal/kernel/syscall.go:269-284 | the record is cleared and wait4 made again: either it sets the same record again, or it returns and reaps |
| Scheduling.Scheduler.ResumeFutex | internal/kernel/syscall.go:285-287 | completes through the futex queues, with 0 or ETIMEDOUT |
| Scheduling.Scheduler.ResumePipe | internal/kernel/syscall.go:288-330 | retries the saved read or write on the descriptor as it is now, EBADF if it is no longer a pipe |
| Scheduling.Scheduler.TransferSyscall | internal/kernel/syscall.go:291-330 | one try of a read or write: result, bytes moved and the two blocking conditions as Systems.Attempt gives them |
| Scheduling.Scheduler.PerformPipe | internal/kernel/syscall.go:1035-1044 | a read or write that would block leaves its record instead of a result |
| Scheduling.Scheduler.Instruct | internal/guest/process.go:107-131 | an instruction of each kind acts on tasks, descriptors and futexes as ExecutedDoes states, then the task is blocked if a record is set, exited with its descriptors closed unless it is a thread, or faulted |
| Scheduling.Scheduler.FileSyscall | internal/kernel/syscall.go:451-453 | close, dup, fcntl, pipe, open and exec each make one descriptor step on the caller's table and return their result or error; exec closes exactly the marked descriptors |
| Scheduling.Scheduler.ProcessStep | internal/guest/process.go:75-132 | the whole new state of the system after a step; exited and unresumable blocked tasks do nothing, and it fails exactly when the task is left faulted |
| Scheduling.Scheduler.PerformFork | internal/guest/scheduler.go:51-65 | a new task with an unused number, the right parent and a copy of each descriptor |
| Scheduling.Scheduler.PerformClone | internal/guest/scheduler.go:67-92 | a thread on its parent's table; the copies made on the way stay open, and the number is used up even on failure |
| Scheduling.Scheduler.Step | internal/guest/scheduler.go:131-157 | steps the earliest-created task that can run, which is the one with the least number; there is no progress exactly when every unexited task reads an empty pipe that has a writer, writes a full pipe that has a reader, waits on an unreleased futex before its deadline, or waits for a live child, and then nothing changes |
| Scheduling.Scheduler.HasBlockedTasks | internal/guest/scheduler.go:189-198 | true exactly when some unreaped task is blocked |
| Scheduling.Scheduler.Run | internal/guest/scheduler.go:159-187 | in every round the earliest-created task that can run takes a turn, or all are stuck; returns without error only when every task has exited, with a fault only when one has faulted, at the limit only when that many steps were taken, which are never more, and else goes on until it is cancelled |
| Scheduling.RoundsPath | internal/guest/scheduler.go:159-187 | the turns of such a run are a path of system steps, so what holds over every path holds over it |
| Systems.SteppedKeeps | internal/guest/process.go:75-132 | every step of every process keeps the whole invariant: Blocked iff exactly one of the three records is set iff a call is pending, only exited tasks are reaped, wait4 results, pipe counts and futex queues |
| Systems.ExecutedDoes | internal/guest/process.go:107-131 | field by field, what an instruction of each kind does: the value each call returns, the record of one that blocks, the new task of fork and clone, the waiters a wake releases, the child a wait4 reaps, the code of an exit; every other task is as it was |
| Systems.ResumedCompletes | internal/kernel/syscall.go:269-330 | completing a blocked call clears its record and leaves the result of the wait4 or transfer made now, or 0 or ETIMEDOUT for a futex wait |
| Systems.TurnEnds | internal/guest/process.go:90-131 | a turn that ends its task leaves it exited, with the code of its exit or 128 plus the number of the signal that killed it |
| Systems.StatusInRun | internal/guest/scheduler.go:117-124 | in every run, the status word a parent gets for a child has the low byte of that code as its second byte |
| Systems.RunsUnlessStuck | internal/kernel/syscall.go:269-330 | a task can go on if and only if it has not exited and none of the four waits holds it |
| Systems.AttemptBlocksIff | internal/kernel/handles.go:203-247 | a read or write through a descriptor blocks if and only if it reads an empty pipe that has a writer or writes a full pipe that has a reader |
| Systems.AttemptReturns | internal/kernel/syscall.go:291-330 | a read that does not block returns and removes the lesser of what it asks for and what is buffered, a write appends the lesser of what it has and what there is room for; EBADF, EPIPE and EFAULT each in their cases |
| Systems.BlockedIffRecorded | internal/guest/process.go:116-119 | in every state of every run from one process, a task is blocked exactly when it has one of the three records, and never two |
| Tasks.ReapKeeps | internal/guest/scheduler.go:117-124 | reaping an exited child keeps the invariant of tasks and their log |
| Systems.ExitedForever | internal/guest/scheduler.go:131-157 | in every run exited tasks stay exited with the same status and reaped ones stay reaped |
| Systems.NothingWhileBlockedInRun | internal/guest/process.go:82-87 | in every run, no instruction of a task executes between its call blocking and completing |
| Systems.CompletesOnceInRun | internal/kernel/syscall.go:269-330 | in every run, a blocked call completes at most once |
| Systems.ReturnedOnceInRun | internal/guest/scheduler.go:94-129 | in every run, no child is returned by two wait4 calls |
| Systems.WaitedInRun | internal/guest/scheduler.go:94-129 | in every run, a wait4 that has returned gave an exited child of the caller, the one asked for if any, with its status; or 0 with WNOHANG, ECHILD or EFAULT |
| Leaks.CloneDrops | internal/kernel/syscall.go:380-390 | cloning a thread leaves a copy of each descriptor of the process in a table no task uses |
| Leaks.KilledDrops | internal/guest/process.go:90-99 | killing a process leaves its descriptors as they are in a table no live task uses |
| Leaks.EndsOpenDrops | internal/guest/process.go:90-124 | so does the exit of a thread that is the last to use its table |
| Leaks.DroppedForever | internal/guest/process.go:75-132 | such a table keeps its descriptors for the rest of every run |
| Leaks.NewlyDropped | internal/guest/process.go:75-132 | a table comes to be unused only as the copy made for a thread or when its last user ends |
| Leaks.LostStep | internal/guest/process.go:75-132 | after any turn an unused table holds an end of a pipe if and only if one did before or the turn clones a thread of, or ends without closing the last user of, a table that holds it |
| Leaks.LostIff | internal/guest/process.go:75-132 | in every run from one process, an unused table holds an end of a pipe if and only if some earlier turn was one of those |
| Leaks.NeverEnds | internal/kernel/handles.go:203-222 | while such a table holds a write end, in every later state no read of the pipe returns end of file |
| Leaks.EndsUnlessLost | internal/kernel/handles.go:203-222 | in every run, a drained pipe that no live task can write is at its end if and only if no earlier turn lost its write end |
| Leaks.BreaksUnlessLost | internal/kernel/handles.go:224-247 | in every run, a pipe that no live task can read is broken if and only if no earlier turn lost its read end |
| Leaks.KilledReaches | internal/guest/process.go:90-99 | a run of two turns after which an empty pipe that nobody can write is not at its end |
| Leaks.HeldNever | internal/kernel/syscall.go:339-358 | in every run, an end that no live task holds is held by none ever again, and bytes then move one way only |
| Leaks.ReadsStuckForever | internal/kernel/handles.go:203-222 | once the write end is lost and unheld, every later read of the drained pipe is stuck |
| Leaks.WritesStuckForever | internal/kernel/handles.go:224-247 | once the read end is lost and unheld, every later write to the full pipe is stuck |
| SystemRuns.FilesRun | internal/guest/process.go:75-132 | the descriptors and pipes of every system run make a run of descriptor calls |
| SystemRuns.FutexRun | internal/guest/process.go:75-132 | the futexes of every system run make a run of futex events |
| SystemRuns.BytesConservedInRun | internal/kernel/handles.go:203-247 | over every system run the bytes of a pipe are conserved, in order and within capacity |
| SystemRuns.EndsForeverInRun | internal/kernel/handles.go:203-247 | over every system run end of file and EPIPE are permanent |
| SystemRuns.FirstServedInRun | internal/kernel/syscall.go:872-891 | over every system run, of two tasks waiting at an address the earlier can run if the later was released |
| SystemRuns.WakesOldestInRun | internal/kernel/syscall.go:872-891 | over every system run, after a wake for more waiters than are before a task in its queue the task can run as long as it is in that wait |
| SystemRuns.NoLostWakeupInRun | internal/kernel/syscall.go:872-891 | over every system run, after a wake for at least as many waiters as are queued every task still in that wait can run |
| InitialStack.PushStrings | internal/elf32/loader.go:388-403 | packs the strings below the top, last one highest, and returns their addresses |
| InitialStack.PushInitialStack | internal/elf32/loader.go:312-386 | builds exactly the specified image, whose words end at the highest multiple of 16 below the strings, and without protection succeeds exactly when it fits |
| InitialStack.ReadVector | internal/kernel/syscall.go:1498-1518 | returns the vector of strings at an address, and fails exactly when there is none within the limits |
| InitialStack.VectorUnique | internal/kernel/syscall.go:1498-1518 | an address holds at most one vector |
| InitialStack.BuiltHolds | internal/elf32/loader.go:312-386 | a built stack holds count, vectors, auxiliary entries and strings in their places |
| InitialStack.StackReadsBack | internal/elf32/loader.go:312-403 | the pushed argument and environment vectors are vectors of the original lists if and only if they are NUL-free and within the reader's limits |
| InitialStack.PushAndRead | internal/kernel/syscall.go:1498-1518 | pushing a stack and reading its vectors returns the argument and environment lists as they were, if and only if they are NUL-free and within the reader's limits |
| InitialStack.StackAux | internal/elf32/loader.go:337-383 | the auxiliary pairs follow in order, ending in a zero pair, with AT_EXECFN pointing at the first argument |
| GuestWords.WriteWords | internal/i386/memory.go:124-130 | on any mapping list, writing words upwards succeeds exactly when each of them is writable, and touches nothing outside the block |
| GuestWords.WritableBlock | internal/i386/memory.go:124-138 | in ascending order of start, words can be written one by one exactly when the whole block can be written at once |
| GuestWords.ReadableBlock | internal/i386/memory.go:78-107 | in ascending order of start, a range that can be read at once can be read byte by byte and word by word |
| Relocations.ApplyRelr | internal/elf32/reloc.go:177-204 | patches the decoded addresses in order up to the first failure |
| Relocations.ApplyRel | internal/elf32/reloc.go:126-175 | applies the entries in order, by type and symbol, up to the first failure |
| Relocations.ApplyRelEntry | internal/elf32/reloc.go:132-173 | one entry: with A the word at its target P, S its symbol and B the base, the word becomes B + A, S + A, S or S + A - P by type and no other byte changes; unreadable, unwritable, unresolved strong and unknown ones each fail in their cases |
| Relocations.RelStepRelocates | internal/elf32/reloc.go:132-173 | the same of the value that specifies the entry |
| Relocations.ApplyRelativeWord | internal/elf32/reloc.go:206-212 | adds the base to one word modulo 2^32 and changes no other byte, exactly when the word can be read and written |
| Relocations.LookupSymbol | internal/elf32/reloc.go:214-228 | no symbol is at 0, a defined one in the image, an undefined one where the provider first defines its name, else unresolved |
| Relocations.RelrIsRel | internal/elf32/reloc.go:126-212 | a RELR stream that begins with an address entry leaves the same memory and the same outcome as REL on its expansion |
| Relocations.RelrTargetsExact | internal/elf32/reloc.go:177-204 | the patched addresses are the encoded ones plus the base, if and only if the base is 0 or no bit precedes the first address entry |
| Relocations.RelrBitmapFirst | internal/elf32/reloc.go:177-204 | a one-entry stream whose address is patched at 0 instead of the base |
| Flags.FlagUnit.EvenParity | internal/i386/cpu.go:209-217 | the bit-dropping loop decides whether the low byte has an even number of bits |
| Flags.FlagUnit.SetAddFlags | internal/i386/cpu.go:118-135 | CF, ZF, SF, OF and PF say what happened to the 32-bit sum, other bits unchanged |
| Flags.FlagUnit.SetAdcFlagsN | internal/i386/cpu.go:219-241 | the same for a sum with carry at widths 8, 16 and 32, OF exactly on signed overflow |
| Flags.FlagUnit.SetSubFlagsN | internal/i386/cpu.go:174-194 | CF is the unsigned and OF the signed overflow of the difference, at every width |
| Flags.FlagUnit.SetSbbFlagsN | internal/i386/cpu.go:242-263 | ZF, SF and PF of a subtraction with borrow, and CF and OF of subtracting the wrapped sum of subtrahend and borrow |
| Flags.SbbOverflowExact | internal/i386/cpu.go:242-263 | OF is the signed overflow if and only if the subtrahend is not the largest positive number with a borrow |
| Flags.SbbBorrowExact | internal/i386/cpu.go:243-251 | the borrow is right if and only if the subtrahend is not 0xffffffff with a borrow |
| Flags.ConditionsAfterCompare | internal/i386/cpu.go:265-324 | after a compare at any width, each condition holds exactly when the order, equality or overflow it stands for does |
| Limbs.AddChainExact | internal/i386/cpu.go:1466-1476 | ADD and ADCs over any number of limbs compute the exact sum, with the final carry in CF |
| Limbs.AddChainOverflow | internal/i386/cpu.go:219-241 | OF after the chain is the signed overflow of the whole number |
| Limbs.SubChainExact | internal/i386/cpu.go:1477-1483 | the error of a SUB and SBB chain is exactly the sum of the lost borrows |
| Limbs.SubChainCorrectIff | internal/i386/cpu.go:1477-1483 | the chain is exact if and only if no limb loses its borrow |
| Limbs.BorrowLost | internal/i386/cpu.go:243-251 | a concrete pair of two-limb numbers on which the chain is wrong |
| Limbs.RunAddChain | internal/i386/cpu.go:1466-1476 | ADD and then ADCs on the flag register give the limbs and carry of the exact sum, and OF of the whole |
| Limbs.RunSubChain | internal/i386/cpu.go:1477-1483 | SUB and then SBBs on the flag register give the chain, exact if and only if no limb loses its borrow |
| Limbs.AdcInstruction | internal/i386/cpu.go:1466-1476 | one ADC adds the carry of the previous flags and sets the flags of the sum |
| Limbs.SbbInstruction | internal/i386/cpu.go:1477-1483 | one SBB subtracts the borrow of the previous flags and sets all five flags |

## Left out

- InitialStack.PushInitialStack: strings of 4 GiB or more, whose length would be truncated to 32 bits, are excluded.
- GuestWords.WriteWords: stands for the write sequences of the loader and of signal delivery, which write the same ascending words one call at a time.
- Descriptors.DescriptorTables.Fork: the tables of all processes are one map keyed by table and descriptor; a thread uses the table of its process.
- Descriptors.DescriptorTables.MakePipe: the O_NONBLOCK mark is not kept.
- Futexes.FutexTable.TryResume: whether a deadline has passed is an input; a woken waiter whose deadline has passed returns ETIMEDOUT, as in the code.
- MemorySyscalls.MemoryKernel.Brk: states the heap under sequences of brk; MemorySyscalls.HeapKeptByMapping, HeapKeptByRemap and HeapKeptByMove say which other calls keep it, and MAP_FIXED, munmap and unsafe removals may not.
- Scheduling.Scheduler.Instruct: which instruction is executed is an input, and the instruction set is not modelled; so is whether guest memory takes what a call stores, and a futex wait is one that has passed its checks, which Futexes.FutexTable.Futex models.
- Scheduling.Scheduler.TransferSyscall: that a write returning EPIPE also queues SIGPIPE is not modelled; which signal a task takes is an input.
- Leaks.LostIff: a faulted task counts as one that has not exited, since the scheduler stops at a fault.
- Of execve, the scheduler models the closing of marked descriptors only.
- Scheduling.Scheduler.Run: the round in which cancellation of the context is noticed is an input, so every returning call is covered; timer waits are not modelled.
- Signals.NestedRestore: handlers are any code that leaves live frames alone, is interrupted only where the new frame overlaps no live one, and returns from its frame or one word above it.
- The fields `nextMap` and `nextFD`, which the code writes and never reads.
- Host-blocking reads and writes on pipes, readv and writev, poll, nanosleep, and futex waits outside the scheduler: they block the host.
- The instruction decoder, x87 arithmetic, string and shift instructions: x87 slots are saved and restored as 64-bit words.
- ELF header parsing, segment loading, file systems, terminals, and the layouts of stat, statx, getdents, uname and sysinfo: easy members or host input and output.
- Fairness of the scheduler: it always restarts from the earliest-created task.
