# piOS kernel model

A Dafny model of the hard parts of piOS, a preemptive kernel for a 16-bit CPU, with proofs about whole
runs of its protocols and about every input of its algorithms. Machine words wrap at 2^16 wherever the
source computes in them. The command for the whole project is `dafny verify dfyconfig.toml`.

How the files follow the kernel:

- **Blocking and scheduling.** `Sched` is the cyclic scan of `sched_pick_next`.
  `SemaphoreProtocol`, `SemaphoreRuns`, `SemaphoreCourse` and `SchedulerHang` interleave the micro-steps
  of `semaphore_down` with timer switches, interrupts and ups; waking is polling, so the wakeup law is an
  invariant of semaphores and scheduler together. `BlockQueue` with `BlockQueueRuns` and
  `BlockQueueRecords` (two semaphores, a spinlock, a byte ring), `MessageQueue` with `MessageQueueRuns`,
  and `RingBuff` with `RingReads` and `RingCourse` (a reader preempted by an interrupting writer) are
  step systems over any number of threads. `LinkedList` is the list they share, `Counting` adds up threads.
- **Process state, pages and signals.** `Virtual` is memory behind a page table, `Signals`,
  `SignalRuns` and `SignalCourse` the frames on the user stack, `Pages` and `PageCourse` the ownership of
  physical pages, `PageIsolation` what it takes to keep processes apart, `Elf` the pieces a segment is loaded in and
  `ElfLoader` the loader itself.
- **TAR file system.** `Strings`, `DirTree`, `Tar`, `TarArchive` with `TarFormat` for the writing side, `Mounts` for the
  choice of a mount and `VfsLookup` for both together. Archives follow the "ustar Interchange Format" section of the `pax`
  utility in POSIX.1-2017.
- **Allocators.** `ChunkHeap` holds what `KernelHeap` and `UserHeap` share.
- **Screen.** `Screen` relates the rotating framebuffer to a page of text.

Step systems are written as labels with `Enabled` and `Apply` (or a `Step` relation); a `Run` is a
sequence of states joined by enabled steps from an initial one, and the theorems quantify over all runs.
Operations that update objects in place are classes whose methods are proved against specification
functions.

Some plausible claims are false of the code. Each has a concrete case and the exact condition:

- the scheduler's scan can run forever (`Sched.ScanTerminatesIff`, `SchedulerHang.SchedulerCanHang`);
- a long TAR read reports bytes it did not deliver (`Tar.DeliversAllIff`, `Tar.LongReadFallsShort`);
- `malloc` can leave the last page of a block unmapped (`UserHeap.Heap.Malloc`,
  `UserHeap.StraddlingBlockUnmapped`);
- the chosen mount need not be the longest (`Mounts.LongestIff`, `Mounts.RootCanHideLonger`), and a member is
  not found below a mount without a trailing slash (`VfsLookup.MemberIsFoundIff`, `VfsLookup.SlashlessMountHides`);
- some segments are loaded with holes (`Elf.LoadsAllIff`, `Elf.NotEverySegment`);
- an exited process's addresses are translated through the kernel's table (`Pages.AddrPageIsOwnIff`,
  `Pages.KilledByExit`, and `Pages.KilledByFault` for the death after which they are not);
- isolation can end with the return of a signal handler, which installs page tables from user memory
  (`PageIsolation.ReturnIsolatesIff`, `PageIsolation.UnsavedTablesShare`);
- the 239th program page is taken for an unmapped one (`Pages.SentinelIsThe239th`, `Pages.SentinelIsReached`);
- the stack assertion of signal delivery accepts a wrapped pointer (`Signals.AssertIsRoom`,
  `Signals.WrappedFrame`);
- a page mapped inside a signal handler is lost (`SignalRuns.MappingSurvivesIff`,
  `SignalRuns.HandlerLosesItsPage`).

## Model

| member | source | states |
|---|---|---|
| `RingBuff.Ring.Length` | kernel/libk/ringbuff.c:12-14 | the length computed in wrapping 16-bit words is the number of unread bytes, also at the moment `tail == size` |
| `RingBuff.Ring.Full` | kernel/libk/ringbuff.c:18 | the stop test of the write loop, with its unsigned `tail - 1`, holds exactly when `size - 1` bytes are unread |
| `RingBuff.WriteAppends` | kernel/libk/ringbuff.c:16-27 | the write loop takes the longest prefix that fits and appends it to the contents |
| `RingBuff.RingBuffer.constructor` | kernel/libk/ringbuff.c:4-10 | an initialised ring is empty and one byte larger than asked for, unless the word wraps to a ring of size zero |
| `RingBuff.RingBuffer.Length` | kernel/libk/ringbuff.c:12-14 | the number of unread bytes |
| `RingBuff.RingBuffer.Write` | kernel/libk/ringbuff.c:16-27 | accepts as many bytes as there is room for and appends exactly those |
| `RingBuff.RingBuffer.Read` | kernel/libk/ringbuff.c:29-39 | delivers the oldest bytes in order; delivered bytes and what is left make up the old contents |
| `RingReads.ReadTakes` | kernel/libk/ringbuff.c:29-39 | the read loop delivers the oldest bytes and leaves the rest |
| `RingReads.WriteThenRead` | kernel/libk/ringbuff.c:16-39 | bytes written to an empty ring come back whole from the reads that follow, however these are cut |
| `RingBuff.StepKeepsIntact` | kernel/libk/ringbuff.c:29-39 | no micro-step of a preempted reader and no interrupting write loses track of a byte |
| `RingBuff.NoByteLost` | kernel/fs/kbd.c:63-87 | over every interleaving of a reader, preempted anywhere, with complete writes: delivered bytes plus contents are the accepted bytes, and the length is exact |
| `RingBuff.CapacityIsExact` | kernel/libk/ringbuff.c:16-27 | at every moment of every such run a write takes exactly what `size - 1` leaves room for |
| `RingCourse.AcceptedLaw` | kernel/libk/ringbuff.c:16-27 | over every such run the accepted bytes are, write after write, the longest prefixes that `size - 1` leaves room for |
| `RingCourse.ReaderFollowsItsCall` | kernel/libk/ringbuff.c:29-39 | over every such run a reader is in the round and at the instruction its own steps led it to, however often it was preempted, and returns exactly when it has the bytes asked for or finds none unread |
| `RingCourse.StoresInOrder` | kernel/libk/ringbuff.c:29-39 | each round stores one byte, the next one accepted, and nothing else stores any |
| `Sched.ScanTerminatesIff` | kernel/proc/sched.c:51-94 | the unbounded scan stops if and only if some process is eligible or the element under the cursor is alive, and then within one round |
| `Sched.PickIsFirstInCyclicOrder` | kernel/proc/sched.c:54-85 | a process is chosen exactly when it is the first eligible one in cyclic order after the cursor, alarms that fire on the way included |
| `Sched.PickIsIdleIff` | kernel/proc/sched.c:87-94 | idle is chosen, with the cursor unchanged, exactly when nobody is eligible |
| `Sched.PickEffect` | kernel/proc/sched.c:68-94 | only the chosen process changes state, and it resumes in its own mode |
| `Sched.PassingKeepsEligibility` | kernel/proc/sched.c:68-74 | alarms that fire while others are visited do not change who is eligible |
| `Sched.PickAlarms` | kernel/proc/sched.c:65-74 | a call clears exactly the alarms that are set, not above `sys_ticks` in their low words, and of living processes the scan reaches |
| `Sched.PickCounts` | kernel/proc/sched.c:65-74 | a call raises the signal count of each such process by one for its alarm, and no other count |
| `Sched.EligibleIff` | kernel/proc/sched.c:65-85 | a process may be chosen exactly when it is alive and running, or blocked on a semaphore that is positive or that its own elapsed alarm is about to raise |
| `Sched.SleeperWakesIff` | kernel/proc/sched.c:68-85 | a process asleep on its empty signal semaphore is woken by its alarm exactly when `alarm_ticks` is set and its low word not above that of `sys_ticks` |
| `Sched.PickComesCloser` | kernel/proc/sched.c:54-94 | a call that passes over an eligible process brings the cursor strictly closer to it |
| `Sched.BoundedBypass` | kernel/proc/sched.c:51-94 | among any N consecutive calls on a list of N processes one chooses a process that stays eligible |
| `Sched.Scheduler.Visit` | kernel/proc/sched.c:68-85 | one visit fires the alarm, decides whether the process runs and unblocks it in the right mode |
| `Sched.Scheduler.PickNext` | kernel/proc/sched.c:51-94 | the loop with its `continue` and its idle test computes the choice that the lemmas above describe |
| `SemaphoreProtocol.StepInv` | kernel/libk/con/semaphore.c:13-55 | every micro-step, interrupt, switch and system call keeps the joint invariant of semaphores and scheduler |
| `SemaphoreProtocol.DeliverInv` | kernel/irq/interrupt.c:163-175 | handing a signal to a handler takes one from the process's own signal semaphore and keeps the invariant, positive count included |
| `SemaphoreRuns.RaiseAddsOne` | kernel/libk/con/semaphore.c:13-20 | an up adds one to its semaphore and nothing to others, a binary up exactly when the count is zero |
| `SemaphoreRuns.CountLaw` | kernel/libk/con/semaphore.c:13-55 | over every run a count is the initial count plus effective ups plus alarms that fired minus decrements of `semaphore_down` minus delivered signals, all counted from the steps taken; it is never negative, and a binary semaphore stays below two |
| `SemaphoreRuns.NoLostWakeup` | kernel/proc/sched.c:75-85 | in every reachable state a process inside the wait loop whose semaphore is positive is eligible for the scheduler and would resume in the mode it blocked in |
| `SemaphoreRuns.DownReturnsInMode` | kernel/libk/con/semaphore.c:48-55 | a process past the wait loop runs in the mode it called in and is blocked on nothing |
| `SemaphoreRuns.StepRefinesCounter` | kernel/libk/con/semaphore.c:13-55 | from outside a step adds the ups and alarms it stands for, or takes one from a positive count: as the decrement of `semaphore_down`, or as a signal delivered to the current process |
| `SemaphoreRuns.WaiterIsResumed` | kernel/proc/sched.c:51-94 | a waiter whose semaphore is positive at N consecutive scheduler calls is resumed by one of them |
| `SemaphoreCourse.DownTakesOne` | kernel/libk/con/semaphore.c:22-55 | a down on a positive count, left undisturbed, takes one in four steps and leaves everything else as it was |
| `SemaphoreCourse.DownSleeps` | kernel/libk/con/semaphore.c:30-48 | on a zero count it puts the caller to sleep on that semaphore in its own mode and yields with interrupts on |
| `SemaphoreCourse.WakerTakesOne` | kernel/libk/con/semaphore.c:47-55 | a resumed waiter that finds the count positive takes one and returns |
| `SemaphoreCourse.WakerYieldsAgain` | kernel/libk/con/semaphore.c:42-48 | one that finds it zero again goes back to yielding |
| `SemaphoreCourse.SyscallReturns` | kernel/irq/interrupt.c:136-175 | a system call leaves the kernel as it found it, but for a delivered signal, which is possible exactly when the signal count is positive |
| `SemaphoreCourse.DownIsOfItsCall` | kernel/libk/con/semaphore.c:22-55 | over every run a process inside a down is in that of its last call |
| `SemaphoreCourse.ModeLaw` | kernel/irq/interrupt.c:136-175 | over every run the mode of a process is that of its last start, system-call entry, system-call leave or exit; blocking and waking never change it |
| `SemaphoreCourse.AlarmLaw` | kernel/sys/sysd.c:245-249 | over every run an alarm is the last one set, or none once it has fired |
| `SchedulerHang.SchedulerCanHang` | kernel/proc/sched.c:65-94 | a run in which a driver thread goes to sleep and the only user process exits, after which the scheduler's scan stops at no iteration, whatever the time |
| `BlockQueue.StepInv` | kernel/libk/con/blockq.c:21-50 | every step of every thread keeps the queue's invariant |
| `BlockQueueRuns.NoAssertFails` | kernel/libk/con/blockq.c:21-50 | in every interleaving of any number of pushers and poppers no ASSERT fails and no unlock is refused |
| `BlockQueueRuns.TokensConserved` | kernel/libk/con/blockq.c:21-50 | free slots, records and operations in flight always add up to the capacity |
| `BlockQueueRuns.RingHoldsWholeRecords` | kernel/libk/con/blockq.c:21-50 | whenever the lock is free the byte ring holds exactly the waiting records, `size` of them |
| `BlockQueueRuns.Fifo` | kernel/libk/con/blockq.c:21-50 | records popped so far are a prefix of records pushed |
| `BlockQueueRuns.MutualExclusion` | kernel/libk/con/spinlock.c:10-26 | two threads are never both between acquiring and releasing the lock |
| `BlockQueueRuns.NoDeadlock` | kernel/libk/con/blockq.c:21-50 | some active thread can move, unless all push on a full queue or all pop from an empty one |
| `BlockQueueRecords.RecordsConserved` | kernel/libk/con/blockq.c:21-50 | over every run the records given to `blockq_push` are, as a multiset, those stored and those of pushers that have not stored theirs |
| `BlockQueueRecords.ThreadFollowsItsCall` | kernel/libk/con/blockq.c:21-50 | a thread is inside a call exactly until it has taken the `base_size` + 10 steps of its last one, does what that call asked for, and as a pusher carries its record |
| `BlockQueueRecords.StoresWhatWasGiven` | kernel/libk/con/blockq.c:35-50 | the record a step stores is the one of its thread's last call, and no other step stores one |
| `BlockQueueRecords.PopDeliversTheFront` | kernel/libk/con/blockq.c:21-33 | until it gives the lock back, a popper has in its buffer the record that left the queue last, the oldest not delivered before |
| `BlockQueue.PusherHasRoom` | kernel/libk/con/blockq.c:35-50 | a pusher with bytes left to copy never meets a full ring |
| `BlockQueue.PopperHasByte` | kernel/libk/con/blockq.c:21-33 | a popper with bytes left to copy never meets an empty ring |
| `MessageQueue.StepInv` | kernel/sys/mq.c:45-85 | every step of push and blocking pop keeps the queue's invariant |
| `MessageQueueRuns.FirstIsNeverNull` | kernel/sys/mq.c:66-85 | the first list node is never null when a popper reads or removes it |
| `MessageQueueRuns.ListIsAccountedFor` | kernel/sys/mq.c:45-85 | the list is as long as `data_available` plus poppers past their first down plus a pusher between append and up |
| `MessageQueueRuns.LenIsExact` | kernel/sys/mq.c:45-85 | whenever the lock is free `len` is the length of the list |
| `MessageQueueRuns.PushOrder` | kernel/sys/mq.c:45-85 | messages leave in push order and none is lost |
| `MessageQueueRuns.NoDeadlock` | kernel/sys/mq.c:45-85 | some active caller can move, unless all wait to pop from an empty list |
| `MessageQueueRuns.MessagesConserved` | kernel/sys/mq.c:45-85 | over every run the messages given to `mq_push` are, as a multiset, those appended and those of callers that have not appended yet |
| `MessageQueueRuns.ThreadFollowsItsCall` | kernel/sys/mq.c:45-85 | a thread is inside a call exactly until it has taken the five steps of a push or six of a pop, does what that call asked for, and as a pusher carries its message |
| `MessageQueueRuns.AppendsWhatWasGiven` | kernel/sys/mq.c:45-64 | the append adds the message of the caller's last `mq_push` and nothing else |
| `MessageQueueRuns.PopReturnsWhatItRemoved` | kernel/sys/mq.c:66-85 | until it gives the lock back, a popper holds the message that was last removed from the list |
| `LinkedList.List.constructor` | kernel/libk/list.c:5-8 | an initialised list is empty |
| `LinkedList.List.Append` | kernel/libk/list.c:10-23 | the list reads, forwards and backwards, as the old one with the value at its end |
| `LinkedList.List.Unlink` | kernel/libk/list.c:26-34 | the four pointer updates bypass exactly the given node |
| `LinkedList.List.Remove` | kernel/libk/list.c:25-37 | removing any node leaves the other nodes in order with their values, linked both ways |
| `LinkedList.List.Walk` | kernel/libk/list.h:20 | iterating visits the values in order and ends |
| `Signals.DecodeEncode` | kernel/proc/proc.h:18-26 | the 84 bytes of a saved state hold every register and table entry |
| `Signals.AssertIsRoom` | kernel/proc/signal.c:25-31 | the assertion on the stack pointer passes exactly when the frame fits the stack page, or when the 16-bit subtraction wrapped |
| `Signals.RoomIff` | kernel/proc/signal.c:24-30 | all 88 pushed bytes lie in the stack page below the interrupted pointer if and only if there is that room |
| `Signals.WrappedFrame` | kernel/proc/signal.c:25-31 | a stack pointer that passes the assertion, with the addresses, up to the first page, that its frame is written to |
| `Signals.FrameLayout` | kernel/proc/proc.h:18-26 | eight registers, program counter, flags, sixteen data pages and sixteen program pages are the 42 little-endian words of the frame, in this order |
| `Signals.SignalLayout` | kernel/proc/signal.c:30 | the pushed signal is its type followed by its argument, lowest byte first |
| `Signals.HandlerStarts` | kernel/proc/signal.c:24-38 | a handler starts at the registered address with its stack and frame pointer 92 below the interrupted one, r0 two above, r1 one, r6 zero, and every other register and table as interrupted |
| `Signals.EnterPushes` | kernel/proc/signal.c:20-39 | after entry the interrupted state can be read back from the stack and r0 points to the delivered signal |
| `Signals.EnterFrame` | kernel/proc/signal.c:24-30 | entry changes no byte outside the 88 bytes that end two below the interrupted stack pointer |
| `Signals.ReturnRestores` | kernel/proc/signal.c:41-49 | returning with the entry frame pointer over an intact frame restores the whole state, and the assertion on the stack pointer holds |
| `Signals.Process.Send` | kernel/proc/signal.c:13-18 | the signal joins the queue and the semaphore count follows |
| `Signals.Process.HandlerEnter` | kernel/proc/signal.c:20-39 | pushes state and signal through the page table and starts the handler with the registers of `Signals.HandlerStarts`; fails exactly when its assertion does |
| `Signals.Process.HandlerReturn` | kernel/proc/signal.c:41-49 | reads the state back through the page table; succeeds exactly when the restored stack pointer matches |
| `Signals.Process.SyscallExit` | kernel/irq/interrupt.c:163-175 | the user state comes back, and a pending signal enters its handler exactly when no handler is active and one is set |
| `SignalRuns.StepInv` | kernel/irq/interrupt.c:136-175 | user code, sends, system calls, SYS_SIGWAIT and handler returns keep the saved frame and the queue count |
| `SignalRuns.ReturnInv` | kernel/proc/signal.c:41-49 | in every reachable state a well-behaved return restores exactly the interrupted state and passes its assertion |
| `SignalRuns.ExitInv` | kernel/irq/interrupt.c:166-173 | whenever a signal is delivered the semaphore count is positive, no other handler is active, and its frame is on the stack afterwards |
| `SignalRuns.TakenInOrder` | kernel/sys/sysd.c:226-238 | over every run signals are taken in the order sent and the count is the queue's length |
| `SignalRuns.InterruptedStateSurvives` | kernel/irq/interrupt.c:136-175 | however many handlers run one after another, the process resumes in exactly the state in which the first interrupted it |
| `SignalRuns.HandlerGetsItsSignal` | kernel/proc/signal.c:28-38 | over every run a handler that is entered starts at the registered address with the registers of `Signals.HandlerStarts`, and finds its own signal at r0 |
| `SignalRuns.WritingBelowKeepsFrame` | kernel/proc/signal.c:24-30 | the pushed bytes begin two above the handler's stack pointer, so a handler that writes only below that keeps its frame |
| `SignalRuns.KeptFramePointerReturns` | kernel/proc/signal.c:41-49 | a handler that returns with the r5 it started with is one that `Signals.ReturnRestores` covers |
| `SignalCourse.SentLaw` | kernel/proc/signal.c:13-18 | over every run the signals sent are those of the sending steps, in order, and the handler is the one SYS_SIGACTION set last |
| `SignalCourse.DeliveredIff` | kernel/irq/interrupt.c:163-175 | over every run a call ends in a handler exactly when none is active, one is registered and a signal is pending; the signal is the oldest one not taken, and otherwise only SYS_SIGWAIT takes one |
| `SignalCourse.CallIsTransparent` | kernel/irq/interrupt.c:136-175 | over every run a system call changes r0 of its caller, and the entry of a page it maps, and nothing else, whether or not a signal is delivered at its end |
| `SignalCourse.WaitServedIff` | kernel/sys/sysd.c:226-238 | over every run SYS_SIGWAIT can be served exactly when a signal is pending and no handler is about to get it |
| `SignalCourse.WaitStoresSignal` | kernel/sys/sysd.c:226-238 | over every run SYS_SIGWAIT stores the oldest signal not taken in the caller's buffer |
| `SignalCourse.CallKeepsBytes` | kernel/proc/signal.c:24-30 | over every run a call changes no byte but those of that buffer, and of the 88-byte frame if it delivers a signal |
| `SignalRuns.MappingStays` | kernel/sys/sysd.c:185-199 | a mapping of the state a process goes back to is never lost |
| `SignalRuns.MappingSurvivesIff` | kernel/sys/sysd.c:185-225 | a mapped page is in the table at the next moment without a handler if and only if no handler mapped it, and one mapped outside handlers stays for good |
| `SignalRuns.HandlerLosesItsPage` | kernel/sys/sysd.c:185-225 | a run in which a handler maps a page, returns, and the slot is unmapped |
| `Pages.StepInv` | kernel/proc/sched.c:103-189 | thread creation, loading, mapping, both kinds of death, signal frames and the exchange of tables keep kernel stacks where they are and, as far as returns install such tables, every entry a page handed to that process or that very slot |
| `PageCourse.StatusLaw` | kernel/proc/sched.c:103-189 | over every run the processes are those made, and each is in the state its last step put it in |
| `PageCourse.PageCounter` | kernel/proc/sched.c:118-170 | over every run data pages are numbered from 0x211 in the order they are handed out |
| `PageCourse.NewProcess` | kernel/proc/sched.c:112-170 | a kernel thread gets the next page as its stack; a user process a table that is empty but for its stack, and the page after as its kernel stack |
| `PageCourse.TablesLaw` | kernel/sys/sysd.c:185-225 | over every run an entry without a page gets the next page when it is loaded or mapped, a handler's return replaces the tables, and nothing else changes them |
| `PageCourse.FramesLaw` | kernel/irq/interrupt.c:163-175 | over every run the tables pushed for a process are those it had when signals were delivered to it |
| `PageCourse.KernelTableLaw` | kernel/irq/interrupt.c:140-148 | over every run the kernel runs for a process under its own pages 0x201 to 0x20e, that process's kernel stack, and the page zero it mapped last |
| `PageCourse.BlockAndWake` | kernel/libk/con/semaphore.c:30-36 | a process can block exactly in a kernel thread or a system call, and a wakeup puts it back in the state it blocked in |
| `Pages.OneHolder` | kernel/sys/sysd.c:185-225 | over every run whose handlers return with tables the kernel saved, no page is held in two places: two slots of one process or of two, a slot and a stack, or two stacks |
| `Pages.OneHolderOfByte` | kernel/sys/sysd.c:185-225 | over such runs two addresses, of one process or of two, never lead to the same byte through a mapped page |
| `PageIsolation.Isolation` | kernel/sys/sysd.c:185-225 | over every run whose handlers return with pages handed to their own process, no mapped page of a process is another's, a page of the kernel, a kernel thread's stack or a system-call stack |
| `PageIsolation.IsolatedBytes` | kernel/proc/sched.c:118-128 | isolated processes share no byte, and reach none of the kernel's default table |
| `PageIsolation.HonestIsTame` | kernel/proc/signal.c:41-49 | returning with saved tables is returning with pages of the own process |
| `PageIsolation.AlwaysIsolatedIff` | kernel/proc/signal.c:41-49 | every continuation of a world keeps processes isolated if and only if no mapped page in a table, or in a frame of a process that can still return to it, is in reach of a second process, a kernel page, or still to be handed out |
| `PageIsolation.ReturnIsolatesIff` | kernel/proc/signal.c:41-49 | after a handler's return at any reachable world every continuation stays isolated if and only if each mapped entry was handed to a slot of that process, or to another process that holds it in no table and no frame it can still return to |
| `PageIsolation.UnsavedTablesShare` | kernel/proc/signal.c:45 | a run in which a return installs another process's page, and the two reach the same byte |
| `Pages.AddrPageIsOwnIff` | kernel/proc/virtual.c:71-81 | the kernel translates a user address through that user's own table if and only if the user has not called SYS_EXIT |
| `Pages.KilledByFault` | kernel/irq/interrupt.c:71-87 | a run in which a process killed by a segmentation fault is still translated through its own table |
| `Pages.KilledByExit` | kernel/sys/sysd.c:290-296 | a run in which an exited process's stack address is translated to its kernel stack |
| `Pages.ProgramsAreSeparate` | kernel/proc/elf.c:111-132 | program pages are never shared, their data windows differ, and these stay clear of data pages while the page counter has not passed 0x1022 |
| `Pages.WindowsMeetIff` | kernel/proc/elf.c:123-124 | over every run a data page handed out is also the window of a program page handed out if and only if data page 0x1022 and a program page have been handed out |
| `Pages.ProgCounter` | kernel/proc/elf.c:119-120 | over every run the program page counter is 0x11 plus the number of allocations |
| `Pages.SentinelIsThe239th` | kernel/proc/elf.c:119-120 | over every run an allocation leaves its slot unmapped if and only if it is the 239th; the 238 before it never take 0xff |
| `Pages.SentinelPageIsLost` | kernel/proc/elf.c:119-124 | loading the slot again then takes another page, whose windows are not those loaded before |
| `Pages.SentinelIsReached` | kernel/proc/elf.c:119-120 | a run that reaches the 239th allocation |
| `Pages.MappedPageIsNew` | kernel/sys/sysd.c:190-197 | SYS_PGMAP hands out a page that nobody owned |
| `Elf.LoadsAllIff` | kernel/proc/elf.c:145-176 | the pieces cover the segment without gap or overlap if and only if the segment is loadable, a condition on address and size alone |
| `Elf.NotEverySegment` | kernel/proc/elf.c:164-176 | a segment that ends with the address space, and a short unaligned one, are not loaded whole |
| `Elf.ContiguousIsWhole` | kernel/proc/elf.c:162-176 | contiguous pieces write what one copy of the whole segment would |
| `ElfLoader.PlacesDiffer` | kernel/proc/elf.c:111-132 | through mapped entries different addresses, or data and program space, lead to different bytes |
| `ElfLoader.Loader.constructor` | kernel/proc/sched.c:163-170 | the tables of a new user process |
| `ElfLoader.Loader.PhysPageToLoad` | kernel/proc/elf.c:111-132 | a free slot takes the next page, every earlier mapping is kept, and the slot is mapped afterwards if and only if the page taken is not number 0xff |
| `ElfLoader.Loader.LoadHalvesAtSentinel` | kernel/proc/elf.c:111-132 | at that counter the two halves of one program slot are loaded into different pages, and the process looks for the first half where nothing was loaded |
| `ElfLoader.Loader.LoadToPage` | kernel/proc/elf.c:80-96 | reading in chunks of 0x100 fills exactly the asked-for part of a page; it stops exactly on a short file or a cut instruction |
| `ElfLoader.Loader.LoadSegment` | kernel/proc/elf.c:162-176 | the first page, the full pages and the last page are loaded piece by piece, earlier mappings kept; it stops exactly on a short file or a piece that cuts an instruction |
| `ElfLoader.Loader.SegmentIsInPlace` | kernel/proc/elf.c:162-176 | for a segment loaded in full those pieces are the whole segment, in pages of its own, and are read back |
| `ElfLoader.Loader.LoadFileBytes` | kernel/proc/elf.c:145-176 | a segment loaded in full, without page 0xff, is read back byte for byte at its virtual address, no other physical byte changes, and earlier mappings are kept; on a page boundary loading stops exactly on a short file or a cut instruction |
| `ElfLoader.Loader.StillInPlace` | kernel/proc/elf.c:136-176 | loading a segment leaves an earlier one it does not overlap as it was |
| `ElfLoader.Loader.LoadPh` | kernel/proc/elf.c:134-190 | after the loop over all headers every segment of a program of loadable, non-overlapping segments is in its place; with page-aligned segments the loop succeeds exactly when all lie in the file and no program cuts an instruction |
| `Virtual.MemcpyToUserspace` | kernel/proc/virtual.c:24-34 | copying page by page equals storing byte by byte through the page table |
| `Virtual.MemcpyFromUserspace` | kernel/proc/virtual.c:12-22 | reading page by page equals reading byte by byte through the page table |
| `Virtual.WriteThenRead` | kernel/proc/virtual.c:12-34 | what was written through a table is read back, if no two bytes share a physical address |
| `Virtual.WriteFrame` | kernel/proc/virtual.c:24-34 | no byte outside the translated range changes |
| `Virtual.ReadFrame` | kernel/proc/virtual.c:12-22 | a read depends on nothing outside the translated range |
| `Virtual.DistinctPages` | kernel/proc/virtual.c:8-10 | different table entries give different physical addresses |
| `ChunkHeap.BlocksAreDisjoint` | kernel/libk/kmalloc.c:19-45 | in a tiled array live blocks never overlap |
| `ChunkHeap.FreeIffUncovered` | kernel/libk/kmalloc.c:19-45 | a chunk is free exactly when no live block covers it |
| `ChunkHeap.Allocate` | kernel/libk/kmalloc.c:25-31 | marking the first fit keeps the tiling and adds one block disjoint from all others |
| `ChunkHeap.AllocateCount` | kernel/libk/kmalloc.c:25-31 | marking a free run lowers the number of free chunks by its length |
| `ChunkHeap.ReleaseBlocks` | kernel/libk/kmalloc.c:62-68 | clearing a header removes exactly that block |
| `ChunkHeap.AllocateThenRelease` | kernel/libk/kmalloc.c:19-68 | releasing what was just allocated gives the old array back |
| `ChunkHeap.ScanEnd` | kernel/libk/kmalloc.c:19-45 | a header-skipping scan that reaches the end has seen every run, so none fits |
| `ChunkHeap.WholeHeapConserved` | kernel/libk/kmalloc.c:47-60 | free chunks and chunks in blocks always add up to the heap |
| `KernelHeap.BlockExceedsRequest` | kernel/libk/kmalloc.c:20 | the rounding gives a block strictly larger than the request unless it wraps in 16 bits |
| `KernelHeap.Heap.constructor` | kernel/libk/kmalloc.c:12-16 | an initialised heap has no blocks |
| `KernelHeap.Heap.Kmalloc` | kernel/libk/kmalloc.c:19-45 | returns the lowest sufficient run, disjoint from all live blocks; panics exactly when none exists or the rounding wraps |
| `KernelHeap.Heap.MemFreeSize` | kernel/libk/kmalloc.c:47-60 | the scan reports sixteen times the number of free chunks |
| `KernelHeap.Heap.Kfree` | kernel/libk/kmalloc.c:62-68 | frees exactly the block of a live pointer; says when it panics and when it would write behind the array |
| `UserHeap.Heap.constructor` | lib/libc/src/mem.c:19-25 | nothing is live and the chunks below the program break are reserved |
| `UserHeap.Heap.Malloc` | lib/libc/src/mem.c:27-63 | a large enough block at the first fit between the program break and 0xF000, disjoint from all live ones; null exactly for size zero, a wrapped rounding, or no run that fits; all its bytes on mapped pages if and only if a condition on the first fit and the pages mapped before holds |
| `UserHeap.Heap.Claim` | lib/libc/src/mem.c:35-48 | the search marks the first fit, or changes nothing when none exists |
| `UserHeap.Heap.Free` | lib/libc/src/mem.c:65-70 | the pointer of a live block always hits its own header, and exactly that block is freed |
| `UserHeap.BlockIsMappedIff` | lib/libc/src/mem.c:53-60 | the pages asked for complete the block if and only if it does not run over the pages counted from its size, or the one beyond was mapped already |
| `UserHeap.StraddlingBlockUnmapped` | lib/libc/src/mem.c:55 | a new heap whose first block `malloc` leaves half unmapped |
| `DirTree.CompareIsExact` | kernel/fs/dirtree.c:44 | between siblings the prefix comparison is exact and never looks behind the final slash of the stored name |
| `DirTree.FirstInItsDirectory` | kernel/fs/dirtree.c:95-125 | the first inode of a name in its own directory is the first of that name overall |
| `DirTree.PrefixClosed` | kernel/fs/dirtree.c:35-77 | with a directory all its parents are in the tree |
| `DirTree.Directory.constructor` | kernel/fs/dirtree.c:22-33 | a new tree agrees with the empty list |
| `DirTree.Directory.FindChild` | kernel/fs/dirtree.c:95-125 | the search of one node's list finds the child directory exactly when it exists |
| `DirTree.Directory.AddPath` | kernel/fs/dirtree.c:35-77 | after any insertion the tree again agrees with the list of inserted names, whatever bytes new nodes hold |
| `DirTree.Directory.GetSlashPos` | kernel/fs/dirtree.c:9-20 | the position of the n-th slash, or -1 |
| `DirTree.Directory.GetFile` | kernel/fs/dirtree.c:95-125 | for a file path the tree lookup returns what a linear scan of all inserted names would, the first inode of exactly that name or nothing, except that a path with a leading and a further slash is never found |
| `TarArchive.ConvertOctal` | kernel/fs/tar.c:24-32 | the eleven digits accumulated with wrap-around are the octal value modulo one word |
| `TarArchive.MakeDirTree` | kernel/fs/tar.c:88-121 | on any archive the walk ends, adds one inode per member with its header sector and size, and panics exactly at a sector that is no header |
| `TarArchive.MemberBytes` | kernel/fs/tar.c:107-119 | the sector recorded for a member leads to its bytes |
| `TarArchive.ReadMember` | kernel/fs/tar.c:54-86 | for every archive with distinct names, looking a file up and reading it in pieces of at most 1024 bytes yields exactly its bytes |
| `TarFormat.HeaderReads` | kernel/fs/tar.h:10-26 | a header block laid out field by field, with any storable name, size and type, is read as the member it was made for |
| `TarFormat.WrittenIsArchive` | kernel/fs/tar.c:88-121 | for every list of storable members the sectors a ustar writer lays out are an archive of exactly these members |
| `TarFormat.RoundTrip` | kernel/fs/tar.c:54-121 | write, walk, look up and read: every file of every such list with distinct names comes back byte for byte |
| `Tar.ReadBlock` | kernel/driver/sd.c:120-129 | of the 512 incoming bytes exactly the window is stored, in order, through the page table |
| `Tar.DeliversAllIff` | kernel/fs/tar.c:69-82 | a read delivers all it reports if and only if fewer than 1024, exactly 1024 or exactly 1536 bytes remain behind its first sector |
| `Tar.LongReadFallsShort` | kernel/fs/tar.c:75-79 | a concrete read that reports more than it delivers |
| `Tar.OpenFile.Read` | kernel/fs/tar.c:54-86 | clamps, advances the 16-bit offset, runs the full-sector loop ceil(q/2) times, and stores the right slice as far as it delivers |
| `Tar.PiecesConcatenate` | kernel/fs/tar.c:54-86 | successive reads of at most 1024 bytes join up to the file |
| `Mounts.AcceptedIsCovers` | kernel/fs/vfs.c:261-272 | the two comparisons of the loop accept exactly the segment-aligned prefixes of the path |
| `Mounts.VnodeFor` | kernel/fs/vfs.c:255-281 | the earliest mount with the most slashes among those, and none exactly when there is none |
| `Mounts.LocalPath` | kernel/fs/vfs.c:28-36 | mount path and local path make up the path |
| `Mounts.TieIsCut` | kernel/fs/vfs.c:255-281 | of two covering mounts with as many slashes the shorter ends in a slash and is the longer one cut behind its last slash |
| `Mounts.LongestIff` | kernel/fs/vfs.c:255-281 | the choice is the longest covering mount if and only if that one, cut behind its last slash, is not itself mounted before it |
| `Mounts.LongestWhenCountsDiffer` | kernel/fs/vfs.c:255-281 | with different slash counts the choice is the longest |
| `Mounts.RootCanHideLonger` | kernel/fs/vfs.c:255-281 | a concrete mount list where it is not |
| `VfsLookup.WalkedNames` | kernel/fs/tar.c:94-119 | no inode of a walked archive has an empty name or one with a leading slash |
| `VfsLookup.FindInode` | kernel/fs/vfs.c:28-36 | the lookup finds what a scan of the chosen archive finds for the local path, and nothing without a mount |
| `VfsLookup.MemberIsFoundIff` | kernel/fs/vfs.c:28-36 | a member of the chosen mount is found under its path if and only if the mount ends in a slash |
| `VfsLookup.SlashlessMountHides` | kernel/fs/vfs.c:28-36 | a concrete mount under which a member is not found |
| `Strings.SameNAccepts` | lib/libc/src/string.c:53-70 | equal prefixes compare equal |
| `Strings.SameNRefutes` | lib/libc/src/string.c:53-70 | strings that differ before a terminator compare different |
| `Screen.GridAfterRotation` | kernel/driver/vga.c:52-58 | moving the scroll origin shows every row one higher, with the old top row at the bottom |
| `Screen.GridAfterLine` | kernel/driver/vga.c:14-39 | writing one framebuffer line changes exactly one visible row |
| `Screen.Tty.constructor` | kernel/driver/tty.c:323-330 | a cleared screen with the cursor at home |
| `Screen.Tty.PutCharAt` | kernel/driver/vga.c:16-23 | one visible cell changes: its low byte is the character, its high byte the colour |
| `Screen.Tty.ClearLine` | kernel/driver/vga.c:30-39 | one visible row becomes blank |
| `Screen.Tty.FastScroll` | kernel/driver/vga.c:52-58 | rotating and clearing one line refines shifting all rows up and blanking the bottom |
| `Screen.Tty.NewLine` | kernel/driver/tty.c:33-39 | the screen shows the page with a line feed |
| `Screen.Tty.Putc` | kernel/driver/tty.c:161-194 | the screen shows the page with the character typed, cursor included |
| `Screen.Tty.Puts` | kernel/driver/tty.c:201-204 | text written to a cleared screen shows, character by character and in the present colour, the last 48 rows of its lines cut every 106 characters, the rest blank and the cursor behind |
| `Screen.LayoutIsWrappedLines` | kernel/driver/tty.c:161-194 | typing character by character lays out exactly the text's lines cut every 106 characters, cursor behind the last |
| `Screen.TextIsShown` | kernel/driver/tty.c:161-204 | cell by cell, row and column of each character of the text, and blanks everywhere else |
| `Screen.LinesAreTheText` | kernel/driver/tty.c:31-194 | those lines, joined by newlines, are the text without its other characters outside 32 to 126 |

## Left out

- Hardware: assembly, device registers, the SD command handshake, serial, timers, logging, and the value of `proc_state.mem_pages[0]` that mapping page zero leaves behind.
- Concurrent calls of `kmalloc`: it has no lock, so it is modelled for one caller at a time, and allocation inside other operations is one step.
- SemaphoreRuns.CountLaw: counts are unbounded integers, so the overflow of a 16-bit count is not modelled; the number of processes and semaphores is fixed during a run.
- BlockQueue.StepInv: `semaphore_down` is one step, which `SemaphoreRuns.StepRefinesCounter` justifies; a failed compare-and-swap is no step; `blockq_push_nonblock`, which bypasses lock and semaphore, is not modelled.
- MessageQueue.StepInv: one queue, with `mq_pop_nonblock` and the table of queues left out; messages are values.
- Sched.Scheduler.PickNext: assumes the condition of `Sched.ScanTerminatesIff`, without which the source does not return.
- Signals.Process.HandlerReturn: a frame that straddles two pages is excluded, because the source then replaces the table it is reading through.
- SignalRuns.StepInv: delivery needs room on the stack page (otherwise the kernel panics, or the pointer has wrapped); `signal_send` is one step, although the source appends and counts in two.
- Pages.StepInv: page numbers are unbounded, so running out of physical pages is not modelled; steps are atomic; what a signal return installs is a parameter, tied to the saved frames by `Signals.ReturnRestores` for a handler that leaves its frame alone.
- ElfLoader.Loader.LoadFileBytes: says nothing about where the bytes are after program page 0xff was taken, the case of `ElfLoader.Loader.LoadHalvesAtSentinel`.
- ElfLoader.Loader.LoadPh: the zero fill behind the file bytes and the decoding of the headers are left out.
- LinkedList.List.Remove: freeing the node is not modelled.
- DirTree.Directory.AddPath: nodes are indices into a sequence rather than pointers; directory parts longer than the name buffer are excluded.
- DirTree.Directory.GetFile: paths that name a directory are excluded, because the terminator of a node's name is written one byte late.
- VfsLookup.FindInode: every mount is a TAR archive, and paths that name a mount or a directory are excluded.
- ElfLoader.Loader.constructor: assumes that physical pages for the whole process are left.
- Tar.ReadBlock: sector numbers are unbounded.
- TarArchive.MakeDirTree: archives with a lone empty sector between members, sizes of 2^15 or more, names that fill or prefix their field, names with a leading slash, and directory parts longer than the name buffer are excluded.
- UserHeap.Heap.constructor: the program break lies between 0x1D00 and 0xF000.
- Screen.Tty.Putc: escape sequences, backspace, line editing and the keyboard line buffer are not modelled.
- The request queues of the tty, keyboard and tmp drivers: their `list_remove` runs outside the lock that guards `list_append`.
- `vfs_seek`, file descriptors, printf, stdio, string copies and random numbers: they would only add easy members.
