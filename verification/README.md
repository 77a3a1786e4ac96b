# RT-Thread 3.0.3: kernel, allocators and shell compiler in Dafny

A Dafny 4.11 model of the parts of RT-Thread 3.0.3 whose correctness is hard to see from the code, with proofs.
`dafny verify dfyconfig.toml` checks the whole project.

The code works by changing things in place, and so does the model: each global or object is a class with the fields of
the C structure, each C function a method with the same branches, and each loop a loop. A method is proved against a
function on values (the chain of blocks, the rows of the timer list, the state of the kernel), and what the code is for
is proved about those functions: invariants over every run, round trips, exact failure conditions.

## What is modelled

**Shell compiler and virtual machine** (`Finsh_Word`, `Finsh_Arith`, `Finsh_Vm`, `Finsh_Compiler`, `Finsh_Correct`). A syntax tree in the node table is
type-checked in place, compiled to bytes in the text segment, and interpreted by a fetch loop over a stack and a memory.
The main theorem is preservation of meaning for statement lists over 32-bit constants, int and long variables, binary
arithmetic, complement, assignment and pre/post increment and decrement, including operand encoding and decoding.
What the operations on longs mean is stated on integers and binary digits, apart from how they are computed.

**Small-memory heap** (`Mem_Heap`). Headers linked by offsets inside one buffer; `malloc`, `free`, `realloc`, `plug_holes`.
The header chain is the sequence `blocks`; the invariant ties every header in the buffer to it.

**Timers** (`Timer_Rows`, `Timer_List`, `Timer_Check`, `Timer_Limits`). A skip list of any number of levels on a 32-bit wrapping clock. Ghost
keys (true deadline, start order) give the order that the wrapped comparisons are proved to compute.

**Kernel** (`Kernel_Bits`, `Kernel_State`, `Kernel_Placement`, `Kernel_Runs`, `Kernel_Steps`, `Kernel_Machine`, `Kernel_Effects`, `Kernel_RoundRobin`). Threads, ready
lists, wait lists, both bitmap forms, scheduler lock, time slices. One step is one section with interrupts disabled; a run
is any sequence of steps that their callers may take. For every step there is a lemma that gives the threads and lists after it.

**Inter-process communication** (`Ipc_Mutex`, `Ipc_MutexSteps`, `Ipc_MutexFifo`, `Ipc_MutexDepth`, `Ipc_Event`, `Ipc_Waiting`, `Ipc_Mailbox`, `Ipc_MessageQueue`). The mutex runs on the
kernel state, interleaved with every other kernel step. Mailboxes and message queues carry the set of threads that were
woken and have not retried, for which "no lost wake-up" is stated.

**Memory heap objects** (`Memheap_Blocks`, `Memheap_Object`) on the circular doubly linked lists of `rtservice.h` (`Rt_List`).

**Slab allocator** (`Slab_Pages`, `Slab_Zones`, `Slab_Heap`). The page list, the size classes, zones with their chunk chains, the
page usage table, parked zones.

**Shell heap** (`Finsh_Heap`, `Finsh_HeapMerge`, `Finsh_HeapObject`). Two null-terminated, address-sorted lists of headers, first
fit, merging, and the collector driven by the shell variables.

`Wrappers`, `Queues` and `Binary` hold an option type, lists without duplicates, and binary digits of numbers.

## Where a natural claim fails, and exactly when it holds

- Small-memory heap: the loop bound skips a free block that fits if and only if it is the exact-fit last one
  (`MemChain.BoundSkipsOnlyExactLast`); a fresh heap refuses its own payload (`MemHeap.RefusesExact`). Shrinking keeps `lfree` the lowest free block if and only if it was below the block or
  at the free successor that is merged (`MemHeap.SmallHeap.ShrinkBlock`); `MemHeap.StrandsTail` is a run in which it does not
  and a request then fails although a free block fits. A size is rounded up if and only if the 32-bit addition does not wrap (`MemChain.AlignRoundsUp`); `MemHeap.WrapsToLeast` is a run that is
  served 12 bytes for almost 4 GiB. The loop bound itself does not wrap if and only
  if the heap is at least as large as the least block (`MemChain.LoopBoundIff`), which `Malloc` asks for.
- Memory heap object: the counter of free bytes refuses a request that a free block has room for if and only if that block is an
  exact fit and all there is (`HeapBlocks.CounterRefusesIff`); `MemHeapObject.RefusesWhole` is a run.
- Compiler: nothing bounds the code by the text segment; `FinshCorrect.TextMayOverflow` gives a tree. The code fits
  if and only if a count of bytes on the source expressions is at most 128 (`FinshCorrect.FitsTextIff`), and preservation asks
  for that. The stack cannot overflow (`FinshCorrect.ShallowInTable`). A void pointer variable is typed DWORD but
  never loaded (`FinshCorrect.UnloadedDword`), so the language has int and long variables.
- Timers: two instants within one tick range are compared rightly if and only if they are less than half the range apart one
  way and no more than the rest of it the other way (`TimerList.WrappedOrderIff`); for the test at the head of the list
  `TimerLimits.HeadTestIff` says so of the linked timer, and `TimerLimits.LateHeadMissed` is a due timer that is missed. A check
  at every tick keeps within the bound (`TimerFiring.TickAndCheck`). A re-armed timer is due again in the same
  check if and only if its period is 0 (`TimerFiring.RearmedDueIff`), so `Check` asks for positive periods.
- Blocking: keeps the kernel invariant if and only if the caller is ready, or suspended and on no list
  (`KernelRuns.BlockKeepsIff`); `KernelEffects.BlocksTwice` is a run in which a caller that already waits gets to block again.
- Mutex: a nested take keeps the hold counter meaningful if and only if the depth is below 255
  (`MutexState.NestedTakeKeepsIff`), and a run reaches it (`MutexDepth.DepthOverflows`). The last release leaves a thread waiting that is stronger than the new owner
  if and only if the list is a FIFO and its first thread is not its strongest (`MutexState.InversionIff`);
  `MutexFifo.FifoHeirWeaker` is a run from boot that ends so.
- Mailbox and message queue: deleting a thread that was woken and has not retried keeps the invariant if and only if nobody
  waits or more threads were woken than can be served (`MailboxObject.Mailbox.DeleteReceiver`,
  `MailboxObject.Mailbox.DeleteSender`, `MessageQueueObject.MessageQueue.DeleteReceiver`). `MailboxObject.LosesMail`,
  `MailboxObject.LosesSlot` and `MessageQueueObject.LosesMessage` are runs of the objects in which the wake-up is lost.
- Slab: a chunk whose size is a power of two is aligned to its size if and only if the page of its zone is
  (`SlabZone.ChunkAligned`), which is sure for sizes up to a page; `SlabHeap.Misaligned8192` is a run that serves 8192 bytes at an address that is not.
  Rounding a large request up to pages loses nothing if and only if it is at most 0xFFFFF000 (`SlabHeap.AlignPageFits`).
- Shell heap: an insertion is right if and only if there is a successor or the header's `next` was null
  (`ShellLists.InsertIff`); the always-free highest block provides the successor (`ShellMerge.HighestIsAbove`). The size test
  finds room if and only if adding the header size does not wrap (`ShellHeap.LongerIff`); `ShellHeap.WrappedSearch` is a run.

## Model

| member | source | states |
|---|---|---|
| `FinshCorrect.CompilerPreservesMeaning` | rt-thread-3.0.3/components/finsh/finsh_compiler.c:43-937 | for every statement list of the DWORD language whose source counts at most 128 bytes of code, the virtual machine on the emitted bytes ends with the variables of the direct left-to-right evaluator, the last value as the only stack cell, and no other memory touched; it is undefined exactly when the evaluator is; what the operators of the evaluator mean is said by `EvalBinMeans`, `ComplementInverts` and `ArithMeans` |
| `FinshCorrect.EvalBinMeans` | rt-thread-3.0.3/components/finsh/finsh_ops.c:42-45 | in the evaluator the left operand comes first, a binary operator has its meaning on the two values in that order, and the variables are those the right operand left |
| `FinshArith.ArithMeans` | rt-thread-3.0.3/components/finsh/finsh_ops.c:42-45 | what each binary operation means without its code: sums, differences and products of signed longs modulo 2^32; and, or and exclusive or on each binary digit; division truncated towards zero with the remainder, undefined for a zero divisor or a quotient out of range; `<<` on digits; `>>` as division by a power of two rounded down; shifts by 32 or more undefined |
| `FinshArith.MeansUnique` | rt-thread-3.0.3/components/finsh/finsh_ops.c:42-45 | that meaning leaves one possible result for every operation and all operands |
| `FinshArith.SumsWrap` | rt-thread-3.0.3/components/finsh/finsh_ops.c:69-96 | sums and differences are the longs congruent to those of the signed operands modulo 2^32 |
| `FinshArith.ProductWraps` | rt-thread-3.0.3/components/finsh/finsh_ops.c:157-162 | the same for products |
| `FinshArith.LongExact` | rt-thread-3.0.3/components/finsh/finsh_ops.c:71-159 | such a result is the exact integer result whenever that fits a long |
| `FinshArith.DivisionTruncates` | rt-thread-3.0.3/components/finsh/finsh_ops.c:113-140 | `q * b + r == a` with a remainder smaller than the divisor and of the sign of the dividend; quotient and remainder are undefined for the same operands |
| `FinshArith.BitwiseDigits` | rt-thread-3.0.3/components/finsh/finsh_ops.c:179-228 | and, or and exclusive or work digit by digit |
| `FinshArith.ComplementInverts` | rt-thread-3.0.3/components/finsh/finsh_ops.c:245-250 | `~` turns each of the 32 digits over |
| `FinshArith.ShiftLeftDigits` | rt-thread-3.0.3/components/finsh/finsh_ops.c:267-272 | `<<` moves the digits up, drops those that leave the word and fills with zeros |
| `FinshArith.ShiftRightDivides` | rt-thread-3.0.3/components/finsh/finsh_ops.c:289-294 | `>>` divides by a power of two, rounded down also for a negative long |
| `FinshCorrect.CompileAndRun` | rt-thread-3.0.3/components/finsh/finsh_compiler.c:903-937 | type check, compile and run on the global tables, as methods: success exactly when evaluation is defined, and then stack and variables are those of the evaluator |
| `FinshCorrect.CheckedCode` | rt-thread-3.0.3/components/finsh/finsh_compiler.c:759-901 | the type check types every node of such an expression DWORD, and the code of the checked tree is the reference code of the expression |
| `FinshCorrect.CheckedProgram` | rt-thread-3.0.3/components/finsh/finsh_compiler.c:903-937 | the same for a statement list, with the pops between statements |
| `FinshCorrect.ExecExpr` | rt-thread-3.0.3/components/finsh/finsh_vm.c:47-72 | wherever the code of an expression stands in the text, running it pushes the value of the expression, leaves the variables of the evaluator, and goes on behind the code |
| `FinshCorrect.ExecAll` | rt-thread-3.0.3/components/finsh/finsh_compiler.c:903-937 | the same for statement lists: earlier values are popped, the last one stays |
| `FinshCorrect.RunZeros` | rt-thread-3.0.3/components/finsh/finsh_vm.c:47-72 | zero bytes behind the program are no-ops up to the end of the text segment |
| `FinshCorrect.DepthWithinTree` | rt-thread-3.0.3/components/finsh/finsh_compiler.c:43-757 | the stack an expression needs is at most its number of nodes plus two |
| `FinshCorrect.ShallowInTable` | rt-thread-3.0.3/components/finsh/finsh_compiler.c:43-757 | a list that fits the node table cannot overflow the stack |
| `FinshCorrect.TextMayOverflow` | rt-thread-3.0.3/components/finsh/finsh_compiler.c:903-937 | no bound check protects the text segment: a list of eight increments fits the node table and its code is longer than the segment |
| `FinshCorrect.FitsTextIff` | rt-thread-3.0.3/components/finsh/finsh_compiler.c:903-937 | the emitted code fits the text segment if and only if a count of bytes on the source expressions does, which can be read off before compiling |
| `FinshCorrect.ProgramBytes` | rt-thread-3.0.3/components/finsh/finsh_compiler.c:43-937 | the program emitted for a checked statement list has exactly the counted size |
| `FinshCorrect.GenBytes` | rt-thread-3.0.3/components/finsh/finsh_compiler.c:43-757 | so has the code of each expression |
| `FinshCorrect.UnloadedDword` | rt-thread-3.0.3/components/finsh/finsh_compiler.c:759-901 | an identifier is typed DWORD without a load being emitted exactly when its variable is a void pointer |
| `FinshNode.TypeCheck` | rt-thread-3.0.3/components/finsh/finsh_compiler.c:759-901 | the in-place type check writes exactly the marks of the tree function and touches no entry outside the tree |
| `FinshCompiler.Compiler.Compile` | rt-thread-3.0.3/components/finsh/finsh_compiler.c:43-757 | the recursive walk appends exactly the code of the tree to the text segment |
| `FinshCompiler.Compiler.CompileStatement` | rt-thread-3.0.3/components/finsh/finsh_compiler.c:918-934 | one statement is compiled without its siblings, and a pop separates it from the next |
| `FinshCompiler.Compiler.CompileAll` | rt-thread-3.0.3/components/finsh/finsh_compiler.c:918-934 | the statement loop emits the whole program |
| `FinshCompiler.Compiler.Run` | rt-thread-3.0.3/components/finsh/finsh_compiler.c:903-937 | the text segment ends as the program of the checked tree followed by zeros |
| `FinshNode.TreeFitsTable` | rt-thread-3.0.3/components/finsh/finsh_compiler.c:43-757 | a tree has at most as many nodes as the table has entries |
| `FinshWord.GetSetDword` | rt-thread-3.0.3/components/finsh/finsh.h:43-60 | a 32-bit operand written least significant byte first is read back unchanged, at any place in the text |
| `FinshWord.DwordBits` | rt-thread-3.0.3/components/finsh/finsh.h:53-59 | byte `k` of a stored operand holds the binary digits 8k to 8k + 7 of the word: least significant byte first |
| `FinshVm.Machine.BinDword` | rt-thread-3.0.3/components/finsh/finsh_ops.c:42-45 | the two top cells are replaced by what the operation means on them, the lower cell being the left operand, or the operation is undefined |
| `FinshVm.Machine.LoadDword` | rt-thread-3.0.3/components/finsh/finsh_ops.c:317-387 | the immediate and the indirect load decode their operand and push |
| `FinshVm.Machine.LoadValueDwordStack` | rt-thread-3.0.3/components/finsh/finsh_ops.c:389-397 | the top cell is replaced by what it points to |
| `FinshVm.Machine.StoreDword` | rt-thread-3.0.3/components/finsh/finsh_ops.c:428-434 | the top cell is stored where the one below points; the address stays |
| `FinshVm.Machine.Run` | rt-thread-3.0.3/components/finsh/finsh_vm.c:47-72 | the fetch loop computes the run function of the text: each byte is dispatched with the counter already past it |
| `MemHeap.SmallHeap.constructor` | rt-thread-3.0.3/src/mem.c:205-258 | one free block, the sentinel, `lfree` lowest, nothing used |
| `MemHeap.SmallHeap.Malloc` | rt-thread-3.0.3/src/mem.c:273-411 | takes the first fitting block from `lfree` on; with `lfree` lowest, the lowest fitting block of the heap; fails if and only if the size is refused or no block from `lfree` on passes the loop's test, and then changes nothing; with `lfree` lowest that means at most the exact-fit last block would have done; accounting exact; no other payload changes; the block has at least the served size and less than a least block with its header more |
| `MemHeap.SmallHeap.Search` | rt-thread-3.0.3/src/mem.c:306-312 | the bounded search loop finds the first block from `lfree` on that fits, with the strict loop bound |
| `MemHeap.SmallHeap.TakeBlock` | rt-thread-3.0.3/src/mem.c:312-388 | split or taken whole, `used_mem` charged with header and payload, `max_mem` the running maximum, `lfree` moved to the next free block; the block has at least the size and less than a least block with its header more |
| `MemHeap.SmallHeap.Occupy` | rt-thread-3.0.3/src/mem.c:317-371 | the header writes of the split or of the mark, with the charge to `used_mem` |
| `MemHeap.SmallHeap.Free` | rt-thread-3.0.3/src/mem.c:549-611 | the chain is that of the release function, `used_mem` falls by the block's span, no payload changes, lowest `lfree` is kept |
| `MemHeap.SmallHeap.PlugHoles` | rt-thread-3.0.3/src/mem.c:157-195 | merges with both free neighbours, corrects `lfree`, and writes headers only |
| `MemHeap.SmallHeap.Realloc` | rt-thread-3.0.3/src/mem.c:422-511 | each branch: refusal, release on zero, allocation on null, same size, in-place shrink, move; surviving payload kept, other payloads untouched; a lowest `lfree` stays lowest if and only if no shrink breaks it; it fails if and only if a new block is needed and none from `lfree` on has room; `max_mem` rises exactly to the peak between the allocation and the release of a move |
| `MemHeap.SmallHeap.ShrinkBlock` | rt-thread-3.0.3/src/mem.c:472-499 | the tail becomes a free block and is merged; `lfree` stays lowest if and only if it was below the block or at the free successor that is merged |
| `MemHeap.SmallHeap.Move` | rt-thread-3.0.3/src/mem.c:502-510 | allocate, copy the smaller of both sizes, free; fails if and only if no block from `lfree` on has room; `max_mem` is the running maximum over the peak between them |
| `MemHeap.SmallHeap.MallocThenFree` | rt-thread-3.0.3/src/mem.c:273-611 | `rt_free(rt_malloc(n))` restores chain, `lfree` and `used_mem` exactly, and every used payload |
| `MemChain.FreeUndoesMalloc` | rt-thread-3.0.3/src/mem.c:273-611 | on the chain: releasing the block just taken gives the chain back, split or not |
| `MemChain.ReleaseKeeps` | rt-thread-3.0.3/src/mem.c:549-611 | headers still tile the heap, no two neighbours are free, and the used span falls by exactly the block |
| `MemChain.TakeSpan` | rt-thread-3.0.3/src/mem.c:346-371 | taking a block raises the used span by what is charged |
| `MemChain.TakenSize` | rt-thread-3.0.3/src/mem.c:317-371 | a block handed out has at least the size wanted and less than a least block with its header more; what is cut off is a free block of the least size or larger; the other blocks stand |
| `MemChain.TooLargeForAll` | rt-thread-3.0.3/src/mem.c:292-297 | a request for more than the heap size could be served by no block, so refusing it loses nothing |
| `MemChain.PlugMerges` | rt-thread-3.0.3/src/mem.c:157-195 | merging restores that no two neighbours are free if only the freed block broke it |
| `MemChain.ShrinkKeeps` | rt-thread-3.0.3/src/mem.c:472-499 | shrinking keeps the tiling and the merged neighbours |
| `MemChain.ShrinkSpan` | rt-thread-3.0.3/src/mem.c:472-499 | and lowers the used span by what was cut off |
| `MemChain.ShrunkSize` | rt-thread-3.0.3/src/mem.c:472-499 | a shrunk block keeps its place and exactly the payload asked for, a free block follows, the others stand |
| `MemHeap.ShrinkLowest` | rt-thread-3.0.3/src/mem.c:472-499 | exactly when shrinking keeps `lfree` the lowest free block |
| `MemHeap.StrandsTail` | rt-thread-3.0.3/src/mem.c:472-499 | a run of the heap: one block fills it, is shrunk, and the next request fails although the free tail fits, because `lfree` stayed at the sentinel |
| `MemChain.BoundSkipsOnlyExactLast` | rt-thread-3.0.3/src/mem.c:306-312 | the strict loop bound skips a fitting free block if and only if it is the exact-fit last one |
| `MemHeap.RefusesExact` | rt-thread-3.0.3/src/mem.c:273-312 | a run of the heap: fresh, of any size, it refuses a request for exactly the payload of its one free block |
| `MemChain.LoopBoundIff` | rt-thread-3.0.3/src/mem.c:306-307 | the unsigned loop bound does not wrap if and only if the heap is at least as large as the least block |
| `MemChain.LowestFits` | rt-thread-3.0.3/src/mem.c:306-312 | a search from the lowest free block misses none below it |
| `MemChain.LowestUnique` | rt-thread-3.0.3/src/mem.c:273-611 | `lfree` is determined by the chain as long as it is lowest |
| `MemChain.AlignRoundsUp` | rt-thread-3.0.3/src/mem.c:283-301 | alignment rounds up if and only if the 32-bit addition does not wrap |
| `MemChain.ServedRoundsUp` | rt-thread-3.0.3/src/mem.c:283-301 | short of the wrap a request is served with the least multiple of four that is below neither it nor the least block |
| `MemHeap.WrapsToLeast` | rt-thread-3.0.3/src/mem.c:283-301 | a run of the heap: a request of almost 4 GiB is served with the least block |
| `TimerList.TimerList.Start` | rt-thread-3.0.3/src/timer.c:294-409 | for any number of levels: the timer leaves all rows, gets its deadline, and the bottom row is the stable sorted insertion of it; rows stay sorted and nested; the counter moves on by one and gives the height |
| `TimerList.TimerList.FindHeads` | rt-thread-3.0.3/src/timer.c:339-367 | the search from the top row down stops in every row at the rank of the new deadline |
| `TimerList.TimerList.Walk` | rt-thread-3.0.3/src/timer.c:342-364 | the modulo 2^32 comparisons stop in front of the first timer that is later |
| `TimerList.TimerList.InsertTimer` | rt-thread-3.0.3/src/timer.c:369-390 | the counter moves on by one, and the timer enters as many rows from the bottom as the height of its new value says |
| `TimerList.HeightIff` | rt-thread-3.0.3/src/timer.c:369-390 | with a mask of one or two bits, the row `j` above the bottom is entered if and only if the counter is a multiple of 2^j or 4^j: each row takes every second or fourth of the timers of the row below |
| `TimerList.TimerList.Stop` | rt-thread-3.0.3/src/timer.c:419-442 | an active timer leaves every row and is no longer active; the others stay in order |
| `TimerList.TimerList.RemoveTimer` | rt-thread-3.0.3/src/timer.c:123-131 | unlinks from every row |
| `TimerList.TimerList.Detach` | rt-thread-3.0.3/src/timer.c:204-222 | the timer leaves the rows, its flag stays |
| `TimerList.TimerList.NextTimeout` | rt-thread-3.0.3/src/timer.c:110-121 | the tick of a timer with the earliest deadline, or the largest tick |
| `TimerList.RowsAreSubsequences` | rt-thread-3.0.3/src/timer.c:294-409 | every upper row is a subsequence of the row below |
| `TimerList.SortedByRemaining` | rt-thread-3.0.3/src/timer.c:294-409 | the bottom row is sorted by remaining time under modulo 2^32 subtraction, ties in start order |
| `TimerList.WrappedOrder` | rt-thread-3.0.3/src/timer.c:356-363 | the wrapped comparisons give the true order while the instants are less than half the range apart |
| `TimerList.WrappedOrderIff` | rt-thread-3.0.3/src/timer.c:356-363 | for any two instants less than one tick range apart, the comparison is right if and only if they are less than half the range apart one way and no more than the rest of it the other way |
| `TimerLimits.HeadTestIff` | rt-thread-3.0.3/src/timer.c:501-511 | whatever the clock did since the last check, within one tick range the test at the head of the list is right if and only if the timer is overdue by less than half the range or ahead by no more than the rest of it |
| `TimerLimits.LateHeadMissed` | rt-thread-3.0.3/src/timer.c:501-511 | a linked, active timer at the head of a one-timer list that is due and that the test takes for a later one, half the tick range after its deadline |
| `TimerList.LinkKeeps` | rt-thread-3.0.3/src/timer.c:376-388 | linking into any number of rows keeps all rows sorted and nested |
| `TimerList.UnlinkKeeps` | rt-thread-3.0.3/src/timer.c:123-131 | so does unlinking, and only that timer goes |
| `TimerRows.SortedUnique` | rt-thread-3.0.3/src/timer.c:294-409 | a sorted row is determined by its timers: the list is the stable sort of the started timers |
| `TimerRows.SortedSubsequence` | rt-thread-3.0.3/src/timer.c:294-409 | a sorted row whose timers are among those of another is a subsequence of it |
| `TimerRows.RankUnique` | rt-thread-3.0.3/src/timer.c:342-364 | there is one place for a deadline in a sorted row |
| `TimerFiring.Check` | rt-thread-3.0.3/src/timer.c:488-546 | ends with nothing due, and relates fired timers, re-armed timers and the remaining list |
| `TimerFiring.FireHead` | rt-thread-3.0.3/src/timer.c:500-541 | one turn: the head is unlinked, its callback runs, and it is re-armed if periodic and still active, else deactivated |
| `TimerFiring.FireStep` | rt-thread-3.0.3/src/timer.c:488-546 | a turn extends the fired sequence in order and never fires a timer twice, given periods of at least one tick |
| `TimerFiring.FiredExactly` | rt-thread-3.0.3/src/timer.c:488-546 | exactly the due timers fired, except those an earlier callback stopped; re-armed ones are due `init_tick` from now |
| `TimerFiring.FiredIsDuePrefix` | rt-thread-3.0.3/src/timer.c:488-546 | with callbacks that stop nothing, the fired timers are the due prefix of the list in its order, and only periodic ones stay |
| `TimerFiring.RearmedDueIff` | rt-thread-3.0.3/src/timer.c:510-530 | a re-armed timer is due again in the same check if and only if its period is 0 |
| `TimerFiring.HeadDue` | rt-thread-3.0.3/src/timer.c:506-511 | the wrapped test at the head tells exactly whether anything is due |
| `TimerFiring.TickAndCheck` | rt-thread-3.0.3/src/clock.c:83-105 | one tick and the check: nothing is overdue between ticks, which the comparisons rely on |
| `ReadyBits.FfsLeast` | rt-thread-3.0.3/src/kservice.c:1279-1293 | `__rt_ffs` is the exact least set bit counted from one, zero for zero |
| `ReadyBits.LowestBitLeast` | rt-thread-3.0.3/src/kservice.c:1249-1267 | the table holds the least set bit of each byte |
| `ReadyBits.PutSets` | rt-thread-3.0.3/src/scheduler.c:316-319 | setting the masks of a priority sets exactly its bit, in both the 32-level and the 256-level form |
| `ReadyBits.DropClears` | rt-thread-3.0.3/src/scheduler.c:356-368 | clearing them clears exactly its bit, the group bit only with an empty byte |
| `ReadyBits.HighestIsLeast` | rt-thread-3.0.3/src/scheduler.c:205-212 | both forms of the bitmap yield the least priority that is set |
| `KernelPlacement.ResumeKeeps` | rt-thread-3.0.3/src/thread.c:672-705 | keeps the kernel invariant: each thread on exactly the list its status says, bitmap agreeing with the ready lists, linked timers only for suspended threads |
| `KernelPlacement.StartupKeeps` | rt-thread-3.0.3/src/thread.c:273-304 | so does starting a thread |
| `KernelPlacement.SuspendKeeps` | rt-thread-3.0.3/src/thread.c:630-662 | so does suspending, which leaves the thread on no list |
| `KernelPlacement.ChangePriorityKeeps` | rt-thread-3.0.3/src/thread.c:561-605 | so does a priority change, of a ready or another thread |
| `KernelPlacement.YieldKeeps` | rt-thread-3.0.3/src/thread.c:453-487 | so does yielding |
| `KernelPlacement.TimeoutKeeps` | rt-thread-3.0.3/src/thread.c:714-735 | so does a timeout of a suspended thread; what it does to the thread is `KernelSteps.TimeoutEffect` |
| `KernelPlacement.CloseKeeps` | rt-thread-3.0.3/src/thread.c:95-130 | so do exit, delete and detach |
| `KernelPlacement.BlockKeeps` | rt-thread-3.0.3/src/ipc.c:92-135 | so does blocking the running thread on a wait list, FIFO or by priority, with or without a timer |
| `KernelPlacement.WakeFirstKeeps` | rt-thread-3.0.3/src/ipc.c:146-159 | so does waking the first waiter |
| `KernelPlacement.SleepKeeps` | rt-thread-3.0.3/src/thread.c:497-525 | so does sleeping |
| `KernelSteps.TimeoutEffect` | rt-thread-3.0.3/src/thread.c:714-735 | a thread whose timer runs out becomes ready at the end of the list of its priority, with a timeout error and its timer off, and leaves every wait list; nothing else changes |
| `KernelSteps.ResumeEffect` | rt-thread-3.0.3/src/thread.c:672-705 | the same of a resumed thread, its error untouched; a thread that is not suspended stays as it is |
| `KernelSteps.WakeEffect` | rt-thread-3.0.3/src/ipc.c:146-190 | the same of the first waiter of a list, in error if the object goes away |
| `KernelSteps.StartupEffect` | rt-thread-3.0.3/src/thread.c:273-304 | a started thread is ready at the end of the list of its initial priority with the masks of it; wait lists stand |
| `KernelSteps.SuspendEffect` | rt-thread-3.0.3/src/thread.c:630-662 | a ready thread leaves its ready list and is suspended with its timer off; another stays as it is; wait lists stand |
| `KernelSteps.ChangePriorityEffect` | rt-thread-3.0.3/src/thread.c:561-605 | the thread gets the priority and its masks; a ready one goes to the end of the list of the new priority; nothing else changes |
| `KernelSteps.YieldEffect` | rt-thread-3.0.3/src/thread.c:453-487 | the thread goes to the end of its ready list if another is on it, else nothing happens |
| `KernelSteps.BlockEffect` | rt-thread-3.0.3/src/ipc.c:92-135 | the running thread leaves its ready list, is suspended without an error, and stands at the end of a FIFO list or in front of the first weaker waiter; its timer runs exactly if the wait is bounded; nothing else changes |
| `KernelSteps.SleepEffect` | rt-thread-3.0.3/src/thread.c:497-525 | the running thread leaves its ready list, is suspended and its timer runs; nothing else changes |
| `KernelSteps.CloseEffect` | rt-thread-3.0.3/src/thread.c:95-130 | the thread leaves its list and is closed with its timer off; it heads the defunct list exactly if it is to be cleaned up later; nothing else changes |
| `Queues.RemoveTakesOut` | rt-thread-3.0.3/include/rtservice.h:100-106 | what leaves a list is one node; the others keep their order |
| `KernelRuns.StepKeeps` | rt-thread-3.0.3/src/thread.c:95-735 | every critical section that its caller may enter keeps the invariant |
| `KernelRuns.RunsKeepInvariant` | rt-thread-3.0.3/src/thread.c:95-735 | the invariant holds along every run of critical sections |
| `KernelRuns.ReachablePlacement` | rt-thread-3.0.3/src/thread.c:630-735 | in every state reachable from boot a ready thread is on exactly the ready list of its priority, a waiting thread is suspended and on one wait list, and a linked timer belongs to a suspended thread |
| `KernelRuns.TimeoutFindsSuspended` | rt-thread-3.0.3/src/thread.c:714-735 | the assertion in the timeout function cannot fail: it needs a linked timer only |
| `KernelRuns.SchedulePicksHighest` | rt-thread-3.0.3/src/scheduler.c:191-277 | an unlocked scheduling makes current the head of the lowest-numbered non-empty ready list, no ready thread being stronger; a locked one changes nothing |
| `KernelRuns.WakeAllThreads` | rt-thread-3.0.3/src/ipc.c:169-197 | waking all terminates with an empty wait list, every waiter ready with an error, nobody else changed |
| `KernelRuns.WakeAllReady` | rt-thread-3.0.3/src/ipc.c:169-197 | the waiters join the ready lists in list order behind those that were ready |
| `KernelRuns.PrioListSorted` | rt-thread-3.0.3/src/ipc.c:105-131 | a priority insertion keeps the wait list ordered and stands behind equals |
| `KernelRuns.BlockKeepsIff` | rt-thread-3.0.3/src/ipc.c:92-135 | blocking keeps the invariant if and only if the caller is ready, or suspended and on no list |
| `KernelEffects.BlocksTwice` | rt-thread-3.0.3/src/ipc.c:92-135 | a run from boot: with the scheduler locked a thread that blocks goes on running, suspended and on the wait list, and any second blocking breaks the invariant |
| `KernelEffects.WaiterCannotBlock` | rt-thread-3.0.3/src/ipc.c:92-135 | a thread on a wait list cannot block without breaking the invariant |
| `KernelRuns.BootInv` | rt-thread-3.0.3/src/scheduler.c:120-147 | the boot state satisfies the invariant |
| `KernelMachine.Kernel.Reschedule` | rt-thread-3.0.3/src/scheduler.c:191-277 | the method with both bitmap forms computes the scheduling function |
| `KernelMachine.Kernel.InsertThread` | rt-thread-3.0.3/src/scheduler.c:286-323 | list append and the two bitmap updates |
| `KernelMachine.Kernel.RemoveThread` | rt-thread-3.0.3/src/scheduler.c:332-372 | list removal and the bitmap updates when the list became empty |
| `KernelMachine.Kernel.ControlPriority` | rt-thread-3.0.3/src/thread.c:561-605 | the field-by-field change of priority and masks, with requeueing of a ready thread |
| `KernelMachine.Kernel.TimeoutNode` | rt-thread-3.0.3/src/thread.c:714-735 | computes the timeout function of the model, whose effect `KernelSteps.TimeoutEffect` states; its assertion cannot fail and the invariant is kept |
| `KernelMachine.Kernel.BlockCurrent` | rt-thread-3.0.3/src/ipc.c:92-135 | suspend, find the place, link, start the timer: the block step of the model, invariant kept |
| `KernelMachine.Kernel.FindPosition` | rt-thread-3.0.3/src/ipc.c:110-129 | the loop stops in front of the first weaker waiter |
| `KernelMachine.Kernel.WakeEveryone` | rt-thread-3.0.3/src/ipc.c:169-197 | the loop ends because each resume takes a suspended head off the list |
| `KernelMachine.Kernel.Leave` | rt-thread-3.0.3/src/scheduler.c:398-420 | the last leave schedules, an inner one does not, a surplus one counts as the last |
| `RoundRobin.TurnComes` | rt-thread-3.0.3/src/clock.c:83-105 | round-robin bound, for every list length and all slices of at least one tick: the thread at position `i` runs after exactly the ticks left to those in front of it, only those run before, and who had a turn has a full slice; over the whole list the round starts again |
| `RoundRobin.FirstTurn` | rt-thread-3.0.3/src/clock.c:83-105 | the running thread goes on for exactly its remaining ticks, then stands at the end with a full slice |
| `RoundRobin.YieldRotates` | rt-thread-3.0.3/src/thread.c:453-487 | a yield of the head rotates its ready list by one and touches no other list |
| `RoundRobin.TopRuns` | rt-thread-3.0.3/src/scheduler.c:191-277 | after it the new head of the strongest non-empty list runs |
| `SystemClock.SystemClock.Increase` | rt-thread-3.0.3/src/clock.c:83-105 | the time-slice part of the tick on the kernel object: count, reload, yield |
| `MutexState.TakeKeeps` | rt-thread-3.0.3/src/ipc.c:642-765 | taking, nested taking, refusing and waiting behind a boosted owner keep the mutex invariant while the hold depth is below 255 |
| `MutexState.ReleaseKeeps` | rt-thread-3.0.3/src/ipc.c:776-863 | so does releasing, with restoration and hand-over; what each branch does is said by the four lemmas of `MutexSteps` on releases |
| `MutexSteps.TakeFree` | rt-thread-3.0.3/src/ipc.c:676-687 | a free mutex is taken at once: hold one, value zero, the caller its owner and its priority noted, no error |
| `MutexSteps.TakeAgain` | rt-thread-3.0.3/src/ipc.c:667-671 | the owner takes again at once: one more hold and nothing else |
| `MutexSteps.TakeNoTime` | rt-thread-3.0.3/src/ipc.c:690-700 | a caller that gives no time gets a timeout at once and changes nothing else |
| `MutexSteps.TakeWaits` | rt-thread-3.0.3/src/ipc.c:701-733 | a caller that waits raises a weaker owner to its own priority, requeueing it if ready, is suspended at its place on the wait list, with its timer on exactly if the wait is bounded; ownership stands |
| `MutexSteps.ReleaseForeign` | rt-thread-3.0.3/src/ipc.c:800-808 | a thread that is not the owner gets an error and changes nothing else |
| `MutexSteps.ReleaseInner` | rt-thread-3.0.3/src/ipc.c:810-813 | a release at depth above one takes back one hold and does nothing else |
| `MutexSteps.ReleaseFrees` | rt-thread-3.0.3/src/ipc.c:813-852 | the last release with nobody waiting: value one, no owner, no hold, and the owner at its own priority again |
| `MutexSteps.ReleaseHandsOver` | rt-thread-3.0.3/src/ipc.c:813-843 | the last release with waiters: the owner at its own priority again; the first waiter is ready at the end of its list with its timer off, leaves the wait list, and owns the mutex with a hold of one and its priority noted |
| `MutexSteps.TakesAndReleases` | rt-thread-3.0.3/src/ipc.c:642-863 | for 1 to 255: a ready thread that takes a free mutex `n` times and releases it `n` times runs through and leaves it free, with nothing but its error field cleared |
| `MutexState.ForeignKeeps` | rt-thread-3.0.3/src/ipc.c:642-863 | so does every other kernel step that changes neither owner, priorities nor the wait list by other means: timeouts, deletions of waiters, scheduling |
| `MutexState.RunsKeepMutex` | rt-thread-3.0.3/src/ipc.c:642-863 | over every interleaving: owner null iff value is 1 iff hold is 0, waiters imply an owner that does not wait, and with the PRIO flag the owner is never weaker than a waiter |
| `MutexState.NoInversion` | rt-thread-3.0.3/src/ipc.c:707-714 | in every reachable state with the PRIO flag no waiter is stronger than the owner |
| `MutexState.ReleaseRestoresPriority` | rt-thread-3.0.3/src/ipc.c:810-821 | however often it was boosted, the final release gives a thread that took the free mutex the priority of that take |
| `MutexState.ReleaseRestoresHeir` | rt-thread-3.0.3/src/ipc.c:810-843 | and it gives a thread that was handed the mutex the priority it had at the hand-over |
| `MutexState.HandOver` | rt-thread-3.0.3/src/ipc.c:823-843 | the first waiter becomes owner and nobody left behind it is stronger |
| `MutexState.NestedTakeKeepsIff` | rt-thread-3.0.3/src/ipc.c:667-671 | a nested take keeps the invariant if and only if the hold depth is below 255 |
| `MutexDepth.DepthOverflows` | rt-thread-3.0.3/src/ipc.c:667-687 | a run from boot in which one thread reaches depth 255; its next take leaves an owner with a hold count of 0 |
| `MutexDepth.Deepen` | rt-thread-3.0.3/src/ipc.c:667-671 | every depth up to 255 is reached by nested takes |
| `MutexDepth.WrappedTake` | rt-thread-3.0.3/src/ipc.c:667-671 | at depth 255 every take wraps the counter |
| `MutexState.InversionIff` | rt-thread-3.0.3/src/ipc.c:810-843 | the last release leaves a thread waiting that is stronger than the new owner if and only if the mutex has no PRIO flag and the first waiter is not the strongest on the list |
| `MutexFifo.FifoHeirWeaker` | rt-thread-3.0.3/src/ipc.c:810-843 | a run from boot of a FIFO mutex, with two threads that come to wait, after which the owner's last release hands the mutex to a thread weaker than the one left waiting |
| `MutexFifo.WaitEffect` | rt-thread-3.0.3/src/ipc.c:707-733 | waiting in FIFO order: the owner takes the stronger of both priorities, the caller is suspended at the end of the list, nobody else changes |
| `MutexFifo.LeadsOn` | rt-thread-3.0.3/src/ipc.c:642-863 | a run goes on with any step that its last state allows |
| `MutexObject.MutexObject.TakeIt` | rt-thread-3.0.3/src/ipc.c:642-765 | the method on the kernel object computes the take function, branch by branch; `MutexSteps` states what each does |
| `MutexObject.MutexObject.ReleaseIt` | rt-thread-3.0.3/src/ipc.c:776-863 | the same for the release, whose branches `MutexSteps.ReleaseForeign`, `ReleaseInner`, `ReleaseFrees` and `ReleaseHandsOver` state |
| `EventState.ServeLeavesUnsatisfied` | rt-thread-3.0.3/src/ipc.c:1021-1071 | after the walk of a send no waiter is satisfied, although earlier waiters cleared flags on the way |
| `EventState.ServeFair` | rt-thread-3.0.3/src/ipc.c:1021-1071 | everyone served gets a non-empty part of the flags set inside its request, all of it for AND |
| `EventState.ServeTurn` | rt-thread-3.0.3/src/ipc.c:1030-1070 | one turn of the walk, flag by flag: a waiter whose request is met gets exactly its flags that are set, and they are gone for those behind it exactly if it clears them; another goes on waiting |
| `EventState.SatisfiedFlags` | rt-thread-3.0.3/src/ipc.c:1033-1052 | an AND request is met if and only if all its flags are set, an OR request if and only if one of them is |
| `EventState.ReceivedFlags` | rt-thread-3.0.3/src/ipc.c:1045-1048 | a request that is met receives exactly its flags that are set |
| `EventState.ClearedOnce` | rt-thread-3.0.3/src/ipc.c:1057-1063 | flags cleared for one receiver are delivered to no later one |
| `EventState.ServePartitions` | rt-thread-3.0.3/src/ipc.c:1024-1071 | the waiters are split into served and waiting, both in list order |
| `EventObject.Event.Send` | rt-thread-3.0.3/src/ipc.c:1002-1081 | flags, wait list and deliveries are those of one walk; sending no flag is refused; no waiting thread is left satisfied |
| `EventObject.Event.Recv` | rt-thread-3.0.3/src/ipc.c:1097-1205 | immediate delivery with optional clearing, a place on the wait list, a timeout, or a refusal of an empty request; the place is the end of a FIFO list, else behind every waiter that is not weaker; no waiting thread is satisfied afterwards |
| `EventState.PlaceRanked` | rt-thread-3.0.3/src/ipc.c:105-131 | a waiter put at its place keeps a list by priority in order, behind its equals |
| `EventState.ServeRanked` | rt-thread-3.0.3/src/ipc.c:1024-1071 | the walk leaves the remaining waiters in order |
| `EventObject.Event.Suspend` | rt-thread-3.0.3/src/ipc.c:92-135 | the end of a FIFO list, or the place in front of the first weaker waiter |
| `EventObject.Event.FindPlace` | rt-thread-3.0.3/src/ipc.c:110-129 | the search loop finds that place |
| `EventObject.Event.Reset` | rt-thread-3.0.3/src/ipc.c:1217-1242 | all waiters leave, no flag is left |
| `IpcWaiting.WakeHead` | rt-thread-3.0.3/src/ipc.c:1511-1515 | waking the head for one more usable item keeps that nobody sleeps beside work |
| `IpcWaiting.UseOne` | rt-thread-3.0.3/src/ipc.c:1410-1680 | so does using an item up, by whoever was woken for it or not |
| `IpcWaiting.LeaveApart` | rt-thread-3.0.3/src/ipc.c:92-159 | so does a waiter that leaves by timeout or resume |
| `IpcWaiting.DeleteKeepsIff` | rt-thread-3.0.3/src/thread.c:413-442 | deleting a woken thread that has not retried keeps it if and only if nobody waits or more threads were woken than can be served |
| `MailboxObject.Mailbox.DeleteReceiver` | rt-thread-3.0.3/src/thread.c:413-442 | deleting a woken receiver that has not retried keeps the mailbox invariant if and only if nobody waits to receive or more receivers were woken than there are mails |
| `MailboxObject.Mailbox.DeleteSender` | rt-thread-3.0.3/src/thread.c:413-442 | the same of a woken sender, with the free slots |
| `MailboxObject.LosesMail` | rt-thread-3.0.3/src/ipc.c:1410-1680 | a run of the object: two receivers wait, a mail wakes the first, it is deleted, and the second sleeps beside the mail, whatever the size |
| `MailboxObject.LosesSlot` | rt-thread-3.0.3/src/ipc.c:1410-1680 | a run of the object: two senders wait at a full box, a receive wakes the first, it is deleted, and the second sleeps beside the free slot |
| `MessageQueueObject.MessageQueue.DeleteReceiver` | rt-thread-3.0.3/src/thread.c:413-442 | deleting a woken receiver that has not retried keeps the queue invariant if and only if nobody waits or more receivers were woken than there are messages |
| `MessageQueueObject.LosesMessage` | rt-thread-3.0.3/src/ipc.c:1930-2227 | a run of the object in which such a deletion leaves a receiver asleep beside a message, for any pool |
| `MessageQueueObject.MessageQueue.GiveUp` | rt-thread-3.0.3/src/ipc.c:2101-2227 | a receiver whose timer runs out leaves the wait list, the invariants stand |
| `MessageQueueObject.MessageQueue.ResumeReceiver` | rt-thread-3.0.3/src/thread.c:672-705 | a receiver resumed from outside will retry, the invariants stand |
| `MailboxObject.Mailbox.Send` | rt-thread-3.0.3/src/ipc.c:1410-1528 | one pass: a mail is appended and a receiver woken, or the box is full and the thread waits or fails; sent values are received values followed by the ring; no lost wake-up on either side |
| `MailboxObject.Mailbox.Recv` | rt-thread-3.0.3/src/ipc.c:1557-1680 | the mirror image: the oldest mail is returned and a sender woken |
| `MailboxObject.Mailbox.Put` | rt-thread-3.0.3/src/ipc.c:1502-1509 | the ring store at the input offset appends, wrap-around included |
| `MailboxObject.Mailbox.Get` | rt-thread-3.0.3/src/ipc.c:1649-1657 | the ring fetch at the output offset returns the oldest mail |
| `MailboxObject.Mailbox.GiveUp` | rt-thread-3.0.3/src/ipc.c:1410-1680 | a waiter that times out leaves the invariants intact |
| `MailboxObject.Mailbox.Reset` | rt-thread-3.0.3/src/ipc.c:1692-1721 | both wait lists and the ring are emptied |
| `MailboxRing.PutAppends` | rt-thread-3.0.3/src/ipc.c:1502-1509 | on the ring as a value |
| `MailboxRing.GetDropsFirst` | rt-thread-3.0.3/src/ipc.c:1649-1657 | on the ring as a value |
| `MessageChain.NodesConserved` | rt-thread-3.0.3/src/ipc.c:1744-2284 | free, queued and in-flight nodes together are always the whole pool |
| `MessageQueueObject.MessageQueue.constructor` | rt-thread-3.0.3/src/ipc.c:1744-1791 | all nodes linked on the free list |
| `MessageQueueObject.MessageQueue.Reserve` | rt-thread-3.0.3/src/ipc.c:1945-1962 | the first critical section of a send takes a node off the free list, or finds none |
| `MessageQueueObject.MessageQueue.LinkTail` | rt-thread-3.0.3/src/ipc.c:1969-2001 | the second one appends it: head null iff tail null, `entry` the length, a receiver woken |
| `MessageQueueObject.MessageQueue.LinkHead` | rt-thread-3.0.3/src/ipc.c:2055-2083 | an urgent message goes in front |
| `MessageQueueObject.MessageQueue.TakeFirst` | rt-thread-3.0.3/src/ipc.c:2121-2211 | a receive unlinks the first node, or waits, or times out |
| `MessageQueueObject.MessageQueue.Release` | rt-thread-3.0.3/src/ipc.c:2216-2222 | the node goes back to the free list |
| `MessageQueueObject.MessageQueue.Reset` | rt-thread-3.0.3/src/ipc.c:2240-2284 | receivers leave, queued nodes become free, nodes in flight stay in flight, none is lost |
| `MessageQueueObject.SendMessage` | rt-thread-3.0.3/src/ipc.c:1930-2004 | contents are appended to; too long and full are told apart and change nothing |
| `MessageQueueObject.SendUrgent` | rt-thread-3.0.3/src/ipc.c:2018-2086 | contents are prepended to |
| `MessageQueueObject.ReceiveMessage` | rt-thread-3.0.3/src/ipc.c:2101-2227 | the first message cut to the caller's size, the rest stays |
| `MemHeapObject.MemHeap.constructor` | rt-thread-3.0.3/src/memheap.c:60-131 | one free block and the used tail block, counters exact |
| `MemHeapObject.MemHeap.Alloc` | rt-thread-3.0.3/src/memheap.c:146-288 | first fit along the free list, split or whole; fails if and only if the strict test of the counter or the free list refuses, and then changes nothing; `max_used_size` is the running maximum; used payloads untouched; the block has at least the size wanted and less than a least block with its header more |
| `HeapBlocks.CounterRefusesIff` | rt-thread-3.0.3/src/memheap.c:162-162 | the strict test of the free byte counter turns away a request that a free block has room for if and only if that block is an exact fit and all the free memory there is |
| `MemHeapObject.RefusesWhole` | rt-thread-3.0.3/src/memheap.c:162-162 | a run of the heap: fresh, of any size, it refuses a request for exactly the payload of its one free block |
| `MemHeapObject.MemHeap.Release` | rt-thread-3.0.3/src/memheap.c:499-596 | the block lists after merging both ways; `available_size` stays the sum of free payloads |
| `MemHeapObject.MemHeap.Realloc` | rt-thread-3.0.3/src/memheap.c:291-496 | each branch exactly, block list and free list: release, allocation, in-place growth into a free successor, refusal to shrink by little, in-place shrink, move; fails if and only if a new block is needed and the counter or the free list refuses; surviving payload kept; `max_used_size` stays the running maximum, over the peak inside a move as well |
| `MemHeapObject.MemHeap.Grow` | rt-thread-3.0.3/src/memheap.c:337-406 | the free successor starts anew behind the larger block |
| `MemHeapObject.MemHeap.Shrink` | rt-thread-3.0.3/src/memheap.c:427-495 | the tail becomes free and absorbs a free successor |
| `MemHeapObject.MemHeap.Search` | rt-thread-3.0.3/src/memheap.c:176-187 | the walk along the circular free list |
| `MemHeapObject.MemHeap.MergePrevious` | rt-thread-3.0.3/src/memheap.c:541-558 | merge with a free predecessor |
| `MemHeapObject.MemHeap.MergeNext` | rt-thread-3.0.3/src/memheap.c:560-579 | merge with a free successor, which leaves the free list |
| `MemHeapObject.PrevFlag` | rt-thread-3.0.3/src/memheap.c:541-558 | the predecessor of the first block is the used tail, so the circular list never merges over the end |
| `HeapBlocks.AllocOk` | rt-thread-3.0.3/src/memheap.c:146-288 | tiling, merged neighbours and exact free list are kept; the sum of free payloads falls by exactly what was taken; how large the block is is said by `HeapBlocks.TakenSize` |
| `HeapBlocks.TakenSize` | rt-thread-3.0.3/src/memheap.c:192-265 | a block handed out has at least the size wanted and less than a least block with its header more; what is cut off is a free block of the least size or larger; the other blocks stand |
| `HeapBlocks.ReleaseOk` | rt-thread-3.0.3/src/memheap.c:499-596 | the same invariant after a release |
| `HeapBlocks.ReleaseTiled` | rt-thread-3.0.3/src/memheap.c:499-596 | the sum of free payloads rises by the block and by each header merged away |
| `HeapBlocks.ReleaseIsFree` | rt-thread-3.0.3/src/memheap.c:499-596 | which blocks are free afterwards, both directions |
| `HeapBlocks.GrowOk` | rt-thread-3.0.3/src/memheap.c:337-406 | growth keeps the invariant and takes exactly the bytes gained |
| `HeapBlocks.ShrinkOk` | rt-thread-3.0.3/src/memheap.c:427-495 | shrinking keeps it and returns exactly the bytes given up, less a header if a block is added |
| `HeapBlocks.ResizedSize` | rt-thread-3.0.3/src/memheap.c:337-495 | a block resized in place keeps its start and ends where a free block begins; the others stand |
| `PageRuns.CanonicalUnique` | rt-thread-3.0.3/src/slab.c:246-332 | the page list is the sorted list of maximal free runs, so it depends on the set of free pages only |
| `PageRuns.AllocTakesPages` | rt-thread-3.0.3/src/slab.c:246-280 | exactly the pages handed out stop being free, and the list stays canonical |
| `PageRuns.AllocIsLowest` | rt-thread-3.0.3/src/slab.c:246-280 | no lower range of that many pages was free |
| `PageRuns.AllocFailsIff` | rt-thread-3.0.3/src/slab.c:246-280 | fails if and only if no such range is free |
| `PageRuns.FreeAddsPages` | rt-thread-3.0.3/src/slab.c:282-332 | exactly the pages freed become free, and runs are merged to maximal ones |
| `PageRuns.FreesCommute` | rt-thread-3.0.3/src/slab.c:282-332 | freeing two ranges in either order gives the same list |
| `PageRuns.FreeUndoesAlloc` | rt-thread-3.0.3/src/slab.c:246-332 | freeing what was just allocated restores the list exactly |
| `PageAllocator.PageAllocator.PageAlloc` | rt-thread-3.0.3/src/slab.c:246-280 | the first-fit loop computes that allocation; a request for no pages fails |
| `PageAllocator.PageAllocator.PageFree` | rt-thread-3.0.3/src/slab.c:282-332 | the insertion loop with its merges computes that release |
| `PageOwners.AllocApart` | rt-thread-3.0.3/src/slab.c:246-280 | pages handed out overlap none handed out before |
| `SizeClass.ZoneIndexFits` | rt-thread-3.0.3/src/slab.c:411-469 | for 1 to 16383: below 72, the least class that holds the request, rounded up to its chunk size |
| `SizeClass.ZoneIndexMonotone` | rt-thread-3.0.3/src/slab.c:411-469 | index and rounded size grow with the request |
| `SizeClass.ZoneIndexStable` | rt-thread-3.0.3/src/slab.c:411-469 | the rounded size is in the same class, at every boundary below 16384 |
| `SizeClass.ZoneIndexWaste` | rt-thread-3.0.3/src/slab.c:411-469 | rounding up costs less than eight bytes or less than an eighth of the request |
| `SlabZone.TakeChunkFresh` | rt-thread-3.0.3/src/slab.c:558-583 | the chain is non-empty when it is popped, and the chunk was free; `z_nfree` stays the sum of unused space and chain |
| `SlabZone.TakeOrder` | rt-thread-3.0.3/src/slab.c:571-583 | space that was never used is handed out first, in order; after that the chunk that came back last |
| `SlabZone.GiveBackFrees` | rt-thread-3.0.3/src/slab.c:859-871 | exactly that chunk is free again |
| `SlabZone.FreshZoneOk` | rt-thread-3.0.3/src/slab.c:640-663 | a new zone satisfies the zone invariant, alignment of its first chunk included, with one chunk handed out |
| `SlabZone.FreshZoneFull` | rt-thread-3.0.3/src/slab.c:640-663 | it has as many chunks as fit, starting within a chunk, or eight bytes, of the header |
| `SlabZone.PowerTestIff` | rt-thread-3.0.3/src/slab.c:646-650 | the bit test recognises exactly the powers of two |
| `SlabZone.ChunkAligned` | rt-thread-3.0.3/src/slab.c:646-663 | every chunk address is a multiple of eight; a power-of-two chunk is aligned to its size if and only if the page of its zone is, hence always up to the page size |
| `SlabHeap.Misaligned8192` | rt-thread-3.0.3/src/slab.c:354-682 | a run of the heap: with 65 MiB the first request for 8192 bytes is served from a zone, at an address that is a multiple of 8192 if and only if the heap begins at an odd page |
| `SlabHeap.First8192` | rt-thread-3.0.3/src/slab.c:354-682 | where that chunk lies: behind the page usage table and 8192 bytes into the first zone |
| `SlabZone.ChunksApart` | rt-thread-3.0.3/src/slab.c:643-663 | chunks overlap neither each other nor the header nor the end of the zone |
| `SlabZone.AddressDecodes` | rt-thread-3.0.3/src/slab.c:824-861 | from a chunk address the page in its zone and the chunk are found |
| `SlabState.TakeZonesOk` | rt-thread-3.0.3/src/slab.c:554-583 | taking from the first zone of a class keeps: outside the parked zones a zone is on its class list iff it has free chunks; exactly one more chunk is handed out |
| `SlabState.GiveZonesOk` | rt-thread-3.0.3/src/slab.c:859-875 | so does giving back; exactly one fewer is handed out |
| `SlabState.SetUpOk` | rt-thread-3.0.3/src/slab.c:640-667 | so does setting up a zone |
| `SlabState.ParkZoneOk` | rt-thread-3.0.3/src/slab.c:883-903 | so does parking a zone that is entirely free |
| `SlabState.UnparkOk` | rt-thread-3.0.3/src/slab.c:605-610 | so does taking a parked zone back |
| `SlabHeap.SlabHeap.constructor` | rt-thread-3.0.3/src/slab.c:354-405 | the heap on whole pages with computed zone size and limit; its first pages hold the usage table, four bytes a page and less than a page more, short of the wrap |
| `SlabHeap.SlabHeap.Malloc` | rt-thread-3.0.3/src/slab.c:488-682 | a small request gets a chunk that was free, of its class size and inside its zone, aligned to eight bytes and, for powers of two up to a page, to its size; it fails if and only if its class has no zone with free chunks, no zone is parked and no zone's worth of consecutive pages is free; a large one gets whole pages of its own and fails if and only if no such range is free or its size wraps; nothing else changes hands; a large one has as many pages as hold its size, less than a page more; the first zone of the class gives its next chunk and leaves the list with its last, or the zone set up heads the class; which pages leave the page list is stated |
| `SlabHeap.SlabHeap.Free` | rt-thread-3.0.3/src/slab.c:791-933 | page runs or exactly one chunk come back, found through the page usage table; at most two zones stay parked between calls; a chunk goes to the head of its zone's chain; an entirely free zone that is not the only one of its class is parked, or given back if two are parked already |
| `SlabHeap.SlabHeap.TakeFromZone` | rt-thread-3.0.3/src/slab.c:554-592 | the zone path of the allocation: its next chunk is handed out, and the zone leaves the list with its last one |
| `SlabHeap.SlabHeap.NewZone` | rt-thread-3.0.3/src/slab.c:594-674 | a parked zone or new pages are set up; fails if and only if neither is there, and then hands out nothing; the zone heads its class |
| `SlabHeap.SlabHeap.Retire` | rt-thread-3.0.3/src/slab.c:883-929 | the zone leaves its class for the parked ones; if two were parked it is given back, and exactly its pages return; no chunk changes status |
| `SlabHeap.FreedKeepsClasses` | rt-thread-3.0.3/src/slab.c:859-929 | after a release at most two zones are parked, the class of the zone has a free chunk, and no other class list changes |
| `SlabHeap.ZoneSizeFor` | rt-thread-3.0.3/src/slab.c:384-387 | the doubling loop: a power of two from 32 KiB to 128 KiB, as large as the heap size allows |
| `RtList.Nodes.InsertAfter` | rt-thread-3.0.3/include/rtservice.h:72-79 | the four writes insert behind a node of a ring, which stays a ring of distinct nodes with inverse links |
| `RtList.Nodes.InsertBefore` | rt-thread-3.0.3/include/rtservice.h:87-94 | the same in front; in front of the head it appends |
| `RtList.Nodes.Remove` | rt-thread-3.0.3/include/rtservice.h:100-106 | the node is bypassed and linked to itself |
| `RtList.Nodes.Len` | rt-thread-3.0.3/include/rtservice.h:121-132 | the loop counts the elements |
| `RtList.Nodes.IsEmpty` | rt-thread-3.0.3/include/rtservice.h:112-115 | true exactly for a head linked to itself |
| `ListLinks.InsertRing` | rt-thread-3.0.3/include/rtservice.h:72-94 | insertion into a ring, on the links as values |
| `ListLinks.BypassRing` | rt-thread-3.0.3/include/rtservice.h:100-106 | removal from a ring, on the links as values |
| `RtList.RemoveElement` | rt-thread-3.0.3/include/rtservice.h:100-106 | removing a node of a list removes that element of its sequence |
| `ShellLists.InsertIff` | rt-thread-3.0.3/components/finsh/finsh_heap.c:166-200 | an insertion yields the longer list if and only if there is a successor or the header's `next` was already null |
| `ShellMerge.HighestIsAbove` | rt-thread-3.0.3/components/finsh/finsh_heap.c:115-128 | because the highest block is always free, a freed block has a successor, so the stale `next` does no harm |
| `ShellHeap.BlockInsert` | rt-thread-3.0.3/components/finsh/finsh_heap.c:166-200 | writes exactly those of an insertion at the address-sorted place |
| `ShellHeap.BlockRemove` | rt-thread-3.0.3/components/finsh/finsh_heap.c:205-227 | the list without the node; the node's `next` is cleared only if it was the head, else left stale |
| `ShellHeap.BlockSplit` | rt-thread-3.0.3/components/finsh/finsh_heap.c:232-246 | the rest of the block follows it in the free list, every header holds the length of its block in the divided arena, and no header of a used block is written |
| `ShellHeap.BlockMerge` | rt-thread-3.0.3/components/finsh/finsh_heap.c:248-298 | list and lengths after merging with adjacent nodes on either side or both |
| `ShellMerge.TouchesIff` | rt-thread-3.0.3/components/finsh/finsh_heap.c:266-297 | the adjacency tests hold exactly when the neighbouring block is free |
| `ShellBlocks.ReleaseArena` | rt-thread-3.0.3/components/finsh/finsh_heap.c:115-128 | blocks still tile the arena, no two neighbours are free, the highest is free |
| `ShellBlocks.SplitArena` | rt-thread-3.0.3/components/finsh/finsh_heap.c:232-246 | the same after an allocation |
| `ShellBlocks.PickAscending` | rt-thread-3.0.3/components/finsh/finsh_heap.c:166-200 | both lists are address-sorted |
| `ShellMerge.ReleasePicks` | rt-thread-3.0.3/components/finsh/finsh_heap.c:115-128 | the two lists after a release are the free and the used blocks of the merged arena |
| `ShellMerge.FreeUndoesAllocate` | rt-thread-3.0.3/components/finsh/finsh_heap.c:73-128 | freeing the block just allocated restores the arena |
| `ShellHeap.ShellHeap.constructor` | rt-thread-3.0.3/components/finsh/finsh_heap.c:55-68 | one free block |
| `ShellHeap.ShellHeap.Search` | rt-thread-3.0.3/components/finsh/finsh_heap.c:79-92 | the first free block in address order that passes the test, or none does |
| `ShellHeap.ShellHeap.Allocate` | rt-thread-3.0.3/components/finsh/finsh_heap.c:73-110 | first fit with the strict test; if none, collect and try again with the weak test; the block is split and moves to the used list; the block has exactly the aligned size; a failure leaves no free block with room for the size and the next header |
| `ShellHeap.ShellHeap.Free` | rt-thread-3.0.3/components/finsh/finsh_heap.c:115-128 | the block moves to the free list and merges with free neighbours; headers of used blocks are unchanged |
| `ShellHeap.ShellHeap.Gc` | rt-thread-3.0.3/components/finsh/finsh_heap.c:133-161 | exactly the used blocks that a known variable points to stay, with their lengths |
| `ShellHeap.LongerIff` | rt-thread-3.0.3/components/finsh/finsh_heap.c:79-92 | the size test finds room if and only if adding the header size does not wrap |
| `ShellHeap.LongerExact` | rt-thread-3.0.3/components/finsh/finsh_heap.c:79-92 | without a wrap the first search wants more than the block and the next header take, and the second accepts an exact fit |
| `ShellHeap.ShellHeap.FindBlock` | rt-thread-3.0.3/components/finsh/finsh_heap.c:79-95 | the two searches with the collection between them |
| `ShellHeap.AllocatedSize` | rt-thread-3.0.3/components/finsh/finsh_heap.c:98-110 | the block handed out has exactly the aligned size, and the other blocks stand |
| `ShellHeap.WrappedSearch` | rt-thread-3.0.3/components/finsh/finsh_heap.c:79-82 | a run of the heap: on a fresh heap of any size a request of almost 4 GiB passes the test |
| `FinshVm.Machine.BitwiseDword` | rt-thread-3.0.3/components/finsh/finsh_ops.c:245-250 | each binary digit of the top cell is turned over |
| `FinshVm.Machine.Pop` | rt-thread-3.0.3/components/finsh/finsh_ops.c:437-441 | the top cell is dropped |
| `FinshVm.Machine.Dispatch` | rt-thread-3.0.3/components/finsh/finsh_vm.c:63-71 | the operation table sends each opcode to its operation, and no other byte to one |
| `FinshCompiler.Compiler.CompileNode` | rt-thread-3.0.3/components/finsh/finsh_compiler.c:43-757 | the switch over the node type yields the code of the node itself |
| `FinshCompiler.Compiler.Emit` | rt-thread-3.0.3/components/finsh/finsh_compiler.c:39-41 | bytes are appended in order and the text before them is unchanged |
| `FinshCompiler.Compiler.Clear` | rt-thread-3.0.3/components/finsh/finsh_compiler.c:910-916 | the text segment is zero and the emit position at its start |
| `MemHeap.SmallHeap.Swallow` | rt-thread-3.0.3/src/mem.c:157-195 | two header writes make a free block swallow its free successor, `lfree` following it |
| `MemHeap.SmallHeap.AdvanceLfree` | rt-thread-3.0.3/src/mem.c:381-388 | the loop moves `lfree` to the next free header or the sentinel, so the assertion behind it holds |
| `MemHeap.SmallHeap.Split` | rt-thread-3.0.3/src/mem.c:330-349 | the four header writes of a split keep all headers and give the cut chain |
| `MemHeap.SmallHeap.CopyAndFree` | rt-thread-3.0.3/src/mem.c:506-507 | the bytes arrive, then the old block is released; other payloads are untouched |
| `TimerList.TimerList.InsertAfter` | rt-thread-3.0.3/src/timer.c:376-382 | one row gets the timer behind its rank |
| `TimerList.TimerList.SetDeadline` | rt-thread-3.0.3/src/timer.c:320-321 | the wrapped deadline is `init_tick` from now, and the timer is the youngest |
| `TimerList.TimerList.Rearm` | rt-thread-3.0.3/src/timer.c:525-536 | restarted `init_tick` from now if periodic and still active, else marked inactive |
| `TimerFiring.RunHead` | rt-thread-3.0.3/src/timer.c:503-518 | the head leaves the list before its callback, which may stop it and others |
| `TimerFiring.Callback` | rt-thread-3.0.3/src/timer.c:518-518 | the callback stops exactly the timers it names |
| `KernelMachine.Kernel.constructor` | rt-thread-3.0.3/src/scheduler.c:120-147 | empty lists, a clear bitmap, no lock |
| `KernelMachine.Kernel.ResumeNode` | rt-thread-3.0.3/src/thread.c:672-705 | only a suspended thread is resumed: unlinked, timer stopped, put at the end of its ready list |
| `KernelMachine.Kernel.StartupNode` | rt-thread-3.0.3/src/thread.c:273-304 | priority, masks and status are set field by field, then the thread is resumed |
| `KernelMachine.Kernel.SuspendNode` | rt-thread-3.0.3/src/thread.c:630-662 | only a ready thread is suspended; it leaves its ready list and its timer stops |
| `KernelMachine.Kernel.YieldNode` | rt-thread-3.0.3/src/thread.c:453-487 | moves exactly when another thread of its priority is ready |
| `KernelMachine.Kernel.CloseNode` | rt-thread-3.0.3/src/thread.c:95-130 | a started thread leaves its list; timer off, status closed, perhaps defunct |
| `KernelMachine.Kernel.SleepCurrent` | rt-thread-3.0.3/src/thread.c:497-525 | suspended with its timer running and on no list |
| `KernelMachine.Kernel.WakeOne` | rt-thread-3.0.3/src/ipc.c:146-159 | the first waiter is resumed, with an error if the object goes away |
| `KernelMachine.Kernel.Enter` | rt-thread-3.0.3/src/scheduler.c:377-392 | one more level of locking |
| `MutexObject.MutexObject.constructor` | rt-thread-3.0.3/src/ipc.c:525-544 | free, with no owner and no hold |
| `MutexObject.MutexObject.WaitBehindOwner` | rt-thread-3.0.3/src/ipc.c:707-733 | the owner is boosted if the caller is stronger, then the caller blocks |
| `MutexObject.MutexObject.RestorePriority` | rt-thread-3.0.3/src/ipc.c:815-821 | the priority changes back only if it differs |
| `MutexObject.MutexObject.PassItOn` | rt-thread-3.0.3/src/ipc.c:823-852 | hand-over to the first waiter, or a free mutex |
| `EventObject.Event.Leave` | rt-thread-3.0.3/src/ipc.c:1097-1205 | a waiter that times out leaves the others in order and unsatisfied |
| `MailboxObject.Mailbox.constructor` | rt-thread-3.0.3/src/ipc.c:1259-1287 | an empty ring of the given size |
| `MailboxObject.Mailbox.WakeReceiver` | rt-thread-3.0.3/src/ipc.c:1511-1515 | the first receiver is woken for a new mail |
| `MailboxObject.Mailbox.WakeSender` | rt-thread-3.0.3/src/ipc.c:1659-1662 | the first sender is woken for a free slot |
| `MailboxObject.Mailbox.ResumeReceiver` | rt-thread-3.0.3/src/thread.c:672-705 | a receiver resumed from outside will retry, the invariants stand |
| `MailboxObject.Mailbox.ResumeSender` | rt-thread-3.0.3/src/thread.c:672-705 | the same for a sender |
| `MessageQueueObject.MessageQueue.Fill` | rt-thread-3.0.3/src/ipc.c:1964-1967 | the copy into a node in flight changes no queued message |
| `MessageQueueObject.MessageQueue.AppendNode` | rt-thread-3.0.3/src/ipc.c:1971-1985 | the node becomes the tail, and the head of an empty queue |
| `MessageQueueObject.MessageQueue.PushNode` | rt-thread-3.0.3/src/ipc.c:2058-2067 | the node becomes the head, and the tail of an empty queue |
| `MessageQueueObject.MessageQueue.PopFirst` | rt-thread-3.0.3/src/ipc.c:2198-2208 | the head is unlinked, the tail cleared with the last node |
| `MessageQueueObject.MessageQueue.DropFirst` | rt-thread-3.0.3/src/ipc.c:2256-2270 | one queued node moves to the free list |
| `MemHeapObject.MemHeap.InsertBlock` | rt-thread-3.0.3/src/memheap.c:210-220 | a new header is linked behind a block and overwrites only its own bytes |
| `MemHeapObject.MemHeap.RemoveBlock` | rt-thread-3.0.3/src/memheap.c:551-552 | a header is bypassed |
| `MemHeapObject.MemHeap.PushFree` | rt-thread-3.0.3/src/memheap.c:228-232 | a block enters the free list behind its head |
| `MemHeapObject.MemHeap.RemoveFree` | rt-thread-3.0.3/src/memheap.c:258-261 | a block leaves the free list |
| `MemHeapObject.MemHeap.TakeBlock` | rt-thread-3.0.3/src/memheap.c:192-265 | split or whole, with `available_size` and the running maximum exact; the block has at least the size wanted and less than a least block with its header more |
| `MemHeapObject.MemHeap.Unlist` | rt-thread-3.0.3/src/memheap.c:192-261 | the block leaves the free list, with its rest in its place if it is split |
| `MemHeapObject.MemHeap.CutOff` | rt-thread-3.0.3/src/memheap.c:195-240 | the split: a header behind the wanted bytes, first in the free list, and `available_size` lower by the bytes and a header |
| `MemHeapObject.MemHeap.MarkAndMerge` | rt-thread-3.0.3/src/memheap.c:536-579 | marking and both merges, with the bytes they return |
| `MemHeapObject.MemHeap.CopyAndRelease` | rt-thread-3.0.3/src/memheap.c:416-417 | the payload is copied and the old block released |
| `MemHeapObject.MemHeap.Move` | rt-thread-3.0.3/src/memheap.c:412-420 | allocate, copy, release, with both lists; fails if and only if the allocation is refused, and then changes nothing; `max_used_size` is the running maximum over the peak between the allocation and the release |
| `MemHeapObject.MemHeap.Resize` | rt-thread-3.0.3/src/memheap.c:314-496 | the four outcomes of a reallocation of a block in hand, with the running maximum of each |
| `PageAllocator.PageAllocator.constructor` | rt-thread-3.0.3/src/slab.c:337-344 | one run of all pages |
| `SlabHeap.SlabHeap.AcquireZone` | rt-thread-3.0.3/src/slab.c:605-638 | the first parked zone, else the first fitting pages marked in the usage table; none if and only if nothing is parked and no such range is free; no chunk changes status |
| `SlabHeap.SlabHeap.MarkZone` | rt-thread-3.0.3/src/slab.c:630-637 | the loop records for each page of a zone how far it is into it |
| `SlabHeap.SlabHeap.MallocLarge` | rt-thread-3.0.3/src/slab.c:508-536 | whole pages, apart from everything handed out; fails if and only if no such range is free or the rounded size wraps to no page; the pages hold the size and are less than a page more |
| `SlabHeap.AlignPageFits` | rt-thread-3.0.3/src/slab.c:508-512 | rounding up to pages loses nothing if and only if the size is at most 0xFFFFF000, and then costs less than a page; above that there are no pages at all |
| `SlabHeap.TableFits` | rt-thread-3.0.3/src/slab.c:396-399 | the usage table takes the first pages of the heap, as many as hold four bytes a page |
| `SlabHeap.SlabHeap.FreeLarge` | rt-thread-3.0.3/src/slab.c:824-849 | exactly these pages return to the page list |
| `SlabHeap.SlabHeap.FreeChunk` | rt-thread-3.0.3/src/slab.c:851-932 | one chunk comes back to the head of its chain; a zone entirely free that is not the only one of its class is parked, or its pages come back if two are parked; else no zone moves |
| `SlabHeap.SlabHeap.GiveChunk` | rt-thread-3.0.3/src/slab.c:859-875 | the chunk enters the chain, and a full zone its class list |
| `SlabHeap.SlabHeap.Park` | rt-thread-3.0.3/src/slab.c:891-903 | the zone leaves its class list for the parked ones |
| `SlabHeap.SlabHeap.ReleaseZone` | rt-thread-3.0.3/src/slab.c:906-926 | the first parked zone returns its pages |
| `SlabHeap.NextChunk` | rt-thread-3.0.3/src/slab.c:571-583 | never-used space first, then the free chain |
| `RtList.Nodes.Init` | rt-thread-3.0.3/include/rtservice.h:61-64 | a node linked to itself is an empty list |
| `RtList.InsertAfterHead` | rt-thread-3.0.3/include/rtservice.h:72-79 | behind the head is the front of the list |
| `RtList.InsertBeforeHead` | rt-thread-3.0.3/include/rtservice.h:87-94 | in front of the head is the end of the list |
| `ShellHeap.FindPrevious` | rt-thread-3.0.3/components/finsh/finsh_heap.c:253-264 | the predecessor in the list, or none for the head |
| `ShellHeap.IsLive` | rt-thread-3.0.3/components/finsh/finsh_heap.c:143-150 | whether a variable of known type points to the data |
| `ShellHeap.CutBlock` | rt-thread-3.0.3/components/finsh/finsh_heap.c:97-102 | the block is split and leaves the free list with its `next` cleared |
| `ShellHeap.SplitBlock` | rt-thread-3.0.3/components/finsh/finsh_heap.c:97-105 | both lists and all lengths after an allocation |
| `ShellHeap.ReleaseBlock` | rt-thread-3.0.3/components/finsh/finsh_heap.c:115-128 | both lists and all lengths after a release |

## Left out

- finsh lexer and parser: the model starts from trees, because a cast is assumed at every `(` and printing does not round-trip.
- finsh BYTE and WORD code paths, pointer dereference of user pointers, system variables and system calls: stale upper bytes of union slots and calls into foreign code. A program that reaches an undefined operation (division by zero, a shift out of range, memory outside the variables) has no result in the model.
- `finsh_error_set` and the error texts of the compiler.
- Soft timers and their thread: the scheduler lock is dropped during callbacks.
- Timer callbacks that start timers; the callbacks modelled stop timers or touch none.
- Periodic timers with `init_tick` 0: the check would not end, so periods are at least one tick.
- `rt_tick_set`: the order of the timer list relies on a clock that moves one tick at a time.
- The gaps with interrupts enabled inside `rt_timer_start`, `rt_thread_resume`, `rt_thread_delete` and `rt_thread_detach` when called from a plain thread: each is one step.
- The thread timer in the kernel state is a flag; the timer list is a separate object, and the two meet in the facts that a linked timer has a suspended owner and that the timeout function needs only a linked timer.
- Timer rows, page list, zone lists and event wait lists are sequences whose nodes are numbers; only the rings of `rtservice.h`, the memory heap objects, the message queue and the shell heap model the link fields.
- RoundRobin.TurnComes: a fixed set of threads that never block; timers that wake others in between are not in that theorem.
- Signals and the retry of `rt_mutex_take` after an interrupting signal.
- Several mutexes at once: the inheritance bound is about one mutex with the PRIO flag and no outside priority change of its threads.
- Requeueing of waiters when their priority changes: the code does not do it, so the order of a PRIO wait list assumes fixed priorities while queued.
- Semaphores and memory pools: counters next to the wait lists that are already modelled; the waiter count of a memory pool is not kept on a timeout.
- EventObject.Event.Recv: a waiter keeps the priority it had when it started to wait; the scheduler side of waiting is that of the kernel model.
- MailboxObject.Mailbox.Send: one pass of the retry loop per call; the remaining time computed between passes and the place on the wait list are the caller's.
- MessageQueueObject.MessageQueue.TakeFirst: the same.
- MessageQueueObject.MessageQueue.Fill: the bytes of a node behind the message keep what they were, as in the code.
- MemHeap.SmallHeap.Malloc: a heap smaller than the minimal block is excluded, since the loop bound would wrap below zero.
- MemHeap.SmallHeap.Free: an address inside the heap must be one that was handed out; the assertions on its header say so.
- MemHeap.SmallHeap.Realloc: the same for the block it resizes.
- Alignment of the begin and end addresses in the heap initialisations; sizes come in aligned.
- Locks around the heaps are taken to succeed; concurrent callers are not interleaved inside one call.
- `rt_calloc`, memory statistics of the slab heap, `rt_realloc` of the slab heap, and reallocation across several memory heap objects.
- MemHeapObject.MemHeap.WriteHeader: header fields are kept beside the pool bytes; a header write makes its bytes arbitrary instead of encoding them.
- SlabHeap.SlabHeap.constructor: the heap starts on a page boundary, and the page that the usage table occupies counts as handed out.
- ShellHeap.ShellHeap.Allocate: requests whose aligned size plus a header wraps are excluded by the condition of `LongerIff`; clearing the data of the block to zero is left out, the model has no data bytes.
- ShellHeap.BlockInsert: header fields are two arrays indexed by offset.
- Context switching, stacks, hooks, debug output, object containers, devices, idle cleanup, modules and the C++ wrappers.
