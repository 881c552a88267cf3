# Verified models of musl's dynamic linker, its POSIX AIO, GNU obstack and random_r

The project models the parts of this C library whose correctness does not show
in any one function, and proves what they promise:

- the dynamic linker of `musl-1.2.5/ldso`: dependency closure and constructor
  order (`ConstructorQueue.dfy` over `DependencyGraph.dfy`), the
  constructor/destructor protocol (`ConstructorProtocol.dfy`), TLS layout
  (`TlsLayout.dfy`), run-time TLS storage (`TlsStorage.dfy`), the lists and the
  failure path of `dlopen` (`Rollback.dfy`), symbol lookup
  (`SymbolLookup.dfy`) and RELR relocation (`Relr.dfy`);
- POSIX AIO: queue lifetime (`AioQueues.dfy`), sequencing
  (`AioSequencing.dfy`) and `aio_suspend` (`AioSuspend.dfy`);
- GNU obstack (`Obstack.dfy`) and the reentrant generator (`RandomR.dfy`).

`Bits.dfy`, `ByteMemory.dfy`, `Options.dfy` and `Sequences.dfy` hold shared
definitions. Words
are naturals with the reduction modulo 2^64 or 2^32 written out.

Code that updates objects, arrays or lists in place is a class or a method with
the source's loops, proved against a definition that does not mention the loop.
A protocol between threads is a machine: `Enabled` and `Step` over labels, one
label for each stretch of code between lock operations (or, for futexes, each
atomic operation), and `Run` of a whole schedule. Theorems about a protocol are
about every schedule of any number of threads.

Where a natural statement is false, the project proves exactly when it holds:
dependencies-first order holds iff the closure has no cycle; the list form of
`aio_suspend` loses no wakeup iff at most one thread uses it; a failed `dlopen`
restores the linker iff it did not link libc itself for the first time; a TLS
layout is sound iff its end computed without a word size is below 2^64; the
storage of a module loaded at run time fits its block, and a thread's block
holds its parts, iff the size computation does not wrap; RELR decoding
relocates each denoted word once iff no word is denoted twice; the room test of
`obstack_grow0` is sound iff the length is not the largest `size_t`;
`count_syms` without DT_HASH finds the end of the table iff some symbol is
hashed.

That `dlopen` is called while libc is not linked is a hypothesis only: a program
finds `dlopen` by symbol lookup along the chain, so libc is on it by then.

## Model

| member | source | states |
|---|---|---|
| ConstructorQueue.Linker.ExtendBfsDeps | musl-1.2.5/ldso/dynlink.c:1305-1354 | terminates although the list grows under the iteration; afterwards the list is the direct dependencies followed by every other object reachable in one or more steps, nothing added twice; all marks are clear again and no other list changed |
| ConstructorQueue.Linker.MarkDirect | musl-1.2.5/ldso/dynlink.c:1319-1321 | afterwards exactly the direct dependencies are marked |
| ConstructorQueue.Linker.CopyUnmarked | musl-1.2.5/ldso/dynlink.c:1328-1349 | every direct dependency of the entry is in the list afterwards, the old list is a prefix of the new one, and the entries and the terminator fit the space counted beforehand |
| ConstructorQueue.GrowingBound | musl-1.2.5/ldso/dynlink.c:1323-1326 | excluding duplicates bounds the growing list, whatever the graph |
| ConstructorQueue.ClosureComplete | musl-1.2.5/ldso/dynlink.c:1327-1351 | once every entry has been iterated over, the list holds exactly the objects reachable in one or more steps |
| ConstructorQueue.Linker.QueueCtors | musl-1.2.5/ldso/dynlink.c:1510-1577 | for every graph, cyclic or not: a null-terminated queue of each object of the closure exactly once, the root last, where an object precedes its own direct dependency only if that dependency leads back to it; marks are left clear |
| ConstructorQueue.Linker.CountAndUnmark | musl-1.2.5/ldso/dynlink.c:1517-1529 | the buffer size exceeds the size of the closure, on both ways of computing it, and no descendant is left marked |
| ConstructorQueue.Search | musl-1.2.5/ldso/dynlink.c:1541-1566 | the two ends of the shared buffer never overlap, the terminator slot is in range, and the queue end holds a constructor order |
| ConstructorQueue.Descend | musl-1.2.5/ldso/dynlink.c:1554-1563 | the inner loop extends the open path down to an object with no unmarked dependency, keeping the stack end equal to the path |
| ConstructorQueue.DfsFinish | musl-1.2.5/ldso/dynlink.c:1553-1565 | moving the top of the path to the queue keeps the search invariant: the finished objects' dependencies are finished or lead back to them |
| ConstructorQueue.DependenciesFirstIffAcyclic | musl-1.2.5/ldso/dynlink.c:1544-1566 | every constructor order of a root is dependencies-first if and only if no object of the closure reaches itself |
| ConstructorQueue.CycleBreaksOrder | musl-1.2.5/ldso/dynlink.c:1544-1566 | a concrete two-object cycle whose constructor order is not dependencies-first |
| ConstructorProtocol.Reachable | musl-1.2.5/ldso/dynlink.c:1579-1617 | the protocol invariant in every reachable state: each activation's entries so far are constructed or visited by its own thread, visitors match activations, the fini list is duplicate-free and is the claimed objects with destructors, latest claim first |
| ConstructorProtocol.StacksKept | musl-1.2.5/ldso/dynlink.c:1585-1616 | every step of every thread keeps every thread's stack of nested activations consistent with the shared fields |
| ConstructorProtocol.ClaimedOnce | musl-1.2.5/ldso/dynlink.c:1587-1591 | no object is claimed twice in a run |
| ConstructorProtocol.OneVisitor | musl-1.2.5/ldso/dynlink.c:1587-1613 | at most one activation of one thread is inside an object's constructors, it is the visitor, and the object is not constructed yet |
| ConstructorProtocol.FrozenAfterShutdown | musl-1.2.5/ldso/dynlink.c:1478-1482 | once shutting_down is set nothing is claimed any more and the fini list never changes |
| ConstructorProtocol.ReturnGuarantee | musl-1.2.5/ldso/dynlink.c:1586-1617 | for every call of do_init_fini in every run: when it returns, each object of the queue it was called with is constructed, or is being constructed by an outer activation of the same thread |
| ConstructorProtocol.QueuesMatch | musl-1.2.5/ldso/dynlink.c:1585 | each open activation still works through the queue that its call, read off the schedule, gave it |
| ConstructorProtocol.OnlyWaitsHoldUp | musl-1.2.5/ldso/dynlink.c:1586-1617 | in every reachable state an activation that does not wait has exactly one next step: it finishes its constructor, returns at the end of its queue, claims the object exactly if nobody has claimed it, or skips it exactly if somebody has; only a constructor may call in again |
| ConstructorProtocol.ExitExactly | musl-1.2.5/ldso/dynlink.c:1469-1482 | exactly a thread in application code, also inside a constructor, may be the first to exit |
| ConstructorProtocol.OnlyWaitsHoldUpExit | musl-1.2.5/ldso/dynlink.c:1482-1495 | the exiting thread is held up only by another thread's constructor, and destroys exactly what is constructed |
| ConstructorProtocol.NoConstructorDuringDestructor | musl-1.2.5/ldso/dynlink.c:1482-1495 | from the start of an object's destructors on, no thread is inside its constructors |
| ConstructorProtocol.DestructorsComplete | musl-1.2.5/ldso/dynlink.c:1469-1497 | a complete exit has run the destructors of exactly the constructed objects that have any, each once, in reverse order of claiming |
| TlsLayout.MaxP2IsMax | musl-1.2.5/ldso/dynlink.c:42 | MAXP2 of two powers of two, computed by negation and masking, is their maximum and a multiple of both |
| TlsLayout.OffsetAboveOk | musl-1.2.5/ldso/dynlink.c:1233-1235 | the masking adds, in a word, exactly the padding below one alignment that makes the offset congruent to the image; the offset is congruent even if it wrapped |
| TlsLayout.OffsetBelowOk | musl-1.2.5/ldso/dynlink.c:1237-1240 | the same below the thread pointer, congruent to the negated image address, although intermediate sums may wrap |
| TlsLayout.PadUnique | musl-1.2.5/ldso/dynlink.c:1233-1239 | only one padding below one alignment makes a module congruent |
| TlsLayout.AppOffsetIsGeneral | musl-1.2.5/ldso/dynlink.c:1934-1937 | for every module the main program's own formula gives the offset the general rule gives from an empty layout |
| TlsLayout.AddOk | musl-1.2.5/ldso/dynlink.c:1229-1241 | loading one more module keeps all modules placed, pairwise disjoint and aligned, and moves tls_offset up by at least the size, if and only if the padded end stays below 2^64 |
| TlsLayout.AddAlign | musl-1.2.5/ldso/dynlink.c:1231 | tls_align becomes the larger of the old one and the module's |
| TlsLayout.LayoutSound | musl-1.2.5/ldso/dynlink.c:1229-1241 | over every sequence of loads: pairwise disjoint ranges, each congruent to its image, tls_align a multiple of every alignment, and tls_offset growing by at least each size, if and only if the end computed without a word size is below 2^64, which tls_offset then is |
| TlsLayout.LayoutWraps | musl-1.2.5/ldso/dynlink.c:1229-1241 | a concrete failing input: two modules of 2^63 bytes |
| TlsLayout.CopyFits | musl-1.2.5/src/env/__init_tls.c:53-67 | wherever the block is and whatever its size, every module's copy is congruent to its image and inside the TLS area of tls_offset bytes at the thread pointer, for both placements |
| TlsLayout.BlockHoldsIff | musl-1.2.5/ldso/dynlink.c:1641-1646 | for every layout and every granted block of the size update_tls_size computes in a word, the DTV, the TLS area and the thread structure lie in the block and apart, if and only if that computation does not wrap |
| TlsLayout.BlockTooSmall | musl-1.2.5/ldso/dynlink.c:1641-1646 | a concrete sound layout whose block size wraps to 18 bytes |
| TlsLayout.ThreadPointerOk | musl-1.2.5/src/env/__init_tls.c:46-62 | for every block the thread pointer is a multiple of tls_align, less than one alignment from where the thread structure would put it |
| TlsStorage.NewDtvOk | musl-1.2.5/ldso/dynlink.c:1242-1243 | the DTV rows start at the first multiple of 8 after the name's terminator |
| TlsStorage.CopyOk | musl-1.2.5/ldso/dynlink.c:1670-1678 | each thread's copy is congruent to its image and less than one alignment into its space |
| TlsStorage.CarveFitsIff | musl-1.2.5/ldso/dynlink.c:1207-1215 | per_th is a wrapping sum and the size check tests the wrapped value: in every granted block all DTV rows and copies fit, after the name, if and only if the sum did not wrap |
| TlsStorage.RequestExact | musl-1.2.5/ldso/dynlink.c:1209-1213 | the check by division lets exactly the products through that do not exceed SSIZE_MAX, and divides by zero exactly if per_th wrapped to 0 |
| TlsStorage.SmallRequest | musl-1.2.5/ldso/dynlink.c:1209-1213 | a concrete module the size check lets through with per_th equal to 8, less than one row, whose row or copy leaves the block; and one whose per_th is 0, by which the check divides |
| TlsStorage.CarveApart | musl-1.2.5/ldso/dynlink.c:1242-1244 | rows and copies of different threads are disjoint |
| TlsStorage.SlotInRow | musl-1.2.5/ldso/dynlink.c:1653-1654 | the rows of tls_cnt + 1 words at the provider's new_dtv are the rows that were carved with the count known at load time, inside its block and before its copies |
| TlsStorage.SlotMeetsNothing | musl-1.2.5/ldso/dynlink.c:1668-1679 | no slot of any row overlaps any copy or any image |
| TlsStorage.CopiesApart | musl-1.2.5/ldso/dynlink.c:1668-1679 | copies of different modules or threads do not overlap |
| TlsStorage.CopyKeepsCell | musl-1.2.5/ldso/dynlink.c:1672-1675 | writing one copy into memory leaves every filled slot and every other copy as it was |
| TlsStorage.SlotKeepsCell | musl-1.2.5/ldso/dynlink.c:1676-1677 | filling one slot in memory leaves every other slot and every copy as it was |
| TlsStorage.EntryCopied | musl-1.2.5/ldso/dynlink.c:1662-1666 | after the first loop's body each old entry of the thread is in its row, read back from memory, and entry 0 is the new count |
| TlsStorage.InstallNewTls | musl-1.2.5/ldso/dynlink.c:1649-1697 | rows, copies, images and old vectors share one memory: every word of every thread's new vector, read back at the end, is the new count, the thread's old entry, or the address of the thread's own copy of that module, every copy holds the image, and no byte outside the new modules' carved storage has changed |
| TlsStorage.InstallModules | musl-1.2.5/ldso/dynlink.c:1668-1681 | the loop that ends at the module numbered tls_cnt has put every new module in place for every thread and kept all rows filled before |
| TlsStorage.InstallModule | musl-1.2.5/ldso/dynlink.c:1670-1679 | one module more is in place for every thread: its copy in memory and the slot pointing at it, everything before kept |
| Rollback.Loader.AddSyms | musl-1.2.5/ldso/dynlink.c:1370-1376 | the two pointer tests decide membership: the object is appended exactly if it is not on the symbol chain, and the chain stays acyclic, duplicate-free and ended by syms_tail |
| Rollback.Loader.RevertSyms | musl-1.2.5/ldso/dynlink.c:1378-1388 | the chain is cut after old_tail, the removed objects' pointers are null, and the chain stays acyclic, duplicate-free and ended by syms_tail |
| Rollback.Loader.LoadLibrary | musl-1.2.5/ldso/dynlink.c:1229-1252 | a new object is appended to the DSO chain, and to the TLS chain exactly if it has an image; tls_offset and tls_align are then the padded end and the larger alignment and otherwise unchanged, and in every case those of the modules on the TLS chain laid out in order |
| Rollback.Loader.LinkTls | musl-1.2.5/ldso/dynlink.c:1245-1247 | the object becomes the last of the TLS chain, also when the chain was empty |
| Rollback.Loader.PlaceTls | musl-1.2.5/ldso/dynlink.c:1230-1241 | the module gets the next number and the next padded offset, tls_offset and tls_align become those of all modules on the chain laid out in order, and no other module's place changes |
| Rollback.ModulesApart | musl-1.2.5/ldso/dynlink.c:1229-1247 | in every state of the loader whose layout fits a word, the recorded offsets of any two modules on the TLS chain keep them apart |
| Rollback.Loader.LoadSelf | musl-1.2.5/ldso/dynlink.c:1099-1106 | the linker's own object is linked exactly if it was not, and its predecessor is the old tail |
| Rollback.Loader.PrepareLazy | musl-1.2.5/ldso/dynlink.c:2097-2098 | the object becomes the head of the lazy list in front of the old head, no other object's link changes |
| Rollback.Loader.RelocAll | musl-1.2.5/ldso/dynlink.c:1410-1437 | exactly the objects from the given one to the end of the chain become relocated |
| Rollback.Loader.Release | musl-1.2.5/ldso/dynlink.c:2138-2151 | every object after orig_tail is released once, in order, and no other |
| Rollback.Loader.RollBack | musl-1.2.5/ldso/dynlink.c:2135-2163 | after any growth of the lists the clean-up leaves every list and counter as it was when the call began, and releases exactly the objects linked since |
| Rollback.Loader.Dlopen | musl-1.2.5/ldso/dynlink.c:2125-2209 | for every sequence of loads, lazy preparations, symbol additions and relocations: a failed call releases each object it loaded once and restores the whole linker state without releasing the linker, if and only if libc was linked already or the call did not link it; it releases the linker itself exactly otherwise; after a successful call chain, TLS chain and lazy list are the old ones extended by the actions in order, the symbol chain too with RTLD_GLOBAL and otherwise as it was, and exactly the objects on the chain are relocated |
| Rollback.AfterAllHas | musl-1.2.5/ldso/dynlink.c:2165-2203 | over every sequence of actions, each loaded object is on the chain at the end and each object whose symbols were added is on the symbol chain |
| Rollback.LinkerReleased | musl-1.2.5/ldso/dynlink.c:2138-2151 | a concrete failed call that links libc for the first time has the linker's own static object among those it unmaps and frees |
| Rollback.LinksChop | musl-1.2.5/ldso/dynlink.c:1383-1386 | nulling the pointers from position k - 1 on leaves exactly the list of the first k |
| Rollback.Restored | musl-1.2.5/ldso/dynlink.c:2152-2162 | dropping the new objects' fields and the two old tails' pointers gives back the old chain, TLS chain and lazy links |
| SymbolLookup.SysvHash | musl-1.2.5/ldso/dynlink.c:235-244 | clearing the top nibble only at the end gives the hash of "Hash Table", chapter 5 of the System V gABI, in 32-bit words, for every string |
| SymbolLookup.WideHashAgrees | musl-1.2.5/ldso/dynlink.c:235-244 | the gABI function computed in any wider word has the same low 28 bits |
| SymbolLookup.GnuHash | musl-1.2.5/ldso/dynlink.c:246-253 | the wrapping additions compute 33 h + c from 5381 modulo 2^32 |
| SymbolLookup.KnownHashes | musl-1.2.5/ldso/dynlink.c:235-253 | both hashes of the string "printf", as numbers |
| SymbolLookup.FirstMatchFirst | musl-1.2.5/ldso/dynlink.c:269-288 | the linear scan returns a visible symbol of that name with no other before it, or none if there is none |
| SymbolLookup.GnuLookup | musl-1.2.5/ldso/dynlink.c:269-288 | on every well-formed table the result is the first visible symbol of that name in a linear scan of the hashed symbols |
| SymbolLookup.GnuLookupFiltered | musl-1.2.5/ldso/dynlink.c:290-300 | with the Bloom filter in front, the result is that of the linear scan |
| SymbolLookup.FilteredOut | musl-1.2.5/ldso/dynlink.c:292-297 | a hash the filter rejects belongs to no hashed symbol |
| SymbolLookup.CountSyms | musl-1.2.5/ldso/dynlink.c:1000-1012 | the end of the symbol table if some symbol is hashed, and 0 otherwise |
| SymbolLookup.CountsNothing | musl-1.2.5/ldso/dynlink.c:1000-1012 | a concrete table of one symbol that is not hashed, for which the count is 0 |
| SymbolLookup.SysvLookup | musl-1.2.5/ldso/dynlink.c:255-267 | finds a visible symbol of that name if and only if one exists |
| Relr.ApplyBitmap | musl-1.2.5/ldso/dynlink.c:571-574 | the base is added to exactly the words of the 63 whose bits are set |
| Relr.ApplyEntry | musl-1.2.5/ldso/dynlink.c:567-576 | one entry relocates what it denotes and moves the cursor past what it covers |
| Relr.DoRelrRelocs | musl-1.2.5/ldso/dynlink.c:562-578 | every word is relocated as often as entries of the table denote it; nothing happens to the linker itself; the uninitialised cursor is never used |
| Relr.StageOne | musl-1.2.5/ldso/dlstart.c:144-157 | the stage-1 loop performs the same transformation |
| Relr.RunBoth | musl-1.2.5/ldso/dlstart.c:144-157 | run on equal images, both decoders leave equal images |
| Relr.EachWordOnce | musl-1.2.5/ldso/dynlink.c:562-578 | for every well-formed table: whatever the image and the base, decoding adds the base exactly once to each denoted word and changes no other, if and only if no word is denoted twice |
| Relr.TwiceDenoted | musl-1.2.5/ldso/dynlink.c:567-576 | a concrete failing table: the same address twice |
| Relr.IncreasingOnce | musl-1.2.5/ldso/dynlink.c:567-576 | a table whose addresses never go back denotes no word twice |
| Relr.RelocateLinker | musl-1.2.5/ldso/dynlink.c:1758-1760 | across stage 1 and both later passes over the linker its image is relocated once |
| AioQueues.SlotInjective | musl-1.2.5/src/aio/aio.c:91-92 | the four-level index split is injective and in range for non-negative descriptors |
| AioQueues.Reachable | musl-1.2.5/src/aio/aio.c:83-159 | lock ownership, reference counts, table and heap agree in every reachable state of any number of submitters, cancellers and workers |
| AioQueues.QueueLifetime | musl-1.2.5/src/aio/aio.c:83-159 | ref is the number of outstanding references, every thread that can reach a queue reaches an allocated one, and aio_fd_cnt is the number of table entries, each under its own descriptor |
| AioQueues.FoundQueueMatches | musl-1.2.5/src/aio/aio.c:95-114 | a lookup never finds another descriptor's queue |
| AioQueues.GotOwnQueue | musl-1.2.5/src/aio/aio.c:83-129 | over every run: a caller comes away with an allocated queue of the descriptor it asked for, and takes a reference exactly if it asked with need set |
| AioQueues.MissLeadsToAlloc | musl-1.2.5/src/aio/aio.c:94-101 | a lookup misses exactly if the table has no entry for the descriptor asked for, and then goes on to create one exactly if one is needed |
| AioQueues.AllocExactly | musl-1.2.5/src/aio/aio.c:101-122 | under the write lock a queue is allocated exactly if the entry is still missing |
| AioQueues.LastHolder | musl-1.2.5/src/aio/aio.c:143-153 | with both locks held and ref equal to 1, no other thread can reach the queue |
| AioQueues.UnrefExactly | musl-1.2.5/src/aio/aio.c:131-159 | in every reachable state the fast path is taken exactly while other references are outstanding, and the entry is removed exactly by the thread that holds the only one |
| AioQueues.MovesExactly | musl-1.2.5/src/aio/aio.c:131-159 | in every reachable state a thread that knows a queue is held up by nothing but the two locks |
| AioQueues.FreeIsSafe | musl-1.2.5/src/aio/aio.c:145-153 | when a queue is freed nobody holds its lock, no other thread can reach it, and no table entry leads to it |
| AioQueues.FreedOnce | musl-1.2.5/src/aio/aio.c:131-159 | in every run each allocated queue is freed at most once, and exactly once when it is gone |
| AioSequencing.WorkerList.Link | musl-1.2.5/src/aio/aio.c:236-238 | the worker becomes the head of a well-formed doubly linked list |
| AioSequencing.WorkerList.Unlink | musl-1.2.5/src/aio/aio.c:186-188 | exactly that worker leaves the list, from any position |
| AioSequencing.WorkerList.EarlierWrite | musl-1.2.5/src/aio/aio.c:252-253 | the scan finds a write if and only if one is on the chain behind the worker |
| AioSequencing.Reachable | musl-1.2.5/src/aio/aio.c:226-258 | in every reachable state the active list is the linked operations not yet removed, latest first, and lock and statuses agree |
| AioSequencing.ChainIsEarlierActive | musl-1.2.5/src/aio/aio.c:236-238 | a worker's next chain is exactly the still-active operations linked before it |
| AioSequencing.SequencedStart | musl-1.2.5/src/aio/aio.c:249-258 | over every schedule: when a write on an append descriptor, or an fsync, starts, every write linked earlier has published its result and left the list |
| AioSequencing.StartsExactly | musl-1.2.5/src/aio/aio.c:249-258 | in every reachable state a linked worker waits exactly if its operation is an fsync, or a write on an append descriptor, and an earlier linked write has not left the list; it starts exactly otherwise, so reads and plain writes never wait |
| AioSequencing.HistoryTold | musl-1.2.5/src/aio/aio.c:236-245 | kinds, the order of linking and whether the descriptor appends are, in every reachable state, what the calls said; the append flag is the one the first worker found |
| AioSequencing.NextStep | musl-1.2.5/src/aio/aio.c:176-258 | in every reachable state nothing but the lock and earlier writes holds an operation up, and submit returns once, after its worker has posted |
| AioSequencing.EndsExactly | musl-1.2.5/src/aio/aio.c:131-193 | an operation is submitted once, and the queue goes away exactly when every worker created has left the list |
| AioSequencing.AppendsRunInOrder | musl-1.2.5/src/aio/aio.c:323-325 | over every schedule: if one aio_write on an append descriptor returns before another is called, the second write starts only after the first has been published |
| AioSuspend.NoLostWakeupSingle | musl-1.2.5/src/aio/aio_suspend.c:46-50 | a thread asleep on one control block whose operation is complete is about to be woken by a worker that has stored the result |
| AioSuspend.NoLostWakeupList | musl-1.2.5/src/aio/aio_suspend.c:51-61 | the same for the list form when only one thread uses it |
| AioSuspend.ReturnsExactly | musl-1.2.5/src/aio/aio_suspend.c:38-64 | over every run: a call of aio_suspend ends exactly by giving up while asleep or by finding an operation complete that its own list names |
| AioSuspend.ReturnMeansComplete | musl-1.2.5/src/aio/aio_suspend.c:38-64 | so a call that does not give up returns only when one of the operations it was called with is complete |
| AioSuspend.CompleteNeverSleeps | musl-1.2.5/src/aio/aio_suspend.c:23-27 | a call one of whose operations is complete from the start never sleeps: it has returned or is still testing the blocks up to that one |
| AioSuspend.CallerSteps | musl-1.2.5/src/aio/aio_suspend.c:38-64 | in every reachable state a caller tests all its blocks in turn, then announces itself, and sleeps exactly if the futex word still has the value it announced or found |
| AioSuspend.AnnounceExactly | musl-1.2.5/src/aio/aio_suspend.c:43-57 | announcing sets the waiters bit exactly if the one operation is pending, or puts the caller's tid in __aio_fut exactly if it was 0 |
| AioSuspend.WorkerExactly | musl-1.2.5/src/aio/aio.c:176-182 | a worker wakes exactly the sleepers on its control block if it found the waiters bit, and exactly the list sleepers if it found a tid |
| AioSuspend.CompletesExactly | musl-1.2.5/src/aio/aio.c:179-180 | over every run: an operation becomes complete exactly when the worker submitted for it stores the result, and pending exactly when it is submitted |
| AioSuspend.ListFormSafeIff | musl-1.2.5/src/aio/aio_suspend.c:51-64 | the list form loses no wakeup in any run in which only the given threads use it, if and only if they are at most one |
| AioSuspend.TwoListersLoseWakeup | musl-1.2.5/src/aio/aio_suspend.c:51-64 | for any two threads, a run that leaves one asleep with a complete operation and no worker left to wake it |
| AioSuspend.SingleKept | musl-1.2.5/src/aio/aio.c:176-182 | every step keeps: a sleeper's control block carries the waiters bit or a wake is pending |
| AioSuspend.ListKept | musl-1.2.5/src/aio/aio.c:176-182 | every step keeps: a completed listed operation means that __aio_fut is going to be cleared and its waiters woken |
| Obstack.Obstack.Begin | libgcompat/obstack.c:113-153 | fails exactly if the first chunk is refused; otherwise a fresh obstack with one chunk, an empty growing object at the first aligned address after the header, the flag clear, and 16 and 4064 for an alignment and a size of 0 |
| Obstack.Obstack.NewChunk | libgcompat/obstack.c:187-236 | for every length, including ones that wrap: the failure handler is called if and only if the object, the length and the alignment mask together exceed a word or chunkfun refuses the size wanted, with the obstack and memory unchanged; otherwise the new chunk is what chunkfun granted for that size, with room for the length, the growing object at its first aligned address keeping its bytes, and every finished object its address and bytes |
| Obstack.NewSizeExact | libgcompat/obstack.c:195-206 | the tests on the wrapped sums catch exactly the needs that exceed a word, and the size asked for otherwise is the larger of the chunk size and the need with its slack, the slack being dropped only if it would wrap |
| Obstack.FirstLeast | libgcompat/obstack.c:214-215 | an object moved to a new chunk starts at the least aligned address after the 16-byte header |
| Obstack.SizeSuffices | libgcompat/obstack.c:195-206 | when the wrap-around tests pass and the request is below 2^63, the new chunk has room for the header, the alignment, the moved object and the length |
| Obstack.Obstack.Install | libgcompat/obstack.c:209-235 | moving the growing object keeps its bytes and every finished object; the old chunk is handed to freefun and unlinked exactly when the flag and the base say that it held only that object |
| Obstack.OnlyGrowingObject | libgcompat/obstack.c:220-226 | the early release test is right: if it passes, the old chunk holds no finished object, not even an empty one |
| Obstack.MoveTop | libgcompat/obstack.c:217-235 | the whole move, on values: chunks stay disjoint, finished objects intact, and the object's bytes are the same at the new base |
| Obstack.Obstack.Grow | libgcompat/obstack.h:316-324 | succeeds if and only if there is room, or the need fits a word and chunkfun grants the size wanted, and is without effect otherwise; the growing object's bytes are then the old ones followed by the appended ones, however many moves occurred |
| Obstack.Obstack.Grow0 | libgcompat/obstack.h:326-335 | the same for one byte more, with a zero byte appended |
| Obstack.Grow0TestSound | libgcompat/obstack.h:326-335 | skipping the new chunk implies room for the bytes and the zero if and only if the length is not the largest size_t |
| Obstack.Obstack.Blank | libgcompat/obstack.h:378-384 | succeeds under the same condition; the object is longer by the given length and its old bytes are a prefix |
| Obstack.Obstack.Finish | libgcompat/obstack.h:406-419 | the growing object becomes the last finished one at its current address, aligned if non-empty; the next object starts at the least free aligned address of the chunk, or at its limit if there is none; the flag is set exactly if the object was empty or it was set before |
| Obstack.FinishLeast | libgcompat/obstack.h:406-419 | no aligned address between the end of the finished object and the next base is skipped |
| Obstack.Obstack.Free | libgcompat/obstack.h:421-428 | freeing any live object, even an empty one at the boundary of adjacent chunks, leaves exactly the earlier objects live and intact, keeps exactly the chunks up to its own, hands each later chunk to freefun once, newest first, and sets the flag exactly if a chunk was released or it was set before |
| Obstack.Obstack.FreeTo | libgcompat/obstack.c:267-295 | the loop stops at the owning chunk if there is one, and has handed exactly the chunks above it to freefun, each once, newest first; otherwise all of them |
| Obstack.OwnerUnique | libgcompat/obstack.c:273-277 | with the one-sided comparison no address belongs to two chunks |
| Obstack.Obstack.FreeAll | libgcompat/obstack.c:267-295 | freeing the null pointer hands every held chunk to freefun once, so that over the obstack's life each chunk granted has been released as often as it was granted |
| Obstack.Obstack.AllocatedP | libgcompat/obstack.c:246-262 | true if and only if some chunk owns the address |
| Obstack.Obstack.MemoryUsed | libgcompat/obstack.c:299-310 | the bytes of all chunks ever granted less those of all chunks released |
| Obstack.Packs | libgcompat/obstack.c:305-308 | chunks that lie apart in the address space have a total below 2^64, so the sum never wraps |
| Obstack.Play | libgcompat/obstack.h:90 | over every sequence of appends, reservations, finishes and frees, memory at each address handed out holds exactly the bytes put into that object, at an aligned address; the sequence stops early only at an operation that needs a chunk whose size wraps or that chunkfun refuses |
| Bits.AlignUpRounds | libgcompat/obstack.h:131-142 | the masking macro gives the least multiple of the alignment not below the address |
| RandomR.Lcg31IsMasked | libgcompat/random_r.c:57-59 | masking the wrapped 32-bit product is the residue modulo 2^31 |
| RandomR.PackUnpack | libgcompat/random_r.c:143-145 | the signed header unpacks to the packed degree, negative or not, and indices |
| RandomR.RandomData.Srandom | libgcompat/random_r.c:65-96 | rejects degrees over 63 untouched, sets one word for degree 0, for a negative degree only makes the first word odd and rewrites the header, and otherwise leaves the seeded state in the area |
| RandomR.RandomData.Initstate | libgcompat/random_r.c:98-122 | rejects areas under 8 bytes untouched, and otherwise stores the seeded state of the degree the size allows |
| RandomR.RandomData.Random | libgcompat/random_r.c:134-162 | one in-place step is one step of the abstract generator, header included, with its result |
| RandomR.SeededOk | libgcompat/random_r.c:84-119 | a seeded state is a running generator that fits the buffer and has an odd word |
| RandomR.SeedClosedForm | libgcompat/random_r.c:61-63 | after k rounds the seeding generator holds a^k seed + (1 + a + .. + a^(k-1)) modulo 2^64 with a = 6364136223846793005 |
| RandomR.SeededWords | libgcompat/random_r.c:84-93 | every word srandom_r leaves, in closed form: the upper half of that state, the first made odd |
| RandomR.DegreeLargest | libgcompat/random_r.c:107-117 | the degree is the largest of 0, 7, 15, 31 and 63 whose words fit behind the header, and the lags are those of the trinomials |
| RandomR.OneWordOutput | libgcompat/random_r.c:147-149 | call t of a generator with one word, in closed form modulo 2^31 |
| RandomR.Refines | libgcompat/random_r.c:151-158 | after any number of calls the ring holds the last n terms of y[t] = y[t-n] + y[t-lag] modulo 2^32, each at its place |
| RandomR.OutputIsRecurrence | libgcompat/random_r.c:151-160 | call t returns term n + t of the recurrence, as a signed word, halved |
| RandomR.IndicesApart | libgcompat/random_r.c:153-158 | the indices stay in range, distinct and at constant lag |
| RandomR.StaysOdd | libgcompat/random_r.c:90-91 | at least one word stays odd forever |
| RandomR.Interleave | libgcompat/random_r.c:124-162 | states used in turn through setstate_r each yield their own sequence, as if used alone |

## Left out

- `map_library`, path search, name matching against loaded objects, FDPIC, NOMMU and MIPS paths, `do_relocs` itself: system calls and platform plumbing.
- Allocation failure inside `extend_bfs_deps` and `queue_ctors`, `ldd_mode`, and the fork check on visitor threads.
- ConstructorProtocol.Reachable: `exit` is called by one thread only; pointers of the fini list are a sequence.
- TlsLayout.BlockHoldsIff: a block of 2^63 bytes or more is never granted.
- TlsStorage.CarveFitsIff: calloc refuses 2^63 - 4096 bytes or more, tls_cnt is below 2^57, and a per_th of 0 never gets that far, because the size check divides by it.
- TlsStorage.InstallNewTls: for modules whose storage fits, which TlsStorage.CarveFitsIff decides; signals, the thread-list lock and the memory barrier are not modelled, and storing the new vector in each thread is returned as a list of addresses.
- Rollback.Loader.Dlopen: actions may come in any order and loading is given its outcome; `redo_lazy_relocs` on success is not modelled. Releasing an object stands for unmapping it and freeing it and its buffers; what a program does after the linker itself was released is not modelled.
- Rollback.Loader.LoadLibrary: a name already loaded, and all file handling, is decided by the caller.
- `get_lfs64` and weak or undefined-symbol handling in `find_sym`.
- SymbolLookup.CountSyms: only the branch without DT_HASH; the other reads one word.
- Relr.DoRelrRelocs: memory is an array of 64-bit words and addresses are offsets from the base.
- `aio_cancel` waiting for a worker, cancellation of a worker blocked in the condition variable, signals and notification, fork handling, and timeouts (a waiter may give up at any time).
- AioSuspend.ListFormSafeIff: lists with no non-null entry, which wait on a private word, are not modelled.
- Obstack.Obstack.Grow0: requires a length other than the largest `size_t`, the exact condition of Obstack.Grow0TestSound; no object has that many bytes to copy.
- Obstack.Obstack.Free: the address is one handed out earlier; for others the source aborts or behaves arbitrarily.
- The `_fast` macros and pointer, int and one-byte growth, which are Append and Blank when there is room; `obstack_printf`; the `_obstack_begin` entry points, which set the allocator and call what Begin models.
- The numeric range of `random_r` results (they can be negative when the degree is not 0), null-pointer checks, and `arc4random`.
- RandomR.RandomData.Random: takes the abstract generator as a ghost argument instead of a null check.
- `libgcompat` forwarding wrappers, `semaphore.c`, `mallinfo.c`, group and password files, resolver, stdio, complex and floating-point code.
