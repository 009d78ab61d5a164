# Verified models of the course projects

This Dafny 4.11 project models the three C projects of the repository and proves
what their code promises.  `dafny verify dfyconfig.toml` checks everything.

**Channels** (`p3-concurrent-channels/channel.c`, `buffer.c`, `linked_list.c`).
Threads run send, receive, close and select calls.  Each semaphore operation, each
critical section and each single post of a list walk is one step of one thread
(`ChannelModel`); the scheduler is arbitrary.  `ChannelTokens`, `ChannelWakeups`,
`ChannelTheorems`, `ChannelClose` and `ChannelTermination` hold the invariants and
the theorems over all runs; `ChannelAnswers`, `ChannelTraces` and `ChannelLedger` tie
what the calls return to the programs and to the steps of the run.  The ring buffer and the waiter
lists are classes that work in place and are tied to the functions the protocol
uses (`RingBuffer`, `WaiterList`).  Messages that equal `BUFFER_EMPTY` are part of
the model: the theorems count the slots they lose, `OtherErrorExactly` says when
the error exit is taken and `ChannelLeak` gives a run that blocks for ever.

**Allocator** (`p1-memory-management/mm.c` on `memlib.c`).  The heap is an array of
8-byte words, and a pointer is a word index with 0 for NULL.  The methods of
`Allocator` read and write raw headers, footers and link words in the order the C
code does; ghost maps of blocks and ghost lists of nodes give the heap its shape.
`p2-page-tables/kernel/kernel_extra.c` is the same allocator with plain tag writes.

**Splay tree** (`p1-memory-management/stree.c`).  Nodes with parent pointers,
rotated in place, refine a finite map; a potential function bounds the total number
of splay iterations, and that bound is part of the class invariant.

**Routing** (`p3-concurrent-channels/stress.c`).  `FloydWarshall` is the in-place
triple loop on 32-bit distances against the least weight of all walks.
`RouterModel` is the distance-vector protocol: each iteration of a loop over the
nodes is a step, messages are pointers into the sender's four buffers, and channels
have capacity one.  The router loops are steps of the state machine rather than
loops because other routers read and send between their iterations.

**Page tables** (`p2-page-tables/kernel/kernel_code.c`).  The loops of
`kernel_init` on an array of `struct pte`, against the four-level walk of the AMD64
Architecture Programmer's Manual, Volume 2, section 5.3.

Where the code and its documentation disagree, the model follows the code: the free
lists are sorted by size, although README.md of the repository announces LIFO
insertion; `stress.c` speaks of a triple buffer and has four buffers, which is what
the proof of `InUseIsNotNext` needs; a non-blocking receive on a closed channel
posts `used` although it took no token (channel.c line 199);
`kernel_code.c` says that `user_stack` points into the second to last page, but the
address it sets is the last byte of the last page, the one of the program.

A C function that is long is sometimes several methods here (for example `coalesce`
is `Coalesce`, `Join`, `CoalesceNext`, `CoalescePrev` and `CoalesceBoth`); the
sequence of reads and writes is that of the source.

## Model

| member | source | states |
|---|---|---|
| `RingBuffers.Buffer.constructor` | p3-concurrent-channels/buffer.c:4-13 | a new buffer is an empty queue |
| `RingBuffers.Buffer.Add` | p3-concurrent-channels/buffer.c:18-30 | in place, over the wrap-around of the ring: appends to the queue, or returns false and changes nothing exactly when it is full |
| `RingBuffers.Buffer.Remove` | p3-concurrent-channels/buffer.c:35-47 | in place: takes the oldest element, or returns BUFFER_EMPTY, which is -1, and changes nothing exactly when it is empty |
| `WaiterLists.List.constructor` | p3-concurrent-channels/linked_list.c:4-16 | a new list is empty |
| `WaiterLists.List.Find` | p3-concurrent-channels/linked_list.c:69-82 | the first node with the data, NULL exactly when there is none |
| `WaiterLists.List.Insert` | p3-concurrent-channels/linked_list.c:86-106 | the new node becomes the head; the list stays doubly linked with the right count |
| `WaiterLists.List.Remove` | p3-concurrent-channels/linked_list.c:110-127 | the list without exactly that node, still doubly linked with the right count |
| `WaiterLists.List.Register` | p3-concurrent-channels/channel.c:379-399 | under its lock, select inserts its semaphore unless it is there already (also for repeated channels) |
| `WaiterLists.List.Unregister` | p3-concurrent-channels/channel.c:432-457 | under its lock, select removes the first occurrence of its semaphore, if any |
| `WaiterLists.List.Foreach` | p3-concurrent-channels/linked_list.c:130-136 | the walk posts the semaphore of every node in list order |
| `WaiterLists.PostAllOnce` | p3-concurrent-channels/linked_list.c:130-136 | a walk of a duplicate-free list posts every waiter once and no other semaphore |
| `ChannelModel.NextIsValid` | p3-concurrent-channels/channel.c:82-468 | no step of send, receive, close or select leaves the well-formed states (channels, entries and waiters in range) |
| `ChannelTokens.TokenInvStep` | p3-concurrent-channels/channel.c:97-154 | every step of every thread keeps the counting invariant: semaphores, tokens in flight, buffer and mutex holders agree on every channel |
| `ChannelTokens.CritFits` | p3-concurrent-channels/channel.c:126-154 | a thread in the critical section of an open channel has a free slot to send into, or a message to receive |
| `ChannelWakeups.ListInvStep` | p3-concurrent-channels/channel.c:373-400 | every step keeps the waiter lists duplicate-free and owned by select calls that still have such an entry |
| `ChannelWakeups.WakeupStep` | p3-concurrent-channels/channel.c:402-467 | every step keeps: an entry that became ready after select tried it has a token in the select's semaphore, or a thread bound to post it |
| `ChannelTheorems.MutualExclusion` | p3-concurrent-channels/channel.c:127-151 | in every reachable state at most one thread is inside the mutex, or inside a waiter-list lock, of a channel |
| `ChannelTheorems.FifoConservation` | p3-concurrent-channels/channel.c:97-154 | in every reachable state: added = removed + buffer, in order; while open, `available` and `used` plus the tokens in flight count the free and the filled slots |
| `ChannelTheorems.OtherErrorExactly` | p3-concurrent-channels/channel.c:140-149 | buffer_add never fails and buffer_remove never finds the buffer empty: the OTHER_ERROR exit is taken if and only if the message received equals BUFFER_EMPTY |
| `ChannelTheorems.WaitsExactly` | p3-concurrent-channels/channel.c:97-154 | a thread cannot move exactly when it is done, waits for a token at an empty semaphore, sleeps in select without a post, or waits for a mutex or list lock that another thread holds |
| `ChannelTheorems.NoLostWakeup` | p3-concurrent-channels/channel.c:364-468 | a select asleep with an empty semaphore and nobody about to notify it has only open channels, without a token for any of its entries |
| `ChannelTheorems.WaiterOwnership` | p3-concurrent-channels/channel.c:373-457 | each waiter list names each select once, only selects in progress, and only for entries they have |
| `ChannelTheorems.PostsReachLiveSemaphores` | p3-concurrent-channels/linked_list.c:130-136 | every sem_post of a list walk hits the semaphore of a select that has not destroyed it |
| `ChannelTheorems.BlockingIsJustified` | p3-concurrent-channels/channel.c:82-468 | when no thread can move, every unfinished one waits on open channels: to receive, from an empty one; to send, into one that is full up to the slots lost to BUFFER_EMPTY messages received from it; none is stuck on a mutex or list lock |
| `ChannelTermination.MeasureStep` | p3-concurrent-channels/channel.c:403-467 | every step of every thread lowers one global measure; a select round is paid for by the token it consumed |
| `ChannelTermination.RunsAreFinite` | p3-concurrent-channels/channel.c:82-468 | every run of finitely many send, receive, close and select calls is finite, under any schedule, with a bound computed from the programs |
| `ChannelClose.ClosedKeepsTokens` | p3-concurrent-channels/channel.c:282-295 | the domino chain: a closed channel always has an `available` and a `used` token, posted or held by a thread that will post it |
| `ChannelClose.ClosedIsFrozen` | p3-concurrent-channels/channel.c:130-137 | after close, over any run, the channel stays closed and its buffer never changes |
| `ChannelClose.CloseDrains` | p3-concurrent-channels/channel.c:188-226 | once a channel is closed, every call on it that is not past its closed check has returned CLOSED_ERROR when the run comes to rest |
| `ChannelClose.NobodyWaitsOnClosed` | p3-concurrent-channels/channel.c:263-313 | at rest no send, receive, close or select is left on a closed channel |
| `ChannelClose.NoOtherError` | p3-concurrent-channels/channel.c:233-238 | when no program sends BUFFER_EMPTY, no call ever returns OTHER_ERROR and no slot is lost |
| `ChannelClose.BlockedSendExactly` | p3-concurrent-channels/channel.c:118-135 | at rest the open channel a blocked send waits on is full if and only if no BUFFER_EMPTY message was ever received from it |
| `ChannelClose.SleepingSendExactly` | p3-concurrent-channels/channel.c:364-431 | the same for every send entry of a select that sleeps at rest |
| `ChannelClose.SendersWaitOnFull` | p3-concurrent-channels/channel.c:82-468 | when no program sends BUFFER_EMPTY, every send that waits at rest, alone or in a select, waits on a full open channel |
| `ChannelLedger.MessagesConserved` | p3-concurrent-channels/channel.c:140-151 | per message value, over the calls of the programs: successful sends of it = successful receives that delivered it + its copies in the buffer, counting calls about to report |
| `ChannelLedger.AtRestAllReported` | p3-concurrent-channels/channel.c:164-255 | at rest nothing is unreported: the results of the programs' calls are the whole ledger |
| `ChannelLedger.OneCloseSucceeds` | p3-concurrent-channels/channel.c:263-313 | a closed channel was closed by exactly one of all close calls, which reports SUCCESS; on an open channel there is none |
| `ChannelAnswers.ResultsAnswerCalls` | p3-concurrent-channels/channel.c:82-468 | in every reachable state the n-th result of a thread answers the n-th call of its program: same channel and side, a send's own message, a valid selected index whose entry it reports on; WOULDBLOCK only from non-blocking calls; no call is skipped |
| `ChannelAnswers.TryNeverWaits` | p3-concurrent-channels/channel.c:97-124 | a non-blocking call and each try of a select never wait for a token; a blocking call waits exactly while there is none |
| `ChannelAnswers.UnfinishedCallsMustWait` | p3-concurrent-channels/channel.c:82-468 | at rest each thread has answered its program, or is at a blocking call, or a select, all of whose channels are open and without room or message |
| `ChannelTraces.ResultsExplained` | p3-concurrent-channels/channel.c:82-468 | in every run each result is explained by steps of its own call: SUCCESS by the step that put exactly that message into, or took it from, an open channel; WOULDBLOCK by an empty semaphore and then an open channel; CLOSED_ERROR by a closed channel; a close reports SUCCESS exactly when it set `closed`; a select reports the first option, all entries before it refused in the same round |
| `ChannelTraces.SemaphoreCounts` | p3-concurrent-channels/channel.c:364-466 | select's private semaphore starts at 0, and its value plus the wakeups are the posts made to it since |
| `ChannelLeak.EmptyMessageBlocksForEver` | p3-concurrent-channels/channel.c:232-238 | concrete run: sending BUFFER_EMPTY makes the receive fail with OTHER_ERROR and loses the slot, so a later blocking send waits for ever on an empty open channel |
| `Allocators.Allocator.HeapWords` | p1-memory-management/mm.c:77-140 | the tag words as numbers: size in bytes plus the allocated bit at both ends of every block, 1 in the epilogue, 0 in the padding |
| `Allocators.Allocator.ListWords` | p1-memory-management/mm.c:142-219 | the link words: list heads in seg_list, the next block in the first payload word, the one before in the second, NULL at both ends |
| `HeapShape.BlocksTile` | p1-memory-management/mm.c:257-318 | every heap word between padding and epilogue belongs to exactly one block |
| `HeapShape.WordsSum` | p1-memory-management/mm.c:257-318 | the block sizes met by walking back from the break along the footers sum to the heap size minus 32 bytes |
| `HeapShape.BlocksFillHeap` | p1-memory-management/mm.c:257-318 | accounting: the sizes of all blocks but the prologue sum to the heap size minus 32 bytes, as that walk meets every block |
| `HeapShape.EmptyHeapIsOneBlock` | p1-memory-management/mm.c:257-298 | when nothing is live and no two free blocks touch, the heap is one free block of that size |
| `FreeLists.ClassMeans` | p1-memory-management/mm.c:162-172 | list k holds the sizes from 2^k up to the next power of two, list 60 all from 2^60 on |
| `FreeLists.ClassMonotone` | p1-memory-management/mm.c:162-172 | larger sizes are never in an earlier list, also where the class is capped at 60 |
| `Allocators.AlignRounds` | p1-memory-management/mm.c:60-63 | align gives the next multiple of 16, when the 64-bit addition does not wrap |
| `Allocators.AdjustedSizeFits` | p1-memory-management/mm.c:407-414 | the block size malloc computes has room for the request if and only if size + 31 does not wrap around 64 bits |
| `Allocators.AdjustedSizeWraps` | p1-memory-management/mm.c:407-414 | where it wraps, malloc looks for 0 bytes when size + 16 <= 2^64 and for 16 bytes, less than any block, above that |
| `Allocators.AlignFits` | p1-memory-management/mm.c:460-468 | realloc's bound align(size) against malloc's align(size + 16): what is copied fits the new payload |
| `Allocators.Allocator.SelectList` | p1-memory-management/mm.c:162-172 | the loop computes floor(log2 size) capped at 60, and -1 for 0 |
| `Allocators.Allocator.FindInsertion` | p1-memory-management/mm.c:181-184 | the search stops at the first node that is not smaller, remembering the one before |
| `Allocators.Allocator.NodeAdd` | p1-memory-management/mm.c:175-219 | raw link writes: the block joins the list of its class, which stays sorted, doubly linked and acyclic; all tags and live payloads are untouched |
| `Allocators.Allocator.NodeRemove` | p1-memory-management/mm.c:222-254 | raw link writes: exactly that block leaves its list; all tags and live payloads are untouched |
| `Allocators.Allocator.CoalesceNext` | p1-memory-management/mm.c:267-273 | case 2: the block and the next one become one block of the summed size, listed nowhere yet |
| `Allocators.Allocator.CoalescePrev` | p1-memory-management/mm.c:275-282 | case 3: the block and the previous one become one block |
| `Allocators.Allocator.CoalesceBoth` | p1-memory-management/mm.c:284-292 | case 4: three blocks become one, whatever the tags in between say |
| `Allocators.Allocator.Coalesce` | p1-memory-management/mm.c:257-298 | no two adjacent free blocks are left; the result covers the freed block; all live payloads are untouched |
| `Allocators.Allocator.constructor` | p1-memory-management/memlib.c:29-43 | a new memory of so many words, with an empty heap: what Init starts from |
| `Allocators.Allocator.Sbrk` | p1-memory-management/memlib.c:67-86 | advances the break, or fails without changing it exactly when the memory is too small or the increment negative |
| `Allocators.Allocator.ExtendBy` | p1-memory-management/mm.c:301-318 | grows the heap by one coalesced free block with a new epilogue, or returns NULL exactly when there is no room |
| `Allocators.Allocator.FindFit` | p1-memory-management/mm.c:321-340 | best fit: a free block of minimum size among all that are large enough, NULL exactly when there is none |
| `Allocators.Allocator.FitOrExtend` | p1-memory-management/mm.c:416-424 | best fit without touching the heap when some block fits; otherwise the break advances by exactly max(asize, 16384) bytes; NULL exactly when neither is possible, then unchanged |
| `Allocators.Allocator.Place` | p1-memory-management/mm.c:343-362 | the block is allocated, whole when at most 32 bytes would remain, else split at asize with the rest free and listed |
| `Allocators.Allocator.Init` | p1-memory-management/mm.c:367-393 | establishes the heap invariant with nothing live, or returns false exactly when the memory is too small |
| `Allocators.Allocator.Malloc` | p1-memory-management/mm.c:398-428 | heap invariant kept; NULL exactly for size 0 or when nothing fits and the heap cannot grow, then unchanged; else an aligned, formerly dead best-fit block with room, at most 32 bytes too large; the break advances by exactly one extension, and only when no block fits; every live payload keeps every word |
| `Allocators.Allocator.TagBitIsClear` | p1-memory-management/mm.c:102-123 | the second tag bit of every header is 0, so TAG_REMOVE and PUT_TAG write plain tags |
| `Allocators.Allocator.Free` | p1-memory-management/mm.c:433-441 | heap invariant kept, including no adjacent free blocks; the block is dead, every other live payload keeps every word |
| `Allocators.Allocator.Memcpy` | p1-memory-management/memlib.c:140-155 | copies the whole words, then the low bytes of one more for a length that is no multiple of 8, and changes nothing else |
| `Allocators.Allocator.CopyPayload` | p1-memory-management/mm.c:477-480 | the word-wise copy stays inside the new payload and keeps heap and live payloads |
| `Allocators.Allocator.Realloc` | p1-memory-management/mm.c:447-483 | the old payload is a prefix of the new one (NULL gives NULL); unmoved exactly when the block is large enough; else the old block is dead and every other live payload keeps every word; the break moves as in malloc |
| `SplayShape.SplayInorder` | p1-memory-management/stree.c:192-211 | a whole splay keeps the in-order sequence |
| `SplayCost.ZigCost` | p1-memory-management/stree.c:194-196 | a single rotation raises the potential by at most 3 times the rank gained |
| `SplayCost.TwoLevelCost` | p1-memory-management/stree.c:197-209 | each of the four double rotations pays for its iteration out of ranks and potential |
| `SplayCost.SplayBound` | p1-memory-management/stree.c:192-211 | one splay takes at most 3 (rank(root) - rank(x)) + 1 iterations plus the drop in potential |
| `SplayCost.InsertBound` | p1-memory-management/stree.c:41-73 | insert: iterations plus change of potential at most 4 log N + 1 |
| `SplayCost.RemoveBound` | p1-memory-management/stree.c:110-140 | remove: iterations plus change of potential at most 3 log N + 1 |
| `SplayCost.DropRootInorder` | p1-memory-management/stree.c:123-135 | replacing the root by the minimum of its right subtree drops exactly the root from the in-order sequence |
| `SplayTrees.SplayTree.constructor` | p1-memory-management/stree.c:23-33 | a new tree is the empty map |
| `SplayTrees.SplayTree.RightRotate` | p1-memory-management/stree.c:178-190 | the pointer writes turn one exact shape into the other, parents included, nothing else changes |
| `SplayTrees.SplayTree.LeftRotate` | p1-memory-management/stree.c:164-176 | the mirror image of right_rotate |
| `SplayTrees.SplayTree.Splay` | p1-memory-management/stree.c:192-211 | the loop ends with x at the root, the tree is the functional splay, and the iteration count is the one the cost lemmas bound |
| `SplayTrees.SplayTree.Replace` | p1-memory-management/stree.c:213-218 | v hangs where u hung, with parent pointers and root updated |
| `SplayTrees.SplayTree.SubtreeMinimum` | p1-memory-management/stree.c:220-223 | the leftmost node, with the path to it |
| `SplayTrees.SplayTree.InsertSearch` | p1-memory-management/stree.c:42-56 | finds the key, or the place where search order allows it, after 2 comparisons for each node left and 1 for the node found |
| `SplayTrees.SplayTree.Insert` | p1-memory-management/stree.c:41-73 | the map gains the key exactly when it was absent; search order, parents, count and amortized budget kept |
| `SplayTrees.SplayTree.Find` | p1-memory-management/stree.c:75-88 | the record of the key, NULL exactly when absent; counts its comparisons |
| `SplayTrees.SplayTree.FindNearest` | p1-memory-management/stree.c:90-107 | the record of the greatest key not above the query, NULL when there is none; counts its comparisons |
| `SplayTrees.SplayTree.RemoveSearch` | p1-memory-management/stree.c:111-119 | finds the node of the key, or nothing exactly when the key is absent, after 1 comparison for each node left |
| `SplayTrees.SplayTree.Unroot` | p1-memory-management/stree.c:123-135 | the three cases of removing the root, on pointers |
| `SplayTrees.SplayTree.Remove` | p1-memory-management/stree.c:110-140 | the map loses exactly the key and its record is returned, NULL when absent; all invariants kept |
| `SplayTrees.SplayTree.CountIsSize` | p1-memory-management/stree.c:71-137 | node_count is the size of the map |
| `SplayTrees.SplayTree.AmortizedBound` | p1-memory-management/stree.c:41-140 | in every reachable tree: all splay iterations since tree_new are at most (inserts + removes) * (4 log2 N + 1), N the largest node count; the inserts and removes that changed the tree made at most 4 times as many comparisons |
| `Walks.ClampMeaning` | p3-concurrent-channels/stress.c:103-110 | a scanned number is kept if it is not negative; the link is inf exactly for negative numbers and inf itself |
| `Walks.CellIsIndex` | p3-concurrent-channels/stress.c:24-38 | the cell of a pair is src * num_channel + dst, inside the allocated square |
| `FloydWarshall.ReadsInPass` | p3-concurrent-channels/stress.c:46-47 | whichever entries are already relaxed, the three values read are those before the pass, and their 32-bit sum does not wrap |
| `FloydWarshall.NoWalkBeats` | p3-concurrent-channels/stress.c:43-51 | no walk through nodes up to k is lighter than the relaxed entry |
| `FloydWarshall.RelaxedIsLeast` | p3-concurrent-channels/stress.c:43-51 | after the pass of k the matrix is least over walks with inner nodes up to k |
| `FloydWarshall.Pass` | p3-concurrent-channels/stress.c:44-50 | the two inner loops, in place, relax every pair exactly once |
| `FloydWarshall.FloydWarshall` | p3-concurrent-channels/stress.c:40-52 | every entry is the minimum total weight over all nonempty walks, for all matrices with entries up to inf |
| `RouterBuffers.SentTargets` | p3-concurrent-channels/stress.c:201-205 | sending an entry and swapping in the last one leaves exactly the other targets owed |
| `RouterBuffers.BuffersInvStep` | p3-concurrent-channels/stress.c:177-227 | every step keeps the placement of vectors: on a channel only the current or (while owed) the previous one; being read at most the one before, and then the previous one waits on that channel |
| `RouterBuffers.InUseIsNotNext` | p3-concurrent-channels/stress.c:211-220 | a vector on a channel or being read is never the buffer its owner writes |
| `RouterTheorems.SentVectorsAreFrozen` | p3-concurrent-channels/stress.c:182-220 | in every reachable state no step of any router changes a vector that is on its way or being read |
| `RouterTheorems.RelaxedEntry` | p3-concurrent-channels/stress.c:187-193 | one relaxation: no 32-bit wrap, entries only fall, every entry stays the weight of a walk and at most the link, the flag is up if anything changed |
| `RouterTheorems.InvStep` | p3-concurrent-channels/stress.c:177-227 | every step keeps soundness, ordering of next and current vector, and what each router has learned of each neighbour |
| `RouterTheorems.DistancesNeverIncrease` | p3-concurrent-channels/stress.c:182-227 | over any interleaving a published distance never increases |
| `RouterTheorems.DistancesNeverBelow` | p3-concurrent-channels/stress.c:182-227 | over any interleaving no entry of any of the four buffers is below the shortest distance, nor above inf |
| `RouterTheorems.QuiescentIsShortest` | p3-concurrent-channels/stress.c:207-228 | with nothing pending anywhere the published vectors are the shortest distances |
| `RouterTheorems.StuckIsQuiescent` | p3-concurrent-channels/stress.c:177-228 | the routers cannot block each other: they stop only with nothing pending |
| `RouterTheorems.StuckIsSolved` | p3-concurrent-channels/stress.c:288-295 | wherever the routers stop, their vectors equal the matrix floyd_warshall computes |
| `RouterTheorems.NeighborAssertionExactly` | p3-concurrent-channels/stress.c:185-186 | the assertion that a neighbour's link is finite holds in every run if and only if finite links go both ways |
| `RouterTheorems.CalmIsShortest` | p3-concurrent-channels/stress.c:207-228 | already when nothing but probes is left, the published vectors are the shortest distances |
| `RouterReplies.TargetsExactly` | p3-concurrent-channels/stress.c:152-175 | a router's targets are exactly the other routers over a finite link, each once; no vector is on its way to its own router |
| `RouterReplies.SelectTakesAny` | p3-concurrent-channels/stress.c:176-206 | a selecting router can receive exactly when a message waits, and can send its published vector to every router it still owes it to whose channel is free |
| `RouterReplies.ReplyExactly` | p3-concurrent-channels/stress.c:194-199 | in every reachable state a router answers a probe with a vector if and only if no target is owed one and the next vector equals the published one in every entry; the vector is its own published one |
| `RouterReplies.CalmReply` | p3-concurrent-channels/stress.c:194-199 | when nothing but probes is left, every answer is a vector of shortest distances |
| `RouterReplies.ProbesAreAnswered` | p3-concurrent-channels/stress.c:253-264 | over every run each probe is answered once or still waits, and each answer is collected once or still lies in completed_channel |
| `RouterTermination.StepsFall` | p3-concurrent-channels/stress.c:177-228 | every step lowers a global bound, except that a probe of the main thread adds four |
| `RouterTermination.RunsAreFinite` | p3-concurrent-channels/stress.c:125-242 | no run is longer than a bound computed from the topology plus five steps per probe |
| `RouterTermination.RoutersConverge` | p3-concurrent-channels/stress.c:125-242 | from every reachable state the routers reach, by themselves, a state in which all published vectors are shortest distances |
| `PageWalk.LowFlags` | p2-page-tables/kernel/kernel_code.c:17-20 | struct pte, laid out from the lowest bit: the processor reads p, rw and us from bits 0 to 2 |
| `PageWalk.SizeFlags` | p2-page-tables/kernel/kernel_code.c:25-26 | bits 7 and 8, where it looks for large pages and reserved bits, are mbz1 and mbz2 |
| `PageWalk.UpperFields` | p2-page-tables/kernel/kernel_code.c:28-31 | bits 12 to 51 are page_addr and bit 63 is nonexec |
| `PageWalk.OtherFlags` | p2-page-tables/kernel/kernel_code.c:20-24 | bits 3 to 6 of the word are pwt, pcd, a and ign |
| `PageWalk.OtherFields` | p2-page-tables/kernel/kernel_code.c:27-30 | bits 9 to 11 are avl, 52 to 58 avail and 59 to 62 pke |
| `PageWalk.LoadedIsSeen` | p2-page-tables/kernel/kernel_code.c:17-32 | in a memory that holds the table words, every entry is decoded to the fields the program assigned |
| `PageWalk.WalkOn` | p2-page-tables/kernel/kernel_code.c:17-32 | one level of the processor's walk in terms of the struct fields it reads |
| `PageTables.FillPages` | p2-page-tables/kernel/kernel_code.c:41-57 | loop of the 1048576 page entries: entry i maps page i; nothing else is written |
| `PageTables.FillDirectory` | p2-page-tables/kernel/kernel_code.c:60-77 | loop of the 2048 directory entries: entry i points to the i-th page table |
| `PageTables.FillPointers` | p2-page-tables/kernel/kernel_code.c:80-118 | four pointers to the directories, the rest not present |
| `PageTables.FillTop` | p2-page-tables/kernel/kernel_code.c:121-160 | one entry for the kernel, the rest not present |
| `PageTables.Clear` | p2-page-tables/kernel/kernel_code.c:172-228 | a table of the user is all not present |
| `PageTables.SetUser` | p2-page-tables/kernel/kernel_code.c:232-261 | a present, writable user entry for the page |
| `PageTables.MapKernel` | p2-page-tables/kernel/kernel_code.c:41-160 | the kernel tables are linked from the top down to every page below 4 GB |
| `PageTables.MapUser` | p2-page-tables/kernel/kernel_code.c:166-261 | the user tables are linked down to two pages; the kernel tables survive |
| `PageTables.UserPages` | p2-page-tables/kernel/kernel_code.c:251-261 | for page-aligned addresses below 2^52 the two user pages are the page at uprogram and the page under ustack |
| `PageTables.WalkFromExact` | p2-page-tables/kernel/kernel_code.c:38-263 | with the kernel and user tables in memory, the walk of every canonical address ends as intended |
| `PageTables.WordsExact` | p2-page-tables/kernel/kernel_code.c:41-261 | the 64-bit word of every table entry, as a number: page address or table address plus 3 for the kernel, plus 7 for the user, 0 elsewhere; no other bit is set |
| `PageTables.KernelInit` | p2-page-tables/kernel/kernel_code.c:38-271 | after kernel_init the processor maps addresses below 4 GB to themselves, supervisor read/write; the top two pages to the user's, user read/write; every other canonical address is not present; every entry is exactly the word of `WordsExact`; words after the tables are untouched |

## Left out

- Allocators.Allocator.Malloc: requires size + 31 < 2^64, the exact condition of `AdjustedSizeFits`, because beyond that the source's additions wrap around: for 2^64 - 31 to 2^64 - 16 the size it looks for is 0, `select_list` returns -1 and the source reads `seg_list[-1]`; above that it looks for 16 bytes and returns a block that is too small (`AdjustedSizeWraps`).
- Allocators.Allocator.Realloc: requires an inner malloc that succeeds (or size 0, or a block that stays), because the source copies to NULL otherwise, and excludes realloc(NULL, 0), which frees NULL; sizes above 2^64 - 32 as for Malloc.
- Allocators.Allocator.Free: requires a live pointer; free(NULL) reads in front of address 0 in the source.
- Allocators.Allocator.Memcpy: requires ranges of whole words that do not overlap, as realloc passes them.
- Allocators.Allocator.ExtendBy: requires at least 4 words, because no caller asks for less and fewer would not hold the links of a free block.
- Allocators.Allocator.Sbrk: requires whole words, as all callers pass them.
- `TAG_ADD`, which is never called, `calloc`, `mm_checkheap`, `mem_memset` and `mem_deinit`; the failing `mmap` of `mem_init`.
- NULL channels, `channel_destroy`, unbuffered channels, overflow of semaphores, and failing memory allocation or semaphore calls.
- The `data` field of select entries is the message of the entry; a select receive reports its message in the result.
- PageTables.KernelInit: stops before `load_page_table`; system calls, MSR set-up and assembly are not modelled.
- FloydWarshall.FloydWarshall: the flat arrays are parameters; reading the topology file is left to `Clamp`.
- Router epochs, the closing of `done_channel` and `check_done`, which compares epochs through a pointer into a buffer the router recycles; the probes it sends and the replies it takes are steps that may come at any time.
- One successful channel_select of a router is one atomic step; that select performs exactly one ready operation is the subject of the channel part.
- The comparisons of searches that do not change the tree are counted exactly, but not bounded: such searches do not splay, so nothing pays for them.
- SplayTrees.SplayTree.RightRotate: requires the left child that every caller's node has; without it the source would put NULL in its place.
- SplayTrees.SplayTree.LeftRotate: requires the right child, likewise.
- Removed list and tree nodes are not freed in the model.
- `tree_free`, `tree_show`, `subtree_maximum`, `channel_create` beyond its initial state, printing, the drivers `mdriver.c` and `test.c`, timing and traces.
