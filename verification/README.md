# nginx data structures and protocols, verified

A Dafny model of the parts of nginx 1.0.15 that keep the most state: the slab allocator, the
red-black tree with its timers, the shared-memory mutex, the open file cache, the hash tables,
the radix tree, the output chain, the tree of static locations and the calendar. Code that
works in place is a class with fields and methods; what it promises is a statement about a
specification value of those fields. The kernel, the network and the clock answer as they like,
within what is written down at each of them.

`dafny verify dfyconfig.toml` checks the whole project.

| files | source |
|---|---|
| `SlabPool`, `SlabSpace`, `SlabLedger`, `SlabTable`, `SlabChunks`, `SlabSteps`, `SlabMemory`, `Slab` | `src/core/ngx_slab.c`: the bookkeeping, the bytes nobody has, the count of pages, the page descriptors, the bitmaps, what each step does to them, the words of memory, and the allocator itself |
| `RbtreeShape`, `RbtreeColour`, `Rbtree`, `RbtreeFacts` | `src/core/ngx_rbtree.c`: order, colours, the operations, and the height |
| `Timers` | `src/event/ngx_event_timer.c` and `.h` |
| `Shmtx` | `src/core/ngx_shmtx.c`, with atomic operations and a semaphore, as an interleaved step system |
| `CachedFiles`, `FileCache` | `src/core/ngx_open_file_cache.c`: the bookkeeping, and the cache on top of the tree |
| `ExactHash`, `WildcardHash` | `src/core/ngx_hash.c` |
| `Radix` | `src/core/ngx_radix_tree.c` |
| `OutputBuffers`, `OutputMarks`, `OutputChain` | `src/core/ngx_buf.c`, `src/core/ngx_output_chain.c`: the bookkeeping, what a filter that sends everything is shown, and the chain itself |
| `Locations` | `src/http/ngx_http.c` and the search in `src/http/ngx_http_core_module.c` |
| `Calendar` | `src/core/ngx_times.c`, `src/http/ngx_http_parse_time.c`; section 3.3.1 of RFC 2616 |
| `Bits`, `Sequences`, `Strings` | what the others share |

Main ideas. A pointer structure is a memory that maps addresses to records. A class method that
only assigns says exactly what the fields become; that the invariant survives is a lemma about
those values. Slab: the kinds of the pages are the truth, and `Rep` says that descriptors,
bitmaps and lists agree with them. Red-black tree: each node knows the span of the in-order
sequence below it. Output chain: a buffer stands for a sequence of items, its bytes and, if
`Config.watch` is set, its marks; the chain has to hand over all items in order.

## Model

| member | source | states |
|---|---|---|
| Slab.SlabAllocator.AllocLocked | nginx-1.0.15/src/core/ngx_slab.c:164-421 | an allocation fails exactly if no free run has as many bytes, or no page is free and in every page of the class the bytes beside live blocks and bitmap are fewer than a chunk; otherwise as many bytes as were asked for lie in the page area, clear of every live block, the block is recorded with that size, no live block changes, and it takes its pages, or one page if no page of its class has room, or none |
| Slab.SlabAllocator.FreeLocked | nginx-1.0.15/src/core/ngx_slab.c:435-644 | the block that starts at the pointer is freed and no other, its bytes apart nothing changes, its pages come back if it was large or the last of its page; the answer to any other pointer is the one the pool asks for |
| Slab.SlabAllocator.constructor | nginx-1.0.15/src/core/ngx_slab.c:76-144 | the pool starts as one free run of all pages, with empty slots |
| Slab.SlabAllocator.AllocPages | nginx-1.0.15/src/core/ngx_slab.c:649-705 | the first free run that is long enough gives its first pages; NULL exactly if there is none |
| Slab.SlabAllocator.Store | nginx-1.0.15/src/core/ngx_slab.c:164-421 | what the owner of a block writes into it reaches neither the allocator's bitmaps nor another block |
| Slab.LayoutFits | nginx-1.0.15/src/core/ngx_slab.c:110-143 | the pages end before pool->end exactly if they start before it, which two descriptors ensure; they start aligned, after the descriptors, and fewer than three pages are lost |
| Slab.LayoutOverruns | nginx-1.0.15/src/core/ngx_slab.c:110-143 | a pool of 4120 bytes for which they do not |
| Slab.PagesCover | nginx-1.0.15/src/core/ngx_slab.c:172-174 | the pages asked for cover the size, by less than a page, exactly if the rounding does not wrap |
| SlabPool.Disjoint | nginx-1.0.15/src/core/ngx_slab.c:164-421 | two live blocks share no byte, whatever their classes |
| SlabPool.Within | nginx-1.0.15/src/core/ngx_slab.c:164-421 | a live block lies inside the pages |
| SlabPool.ClearOfBitmaps | nginx-1.0.15/src/core/ngx_slab.c:344-369 | no live block reaches into a bitmap at the head of a page |
| SlabSpace.FullIffSpent | nginx-1.0.15/src/core/ngx_slab.c:344-369 | a page is full exactly if its bytes beside the live blocks and the bitmap, one bit a chunk, are fewer than a chunk |
| SlabPool.TakeChunkInv | nginx-1.0.15/src/core/ngx_slab.c:201-336 | handing out a chunk keeps the bookkeeping: a page that gets full leaves its slot list |
| SlabPool.GiveChunkInv | nginx-1.0.15/src/core/ngx_slab.c:473-588 | taking a chunk back keeps it: a page that was full returns to its slot list |
| SlabPool.EmptyPageInv | nginx-1.0.15/src/core/ngx_slab.c:496-511 | a page whose last chunk comes back is on its slot list, and leaving it keeps the bookkeeping |
| SlabPool.TakeRunInv | nginx-1.0.15/src/core/ngx_slab.c:656-697 | splitting a run keeps the partition of the pages and lists exactly the free runs |
| SlabPool.GiveRunInv | nginx-1.0.15/src/core/ngx_slab.c:708-732 | and so does giving one back |
| SlabLedger.AllPages | nginx-1.0.15/src/core/ngx_slab.c:649-732 | free, whole and cut pages are all pages |
| SlabLedger.FreeListAccounts | nginx-1.0.15/src/core/ngx_slab.c:649-732 | the lengths of the runs on pool->free add up to the number of free pages |
| SlabLedger.TakenPages | nginx-1.0.15/src/core/ngx_slab.c:656-697 | an allocation of k pages moves k pages from free to whole |
| SlabLedger.GivenPages | nginx-1.0.15/src/core/ngx_slab.c:708-732 | and a free moves them back |
| SlabSteps.TakeChunkRep | nginx-1.0.15/src/core/ngx_slab.c:201-336 | descriptors, bitmap and list still represent the pool after a chunk is handed out |
| SlabSteps.GiveChunkRep | nginx-1.0.15/src/core/ngx_slab.c:473-588 | and after it comes back |
| SlabChunks.FullTest | nginx-1.0.15/src/core/ngx_slab.c:218-232 | the tests on the bitmaps see exactly whether a page is full |
| SlabChunks.EmptyTest | nginx-1.0.15/src/core/ngx_slab.c:496-509 | and whether it is empty |
| Rbtree.RbTree.Insert | nginx-1.0.15/src/core/ngx_rbtree.c:24-94 | the node joins the others at one place of the order, after those with an equal key; order, colours and black heights are kept |
| Rbtree.RbTree.Delete | nginx-1.0.15/src/core/ngx_rbtree.c:158-323 | exactly the given node leaves, the others keep their order and data, and the tree stays a red-black search tree; the loop ends |
| Rbtree.RbTree.InsertFixup | nginx-1.0.15/src/core/ngx_rbtree.c:52-93 | a red node with a red parent is repaired without touching the order |
| Rbtree.RbTree.DeleteFixup | nginx-1.0.15/src/core/ngx_rbtree.c:257-322 | a subtree that lacks a black node is repaired without touching the order |
| Rbtree.RbTree.Splice | nginx-1.0.15/src/core/ngx_rbtree.c:203-243 | the successor takes the place of a node with two children |
| Rbtree.RbTree.LeftRotate | nginx-1.0.15/src/core/ngx_rbtree.c:326-353 | a rotation keeps the in-order sequence |
| Rbtree.RbTree.RightRotate | nginx-1.0.15/src/core/ngx_rbtree.c:356-383 | and so does its mirror |
| RbtreeFacts.WalkIsOrder | nginx-1.0.15/src/core/ngx_rbtree.c:97-155 | walking the links in order visits the nodes in the order that insert and delete speak of |
| RbtreeFacts.EqualBlacks | nginx-1.0.15/src/core/ngx_rbtree.c:158-323 | all ways down have the same number of black nodes, and half of the nodes on a way are black |
| RbtreeFacts.HeightBound | nginx-1.0.15/src/core/ngx_rbtree.c:24-94 | the height of n nodes is at most 2 * log2(n + 1) |
| RbtreeFacts.Lookup | nginx-1.0.15/src/core/ngx_open_file_cache.c:815-852 | an entry is found exactly if one with this hash and name is in the tree, whatever other names have the same hash |
| Timers.TimerSet.FindTimer | nginx-1.0.15/src/event/ngx_event_timer.c:56-78 | the time to the earliest deadline, at least 0, across a wrap of the clock |
| Timers.TimerSet.ExpireTimers | nginx-1.0.15/src/event/ngx_event_timer.c:83-166 | exactly the timers that are due fire, the earliest first, and their flags and no others change |
| Timers.TimerSet.AddTimer | nginx-1.0.15/src/event/ngx_event_timer.h:58-99 | the deadline asked for is set, but a running timer keeps one less than 300 ms away |
| Timers.TimerSet.DelTimer | nginx-1.0.15/src/event/ngx_event_timer.h:35-55 | the timer leaves the tree and is marked so; timer_set holds exactly for the timers in the tree |
| Shmtx.StepInv | nginx-1.0.15/src/core/ngx_shmtx.c:57-177 | what every step of every process keeps |
| Shmtx.MutualExclusion | nginx-1.0.15/src/core/ngx_shmtx.c:57-177 | in every interleaving at most one process owns the mutex, and the lock bit is set exactly while one does |
| Shmtx.Accounting | nginx-1.0.15/src/core/ngx_shmtx.c:57-177 | waiter count, semaphore and posts under way make up the sleeping processes, but for lost posts and failed waits |
| Shmtx.NoLostWakeup | nginx-1.0.15/src/core/ngx_shmtx.c:69-177 | a free mutex with waiters is being handed on, if no post was lost |
| Shmtx.NoDeadlock | nginx-1.0.15/src/core/ngx_shmtx.c:69-177 | a process that sleeps is not left alone |
| Shmtx.LostPostLosesWakeup | nginx-1.0.15/src/core/ngx_shmtx.c:166-172 | one failed sem_post() can leave a process asleep for good |
| Shmtx.Stranded | nginx-1.0.15/src/core/ngx_shmtx.c:57-177 | when nobody is left to act, the processes asleep for good number the waiters of the lock word plus the lost posts less the failed waits; while sem_wait() works there are some exactly if a post was lost |
| Shmtx.BackToStart | nginx-1.0.15/src/core/ngx_shmtx.c:57-177 | when every process is outside, nothing is left behind |
| Shmtx.TryLockAlone | nginx-1.0.15/src/core/ngx_shmtx.c:57-66 | trylock takes the mutex exactly if it is free, and changes nothing otherwise |
| Shmtx.AttemptFails | nginx-1.0.15/src/core/ngx_shmtx.c:62-98 | in any interleaving an attempt of trylock or lock fails exactly if the mutex was taken when the process read the word, or the word is another one when it compares it |
| Shmtx.LockAlone | nginx-1.0.15/src/core/ngx_shmtx.c:69-84 | lock takes a free mutex with its first look |
| Shmtx.GetsFree | nginx-1.0.15/src/core/ngx_shmtx.c:69-138 | wherever a process is in lock, and if it sleeps then with a post there, it gets a free mutex in at most five steps of its own |
| Shmtx.LockSleeps | nginx-1.0.15/src/core/ngx_shmtx.c:69-134 | on a mutex that stays taken it is counted in the lock word and sleeps after its rounds of spinning |
| Shmtx.LockYields | nginx-1.0.15/src/core/ngx_shmtx.c:69-138 | without a semaphore it yields and starts again |
| Shmtx.UnlockAlone | nginx-1.0.15/src/core/ngx_shmtx.c:142-176 | unlock frees the mutex, counts one waiter less and posts for it |
| Shmtx.HandedOn | nginx-1.0.15/src/core/ngx_shmtx.c:69-177 | from every reachable state with an owner and a sleeper, no post lost or under way, the steps of these two alone give the mutex to the sleeper |
| FileCache.OpenFileCache.OpenCachedFile | nginx-1.0.15/src/core/ngx_open_file_cache.c:130-460 | the kernel is asked exactly if there is no entry that can answer and whose name it was asked about less than valid ago, in any run; otherwise the entry answers alone; the answer or the error of the kernel is reported, and an error is cached exactly if asked for; the entry served is dated when the kernel was last asked, accessed now, counts one use more and heads the queue, and room for a new one is made from the end of the queue only if the cache is full; the request gets a handle on the entry it was told, and handles of others keep their open descriptor; the cache stays valid exactly if the entry was fresh, or the name of an open file neither was switched back nor became a directory with the number of the file, and otherwise one descriptor has no entry, or an entry that does not own it |
| FileCache.OpenFileCache.Cleanup | nginx-1.0.15/src/core/ngx_open_file_cache.c:646-703 | a handle is given back; an entry that nobody holds any more stays open only if it is cached and was used often enough; then idle entries expire; other handles keep their descriptor |
| FileCache.OpenFileCache.ExpireOld | nginx-1.0.15/src/core/ngx_open_file_cache.c:723-771 | the least recently used entries go, the first by force if asked, the others because they were idle, at most three in all |
| FileCache.OpenFileCache.CacheCleanup | nginx-1.0.15/src/core/ngx_open_file_cache.c:75-127 | every cached descriptor is closed; with no handle outstanding none is left open |
| FileCache.OpenFileCache.CloseCachedFile | nginx-1.0.15/src/core/ngx_open_file_cache.c:660-703 | the fields become those of CachedFiles.CloseCached, for which ReleasedOk and EvictedOk say that no descriptor is closed that somebody holds |
| FileCache.SwitchLeaks | nginx-1.0.15/src/core/ngx_open_file_cache.c:284-296 | two requests and kernel answers after which a descriptor is open that no entry has |
| FileCache.DirectoryShares | nginx-1.0.15/src/core/ngx_open_file_cache.c:274-330 | two requests and kernel answers after which two entries have one descriptor, that of the open file and that of the directory |
| FileCache.DirectoryKeeps | nginx-1.0.15/src/core/ngx_open_file_cache.c:274-330 | the same with the first handle given back before: an entry keeps a descriptor that was closed |
| CachedFiles.OneOwner | nginx-1.0.15/src/core/ngx_open_file_cache.c:130-460 | no descriptor belongs to two entries, and exactly those of entries are open |
| CachedFiles.UpdatedOk | nginx-1.0.15/src/core/ngx_open_file_cache.c:373-420 | filling in an entry keeps counts, owners and names consistent |
| CachedFiles.ReleasedOk | nginx-1.0.15/src/core/ngx_open_file_cache.c:646-703 | giving a handle back keeps counts, owners and names consistent, and closes the descriptor exactly if nobody else holds the entry and it is not cached or was used too little |
| CachedFiles.EvictedOk | nginx-1.0.15/src/core/ngx_open_file_cache.c:739-770 | taking an entry from the end of the queue keeps the cache consistent, and no handle loses its descriptor |
| CachedFiles.TurnsEvict | nginx-1.0.15/src/core/ngx_open_file_cache.c:739-770 | k turns of the expiry evict the last k entries of the queue, each forced or idle |
| ExactHash.HashInit | nginx-1.0.15/src/core/ngx_hash.c:264-471 | the table built represents the names; buckets, elements and terminators lie apart, inside the memory taken for them, and nothing else is written; it has the least number of buckets that fits, and fails exactly if a name is too long for a bucket or no number below max_size fits, where no name is absent and the table is not crowded; otherwise the same of the numbers from where the search starts |
| ExactHash.FindName | nginx-1.0.15/src/core/ngx_hash.c:19-56 | a stored name gives its value, any other name nothing |
| ExactHash.Stepping | nginx-1.0.15/src/core/ngx_hash.c:46-49 | the reader steps exactly to where the writer put the next element |
| ExactHash.SoundIff | nginx-1.0.15/src/core/ngx_hash.c:300-321 | the 16-bit counters are right for all names exactly if a bucket has less than 32768 bytes for elements |
| ExactHash.ChooseSize | nginx-1.0.15/src/core/ngx_hash.c:283-333 | the least number of buckets that fits, or of those from max_size - 1000 on in a crowded table |
| ExactHash.FitsNames | nginx-1.0.15/src/core/ngx_hash.c:291-296 | buckets fewer than the names that 16 bytes each would fill never fit, so that the search misses none |
| ExactHash.AbsentCount | nginx-1.0.15/src/core/ngx_hash.c:291-296 | absent names for which a table that would fit is refused |
| WildcardHash.WildcardInit | nginx-1.0.15/src/core/ngx_hash.c:476-618 | the nested table represents the sorted names |
| WildcardHash.HeadFinds | nginx-1.0.15/src/core/ngx_hash.c:59-150 | the lookup finds the stored "*.s" or ".s" with the most labels that matches |
| WildcardHash.TailFinds | nginx-1.0.15/src/core/ngx_hash.c:153-214 | the lookup finds the stored "s.*" with the most labels that the name goes on after |
| WildcardHash.Answers | nginx-1.0.15/src/core/ngx_hash.c:59-150 | a built table answers nothing exactly if no stored name matches |
| WildcardHash.FindWcHead | nginx-1.0.15/src/core/ngx_hash.c:59-150 | the scanning loop computes that lookup |
| WildcardHash.FindCombined | nginx-1.0.15/src/core/ngx_hash.c:217-252 | an exact name comes first, then the best "*.s", then the best "s.*" |
| Radix.RadixTree.Find | nginx-1.0.15/src/core/ngx_radix_tree.c:236-263 | the value of the longest stored prefix of the key |
| Radix.LongestIs | nginx-1.0.15/src/core/ngx_radix_tree.c:236-263 | which no longer stored prefix beats |
| Radix.SamePrefix | nginx-1.0.15/src/core/ngx_radix_tree.c:236-263 | two keys have the same prefix under a mask of d ones exactly if they lie in the same range of 2^(32 - d) keys |
| Radix.RadixTree.Insert | nginx-1.0.15/src/core/ngx_radix_tree.c:108-170 | the prefix is stored, or the tree is busy exactly if it was; nodes are added for the prefix alone |
| Radix.RadixTree.Delete | nginx-1.0.15/src/core/ngx_radix_tree.c:173-233 | the value goes, and exactly the nodes that carried nothing else move to the free list; it answers OK exactly if there was a value or a node without children; no other prefix is touched |
| Radix.RadixTree.Preallocate | nginx-1.0.15/src/core/ngx_radix_tree.c:29-105 | all nodes down to the given depth exist, no other was added, and they answer nothing |
| Radix.DeleteUnset | nginx-1.0.15/src/core/ngx_radix_tree.c:173-233 | in a tree that never had a value, the first delete of any prefix of the preallocated depth answers OK, and a second one that it is not there |
| Radix.RadixTree.RadixAlloc | nginx-1.0.15/src/core/ngx_radix_tree.c:266-291 | a recycled node or a new one, in neither the tree nor the free list |
| OutputChain.Context.OutputChain | nginx-1.0.15/src/core/ngx_output_chain.c:41-215 | what was handed to the filter and what is left in ctx->in is what came in, in order; what was handed is what was sent and what is still to send, so no buffer was refilled too early; every buffer handed is special, or in memory if the filter needs that or there is no sendfile, and not in read-only memory if it needs that, and no buffer is copied that was so already; allocated stays within bufs.num; it ends, and holds a chain up only if no buffer is left; with `watch` all of this of the marks too |
| OutputChain.Context.Collect | nginx-1.0.15/src/core/ngx_output_chain.c:90-195 | a round moves items from ctx->in to the chain in order |
| OutputChain.Context.CopyBuf | nginx-1.0.15/src/core/ngx_output_chain.c:457-597 | the beginning of the source is copied, with its file part, and the marks if the source ends there |
| OutputChain.Context.GetBuf | nginx-1.0.15/src/core/ngx_output_chain.c:381-454 | a new buffer of bufs.size bytes, or of the size of the end of a chain |
| OutputChain.Context.TestAsIs | nginx-1.0.15/src/core/ngx_output_chain.c:218-259 | the test of which buffers need no copy, and that in_file is dropped without sendfile; what it is good for is Fair, in OutputChain |
| OutputChain.Context.UpdateChains | nginx-1.0.15/src/core/ngx_buf.c:183-218 | the buffers at the head of ctx->busy that are sent leave it, the chain's own for ctx->free |
| OutputChain.Context.OutputFilter | nginx-1.0.15/src/core/ngx_output_chain.c:206 | the filter is given the buffers of the chain and no others, all of which it can use |
| OutputChain.StaleMarks | nginx-1.0.15/src/core/ngx_output_chain.c:504-508 | two calls after which a part of a buffer without marks was handed on with a flush mark |
| OutputChain.Calls | nginx-1.0.15/src/core/ngx_output_chain.c:41-215 | with one buffer of the chain's own and a filter that sends everything, any calls of one buffer each hand on what came in, marks and all, exactly if none larger than the chain's own is copied next after one with marks |
| OutputMarks.SaysIff | nginx-1.0.15/src/core/ngx_output_chain.c:457-597 | the same condition for what is shown of buffers that are copied piece by piece |
| OutputBuffers.ShiftedStreams | nginx-1.0.15/src/core/ngx_output_chain.c:457-597 | what the copy gains is what the source loses, and no other buffer changes, as no block is shared |
| OutputBuffers.RecycledInv | nginx-1.0.15/src/core/ngx_buf.c:210-216 | a buffer is recycled only after it was sent |
| OutputBuffers.NoStall | nginx-1.0.15/src/core/ngx_output_chain.c:155-157 | a chain is held up only while the filter has bytes to send |
| Locations.CreateLocations | nginx-1.0.15/src/http/ngx_http.c:1018-1152 | the tree has the locations of the queue, each once, in order and with their full names, and answers every uri |
| Locations.NestNested | nginx-1.0.15/src/http/ngx_http.c:1018-1075 | siblings are in order and none goes on after an inclusive one; what is nested goes on after its location |
| Locations.NestKeeps | nginx-1.0.15/src/http/ngx_http.c:1018-1075 | nesting keeps every location, once |
| Locations.BuildKeeps | nginx-1.0.15/src/http/ngx_http.c:1082-1152 | the names along the nested trees add up to the names of the locations |
| Locations.Balanced | nginx-1.0.15/src/http/ngx_http.c:1082-1152 | the number of comparisons on a level is logarithmic in the number of siblings |
| Locations.Serves | nginx-1.0.15/src/http/ngx_http_core_module.c:1590-1666 | a uri gets the location with the longest name that serves it; an equal name wins |
| Locations.FindStaticLocation | nginx-1.0.15/src/http/ngx_http_core_module.c:1590-1666 | the loop computes that search |
| Locations.RedirectIff | nginx-1.0.15/src/http/ngx_http_core_module.c:1655-1664 | a redirect that is due is answered exactly if no node above its own, with it to the right, has a name after the uri; otherwise there is no redirect |
| Locations.RedirectFound | nginx-1.0.15/src/http/ngx_http_core_module.c:1655-1664 | it is answered if no location comes between the uri and the one with the slash |
| Locations.MissedRedirect | nginx-1.0.15/src/http/ngx_http_core_module.c:1655-1664 | three locations for which it is missed |
| Calendar.Gmtime | nginx-1.0.15/src/core/ngx_times.c:289-379 | the date that the calendar reaches after so many days, with the right weekday and time of the day |
| Calendar.YearEstimate | nginx-1.0.15/src/core/ngx_times.c:317-334 | the estimate of the year is right or one too large |
| Calendar.NumberAt | nginx-1.0.15/src/core/ngx_times.c:311-370 | Gauss' formula numbers the days of the calendar one after the other |
| Calendar.HttpTime | nginx-1.0.15/src/core/ngx_times.c:243-259 | the string printed has the layout of RFC 1123, and names the right day of the week and month as RFC 2616 spells them |
| Calendar.RoundTrip | nginx-1.0.15/src/http/ngx_http_parse_time.c:14-276 | parsing what was printed for a time up to the year 9999 gives that time |
| Calendar.ParseTime | nginx-1.0.15/src/http/ngx_http_parse_time.c:14-276 | a string is accepted exactly if it says a date and a clock that exist, or a day 0, in one of the three formats at the place that the scan for the end of the weekday leads to; the answer is theirs; no character past the end is read |
| Calendar.SaidOnce | nginx-1.0.15/src/http/ngx_http_parse_time.c:14-220 | no string says two times |
| Calendar.DayZero | nginx-1.0.15/src/http/ngx_http_parse_time.c:222-233 | "Sun, 00 Mar 2000 00:00:00 GMT" is accepted, as the last day of February |
| Calendar.YearZero | nginx-1.0.15/src/http/ngx_http_parse_time.c:235-275 | "Sat, 01 Jan 0000 00:00:00 GMT" is accepted, and gets a wrong time |
| Calendar.AcceptedIff | nginx-1.0.15/src/http/ngx_http_parse_time.c:222-233 | fields are accepted exactly if the date exists or its day is 0 |
| Calendar.MeantIs | nginx-1.0.15/src/http/ngx_http_parse_time.c:240-265 | a day 0 is counted as the day before the first of the month, in every month |
| Calendar.TimeIff | nginx-1.0.15/src/http/ngx_http_parse_time.c:235-275 | accepted fields give their true time exactly if they are not of January or February of the year 0 |

## Findings

Where the code does not do what is expected of it, the model keeps the code.

- A slab pool that is too small for a page gets one all the same, past its end: `Slab.LayoutFits`, `Slab.LayoutOverruns`.
- A slab request of more than 2^64 - 4096 bytes asks for no pages: `Slab.PagesCover`.
- Freeing the first page of a run that is free already is not noticed: it moves the run to the front of the free list. `Slab.SlabAllocator.FreeLocked`.
- A `sem_post()` that fails loses a wake-up: `Shmtx.LostPostLosesWakeup`; without one there is none, `Shmtx.NoLostWakeup`; `Shmtx.Stranded` counts the processes that are left asleep.
- The open file cache loses a descriptor if the name of an open file leads elsewhere when it is asked about and back to the same file when it is opened: `FileCache.SwitchLeaks`. It keeps using the descriptor if the name has become a directory that reports the number of the file, as one on another file system can: closed if nobody held it, `FileCache.DirectoryKeeps`, and in two entries if somebody did, `FileCache.DirectoryShares`. `FileCache.OpenFileCache.OpenCachedFile` says that these are the only ways.
- `ngx_hash_init` counts absent names for where its search starts, and can refuse a table that would fit: `ExactHash.AbsentCount`.
- The counters of `ngx_hash_init` wrap for buckets of 32768 bytes and more: `ExactHash.SoundIff`.
- A redirect to the location with a slash can be missed: `Locations.RedirectIff` says exactly when, `Locations.MissedRedirect` shows it.
- A date with the day 0 is accepted, and January and February of the year 0 give a wrong time: `Calendar.AcceptedIff`, `Calendar.MeantIs`, `Calendar.TimeIff`, and in strings `Calendar.DayZero`, `Calendar.YearZero`.
- The output chain hands on stale flush and last marks with the first parts of a buffer, if a recycled buffer carried them before: `OutputChain.StaleMarks`. With one buffer of its own it does so exactly if a buffer that does not fit whole into it is copied next after one with marks: `OutputChain.Calls`. With any number it does not if every copied buffer either fits whole into each of them or finds none with marks: `OutputChain.Context.OutputChain` with `watch`.
- If a file cannot be read, what the same call has collected before is dropped: `dropped` in `OutputChain.Context.OutputChain`.
- Radix delete of a node without value or children answers OK: `Radix.RadixTree.Delete`, `Radix.DeleteUnset`.

## Left out

- Records and nodes are values in a map from addresses, queues and chains are sequences: aliasing between a record and something else that is not in the map is not modelled, but for the blocks of the output chain.
- Slab.SlabAllocator.AllocLocked: requests of more than 2^64 - 4096 bytes, for which `Slab.PagesCover` shows that no pages are asked for.
- Slab.SlabAllocator.FreeLocked: pointers into the bitmap at the head of a small-class page, and pointers between the last page and pool->end.
- Slab.SlabAllocator.constructor: pools without a page; only 64-bit words, 4096-byte pages and min_shift 3.
- Shmtx.StepInv: an unlock by a process that does not hold the mutex, 2^31 processes or more, a spin count of 2^63 or more, for which the doubling of n wraps, and how long spinning takes.
- FileCache.OpenFileCache.OpenCachedFile: vnode events, direct I/O, `test_only`, a cache that is switched off, and 2^24 handles on one entry.
- FileCache.OpenFileCache.Cleanup: names of entries are freed together with them, and are not modelled as memory.
- Timers.TimerSet.ExpireTimers: handlers that set timers themselves.
- Timers.TimerSet.FindTimer: deadlines and a clock that are not within one half of the circle of words.
- ExactHash.HashInit: bucket sizes from 32776 bytes on, for which `ExactHash.SoundIff` shows that the test is unsound; a table for no names in buckets too small for one element.
- WildcardHash.WildcardInit: its inner tables are exact maps from labels, not the packed tables of `ExactHash`, so that the failure of an inner `ngx_hash_init` is not modelled; the two tag bits of a value are constructors, which takes values to have their two low bits zero; names are sorted and without conflicts, as `ngx_hash_add_key` and its caller leave them, and those are not modelled.
- WildcardHash.TailFinds: stored names that end in a dot, for which the code would return a tagged value.
- Radix.RadixTree.Delete: deletion of a root without children, where the code follows a null parent.
- Radix masks: the prefix of a mask with gaps ends at its first gap, as in the code.
- OutputChain.Context.OutputChain: AIO, direct I/O and failures of allocation; callers bring in buffers that the chain does not hold, with a tag of their own; a buffer that is neither special nor has bytes is skipped as in the code, and its marks with it.
- OutputChain.Calls: calls of several buffers at once, a filter that does not send everything at once, and buffers without bytes that are skipped; with more than one buffer of the chain's own the condition on marks is sufficient only, as which of them a copy goes to depends on what the filter has sent.
- Locations.CreateLocations: sorting and `ngx_http_join_exact_locations`; the queue is taken sorted, joined and without duplicates, and names relative to their parent have at most 255 bytes. Regular expressions and named locations are no part of it.
- Calendar.Gmtime: the year 2038 check of systems with a 32-bit time_t.
- Exhaustion of memory, except in the slab allocator.
- The accept mutex, the resolver, configuration, logging and system calls.
