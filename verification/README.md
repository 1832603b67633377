# nginx core: verified models

Dafny models of data structures, allocators and algorithms of the nginx 1.6.2 core, with proofs.
`dafny verify dfyconfig.toml` checks the whole project.  Every part follows the code it models
branch by branch.

* **Red-black tree** (`Rb*.dfy`). `RbTree` changes nodes with parent links and one shared
  sentinel in place. `RbShape` and `RbFits` say which fields a tree of a given shape has,
  `RbBalance` follows the colours through both repair loops, `RbSplice` the removal of a node
  and `RbOrder` the two insertion orders. The field `parent` of the root is not constrained,
  because deletion can leave a stale pointer there.
* **Process-shared mutex** (`Shmtx.dfy`, `ShmtxCalls.dfy`). A state machine with one step per access to shared
  memory, for any number of processes: compare-and-swap, counter, semaphore, spinning, crashes
  and forced unlocks. Safety holds in every reachable state. No wake-up is lost where no process
  dies at one of five places and the waiter counter does not wrap; for each of these conditions
  a run shows that it is needed. `ShmtxCalls` says what a call of each function does.
* **Slab allocator** (`Slab*.dfy`, `Bits.dfy`). `SlabLayout` is what a pool means: runs of pages,
  size classes, used chunks, lists. `SlabMemory` is how descriptors, tag bits and the three kinds
  of bitmaps hold it. `SlabMoves`, `SlabCuts` and `SlabMaps` show that the words each operation
  writes hold the new layout, `SlabLive` what this does to the regions in the hands of callers,
  and `SlabPool` contains the operations themselves on arrays of words.
* **Hash tables** (`HashTable.dfy`, `HashSearch.dfy`). Sizes are counted in one pass and elements packed into bytes
  in another; the lookup walks over these bytes. Sums of sizes are kept in shorts; it is proved
  for exactly which limits and lengths this is right.
* **Wildcard names** (`Wildcards.dfy`, `PackedWildcards.dfy`). The recursive compilation of sorted
  wildcards into tables with tagged pointers, the search, and the conversion of wildcards to keys;
  then the same tables as packed hash tables, level by level. The main theorem is stated on the
  strings of wildcards and names: what is found in the packed bytes is the value of the wildcard
  with the longest domain.
* **Radix tree** (`Radix.dfy`). Nodes on the heap with a free list; lookup, insertion, deletion
  with pruning, preallocation.
* **Queue** (`Queue.dfy`). Rings of links: linking, unlinking, splitting, joining, the middle and
  the stable insertion sort.
* **Calendar** (`Calendar.dfy`). Civil dates from seconds.

Constants are those of a 64-bit build with pages of 4096 bytes and, for slab pools, chunks of at
least 8 bytes (`nginx-1.6.2/src/core/ngx_cycle.c:873`). Machine words are natural numbers with
explicit bounds, wrap-around and truncation.

## Model

| member | source | states |
|---|---|---|
| `RbTree.RbTree.constructor` | nginx-1.6.2/src/core/ngx_rbtree.h:43-46 | an initialised tree is empty, its sentinel black |
| `RbTree.RbTree.Insert` | nginx-1.6.2/src/core/ngx_rbtree.c:24-94 | inserting a node puts exactly that node into the in-order sequence, at one place, and keeps every red-black and link invariant; if the keys were in order and all, the new one included, lie in some half range, they are in order again, whatever base the order had before |
| `RbTree.RbTree.InsertFirst` | nginx-1.6.2/src/core/ngx_rbtree.c:34-42 | into an empty tree: the node becomes the black root |
| `RbTree.RbTree.Place` | nginx-1.6.2/src/core/ngx_rbtree.c:44-46 | the descent ends at a place that agrees with every comparison on the way, for both orders |
| `RbTree.RbTree.FindPlace` | nginx-1.6.2/src/core/ngx_rbtree.c:97-119 | the loop over the children, `ngx_rbtree_insert_value` and `ngx_rbtree_insert_timer_value`: all nodes passed to the right come before, all passed to the left after |
| `RbTree.RbTree.Rebalance` | nginx-1.6.2/src/core/ngx_rbtree.c:48-94 | the loop of the insertion ends in a red-black tree with the same in-order sequence |
| `RbTree.RbTree.LeftRotate` | nginx-1.6.2/src/core/ngx_rbtree.c:325-352 | which links a left rotation writes, and that it writes no others |
| `RbTree.RbTree.RightRotate` | nginx-1.6.2/src/core/ngx_rbtree.c:355-382 | the mirror image |
| `RbTree.RbTree.Delete` | nginx-1.6.2/src/core/ngx_rbtree.c:157-322 | deleting removes exactly the node from the in-order sequence, keeps every invariant (the sentinel, which is written to on the way, is black again) and clears the node |
| `RbTree.RbTree.TakeOut` | nginx-1.6.2/src/core/ngx_rbtree.c:169-239 | both cases of the removal: the node itself or its successor is unlinked |
| `RbTree.RbTree.Promote` | nginx-1.6.2/src/core/ngx_rbtree.c:205-239 | the successor takes links and colour of the node |
| `RbTree.RbTree.RestoreBalance` | nginx-1.6.2/src/core/ngx_rbtree.c:250-322 | the loop of the deletion ends in a red-black tree with the same in-order sequence, also when it starts at the sentinel |
| `RbTree.RbTree.RefillLeft` | nginx-1.6.2/src/core/ngx_rbtree.c:254-284 | one round of that loop on the left side |
| `RbTree.RbTree.RefillRight` | nginx-1.6.2/src/core/ngx_rbtree.c:286-317 | one round on the right side |
| `RbTree.RbTree.Earliest` | nginx-1.6.2/src/core/ngx_rbtree.h:73-81 | the leftmost node is the first in the order; with the timer order its key has the least distance from every base in whose half range the keys lie, word overflow included |
| `RbBalance.RepairRecoloured` | nginx-1.6.2/src/core/ngx_rbtree.c:55-59 | a red uncle: recolouring moves the single red-red conflict two levels up and changes no black height |
| `RbBalance.RepairRotated` | nginx-1.6.2/src/core/ngx_rbtree.c:67-71 | a black uncle: recolouring and one rotation remove the conflict |
| `RbBalance.RepairInner` | nginx-1.6.2/src/core/ngx_rbtree.c:62-65 | an inner grandchild is turned into an outer one |
| `RbBalance.DeficientRedSibling` | nginx-1.6.2/src/core/ngx_rbtree.c:257-262 | a red sibling is rotated up; the deficit of one black stays |
| `RbBalance.DeficientBlackNephews` | nginx-1.6.2/src/core/ngx_rbtree.c:264-266 | two black nephews: the deficit moves to the parent |
| `RbBalance.DeficientRedInnerNephew` | nginx-1.6.2/src/core/ngx_rbtree.c:268-274 | a red inner nephew is rotated outwards |
| `RbBalance.DeficientRedOuterNephew` | nginx-1.6.2/src/core/ngx_rbtree.c:276-282 | a red outer nephew repays the deficit |
| `RbBalance.DeficientDone` | nginx-1.6.2/src/core/ngx_rbtree.c:252-253 | when the loop ends, blackening gives a red-black tree |
| `RbBalance.HeightBound` | nginx-1.6.2/src/core/ngx_rbtree.c:48-94 | what the colours are for: a tree of height h has at least 2 to the (h / 2) minus one nodes |
| `RbBalance.DeficientRedSiblingRight` | nginx-1.6.2/src/core/ngx_rbtree.c:287-292 | the mirror image of a red sibling |
| `RbBalance.DeficientBlackNephewsRight` | nginx-1.6.2/src/core/ngx_rbtree.c:294-298 | the mirror image of two black nephews |
| `RbBalance.DeficientRedInnerNephewRight` | nginx-1.6.2/src/core/ngx_rbtree.c:300-306 | the mirror image of a red inner nephew |
| `RbBalance.DeficientRedOuterNephewRight` | nginx-1.6.2/src/core/ngx_rbtree.c:308-314 | the mirror image of a red outer nephew |
| `RbFits.LeftRotateFits` | nginx-1.6.2/src/core/ngx_rbtree.c:325-352 | the links written by a left rotation are those of the rotated shape |
| `RbFits.RightRotateFits` | nginx-1.6.2/src/core/ngx_rbtree.c:355-382 | the mirror image, by reflection |
| `RbFits.LeftRotatedInorder` | nginx-1.6.2/src/core/ngx_rbtree.c:325-352 | a left rotation keeps the in-order sequence |
| `RbFits.AttachFits` | nginx-1.6.2/src/core/ngx_rbtree.c:115-119 | the links of a new leaf are those of the grown shape |
| `RbSplice.PromoteFits` | nginx-1.6.2/src/core/ngx_rbtree.c:205-239 | the links written when the successor takes over are those of the new shape, in all positions of the successor |
| `RbSplice.PromotedInorder` | nginx-1.6.2/src/core/ngx_rbtree.c:169-239 | the new shape lacks exactly the node |
| `RbSplice.BypassFits` | nginx-1.6.2/src/core/ngx_rbtree.c:191-203 | the links when a node with at most one child is bypassed |
| `RbOrder.LessIsOffset` | nginx-1.6.2/src/core/ngx_rbtree.c:122-154 | within a window of less than half the key range the timer comparison is the order of the distances from the base |
| `RbOrder.LessExactly` | nginx-1.6.2/src/core/ngx_rbtree.c:133-145 | on 64-bit words the comparison of timers is the sign of their difference; as seen from any base it agrees with the order of distances exactly where these are less than half the range apart, and which way it goes beyond |
| `RbOrder.Rebased` | nginx-1.6.2/src/core/ngx_rbtree.c:122-154 | keys in order as seen from one base are in order as seen from every other in whose half range they lie: the order survives the advance of time |
| `RbOrder.InsertKeepsSorted` | nginx-1.6.2/src/core/ngx_rbtree.c:97-154 | a key that goes where the comparisons lead keeps the order |
| `RbOrder.GuidedToBoundary` | nginx-1.6.2/src/core/ngx_rbtree.c:97-154 | the place at which the descent ends is the boundary between smaller and not smaller keys |
| `RbTree.RbTree.InsertThenDelete` | nginx-1.6.2/src/core/ngx_rbtree.c:24-322 | a node that is inserted and deleted again leaves the nodes of the tree in the same order, and itself cleared |
| `Shmtx.MutualExclusion` | nginx-1.6.2/src/core/ngx_shmtx.c:62-160 | in every run of any number of processes, crashes and forced unlocks included, no two live processes hold the lock |
| `Shmtx.AlwaysExclusive` | nginx-1.6.2/src/core/ngx_shmtx.c:62-160 | the invariant behind it: only the process whose pid is in the lock word holds |
| `Shmtx.StepKeepsExclusive` | nginx-1.6.2/src/core/ngx_shmtx.c:62-195 | every atomic step keeps it |
| `Shmtx.StepKeepsCovered` | nginx-1.6.2/src/core/ngx_shmtx.c:99-195 | waiters counted plus posts under way plus the semaphore never fall below the number of processes that have committed to sleep, as long as the counter does not wrap and no process crashes between taking a waiter off it and posting |
| `Shmtx.StepKeepsAwake` | nginx-1.6.2/src/core/ngx_shmtx.c:62-195 | every step but a crash at one of five places keeps this: while the lock is free nobody sleeps unless there is a token to take, a process that has just taken one, or one on its way to post |
| `Shmtx.NoLostWakeup` | nginx-1.6.2/src/core/ngx_shmtx.c:62-195 | in every run without such a crash and without a wrap of the waiter counter, of any length, a process that sleeps on a free lock has a token to take or a process at work on its behalf that can go on |
| `Shmtx.CrashLosesWakeup` | nginx-1.6.2/src/core/ngx_shmtx.c:123-195 | the condition cannot be widened: for each of the five places (the first read and the first swap of the lock word after a token was taken; reading the waiter counter, taking a waiter off it and posting after the lock was freed) there is a run that is clean up to one crash there and then has lost a sleeper: lock free, no token, everybody else asleep, crashed or elsewhere |
| `Shmtx.WrapLosesWakeup` | nginx-1.6.2/src/core/ngx_shmtx.c:99-121 | nor can the condition on the counter go: a run without any crash in which it wraps loses a sleeper |
| `Shmtx.SleeperCanAcquire` | nginx-1.6.2/src/core/ngx_shmtx.c:62-195 | from every state of a clean run in which a process sleeps, some continuation gives the sleeper the lock; if the lock belongs to a process that crashed, an idle process is needed to force it |
| `Shmtx.HelpedToLock` | nginx-1.6.2/src/core/ngx_shmtx.c:135-195 | the steps of the helping process that lead there |
| `ShmtxCalls.TrylockAnswers` | nginx-1.6.2/src/core/ngx_shmtx.c:62-66 | in every interleaving: trylock never waits; it takes the lock iff the word is free at its look and at its swap, and otherwise leaves everything as it is |
| `ShmtxCalls.FreeLockTaken` | nginx-1.6.2/src/core/ngx_shmtx.c:62-80 | either function takes a free lock in two accesses, in every configuration |
| `ShmtxCalls.LockReturnsHolding` | nginx-1.6.2/src/core/ngx_shmtx.c:69-132 | the lock function returns only when the process has swapped its pid into a free word, and writes that word at no other time |
| `ShmtxCalls.SpinsThenSleeps` | nginx-1.6.2/src/core/ngx_shmtx.c:82-130 | while the lock stays taken: one attempt, then one for each power of two below `spin` if there is more than one processor; then the process counts itself as a waiter and sleeps, or starts again where there is no semaphore |
| `ShmtxCalls.SleepsIff` | nginx-1.6.2/src/core/ngx_shmtx.c:82-130 | a process that keeps finding the lock taken goes to sleep iff there is one processor or `spin` is at most the largest power of two in a word; above it the loop variable is shifted to zero and the loop never ends |
| `ShmtxCalls.SwapFailsAlike` | nginx-1.6.2/src/core/ngx_shmtx.c:62-118 | a look at a taken lock and a swap that fails lead to the same place, in the loop, before sleeping and after waking |
| `ShmtxCalls.WokenLikeEntered` | nginx-1.6.2/src/core/ngx_shmtx.c:112-125 | a process that is woken and finds the lock taken, or whose wait fails, goes on like one that enters |
| `ShmtxCalls.UnlockFrees` | nginx-1.6.2/src/core/ngx_shmtx.c:135-160 | unlocking clears the word iff it names the process (or the one for which the lock is forced) and only then goes on to wake sleepers |
| `ShmtxCalls.WakeupPosts` | nginx-1.6.2/src/core/ngx_shmtx.c:163-195 | waking takes one waiter off the counter and posts once, or does nothing if none is counted |
| `ShmtxCalls.WakeupReturns` | nginx-1.6.2/src/core/ngx_shmtx.c:163-195 | against others it goes on until it has taken a waiter off or found none |
| `SlabPools.SlabPool.constructor` | nginx-1.6.2/src/core/ngx_slab.c:72-135 | whenever the zone has room for a page behind the descriptors, the pages set up fit between these and the end of the zone, at page boundaries; they form one free run, of all the pages between the descriptors and the end of the zone, and nothing is handed out |
| `SlabPools.StartIsFirst` | nginx-1.6.2/src/core/ngx_slab.c:105-120 | the pages start at the first page boundary with room in front of it for the slot table and for the descriptors of the most pages that could fit |
| `SlabPools.AsManyAsFit` | nginx-1.6.2/src/core/ngx_slab.c:105-127 | no placing of pages behind their descriptors gives more pages in a zone that ends at a page boundary; in other zones at most one more |
| `SlabPools.EnoughRoom` | nginx-1.6.2/src/core/ngx_slab.c:112-135 | a zone of eight pages with the header in the first one has that room |
| `SlabPools.SlabPool.AllocLocked` | nginx-1.6.2/src/core/ngx_slab.c:153-396 | one more region is live, of the size class or of whole pages, and no other changes; there is no result iff there is no room; pages are cut only when no page of the class has a free chunk; no word of a region that was live is written |
| `SlabPools.SlabPool.FreeLocked` | nginx-1.6.2/src/core/ngx_slab.c:410-616 | freeing a live pointer takes exactly its region away, in all three encodings and for whole pages; any other pointer changes nothing and gets the answer of `Verdict`: outside the pool, wrong chunk, chunk already free, page already free or wrong page; no word of a region that was live is written |
| `SlabPools.SlabPool.FreeWhole` | nginx-1.6.2/src/core/ngx_slab.c:562-590 | the descriptor word of a page of no chunks tells a run to be freed from a page that is already free and from the inside of a run |
| `SlabPools.DoneIffLive` | nginx-1.6.2/src/core/ngx_slab.c:410-616 | a pointer is freed iff it is the start of a live region |
| `SlabPools.DecodePage` | nginx-1.6.2/src/core/ngx_slab.c:422-437 | the tag of every page, first of its run or not, free or not, tells pages of chunks from the others, and it is 3, 2 or 1 for small, exact and big chunks |
| `SlabPools.SlabPool.AllocPages` | nginx-1.6.2/src/core/ngx_slab.c:619-668 | first fit over the free runs: the first run long enough gives its first pages |
| `SlabPools.SlabPool.Carve` | nginx-1.6.2/src/core/ngx_slab.c:629-653 | the words that taking pages writes |
| `SlabPools.SlabPool.MarkBodies` | nginx-1.6.2/src/core/ngx_slab.c:655-660 | the pages behind the first of a run are marked busy, and no others |
| `SlabPools.SlabPool.FreeRun` | nginx-1.6.2/src/core/ngx_slab.c:671-695 | a run of whole pages is free again |
| `SlabPools.SlabPool.FreeCut` | nginx-1.6.2/src/core/ngx_slab.c:671-695 | an idle cut page leaves its list and is free again |
| `SlabPools.SlabPool.FirstFree` | nginx-1.6.2/src/core/ngx_slab.c:203-223 | the chunk handed out is the lowest one whose bit is clear, in each of the three encodings |
| `SlabPools.SlabPool.FirstFreeSmall` | nginx-1.6.2/src/core/ngx_slab.c:205-218 | the word and bit found in a map of several words |
| `SlabPools.SlabPool.IsBusy` | nginx-1.6.2/src/core/ngx_slab.c:225-232 | the words tell whether the page has just filled up |
| `SlabPools.SlabPool.IsIdle` | nginx-1.6.2/src/core/ngx_slab.c:467-486 | the words tell whether the last chunk has come back |
| `SlabPools.SlabPool.AllocChunk` | nginx-1.6.2/src/core/ngx_slab.c:196-326 | a chunk of the first page of the list; a page that fills up leaves the list |
| `SlabPools.SlabPool.AllocFresh` | nginx-1.6.2/src/core/ngx_slab.c:328-384 | a page is taken and cut, and its first chunk handed out |
| `SlabPools.SlabPool.CutPage` | nginx-1.6.2/src/core/ngx_slab.c:331-383 | the words of a page that has just been cut |
| `SlabPools.SlabPool.Unmark` | nginx-1.6.2/src/core/ngx_slab.c:449-465 | a chunk comes back; a page that was full rejoins its list |
| `SlabPools.SlabPool.FreeChunk` | nginx-1.6.2/src/core/ngx_slab.c:437-560 | one region less is live; an idle page goes back to the free pages |
| `SlabPools.SlabPool.ShiftOf` | nginx-1.6.2/src/core/ngx_slab.c:180-188 | the loop finds the smallest class that holds the size |
| `SlabPools.GrantedFits` | nginx-1.6.2/src/core/ngx_slab.c:163-188 | a request gets at least its size; below half a page no smaller class would do, from half a page on it gets the least number of whole pages |
| `SlabPools.FullSigns` | nginx-1.6.2/src/core/ngx_slab.c:448-457 | the three tests for a full page agree with the layout |
| `SlabPools.DecodeRun` | nginx-1.6.2/src/core/ngx_slab.c:422-437 | the tag bits in `prev` and the low bits of the descriptor tell what a page is |
| `SlabLayout.LiveRegions` | nginx-1.6.2/src/core/ngx_slab.c:153-396 | live regions are disjoint and lie in the pages |
| `SlabLayout.LiveClearOfBitmap` | nginx-1.6.2/src/core/ngx_slab.c:331-358 | no live chunk overlaps the map at the start of its page |
| `SlabLayout.TakeTiled` | nginx-1.6.2/src/core/ngx_slab.c:619-668 | free and busy runs still partition the pages after pages are taken |
| `SlabLayout.TakeListed` | nginx-1.6.2/src/core/ngx_slab.c:619-668 | and the free list still holds exactly the free runs |
| `SlabLayout.ReleaseKeeps` | nginx-1.6.2/src/core/ngx_slab.c:671-695 | the same when a run is given back |
| `SlabLayout.OpenKeeps` | nginx-1.6.2/src/core/ngx_slab.c:328-384 | the same when a page is cut; every slot list holds exactly the pages of its class with a free chunk |
| `SlabLayout.UseKeeps` | nginx-1.6.2/src/core/ngx_slab.c:196-326 | the same when a chunk is handed out |
| `SlabLayout.DropKeeps` | nginx-1.6.2/src/core/ngx_slab.c:437-465 | the same when a chunk comes back |
| `SlabLayout.DetachKeeps` | nginx-1.6.2/src/core/ngx_slab.c:684-688 | the same when a page leaves its list |
| `SlabLive.UseGains` | nginx-1.6.2/src/core/ngx_slab.c:196-326 | handing out a chunk makes one region live that was not |
| `SlabLive.DropLoses` | nginx-1.6.2/src/core/ngx_slab.c:437-560 | taking it back makes exactly that region not live |
| `SlabLive.OpenGains` | nginx-1.6.2/src/core/ngx_slab.c:328-384 | cutting a page makes one chunk live |
| `SlabLive.TakeGains` | nginx-1.6.2/src/core/ngx_slab.c:163-178 | taking pages makes them live |
| `SlabLive.ReleaseLoses` | nginx-1.6.2/src/core/ngx_slab.c:562-590 | giving them back |
| `SlabLive.RetireSame` | nginx-1.6.2/src/core/ngx_slab.c:484-486 | an idle page holds no live region |
| `SlabLive.GainedApart` | nginx-1.6.2/src/core/ngx_slab.c:153-396 | a region just handed out overlaps no live one |
| `SlabMaps.FullTest` | nginx-1.6.2/src/core/ngx_slab.c:225-232 | a page is full iff its words are busy, in each encoding |
| `SlabMaps.IdleTest` | nginx-1.6.2/src/core/ngx_slab.c:467-486 | a page is idle iff its words are clear but for the map itself |
| `SlabMaps.LiveIsMarked` | nginx-1.6.2/src/core/ngx_slab.c:203-326 | a chunk is live iff its bit is set in the encoding its page uses and it is not part of the map |
| `SlabMaps.OwnersWrite` | nginx-1.6.2/src/core/ngx_slab.c:331-358 | whatever the owners of live regions write into them, the maps hold the same layout |
| `SlabMaps.MarksUntouched` | nginx-1.6.2/src/core/ngx_slab.c:203-465 | and marking or unmarking a chunk writes no word of a live region |
| `SlabMaps.FreshUntouched` | nginx-1.6.2/src/core/ngx_slab.c:331-358 | nor does the map of a page that was free |
| `SlabMaps.OpenRepresents` | nginx-1.6.2/src/core/ngx_slab.c:328-384 | the words of a cut page hold the new layout |
| `SlabMoves.TakeRepresents` | nginx-1.6.2/src/core/ngx_slab.c:619-668 | the words written when pages are taken hold the new layout |
| `SlabMoves.ReleaseRepresents` | nginx-1.6.2/src/core/ngx_slab.c:671-695 | the words written when pages are given back |
| `SlabCuts.UseRepresents` | nginx-1.6.2/src/core/ngx_slab.c:218-245 | the words written when a chunk is handed out |
| `SlabCuts.DropRepresents` | nginx-1.6.2/src/core/ngx_slab.c:448-465 | the words written when a chunk comes back |
| `SlabCuts.DetachRepresents` | nginx-1.6.2/src/core/ngx_slab.c:684-688 | the words written when a page leaves its slot list |
| `SlabLists.ChainUnlink` | nginx-1.6.2/src/core/ngx_slab.c:684-688 | unlinking by two writes removes exactly the entry |
| `SlabLists.ChainPush` | nginx-1.6.2/src/core/ngx_slab.c:690-695 | pushing puts a page in front |
| `SlabLists.ChainReplace` | nginx-1.6.2/src/core/ngx_slab.c:631-638 | the rest of a run takes the place of the run in the free list |
| `HashTables.Table.Find` | nginx-1.6.2/src/core/ngx_hash.c:12-49 | the walk over the packed bytes of a bucket returns the value of its first item with the name, and nothing if there is none |
| `HashTables.Build` | nginx-1.6.2/src/core/ngx_hash.c:251-315 | under the condition of `SafeIff`, for these names: the table built holds every name not dropped; of the sizes tried it has the smallest whose buckets are within the limit; there is none iff a name is too long or no such size will do. Tried are, for many names, the last thousand, otherwise all with which one more bucket would leave room for more than so many of the smallest elements |
| `HashTables.TriedFromFirst` | nginx-1.6.2/src/core/ngx_hash.c:272-281 | these are the sizes from the start that the source computes up to the maximum |
| `HashSearch.NothingMissed` | nginx-1.6.2/src/core/ngx_hash.c:272-283 | where no name is dropped and there are not too many, every size that suffices is tried |
| `HashSearch.MissesIff` | nginx-1.6.2/src/core/ngx_hash.c:272-283 | in general a size that suffices can be missed iff the least size with room for so many of the smallest elements is not tried |
| `HashTables.Fits` | nginx-1.6.2/src/core/ngx_hash.c:283-311 | for all names and limits: the search accepts a size iff no sum of sizes, as a short holds it, exceeds the limit as a short holds it |
| `HashTables.AcceptedIffWithin` | nginx-1.6.2/src/core/ngx_hash.c:283-311 | where a sum within the limit does not wrap when one more name is added, the accepted sizes are exactly those whose buckets are within the limit |
| `HashTables.ExactIff` | nginx-1.6.2/src/core/ngx_hash.c:283-311 | for all limits, below a short or not, and all lengths: the search takes exactly the sizes whose buckets are within the limit, for all names that take at most `longest` bytes, iff the largest sum within the limit plus the longest element is less than a short |
| `HashTables.SafeIff` | nginx-1.6.2/src/core/ngx_hash.c:283-347 | whatever size the search takes, all buckets are within the limit and their aligned sizes survive the cast to a short, for all such names, iff that holds and a cache line fits behind the largest sum |
| `HashTables.FullCountsAsEmpty` | nginx-1.6.2/src/core/ngx_hash.c:283-347 | an example: 4096 names of six characters, bucket size 65536, one bucket; its sum wraps to nothing, and the bucket counts as empty |
| `HashTables.AlignShort` | nginx-1.6.2/src/core/ngx_hash.c:341-346 | the aligned size of a bucket survives in a short iff the size leaves room for a cache line |
| `HashTables.Measure` | nginx-1.6.2/src/core/ngx_hash.c:325-347 | the length of the block is that of the aligned buckets, for every limit whose aligned sizes fit a short |
| `HashTables.PlaceBuckets` | nginx-1.6.2/src/core/ngx_hash.c:380-387 | the buckets lie one behind the other, empty ones nowhere |
| `HashTables.WriteItems` | nginx-1.6.2/src/core/ngx_hash.c:389-406 | all items lie in their bucket in the order of the names |
| `HashTables.WriteEnds` | nginx-1.6.2/src/core/ngx_hash.c:408-416 | every bucket ends with a null pointer |
| `HashTables.StepIsSize` | nginx-1.6.2/src/core/ngx_hash.c:41-43 | the step of the lookup is the size with which elements were packed |
| `HashTables.AllStops` | nginx-1.6.2/src/core/ngx_hash.c:24-45 | what the walk reads at each stop |
| `HashTables.BucketInBlock` | nginx-1.6.2/src/core/ngx_hash.c:369-387 | a bucket with its null pointer lies in the block |
| `HashTables.BucketsApart` | nginx-1.6.2/src/core/ngx_hash.c:369-387 | different buckets do not overlap |
| `HashTables.FoundIffStored` | nginx-1.6.2/src/core/ngx_hash.c:12-49 | a name that comes with its hash is found iff it is stored in lower case |
| `HashTables.LowerIffSame` | nginx-1.6.2/src/core/ngx_string.c:20-29 | two names are the same in lower case iff they differ only in the cases of letters |
| `HashTables.LowerCodes` | nginx-1.6.2/src/core/ngx_string.h:47 | the codes 65 to 90 go up by 32, all others stay |
| `HashTables.FoundInAnyCase` | nginx-1.6.2/src/core/ngx_hash.c:389-406 | in whatever cases a stored name is spelled, in lower case it is found under its hash |
| `Wildcards.FindHead` | nginx-1.6.2/src/core/ngx_hash.c:52-143 | the search over the last labels of the name, with the tag bits of the slots, on tables as lists of labels; on packed tables it is `PackedWildcards.FindHeadPacked` |
| `Wildcards.Compile` | nginx-1.6.2/src/core/ngx_hash.c:455-597 | for every name, the tables find the value of the longest wildcard that matches it by labels; on all levels the tags are right and the labels made of the characters of the names |
| `Wildcards.Collect` | nginx-1.6.2/src/core/ngx_hash.c:518-562 | the names with the same first label are collected, all of them and no others |
| `Wildcards.GroupSlot` | nginx-1.6.2/src/core/ngx_hash.c:564-586 | value, table and tag of a label stand for its group of names |
| `Wildcards.KeyOf` | nginx-1.6.2/src/core/ngx_hash.c:852-881 | the key of a wildcard is its text with the labels in reverse order |
| `Wildcards.KeyIs` | nginx-1.6.2/src/core/ngx_hash.c:847-881 | the key spells the labels of the domain and ends with a dot iff the bare domain is excluded |
| `Wildcards.MatchesIffCovers` | nginx-1.6.2/src/core/ngx_hash.c:763-767 | matching by labels is covering as strings: `*.x` covers what ends with `.x`, `.x` also x itself |
| `Wildcards.LongestWildcard` | nginx-1.6.2/src/core/ngx_hash.c:52-143 | the search in tables that find what is wanted for the keys of wildcards returns the value of the covering wildcard with the longest domain, or nothing iff none covers the name |
| `Wildcards.EntriesReady` | nginx-1.6.2/src/core/ngx_hash.c:847-918 | wildcards with different domains, sorted by their keys, meet what the compilation asks of the keys |
| `Wildcards.CompileWildcards` | nginx-1.6.2/src/core/ngx_hash.c:455-597 | from wildcards to answers: for every name, the search in the table compiled from them returns the value of the wildcard that covers the name and has the longest domain, or nothing iff none covers it |
| `Wildcards.OneAnswer` | nginx-1.6.2/src/core/ngx_hash.c:52-143 | there is only one such answer |
| `Wildcards.NoConflict` | nginx-1.6.2/src/core/ngx_hash.c:901-918 | two keys have the same labels iff the domains are equal, which is what the conflict check asks |
| `Wildcards.SideBySide` | nginx-1.6.2/src/core/ngx_string.c:826-854 | in the order of `ngx_dns_strcmp` names with the same first label lie side by side |
| `Wildcards.SelfFirst` | nginx-1.6.2/src/core/ngx_string.c:826-854 | and the label alone comes first |
| `Wildcards.JoinsIffPlain` | nginx-1.6.2/src/core/ngx_string.c:826-854 | a name never comes between two names that share another first label iff its own first label has no character below the space |
| `Wildcards.GroupingIff` | nginx-1.6.2/src/core/ngx_string.c:826-854 | for every character: sorted names of characters from the space on and this one have their first labels side by side iff the character is not below the space |
| `PackedWildcards.LevelFinds` | nginx-1.6.2/src/core/ngx_hash.c:389-406 | the first item with a label, in the bucket of its hash, holds the pointer of the label |
| `PackedWildcards.PackLevel` | nginx-1.6.2/src/core/ngx_hash.c:589-596 | a level is packed into a hash table, iff some size of it will do |
| `PackedWildcards.FindLabel` | nginx-1.6.2/src/core/ngx_hash.c:84 | the lookup of a label in the packed bytes of a level returns the pointer of the first element with that label, null iff there is none |
| `PackedWildcards.PackTrie` | nginx-1.6.2/src/core/ngx_hash.c:564-596 | a compiled table is packed level by level, inner levels first, with tagged pointers between them; it fails iff some level has no size |
| `PackedWildcards.FindHeadPacked` | nginx-1.6.2/src/core/ngx_hash.c:52-143 | the search through packed levels and tagged pointers returns what the search in the compiled table returns |
| `PackedWildcards.PackWildcards` | nginx-1.6.2/src/core/ngx_hash.c:455-597 | from wildcards to bytes: the packed levels, if every level has a size, answer for every name with the wildcard of the longest covering domain |
| `PackedWildcards.Search` | nginx-1.6.2/src/core/ngx_hash.c:52-143 | the value found in them for a name is that answer |
| `Radix.Tree.Find` | nginx-1.6.2/src/core/ngx_radix_tree.c:236-263 | the value found is that of the longest stored prefix of the key |
| `Radix.Tree.Insert` | nginx-1.6.2/src/core/ngx_radix_tree.c:108-170 | a prefix without a value gets it, one with a value is refused; it fails iff more nodes are missing on the way than the free list, the page and the pool can give, and then changes no value; all other prefixes keep theirs; only prefixes of the prefix get nodes, and nodes in the tree plus nodes to be had stay the same number; when it succeeds leaves without value do not arise |
| `Radix.Tree.Delete` | nginx-1.6.2/src/core/ngx_radix_tree.c:173-233 | exactly the prefix loses its value; it succeeds iff the prefix is stored or is a leaf; pruning leaves no idle leaf behind; nodes in the tree plus nodes to be had stay the same number |
| `Radix.Tree.Prune` | nginx-1.6.2/src/core/ngx_radix_tree.c:205-230 | the loop removes only nodes without children and value |
| `Radix.Tree.Alloc` | nginx-1.6.2/src/core/ngx_radix_tree.c:463-488 | a node comes from the free list or from fresh memory and is in neither the tree nor the list afterwards; there is none iff both and the pool are exhausted, and each takes exactly one of those still to be had |
| `Radix.Tree.Preallocate` | nginx-1.6.2/src/core/ngx_radix_tree.c:77-102 | preallocation stores nothing and leaves a node for every prefix up to the length; it fails only for lack of memory; no node is for a longer prefix and none is lost; -1 stands for 6 bits |
| `Radix.Tree.constructor` | nginx-1.6.2/src/core/ngx_radix_tree.c:15-40 | a new tree stores nothing and has taken one node of its first page |
| `Radix.LackingBelow` | nginx-1.6.2/src/core/ngx_radix_tree.c:142-165 | the nodes missing on the way are those below the last one that is there |
| `Radix.OnlyLongest` | nginx-1.6.2/src/core/ngx_radix_tree.c:236-263 | there is only one value for the longest stored prefix |
| `Radix.BestIsLongest` | nginx-1.6.2/src/core/ngx_radix_tree.c:236-263 | and there is one: that of the longest prefix with a value among those up to any length, or nothing if none has |
| `Radix.GrownKeeps` | nginx-1.6.2/src/core/ngx_radix_tree.c:146-167 | a new leaf keeps tree and free list apart and changes no stored value |
| `Radix.PrunedKeeps` | nginx-1.6.2/src/core/ngx_radix_tree.c:205-215 | so does taking a leaf off |
| `Calendar.GmTime` | nginx-1.6.2/src/core/ngx_times.c:282-372 | date, weekday and time of day are those of the proleptic Gregorian calendar iff the year fits the field of type `int`; no intermediate value overflows |
| `Calendar.MarchYear` | nginx-1.6.2/src/core/ngx_times.c:313-321 | the year by division is right or one too large, and one correction suffices |
| `Calendar.MarchDay` | nginx-1.6.2/src/core/ngx_times.c:323-334 | the empirical formulas for month and day, for every day of a year |
| `Calendar.OneDate` | nginx-1.6.2/src/core/ngx_times.c:282-372 | two dates with the same day number are the same date |
| `Calendar.YearStartClosed` | nginx-1.6.2/src/core/ngx_times.c:301-315 | the closed formula counts the days year by year |
| `Queue.Sort` | nginx-1.6.2/src/core/ngx_queue.c:50-80 | the ring is well-formed again and holds the elements in the order of the insertion sort |
| `Queue.SortIsStable` | nginx-1.6.2/src/core/ngx_queue.c:47-80 | that order is a permutation for every comparison, sorted for every total preorder, and keeps the order of elements that tie |
| `Queue.Middle` | nginx-1.6.2/src/core/ngx_queue.c:12-44 | the middle of n elements is the one at index n / 2 |
| `Queue.InsertAfter` | nginx-1.6.2/src/core/ngx_queue.h:33-40 | an element goes behind another one, and nothing else moves |
| `Queue.Remove` | nginx-1.6.2/src/core/ngx_queue.h:80-82 | exactly the element leaves the ring |
| `Queue.Split` | nginx-1.6.2/src/core/ngx_queue.h:87-93 | the elements from one on move to the second ring |
| `Queue.Add` | nginx-1.6.2/src/core/ngx_queue.h:96-100 | the elements of the second ring go behind those of the first |
| `Queue.Settle` | nginx-1.6.2/src/core/ngx_queue.c:67-79 | the inner loop puts an element behind the last one that is not greater |

## Left out

- Red-black tree: `ngx_str_rbtree_insert_value` and the other insertion functions outside `ngx_rbtree.c`; a node must not be in the tree when it is inserted and must be when it is deleted, as the callers ensure.
- Shmtx.NoLostWakeup: fairness of the scheduler, so that it says a sleeper is not forgotten, not that it is served in bounded time.
- Mutexes on lock files, the creation of the mutex and the logging in it.
- SlabPools.SlabPool.FreeLocked: pointers to the first page of a free run, to a chunk of the map of a cut page, or behind the last page, because the source takes them for something else: the word of the first page of a free run is its length, the chunks of a map are marked, and behind the last page there is no descriptor.
- Slab pools: the order of the slot table, the descriptors and the pages in memory is replaced by positions in one table; a link word is four times a position plus the tag; the mutex around the two entries, filling with junk, and the messages.
- Slab pools: the search over the pages of a slot list is modelled on its first page, because every page of the list is proved to have a free chunk, so the source never looks at a second one.
- HashTables.Build: the fall-through when no size is found, which ignores the bucket size and writes behind the array of sums; the model gives no table then. Bucket sizes and names outside the condition of `HashTables.SafeIff` are left out of its contract, because there the source can take an over-full bucket and write behind it.
- HashTables.ExactIff: elements of less than 16 bytes do not exist, and a longest element above the limit is refused before the search.
- Hash tables: memory pools and the failure of allocations; prefetching; `ngx_hash_find_combined` and tail wildcards.
- SlabPools.SlabPool.constructor: zones without room for a single page, which the configuration does not accept; of the contents of a page the model has the first eight words, the only ones the allocator writes.
- Wildcards.Compile: names with a character below the space, because `ngx_dns_strcmp` puts the dot at the place of the space, and names with such a character need not lie side by side with those that share their first label (`Wildcards.GroupingIff`).
- PackedWildcards.PackWildcards: the hash function is a parameter; addresses are multiples of four that are given out in order; domains are in lower case, as `ngx_hash_add_key` leaves them, and so short that no sum of sizes wraps; the sorting of the wildcards is the callers'.
- Wildcards.KeyOf: names with two dots in a row and the other names that `ngx_hash_add_key` declines before it converts them; its two hash tables for conflicts are the requirement that domains differ.
- Radix.Tree.Delete: deleting the empty prefix from a tree that is only a root, where the source follows a null pointer.
- Radix.Tree.constructor: a pool without a page for the root, for which `ngx_radix_tree_create` returns nothing.
- Radix tree: 128-bit keys, which this build does not contain.
- Calendar.GmTime: negative times, for which the source does not claim to be valid.
- Queue.Sort: comparisons that read the links themselves; `cmp` is a function of the elements.
- Open file cache, output chains, memory pools, arrays, MD5, CRC, escaping of URIs, configuration, events, sockets and modules.
