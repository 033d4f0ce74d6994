# Verified models of the lab programs

Dafny models of the programs in this repository, with proofs about them.  Each component
of the repository has its own modules; where the C code updates memory in place the model
is a class or an array method, proved against a function of the old state, and what the
code is for is proved about that function.

- **Heap allocators** (`lab7/mm_v4.c`, `lab7/mm.c`, `lab7/memlib.c`): `BlockLayout` is the
  abstract heap both refine, a map from block addresses to sizes and allocated bits.
  `ExplicitSpec` and `ImplicitSpec` say what the public calls do to it and prove the
  invariants over all runs; `ExplicitHeap` and `ImplicitHeap` are the code itself, writing
  tags and links into one array of words.  `Takes`, `ExplicitShape` and `ImplicitShape`
  say block by block what each call leaves.  The word at byte address p is kept in cell p;
  pointers are offsets, and offset 0, the padding word, is NULL.  `FreeList`, `Tags` and
  `Bytes` are about memory contents, `Requests` about sizes.  `ExplicitClient` and
  `ImplicitClient` let clients store bytes in their `Payloads` and follow them over runs.
- **Cache simulator** (`lab8/csim.c`): `Lru` is the move-to-front model with its stack
  theorems, `CacheSim` the flat array with age counters, shown equal to it at every step,
  and `CacheBlocks` says what hits in terms of the blocks of memory a trace touches.
- **Y86-64 machine and assembler** (`lab4/y64sim.c`, `lab6/sim/misc/isa.c`,
  `lab5/y64asm.c`): `Y64Sim` and `Isa` are the two simulators over byte memories,
  `SimAgree` compares their steps and runs.  `AsmText`, `AsmReader` and `AsmPrint` are
  about the text of a line, `Asm`, `AsmLayout` and `Assembler` about tables, addresses,
  relocation and the binary file, and `AsmRun` runs the result on `Y64Sim`.  `AsmBytes`
  gives the bytes of each mnemonic and `AsmMeaning` what its text does in both simulators.
- **Shell** (`lab9/tsh.c`): `JobTable` is the job list, `Shell` the protocol between the
  main thread, its children and the SIGCHLD handler as a transition system.  `ShellRuns`
  follows jobs and waits over runs, and `JobIds` the ids jobs are given.
- **HCL to C** (`lab6/sim/misc/node.c`): `Hcl` has the expressions, the linked nodes and
  the emitter, `CExpr` a precedence parser and evaluator for the emitted part of C,
  `HclCompile` the proof that the two fit together, `HclExact` the exact condition, and
  `HclTyping` the type system behind the parser's checks.
- **Robust I/O** (`lab10/csapp.c`): `Rio` over a kernel that may shorten, interrupt or fail
  any transfer, and `Sio` for the number printer.
- **Transpose** (`lab8/trans.c`): `Transpose`.

`Bits`, `Words`, `SimMemory`, `IndexBits`, `Align`, `Memlib`, `DigitChars`, `Seqs` and
`Wrappers` are shared.
`dafny verify dfyconfig.toml` checks everything.

## What turned out not to hold

- `mem_sbrk` takes an `int`: a size of 2^32 or more is truncated (`Memlib.SbrkTruncation`),
  and near 2^64 the rounding of `mm_malloc` wraps.  So a huge request can succeed with a
  small block.  The requests that are *served* are those below 2^32 - 15 bytes and, beyond,
  those the code refuses; `ServedIff` in `ExplicitSpec` and `ImplicitSpec` shows that these
  are exactly the ones that can be answered rightly, `UnservedExamples` has two sizes that
  are not, and all theorems about the allocators are about served requests.
- `lab8/csim.c` allocates room for `block_size` sets, not for the number of sets: the cells
  of every set are in the array exactly when s is at most b (`CacheSim.InBoundsIff`).  The
  loop that ages the lines of a set tests the counter before the bound, and looks one line
  past a full set; so all reads stay inside exactly when s is below b
  (`CacheSim.StaysInsideIff`).
- An HCL numeral with a leading zero becomes octal in C, and one of 2^63 or more fits no
  `long long` (`HclCompile.PlainIff`).
- A case list inside an HCL set shares its `next` links with the set, so with two or more
  arms the emitted C compares the value with every suffix of the list, and a single arm can
  swallow the next element (`HclCompile.CaseElementExample`).  A case list without arms has
  no node at all, and vanishes from a set (`HclExact.DroppedExample`).
  `HclExact.EmittedIff` and `HclExact.PurgedEmittedIff` are exact for all expressions.
- `.align` finds the least multiple only under the condition in `Align.AlignUpIff`; C
  division truncates toward zero (`Align.AlignUpExample`).
- nexti refuses encodings that step_state accepts; `SimAgree.SimulatorsAgree` has the exact
  condition and `SimAgree.AgreementExample` an input.  Its flags are not those of
  step_state either: the two agree exactly on the operands of `SimAgree.FlagsAgreeIff`, and
  after comparing 1 with 2 "less" does not hold (`SimAgree.FlagsExample`).
- relocate patches eight bytes whatever the size of the field: it stays inside the line
  exactly when no label stands in a narrower one (`AsmLayout.PatchableIff`).
- `sio_ltoa` is wrong for the least long (`Sio.LeastLongExample`) and right for every other
  (`Sio.TextDenotesIff`).
- Job ids of `lab9/tsh.c` start again at 1 after `MAXJOBS` even when 1 is in use, so two
  listed jobs can share one (`JobIds.SharedIdExample`); `JobIds.IdsDistinctIff` has the
  exact condition.
- The branch of `transpose_submit` for M = 32 transposes 32 rows whatever N is.

## Model

| member | source | states |
|---|---|---|
| `Memlib.MemSystem.Sbrk` | lab7/memlib.c:58-69 | the break moves by the increment and the old break is returned, or -1 with nothing changed, when the increment is negative or the arena is full |
| `Memlib.MemSystem.ResetBrk` | lab7/memlib.c:48-51 | the break is back at the start |
| `Memlib.SbrkTruncation` | lab7/memlib.c:58-69 | because the parameter is an int, growing by an unsigned size moves the break by that size or refuses exactly when the size is below 2^32, or its truncation is refused |
| `Memlib.SbrkRefuses` | lab7/memlib.c:58-69 | whatever the size, mem_sbrk refuses only what there is no room for, and below 2^32 it refuses or grants exactly that |
| `Memlib.SbrkTruncationExample` | lab7/memlib.c:58-69 | a request for 2^32 + 8 bytes at break 16 succeeds with 8 bytes |
| `Memlib.Unpack` | lab7/mm_v4.c:32-44 | size and allocated bit come back from a packed tag |
| `BlockLayout.WalkCovers` | lab7/mm_v4.c:55-56 | walking NEXT_BLKP from a boundary meets every block above it, in order, up to the epilogue |
| `BlockLayout.WalkAscends` | lab7/mm_v4.c:55-56 | the walk visits each block once, each where the one before ends |
| `BlockLayout.WalkTotal` | lab7/mm_v4.c:127-145 | the sizes met on the walk add up to the distance to the break: no byte of the heap belongs to no block |
| `BlockLayout.HasPrev` | lab7/mm_v4.c:56 | every boundary above the prologue has exactly one block ending there, which is what PREV_BLKP needs |
| `BlockLayout.FuseTiles` | lab7/mm_v4.c:174-213 | replacing the blocks of a region by one keeps the heap tiled, every other block staying |
| `BlockLayout.MergedCoalesces` | lab7/mm_v4.c:174-213 | merging a free block with its free neighbours leaves no two adjacent free blocks, given none elsewhere |
| `BlockLayout.MergedLive` | lab7/mm_v4.c:174-213 | coalescing neither loses, moves nor resizes an allocated block |
| `BlockLayout.PlacedTiles` | lab7/mm_v4.c:288-307 | splitting or taking a whole block keeps sizes, alignment, disjointness and adjacency |
| `BlockLayout.PlacedHandsOut` | lab7/mm_v4.c:288-307 | the placed block is new, 8-byte aligned, inside the heap, has the requested payload, is disjoint from every live block, and all live blocks stay |
| `BlockLayout.NothingLive` | lab7/mm_v4.c:174-213 | a coalesced heap without live blocks is one free block, or empty |
| `FreeList.UnlinkedLinks` | lab7/mm_v4.c:76-103 | after remove_node's pointer writes memory holds the doubly linked list without that node, in all four cases of missing neighbours |
| `FreeList.UnlinkedFrame` | lab7/mm_v4.c:76-103 | remove_node writes no word outside the nodes of the list |
| `FreeList.PushedLinks` | lab7/mm_v4.c:109-122 | after add_node's writes memory holds the list with the node in front |
| `FreeList.PushedFrame` | lab7/mm_v4.c:109-122 | add_node writes no word outside the nodes of the new list |
| `ExplicitSpec.CoalesceInv` | lab7/mm_v4.c:174-213 | coalesce leaves the whole invariant: tiling, no adjacent free blocks, a duplicate-free list of exactly the free blocks, whose head is the merged block |
| `ExplicitSpec.MergedList` | lab7/mm_v4.c:174-213 | after coalescing the list still has every free block once and nothing else |
| `ExplicitSpec.ExtendInv` | lab7/mm_v4.c:150-168 | extending keeps the invariant and every live block and yields a free block of at least the size asked for |
| `ExplicitSpec.PlaceInv` | lab7/mm_v4.c:288-307 | place keeps the invariant, with and without a remainder of at least 24 bytes; what it leaves is in ExplicitShape.MallocTakes |
| `ExplicitSpec.FirstFit` | lab7/mm_v4.c:269-282 | the first node of the list that is large enough, or the end when there is none |
| `ExplicitSpec.BlockSize` | lab7/mm_v4.c:220-245 | the rounded size holds the request and its tags, is at least 24 and a multiple of 8, also for the two sizes tuned to traces |
| `ExplicitSpec.MallocInv` | lab7/mm_v4.c:220-263 | mm_malloc keeps the invariant, for every request it serves |
| `ExplicitSpec.FreeInv` | lab7/mm_v4.c:312-324 | mm_free keeps the invariant; exactly the freed block stops being live |
| `ExplicitSpec.InitInv` | lab7/mm_v4.c:127-145 | mm_init establishes the invariant |
| `ExplicitSpec.MallocSafe` | lab7/mm_v4.c:220-307 | for every request served, a non-NULL result is 8-byte aligned, inside the heap, of the requested payload and disjoint from every live block, whichever way it was found; on NULL nothing changes |
| `ExplicitSpec.MallocFails` | lab7/mm_v4.c:220-263 | for every request served, mm_malloc returns NULL if and only if the size is 0, or no free block is large enough and the arena cannot grow by the chunk |
| `ExplicitSpec.RefusedFails` | lab7/mm_v4.c:220-263 | the test the code makes, on the wrapped block size and with the size cut down to an int, refuses no request there is room for, and below 2^32 - 15 refuses all others |
| `ExplicitSpec.ServedIff` | lab7/mm_v4.c:220-263 | for every size_t: the requests served are exactly those refused with NULL and those for which some heap within the arena holds a block; for all others any block handed out is too small |
| `ExplicitSpec.UnservedExamples` | lab7/mm_v4.c:150-263 | a request for 2^32 bytes makes mem_sbrk grant 8 bytes and one for 2^64 - 8 is rounded to 0, in every heap with 8 bytes of room, or a free block |
| `ExplicitSpec.RunKeeps` | lab7/mm_v4.c:76-324 | after every sequence of served requests and frees the invariant holds and each block not freed is live, in place and of its size |
| `ExplicitSpec.Utilization` | lab7/mdriver.c:659-750 | whatever payloads a client holds at some time, they and their tags fit into the heap size at any later time: the heap size at the end bounds the high-water mark, so utilization stays below 1 |
| `ExplicitSpec.FreeingAll` | lab7/mm_v4.c:174-324 | freeing all live blocks, in any order, leaves one free block spanning the heap and a list of just that block |
| `ExplicitShape.BlockSizeLeast` | lab7/mm_v4.c:220-245 | the block size is the least multiple of 8 that holds request and tags, but for the two tuned sizes and 24 for small requests |
| `ExplicitShape.MallocTakes` | lab7/mm_v4.c:247-307 | when a listed block is large enough the first such is used: with 24 bytes to spare it shrinks to exactly the block size and the rest becomes a free block at the head of the list, otherwise it is handed out whole; every other block and the order of the other nodes stay |
| `ExplicitShape.MallocGrowsBy` | lab7/mm_v4.c:252-263 | when none is, the heap grows by the block size but at least 4104 bytes, and the free space at its end, a free last block included, is used in the same way; without room nothing changes |
| `ExplicitShape.ExtendIs` | lab7/mm_v4.c:150-168 | extend_heap leaves one free block from the start of the free space at the end of the heap to the new end, at the head of the list |
| `ExplicitShape.FreeMerges` | lab7/mm_v4.c:174-324 | mm_free makes one free block of the freed block and the free blocks that end at it and start behind it, puts it at the head of the list and leaves every other block, and the other nodes in order |
| `ExplicitShape.InitIs` | lab7/mm_v4.c:127-145 | after mm_init there are a prologue of 8 bytes and one free block of 4104, listed |
| `ExplicitHeap.ClientWrites` | lab7/mm_v4.c:47-60 | whatever a client stores in a live payload, the tags, links and other payloads stay |
| `ExplicitHeap.Allocator.RemoveNode` | lab7/mm_v4.c:76-103 | in place: the words hold the heap with the node off the list, payloads untouched |
| `ExplicitHeap.Allocator.AddNode` | lab7/mm_v4.c:109-122 | in place: the words hold the heap with the node at the head of the list, payloads untouched |
| `ExplicitHeap.Allocator.MmInit` | lab7/mm_v4.c:127-145 | in place: the words of an empty arena become those of the initial heap |
| `ExplicitHeap.Allocator.ExtendHeap` | lab7/mm_v4.c:150-168 | in place: the new chunk gets tags and epilogue, is coalesced and listed, or nothing changes when the arena is full |
| `ExplicitHeap.Allocator.Coalesce` | lab7/mm_v4.c:174-213 | in place, all four cases: tags and links become those of the abstract merge, live payloads untouched |
| `ExplicitHeap.Allocator.FindFit` | lab7/mm_v4.c:269-282 | the loop over the links ends, and returns the first fit of the abstract list or NULL |
| `ExplicitHeap.Allocator.Place` | lab7/mm_v4.c:288-307 | in place, as ExplicitShape.PlaceFits has it block by block: tags of the used part and of a listed remainder, live payloads untouched |
| `ExplicitShape.PlaceFits` | lab7/mm_v4.c:288-307 | place in a listed block: with 24 bytes to spare it is cut to the size asked for and the rest is a free block at the head of the list, otherwise it is allocated whole; nothing else changes |
| `ExplicitHeap.Allocator.MmMalloc` | lab7/mm_v4.c:220-263 | in place, for every request served, refused ones beyond 2^32 included: memory, list head and result are those of the abstract mm_malloc, and every live payload word is unchanged |
| `ExplicitHeap.Allocator.HeapSize` | lab7/memlib.c:90-93 | mem_heapsize is the sum of the sizes of all blocks on the walk from the prologue and the 8 bytes of padding and epilogue, in every heap the calls can reach |
| `ExplicitHeap.Allocator.MmFree` | lab7/mm_v4.c:312-324 | in place: memory and list head are those of the abstract mm_free, and every other live payload word is unchanged |
| `ExplicitClient.Session` | lab7/mm_v4.c:76-324 | a whole run of mm_malloc, mm_free and stores by clients: each byte of each live payload is the last one its client stored there, and only freeing a block forgets any |
| `Payloads.StoreByte` | lab7/mdriver.c:592-596 | a byte stored in a word changes that byte of memory and no other |
| `ImplicitSpec.ScanFinds` | lab7/mm.c:157-171 | a pass of the search stops at the first free block from its start that is large enough, and meets the end only when there is none |
| `ImplicitSpec.NextFitFinds` | lab7/mm.c:157-171 | the two passes find a block if and only if some free block of the heap is large enough, wherever the rover is |
| `ImplicitSpec.CoalesceInv` | lab7/mm.c:121-153 | coalescing keeps the heap tiled and coalesced and leaves the rover at a block even when its block is swallowed |
| `ImplicitSpec.ExtendInv` | lab7/mm.c:64-76 | extending keeps the invariant and all live blocks |
| `ImplicitSpec.PlaceInv` | lab7/mm.c:177-191 | place keeps the invariant |
| `ImplicitSpec.FreeInv` | lab7/mm.c:108-117 | mm_free keeps the invariant; exactly the freed block stops being live |
| `ImplicitSpec.InitInv` | lab7/mm.c:48-63 | mm_init establishes the invariant |
| `ImplicitSpec.MallocSafe` | lab7/mm.c:81-103 | for every request served, a non-NULL result is aligned, inside the heap, large enough and disjoint from every live block |
| `ImplicitSpec.MallocGrows` | lab7/mm.c:81-103 | for every request served, the heap grows exactly when no free block is large enough and there is room; NULL exactly when neither |
| `ImplicitSpec.RefusedFails` | lab7/mm.c:81-103 | the test the code makes refuses no request there is room for, and below 2^32 - 15 refuses all others |
| `ImplicitSpec.ServedIff` | lab7/mm.c:81-103 | for every size_t: the requests served are exactly those refused with NULL and those for which some heap within the arena holds a block |
| `ImplicitSpec.UnservedExamples` | lab7/mm.c:64-103 | requests for 2^32 and 2^64 - 8 bytes are granted a block of 8 bytes or any free block |
| `ImplicitSpec.ReallocSafe` | lab7/mm.c:195-224 | after mm_realloc to a non-zero size that is served only the old block has been exchanged for the new one; on failure nothing has changed |
| `ImplicitSpec.RunKeeps` | lab7/mm.c:48-224 | after every sequence of frees and served malloc and realloc calls the invariant holds, the rover is at a block, and blocks not given up stay |
| `ImplicitSpec.Utilization` | lab7/mdriver.c:659-750 | over runs with mm_realloc too, held payloads and their tags fit into the heap size at any later time |
| `ImplicitSpec.FreeingAll` | lab7/mm.c:108-153 | freeing all live blocks, in any order, leaves one free block spanning the heap, and the rover at it or at the prologue |
| `ImplicitShape.BlockSizeLeast` | lab7/mm.c:81-93 | the block size is the least multiple of 8 that holds request and tags, and 16 for small requests |
| `ImplicitShape.NextFitIs` | lab7/mm.c:157-171 | the block found is the first large enough from the rover on or, only if there is none, the first from the start of the heap |
| `ImplicitShape.MallocTakes` | lab7/mm.c:81-103 | that block is used: with 16 bytes to spare it is cut to exactly the block size and the rest stays free behind it, otherwise it is handed out whole; the rover stays at it and no other block changes |
| `ImplicitShape.MallocGrowsBy` | lab7/mm.c:95-103 | when none fits the heap grows by the block size but at least 4096 bytes, and the free space at its end is used in the same way; without room nothing changes |
| `ImplicitShape.ExtendIs` | lab7/mm.c:64-76 | extend_heap leaves one free block from the start of the free space at the end of the heap to the new end |
| `ImplicitShape.FreeMerges` | lab7/mm.c:108-153 | mm_free makes one free block of the freed block and its free neighbours, moves the rover to its start if it was inside, and leaves every other block |
| `ImplicitShape.ReallocIs` | lab7/mm.c:195-224 | mm_realloc is mm_malloc for NULL, mm_free for size 0, and otherwise mm_malloc followed by mm_free of the old block, or nothing when there is no block |
| `ImplicitShape.InitIs` | lab7/mm.c:48-63 | after mm_init there are a prologue of 8 bytes and one free block of 4096, with the rover at the prologue |
| `ImplicitHeap.ClientWrites` | lab7/mm.c:25-44 | whatever a client stores in a live payload, tags and other payloads stay |
| `ImplicitHeap.Allocator.Coalesce` | lab7/mm.c:121-153 | in place, all four cases with the rover fix-up, live payloads untouched |
| `ImplicitHeap.Allocator.FindFit` | lab7/mm.c:157-171 | both loops move the rover over real blocks only, end, and return the abstract next fit |
| `ImplicitHeap.Allocator.MmMalloc` | lab7/mm.c:81-103 | in place, for every request served: the abstract mm_malloc, live payloads untouched |
| `ImplicitHeap.Allocator.MmFree` | lab7/mm.c:108-117 | in place: the abstract mm_free, including the NULL argument, other payloads untouched |
| `ImplicitHeap.Allocator.MmRealloc` | lab7/mm.c:195-224 | for every size served: the first min(size, old payload) bytes are in the new block, every other live block keeps its words and extent, and failure leaves the old block as it was |
| `ImplicitHeap.Allocator.HeapSize` | lab7/memlib.c:90-93 | mem_heapsize is the sum of the sizes of all blocks on the walk from the prologue and the 8 bytes of padding and epilogue |
| `ImplicitClient.Session` | lab7/mm.c:48-224 | a whole run of mm_malloc, mm_free, mm_realloc and stores by clients: each byte of each live payload is the last one stored there, or the one that came along when the block was reallocated |
| `ImplicitClient.ReallocHolds` | lab7/mdriver.c:616-633 | mm_realloc moves the remembered bytes of the old payload, as many as fit, and leaves those of all other payloads |
| `Bytes.Memcpy` | lab7/mm.c:195-224 | the copied bytes arrive and no byte outside the target changes, for lengths that end inside a word too |
| `Lru.RunIsStack` | lab8/csim.c:127-192 | each set of the LRU run holds the most recently used tags of its history, as many as there are ways |
| `Lru.Inclusion` | lab8/csim.c:127-192 | with one more way each set holds at least what it held, in the same order; hits do not fall, misses do not rise, and their sum stays |
| `Lru.ModifyIsTwo` | lab8/csim.c:188-193 | an M line gives the same counts and contents as a load and a store |
| `Lru.EvictionsBalance` | lab8/csim.c:144-186 | evictions are misses less the lines occupied at the end |
| `IndexBits.IndexIsMasked` | lab8/csim.c:121-123 | the mask and shift select the set-index bits, and nothing else, for every geometry |
| `CacheBlocks.SameLineIff` | lab8/csim.c:121-123 | two addresses are looked up in the same set under the same tag exactly when they lie in the same block of 2^b bytes |
| `CacheBlocks.HeldIff` | lab8/csim.c:127-186 | a set holds a tag exactly when fewer other tags than it has lines came since the tag was last used |
| `CacheBlocks.FoundIff` | lab8/csim.c:127-142 | an address is found exactly when its block was accessed before and, since then, fewer other blocks of its set than the set has lines |
| `CacheBlocks.FullIff` | lab8/csim.c:144-167 | a set is full exactly when as many of its blocks as it has lines were accessed |
| `CacheBlocks.CountsAre` | lab8/csim.c:98-194 | the three counts line by line, in terms of 2^b-byte blocks alone: an access hits exactly when its block is among the most recently used of its set, as many as there are lines, and a miss evicts exactly when that many blocks of the set were accessed before |
| `CacheBlocks.CountsStart` | lab8/csim.c:64-68 | before the first line nothing is counted |
| `CacheBlocks.BlocksAre` | lab8/csim.c:121-123 | blocks belong to the same set exactly when their numbers are equal modulo the number of sets |
| `CacheSim.AgesIncrease` | lab8/csim.c:129-135 | the ages that the counters hold grow strictly along the recency list, so they are distinct |
| `CacheSim.HitOk` | lab8/csim.c:129-141 | aging the used lines and resetting the hit line keeps lines, counters and recency list in agreement |
| `CacheSim.FilledOk` | lab8/csim.c:149-160 | so does filling the first free line |
| `CacheSim.VictimIsOldest` | lab8/csim.c:161-180 | in a full set the line with the largest counter holds the least recently used tag |
| `CacheSim.EvictedOk` | lab8/csim.c:169-186 | so does replacing that line and aging all |
| `CacheSim.InBoundsIff` | lab8/csim.c:73 | the cells of the set of every address lie in the array allocated with block_size sets exactly when s is at most b |
| `CacheSim.StaysInsideIff` | lab8/csim.c:127-142 | over all traces and addresses, no read leaves that array exactly when s is below b: the loop that ages a full set looks one line past it before it tests the bound |
| `CacheSim.OverreadExample` | lab8/csim.c:131 | with s = b = 1 and one line a set, the second of two loads from address 2 reads cell 7 of 6 |
| `CacheSim.Cache.TryHit` | lab8/csim.c:127-142 | the hit loop: finds the line with the tag if there is one and updates counters as stated; the line that ends the ageing is the one behind those in use |
| `CacheSim.Cache.TryFill` | lab8/csim.c:147-167 | the miss loop: takes the first free line, or finds the largest counter of a full set |
| `CacheSim.Cache.Evict` | lab8/csim.c:169-186 | the evict loops: the first line with the largest counter is replaced |
| `CacheSim.Cache.UpdateSet` | lab8/csim.c:127-186 | one access updates hits, misses and evictions as LRU does and leaves the set in agreement with its history; the lines csim.c looks at end one past those in use on a hit and with the set on a miss |
| `CacheSim.Cache.SimLine` | lab8/csim.c:98-194 | one trace line, whichever letter, split by mask and shift into the index and tag of CacheBlocks.SameLineIff, keeps every set and all counters equal to the LRU run, and looks at lines just as far as stated for StaysInsideIff |
| `CacheSim.Cache.Simulate` | lab8/csim.c:81-200 | the whole trace: hits, misses and evictions are those of the LRU run, which CacheBlocks.CountsAre gives line by line in terms of blocks |
| `JobTable.AddedFacts` | lab9/tsh.c:556-582 | adding lists the job if a slot is free, and changes no other job |
| `JobTable.DeletedFacts` | lab9/tsh.c:585-602 | deleting removes exactly that job |
| `JobTable.MarkedFacts` | lab9/tsh.c:394-424 | changing a state changes that of one job only |
| `JobTable.FgPidIs` | lab9/tsh.c:605-613 | fgpid returns a foreground job if there is one, and 0 if there is none |
| `JobTable.Jobs.AddJob` | lab9/tsh.c:556-582 | the loop fills the first free slot and advances nextjid, wrapping after MAXJOBS |
| `JobTable.Jobs.DeleteJob` | lab9/tsh.c:585-602 | the loop clears the slot and recomputes nextjid |
| `JobTable.Jobs.ForegroundPid` | lab9/tsh.c:605-613 | the loop returns the first foreground job |
| `JobTable.Jobs.GetJobPid` | lab9/tsh.c:616-626 | the loop finds the job with the pid or reports that there is none |
| `Shell.StepInv` | lab9/tsh.c:182-424 | every event of the main thread, a child or the handler keeps the protocol invariant |
| `Shell.RunInv` | lab9/tsh.c:182-424 | the invariant holds after every interleaving |
| `Shell.JobListSafe` | lab9/tsh.c:198-229 | in every interleaving listed jobs are unreaped children, at most one is in the foreground, none at the prompt, and SIGCHLD is blocked from before fork until after addjob; that a foreground job is there while the shell waits is ShellRuns.ShellWaits |
| `Shell.AtRest` | lab9/tsh.c:374-424 | once no signal is pending and no handler runs, the list is exactly the children that got a slot, no child is unreaped, and a foreground job is running, so waitfg waits for no dead job |
| `ShellRuns.StatusIff` | lab9/tsh.c:198-424 | a job has a status after an event exactly when the event gives it, FG or BG when eval lists it in a free slot, FG or BG by fg and bg, ST when the handler reports it stopped, or it had it and the event neither gives another nor deletes the job |
| `ShellRuns.StatusLasts` | lab9/tsh.c:182-424 | in every run a job keeps its status until an event gives it another or deletes it |
| `ShellRuns.BackgroundLasts` | lab9/tsh.c:198-229 | a job started with & is listed BG until fg, a reported stop or its deletion |
| `ShellRuns.StoppedLasts` | lab9/tsh.c:383-424 | a listed job the handler reports stopped is listed ST until bg, fg or its deletion |
| `ShellRuns.ShellWaits` | lab9/tsh.c:214-226 | in every run, from the moment eval lists a job in the foreground or fg continues one until the handler marks it stopped or deletes it, it is listed FG, fgpid returns it, the main thread is on its way into waitfg or in it, and its loop goes round without effect |
| `ShellRuns.WaitBegan` | lab9/tsh.c:323-380 | the shell waits for a process only since eval listed it as a foreground job or fg continued it, without a break |
| `ShellRuns.WaitEnds` | lab9/tsh.c:374-424 | it returns from waitfg to the prompt only if waitpid has reported that process, ended or stopped, since the wait began, or the process had found the job list full |
| `ShellRuns.ChildIff` | lab9/tsh.c:383-424 | children end, stop and continue only through the kernel, bg and fg, and are reaped only by waitpid: the handler's bookkeeping changes none |
| `JobIds.IdsStepIff` | lab9/tsh.c:556-602 | while all ids are distinct, only addjob can give one twice, and does so exactly when a listed job holds nextjid |
| `JobIds.IdsDistinctIff` | lab9/tsh.c:556-602 | over a whole run no two jobs ever share an id exactly when no job was given one in use |
| `JobIds.BelowAlong` | lab9/tsh.c:556-602 | that holds as long as no job has been given the id MAXJOBS: until then every id in use is below nextjid |
| `JobIds.SharedIdExample` | lab9/tsh.c:569-571 | fifteen jobs, the end of the fifth and two more commands leave two listed jobs with id 1 |
| `Hcl.Emitter.GenExpr` | lab6/sim/misc/node.c:479-643 | the recursive emitter prints, in order and around its loops, exactly the specified tokens |
| `Hcl.RelationsAre` | lab6/sim/misc/node.c:294-299 | the six comparison operators, each told from the others |
| `CExpr.Precedences` | lab6/sim/misc/node.c:479-643 | the operators of the emitted text bind as in C: two bars loosest, then the single bar, &, the equalities and the orders |
| `HclExact.EmittedIff` | lab6/sim/misc/node.c:187-643 | for every expression: the parser loses no element of its sets and the emitter prints the intended tokens if and only if the expression is safe, that is no set holds a case list whose shared links let more or less through |
| `HclTyping.CheckArgIff` | lab6/sim/misc/node.c:238-272 | check_arg accepts an expression as Boolean or as integer exactly when it has that type: variables as declared, the literals 0 and 1 as both, other numerals as integers, operations as Boolean, case lists with an arm as integers |
| `HclTyping.CheckedIff` | lab6/sim/misc/node.c:274-315 | all checks of the parser pass exactly for the expressions whose operands have the right types throughout, elements of sets excepted |
| `HclExact.SameNodes` | lab6/sim/misc/node.c:188-199 | the parser builds the same nodes for an expression and for the one without empty case lists among the elements of its sets |
| `HclExact.PurgedEmittedIff` | lab6/sim/misc/node.c:187-643 | for every expression, empty case lists anywhere: the tokens of the expression without those elements are printed if and only if that one is safe |
| `HclExact.SolidIff` | lab6/sim/misc/node.c:187-643 | where they are, they are the intended tokens if and only if no element was lost |
| `HclExact.Dropped` | lab6/sim/misc/hcl.y:88-94 | an empty case list leaves no node on the list of its set, wherever it stands |
| `HclExact.DroppedIff` | lab6/sim/misc/node.c:301-308 | losing it keeps the value of the membership test if and only if the value looked up is not 0 or another element is 0 |
| `HclExact.NothingLeft` | lab6/sim/misc/node.c:566-586 | a set of just an empty case list is emitted as (), which parses as no C expression |
| `HclExact.DroppedExample` | lab6/sim/misc/node.c:301-308 | a in {[], 1} passes all checks, is true of 0 in HCL, and its C is false of 0 |
| `HclExact.LuckyExample` | lab6/sim/misc/node.c:566-586 | a set that loses one element and compares with another twice can come out with the intended tokens all the same |
| `HclCompile.Reparses` | lab6/sim/misc/node.c:479-643 | those tokens parse under C precedence as one operand, to the expected tree, whatever follows |
| `HclCompile.CompilationPreservesMeaning` | lab6/sim/misc/node.c:479-643 | for every expression check_arg accepts, with 0/1 Boolean signals, safe sets and plain numerals: what is emitted parses completely and its C value is the HCL value |
| `HclCompile.Means` | lab6/sim/misc/node.c:238-315 | the parsed C tree has the HCL value: sets as chains of comparisons, case lists as first true arm with default 0 |
| `HclCompile.PlainIff` | lab6/sim/misc/node.c:503-521 | a numeral keeps its value as a C constant if and only if it has no leading zero or is below 8, and is below 2^63 |
| `HclCompile.OctalExample` | lab6/sim/misc/node.c:503-521 | 010 is ten in HCL and eight in the emitted C |
| `HclCompile.TooLargeExample` | lab6/sim/misc/node.c:503-521 | 9223372036854775808 is 2^63 in HCL and no signed constant in the emitted C |
| `HclCompile.CaseElementEmits` | lab6/sim/misc/node.c:566-586 | a case list, empty or not, as the element of a set is emitted as if the set held each of its suffixes, since both lists use the same links |
| `HclCompile.CaseElementIff` | lab6/sim/misc/node.c:566-586 | so such a set is emitted right if and only if the case list has a single arm |
| `HclCompile.CaseElementExample` | lab6/sim/misc/node.c:566-586 | a concrete set whose emitted C is true while the HCL set membership is false |
| `Words.WordRoundTrip` | lab4/y64sim.c:55-87 | a word read from the eight bytes it was written to is that word |
| `Words.SetFrame` | lab4/y64sim.c:76-87 | writing a word changes no word beside it |
| `Words.SetSet` | lab4/y64sim.c:76-87 | writes to disjoint words commute, and the later of two to the same address wins |
| `SimMemory.Mem.GetWordVal` | lab6/sim/misc/isa.c:310-323 | the shift-and-or loop reads the little-endian word, or fails outside memory |
| `SimMemory.Mem.SetWordVal` | lab6/sim/misc/isa.c:333-343 | the shift loop writes the little-endian bytes and nothing else, or fails outside memory |
| `SimMemory.RegGetSet` | lab6/sim/misc/isa.c:405-424 | a register reads back as written and the others stay |
| `Y64Sim.Step` | lab4/y64sim.c:394-625 | nexti, instruction by instruction in place, is the specified step, in failures too; what that leaves is in AsmMeaning, instruction by instruction |
| `Isa.Step` | lab6/sim/misc/isa.c:627-943 | step_state, instruction by instruction in place, is the specified step, in failures too; what that leaves is in AsmMeaning, instruction by instruction |
| `Y86.AluSums` | lab4/y64sim.c:258-288 | results of A_ADD and A_SUB are congruent to a + b and b - a modulo 2^64 |
| `Y86.AluBits` | lab6/sim/misc/isa.c:460-480 | at every position the bit of the A_AND result is 1 exactly when both operands have it, and that of A_XOR exactly when they differ, in two's complement |
| `Bits.OperatorBits` | lab4/y64sim.c:258-288 | with bits counted by division, the operators and, or and exclusive or do at every position what they are called, for negative numbers too |
| `Words.LowIs` | lab4/y64sim.c:76-87 | a stored word has the byte of weight 256^i at offset i |
| `Words.GetWordIff` | lab4/y64sim.c:55-68 | the word read at an address is the one whose eight bytes lie there, and there is none outside memory |
| `Words.WrapCongruent` | lab4/y64sim.c:258-288 | 64-bit results differ from the true ones by a multiple of 2^64 |
| `Isa.FlagsDecideOrder` | lab6/sim/misc/isa.c:460-506 | for all 64-bit a and b, after compute_cc(A_SUB, a, b) the six conditions hold exactly when b is less, at most, equal, unequal, at least, greater than a as integers |
| `Isa.OverflowIsExact` | lab6/sim/misc/isa.c:482-506 | the overflow flag of an addition or subtraction is set exactly when the true result does not fit |
| `Isa.CondTable` | lab6/sim/misc/isa.c:590-623 | the bit arithmetic of cond_holds as Boolean functions of the flags; unknown conditions never hold |
| `SimAgree.SameConditions` | lab4/y64sim.c:342-381 | cond_doit and cond_holds agree on every flag byte and condition |
| `SimAgree.SimulatorsAgree` | lab4/y64sim.c:394-625 | nexti succeeds exactly when step_state does on a strict encoding, and then pc, registers and memory agree, and the flags of all but ALU instructions |
| `SimAgree.AgreementExample` | lab4/y64sim.c:394-625 | the bytes 60 F0, an add from no register, succeed in step_state and fail in nexti |
| `SimAgree.FlagsAgreeIff` | lab4/y64sim.c:297-330 | the two compute_cc make the same flags of an operation and two words exactly when bit 31 of the result is its sign, the least word is not added to itself, and a subtraction b - a neither overflows nor has 0 < b < a or a < b < 0 |
| `SimAgree.FlagsExample` | lab4/y64sim.c:297-330 | after comparing 1 with 2, less holds in isa.c and not in y64sim.c |
| `SimAgree.StepsEqualIff` | lab4/y64sim.c:394-625 | nexti and step_state do the same, flags included, without failing, exactly when step_state halts or succeeds on a strict encoding with such operands in the ALU |
| `SimAgree.RunsAgreeIff` | lab4/y64sim.c:673-675 | two runs of any length from one state stay equal after every step, flags included, exactly as long as every step conforms |
| `SimAgree.PushAgrees` | lab6/sim/misc/isa.c:860-883 | pushing any register, %rsp too, stores the same value in both |
| `SimAgree.PopAgrees` | lab6/sim/misc/isa.c:884-908 | popping into any register, %rsp too, leaves the same registers in both |
| `Asm.TableLength` | lab5/y64asm.c:54-89 | every statement is encoded in as many bytes as the instruction table says; which bytes stand for which text is in AsmBytes |
| `AsmBytes.PlainBytes` | lab5/y64asm.c:54-89 | the texts halt, nop and ret are read and encoded as 00, 10 and 90 |
| `AsmBytes.OperationBytes` | lab5/y64asm.c:54-89 | addq, subq, andq and xorq of two named registers as 60 to 63 and the two numbers |
| `AsmBytes.MoveBytes` | lab5/y64asm.c:54-89 | rrmovq and the six cmov names as 20 to 26 and the two numbers |
| `AsmBytes.JumpBytes` | lab5/y64asm.c:54-89 | jmp and the six conditional jumps as 70 to 76 and the eight bytes of the number or label address |
| `AsmBytes.CallBytes` | lab5/y64asm.c:54-89 | call as 80 and the eight bytes |
| `AsmBytes.StackBytes` | lab5/y64asm.c:54-89 | pushq and popq as A0 and B0 and the register with F |
| `AsmBytes.ImmediateBytes` | lab5/y64asm.c:54-89 | irmovq as 30, F and the register, and the eight bytes |
| `AsmBytes.MemoryBytes` | lab5/y64asm.c:54-89 | rmmovq and mrmovq as 40 and 50, register and base, and the eight bytes of the displacement |
| `AsmBytes.DatumBytes` | lab5/y64asm.c:54-89 | .byte, .word, .long and .quad as the low 1, 2, 4 and 8 bytes |
| `AsmBytes.RegTexts` | lab5/y64asm.c:27-42 | the fifteen register names in the order of the machine numbers, %rsp being 4 |
| `AsmBytes.LettersAre` | lab5/y64asm.c:196 | a letter is one of the 52 of the alphabet, small or capital |
| `AsmBytes.NumeralsAre` | lab5/y64asm.c:195-202 | numbers begin with a decimal digit or a sign; blanks are the space and the tab |
| `AsmBytes.HexesAre` | lab5/y64asm.c:200 | the characters skipped behind a number besides those are the hexadecimal letters of either case and x |
| `AsmBytes.NoStatement` | lab5/y64asm.c:605-660 | a comment, and a text without a label that begins with no mnemonic, read as an empty line |
| `AsmBytes.RegisterMissing` | lab5/y64asm.c:605-660 | an operation not followed by a register name is an error |
| `AsmBytes.DigitsAre` | lab5/y64asm.c:367-389 | hexadecimal digits of either case have their values |
| `AsmBytes.LeadingDigit` | lab5/y64asm.c:367-389 | a digit in front of a numeral counts as often as the base to the number of digits behind it |
| `AsmBytes.CodesAdvance` | lab5/y64asm.c:605-901 | a line with codes moves the address counter on by their number |
| `AsmBytes.DirectivesMove` | lab5/y64asm.c:855-877 | .pos sets the address counter; .align refuses 0 and, from an address that is not negative, goes to the least multiple at or above it |
| `AsmMeaning.OperationRuns` | lab4/y64sim.c:394-625 | from the text to both machines: with the codes of addq %a, %b at the pc a step leaves in b the sum modulo 2^64, subq the difference b - a, andq and xorq the bitwise results, for all registers and states, moves the pc by 2 and changes nothing else but flags |
| `AsmMeaning.OperationFlags` | lab6/sim/misc/isa.c:627-943 | and step_state's flags say whether that result is zero, negative, and whether the true sum or difference is no 64-bit number |
| `AsmMeaning.MoveRuns` | lab4/y64sim.c:394-625 | rrmovq copies a to b always, and the six cmov instructions exactly on their conditions of the flags |
| `AsmMeaning.ImmediateRuns` | lab4/y64sim.c:394-625 | irmovq puts the number, or the label's address, into the register |
| `AsmMeaning.StoreRuns` | lab4/y64sim.c:394-625 | rmmovq puts the eight bytes of the register at base plus displacement and changes no other byte, or both report a bad address when they are not all in memory |
| `AsmMeaning.LoadRuns` | lab4/y64sim.c:394-625 | mrmovq puts the word lying there into the register, or both report a bad address |
| `AsmMeaning.JumpRuns` | lab4/y64sim.c:394-625 | jmp goes to the number or label address always and the six conditional jumps exactly on their conditions, and else to the next instruction |
| `AsmMeaning.CallRuns` | lab4/y64sim.c:394-625 | call moves %rsp, register 4, down by 8, puts the address behind it there and goes to its target, or both report a bad address |
| `AsmMeaning.PushRuns` | lab4/y64sim.c:394-625 | pushq moves %rsp down by 8 and puts the register's old value there, %rsp's own included |
| `AsmMeaning.PopRuns` | lab4/y64sim.c:394-625 | popq moves %rsp up by 8 and puts the word that was there into the register, %rsp itself included |
| `AsmMeaning.RetRuns` | lab4/y64sim.c:394-625 | ret moves %rsp up by 8 and goes to the address that was there |
| `AsmMeaning.NopRuns` | lab4/y64sim.c:394-625 | nop moves the pc by 1 |
| `AsmMeaning.HaltRuns` | lab4/y64sim.c:394-625 | halt stops both and changes nothing |
| `AsmMeaning.StopsAlike` | lab6/sim/misc/isa.c:627-943 | where an assembled instruction makes nexti report a bad address, step_state does too |
| `AsmMeaning.BadBytes` | lab4/y64sim.c:394-455 | with the pc outside memory both report a bad address, at a byte from D0 on a bad instruction, and change nothing |
| `AsmMeaning.IaddqRuns` | lab6/sim/misc/isa.c:907-933 | the bytes of iaddq make step_state add the constant to the register modulo 2^64 with the flags of a sum, and nexti refuse |
| `AsmMeaning.CompareAndJump` | lab6/sim/misc/isa.c:460-623 | subq %a, %b followed by jle jumps in step_state exactly when %b was at most %a as an integer, and so for each of the seven jumps, wraparound included |
| `AsmMeaning.CompareAndMove` | lab6/sim/misc/isa.c:460-623 | and followed by a conditional move it moves exactly on that order |
| `Align.AlignUpIff` | lab5/y64asm.c:867-877 | .align moves to the least multiple at or above the address if and only if the operand is positive and the address is above minus the operand or one above a multiple |
| `Align.AlignUpExample` | lab5/y64asm.c:867-877 | from address -6, .align 4 moves to 0, past -4 |
| `AsmLayout.AssemblesIff` | lab5/y64asm.c:605-951 | a program of parsed lines assembles if and only if no label is defined twice and nothing is aligned to 0 |
| `AsmLayout.LabelAddress` | lab5/y64asm.c:112-159 | the symbol table has each defined label, with the address counter at its line, and no other name |
| `AsmLayout.Relocated` | lab5/y64asm.c:960-991 | relocate succeeds if and only if every label referred to is defined, and then each line holds its codes with the label's address and every other byte is as before |
| `AsmLayout.PatchableIff` | lab5/y64asm.c:960-991 | relocate writes inside the codes of its lines, for every program that assembles, exactly when no label stands in a .byte, .word or .long |
| `AsmLayout.LabelsResolve` | lab5/y64asm.c:136-192 | after assembling and relocating, every 8-byte label field holds the address of the one line that defines the label, before or after it |
| `AsmLayout.OrderedIff` | lab5/y64asm.c:855-877 | line extents are disjoint and in order if and only if no .pos or .align after the first line of the program moves the address back |
| `AsmLayout.FileShowsLines` | lab5/y64asm.c:1002-1023 | the binary file can be written if and only if no line has a negative address; it has zeros outside the lines, ends with a line, and shows every line's codes at its address if and only if lines that overlap, in any order, agree |
| `AsmRun.FetchDecodes` | lab4/y64sim.c:394-455 | nexti fetches back exactly the operands that were encoded, for every statement the table allows |
| `AsmRun.StepMatches` | lab4/y64sim.c:394-625 | where memory holds a statement's codes at the pc, nexti does what the statement means on numbered registers and moves the pc by the table's length or to its target |
| `AsmRun.CodeStays` | lab4/y64sim.c:394-625 | a step whose store spares the code bytes leaves all code in place |
| `AsmRun.RunsMatch` | lab4/y64sim.c:673-675 | for any number of steps a run on memory that holds the code matches the run of the program, as long as control stays on instructions and stores spare them |
| `AsmRun.ForwardAgrees` | lab5/y64asm.c:855-1023 | programs that move only forward have no two lines that disagree about a byte |
| `AsmRun.AssembledProgramRuns` | lab5/y64asm.c:605-1023 | from the source lines on: assembled without lines that disagree about a byte, in any order of addresses, relocated, written, loaded and started, the simulator runs the program with labels standing for line addresses, for any number of steps |
| `Assembler.NibblesAreByte` | lab5/y64asm.c:731-732 | the two shifted nibbles packed by the encoding loops are byte i of the value, for negative values too |
| `Assembler.Encode` | lab5/y64asm.c:605-901 | the code buffer filled step by step is the specified encoding |
| `Assembler.Program.AddSymbol` | lab5/y64asm.c:136-159 | appends the label at the current address, or refuses a name that is there and changes nothing |
| `Assembler.Program.ParseLine` | lab5/y64asm.c:605-901 | updates address counter, symbol, relocation and line lists together as specified, or reports the error |
| `Assembler.Program.AssembleAll` | lab5/y64asm.c:912-951 | succeeds exactly when every line parses and the program assembles, with the specified tables |
| `Assembler.Program.RelocateAll` | lab5/y64asm.c:960-991 | the loop patches the lines in place as specified, or stops at an unknown name |
| `Assembler.Program.BinFile` | lab5/y64asm.c:1002-1023 | the seek-and-write loop produces the specified file |
| `AsmPrint.PrefixSafe` | lab5/y64asm.c:54-98 | no mnemonic of the ordered table is a prefix of a later one, so the prefix-only match finds the right row |
| `AsmPrint.FindsRow` | lab5/y64asm.c:91-98 | find_instr finds a mnemonic followed by a blank or the end |
| `AsmPrint.FindsReg` | lab5/y64asm.c:44-51 | find_register finds a register name whatever follows it |
| `AsmPrint.NumberBack` | lab5/y64asm.c:367-389 | parse_digit reads back every 64-bit value printed in decimal or hexadecimal, signs, zero and the extremes included |
| `AsmPrint.MemBack` | lab5/y64asm.c:449-505 | parse_mem reads back every printed memory operand |
| `AsmPrint.ArgsBack` | lab5/y64asm.c:605-901 | the operand parsers read back the printed operands of every instruction and directive |
| `AsmPrint.LineBack` | lab5/y64asm.c:605-901 | parse_line reads back every printable line: same table row, registers, values, label definition and label reference, in either number base, whatever text follows after a blank |
| `AsmPrint.ProgramBack` | lab5/y64asm.c:912-951 | a whole program printed line by line is read back |
| `AsmText.ParsedIsValid` | lab5/y64asm.c:605-901 | whatever parse_line accepts is an instruction of the table with the operands its code demands |
| `AsmText.ParsedAllValid` | lab5/y64asm.c:912-951 | so is every line of a program that is read whole, which is what layout and relocation are proved for |
| `AsmReader.ReadLine` | lab5/y64asm.c:605-901 | the pointer-moving parser computes the specified reading of every text |
| `AsmReader.ReadDigit` | lab5/y64asm.c:367-389 | so does parse_digit with its loop behind strtoul |
| `AsmReader.ReadLabel` | lab5/y64asm.c:562-593 | so does parse_label |
| `AsmReader.FindInstr` | lab5/y64asm.c:91-98 | so does find_instr with its string comparisons; which text gives which code is in AsmBytes |
| `Rio.ReadN` | lab10/csapp.c:749-768 | whatever the kernel does, the bytes returned and those left make up the stream; min(n, stream) bytes unless the kernel fails |
| `Rio.WriteN` | lab10/csapp.c:775-792 | all n bytes are written in order, or a prefix and -1 when the kernel fails or writes nothing while errno is not EINTR |
| `Rio.Rio.Read` | lab10/csapp.c:805-830 | delivers the next bytes of buffer and stream, at most n; 0 only at the end; nothing lost on errors |
| `Rio.Rio.ReadNB` | lab10/csapp.c:849-864 | returns min(n, what is pending) bytes, the pending bytes in order, and leaves the rest pending; on a failure nothing is lost |
| `Rio.Rio.ReadLineB` | lab10/csapp.c:871-893 | returns the next line, cut at maxlen - 1 bytes or the end, zero-terminated, and leaves the rest pending |
| `Rio.LineStops` | lab10/csapp.c:871-893 | a delivered line has a newline at most at its end, and is short of the limit and of the end only with one |
| `Rio.DeliveredIff` | lab10/csapp.c:871-893 | how many bytes a call of rio_readlineb delivers is characterised exactly: at most maxlen - 1, no newline before the last, and either that many, or all there is, or a newline last |
| `Rio.ServeConserves` | lab10/csapp.c:849-893 | for every interleaving of calls the pieces and the rest make up the stream |
| `Rio.Session` | lab10/csapp.c:805-893 | a client making any interleaving of the two calls gets exactly those pieces, however the kernel splits and interrupts its transfers |
| `Sio.Reverse` | lab10/csapp.c:226-235 | the string up to its terminator is reversed in place |
| `Sio.Ltoa` | lab10/csapp.c:238-255 | the buffer gets the specified text and its terminator, within 66 characters in every base from 2 to 36 |
| `Sio.TextDenotesIff` | lab10/csapp.c:238-255 | the text denotes the number in its base if and only if the number is not the least long |
| `Sio.LeastLongExample` | lab10/csapp.c:238-255 | in base 10 the least long is printed as a minus sign and an opening parenthesis |
| `Sio.TruncatesToZero` | lab10/csapp.c:243-246 | the division and remainder of the loop belong together, and the remainder has the sign of the number |
| `Sio.BackwardsFits` | lab10/csapp.c:238-255 | a number below 2^k takes at most k + 1 digits in every base |
| `Transpose.Trans` | lab8/trans.c:208-220 | the reference transpose |
| `Transpose.Block8` | lab8/trans.c:231-301 | parking a quadrant in B and moving it on puts all four quadrants of an 8 by 8 block in place and touches nothing else |
| `Transpose.Trans2` | lab8/trans.c:223-303 | B is the transpose of A for all sizes that are multiples of 8 |
| `Transpose.DeferBlock` | lab8/trans.c:174-195 | a block with its diagonal written late is transposed and nothing else touched, also where the block is cut off and t1, t2 are stale |
| `Transpose.TransDeferred` | lab8/trans.c:168-196 | the 16-block loop transposes for every N, and for any M, and the 8-block loop the first rows of A |
| `Transpose.TransposeSubmit` | lab8/trans.c:28-197 | transposes for M = 61 and M = 64, exactly the first 32 rows of A for M = 32, and leaves B alone for other M |

## Left out

- ExplicitHeap.Allocator.MmMalloc: what is in memory after a request that is not served, described above, where tags hold only the low 32 bits of a size.
- ImplicitHeap.Allocator.MmMalloc: the same requests.
- ImplicitHeap.Allocator.MmRealloc: the same requests.
- HclCompile.CompilationPreservesMeaning: for safe expressions with plain numerals; outside them HclExact.EmittedIff, HclExact.PurgedEmittedIff and HclCompile.PlainIff show that other tokens are emitted or a numeral changes its value, but on some inputs the values may still coincide.
- SimAgree.SimulatorsAgree: leaves out the flags after an ALU instruction, which SimAgree.FlagsAgreeIff decides.
- AsmLayout.Relocated: for label fields of eight bytes; in others relocate writes outside the codes of the line (AsmLayout.PatchableIff).
- AsmLayout.LabelsResolve: the same label fields.
- CacheSim.Cache.Simulate: for E of at least 1 and s at most b; counters are unbounded and s + b is taken to be below 31, where the mask does not overflow.
- mm_realloc of lab7/mm_v4.c and the flag it sets, which is tuned to one trace; the flag counts as false.
- lab7/mm_v1.c, mm_v2.c, mm_v3.c and mm_backup.c: earlier versions.
- CacheSim.Cache.TryHit: tests the bound before the counter, where line 131 of lab8/csim.c does it the other way round; what that reads is in CacheSim.StaysInsideIff.
- Trace text and command line of lab8/csim.c.
- The address checks of both simulators are on mathematical integers; overflow of addr + 8 is not modelled, nor is a pc beyond 64 bits.
- The data loop of lab5/y64asm.c (line 840) writes one byte more than the field, which is never emitted; the code buffer here has exactly the emitted bytes.
- Division by zero in .align 0 is an error result here; the address counter of the assembler is unbounded.
- Lines longer than 511 characters, which fgets splits, the listing printed with -v, and memory management of the assembler.
- Commands, parsing, listing and exec of lab9/tsh.c, and its keyboard signals; do_bgfg is one step, and waitfg need not end when it races with children.
- Quoted C code in HCL, and the Verilog and UCLID outputs of lab6/sim/misc/node.c.
- The pipelined processors of lab6: their control logic is generated from HCL files.
- Descriptors as such in the Rio package; sizes are unbounded.
- Sio.Ltoa: for bases from 2 to 36; the repository prints in base 10 only.
- Cache misses of the transposes.
- The proxy, socket and thread wrappers of lab10, the drivers and the remaining labs.
