# CS:APP labs, modelled and verified

A Dafny project about the programs of this repository that have invariants worth proving: the
segregated-fit allocator of the malloc lab, the Y86-64 toolchain of the architecture lab, the cache
simulator and the blocked transpose of the cache lab, and the bounded buffer, object cache and
buffered reader of the proxy lab.  `dafny verify dfyconfig.toml` checks all of it.

## What is modelled

**Allocator** (`HeapLayout`, `FreeLists`, `Blocks`, `SizeClasses`, `HeapSteps`, `Policy`, `HeapSpec`,
`HeapFacts`, `Requests`, `Allocator`, `HeapRuns`, `HeapClient`).  The heap is one mutable array of 8-byte words; a word holds a
header or footer (size + allocated bit), a link (a byte address, 8 times a word index), or payload.
`NULL` is index 0, and the heap starts at an arbitrary index of at least 2.  A ghost layout names the
blocks, the allocated ones, the eight lists and the last free block; `WF` says that the words encode
it.  Blocks an operation is holding are in `out`, with no claim on their tags.  A freed block of three
words has no room for two links and a footer; it is in `tiny`, and `Valid()`, the invariant of a healthy
heap, says that there is none.  `Inv()` allows them, so that the damage is a theorem and not an
excluded input.  `HeapSpec` has every operation as a function on words and layout, list order included;
the methods of `Allocator` are proved to compute them, so what a whole trace does is a function too.
`Requests` says on block sizes and brk alone which requests are served and how far the heap grows.

**Cache simulator** (`LruStack`, `CacheSim`).  A block is resident if it was accessed and fewer than E
other blocks of its set were accessed since; the flat store with timestamps is proved to hold exactly
the resident blocks.  64-bit shifts are written out.

**Y86-64** (`Words`, `Isa`, `Execution`, `Machine`, `Rsum`, `CopyBlock`, `Yas`, `YasFacts`, `Assembled`,
`Assembler`, `Listing`, `ObjectFile`, `Source`, `RsumProgram`, `CopyProgram`, `CopyRun`).  `Isa.Step` is one step of
the interpreter on values and `Machine` the same in place; `rsum_list` and `copy` are proved on it for
all inputs.  The assembler works on token lines, once as functions and once as the object with the
globals of yas.c.  `Listing` is the text of the object file, character by character, and its loader.
`RsumProgram` and `CopyRun` put all of it together: the source lines of rsum.ys and of copy.ys, assembled,
printed, loaded and run.

**HCL to C** (`Hcl`, `CText`, `HclCorrect`, `HclWalk`, `HclTypes`, `HclMeaning`, `HclTree`).  HCL expressions,
the parse tree that the semantic actions build (with its `next` chains), the tokens `gen_expr` prints, a
parser for them with the binding levels of ISO C section 6.5, and evaluation on both sides.  Because set
elements and case arms share one chain of nodes, what is printed for a set need not be the set that was
written; `Walked` is the expression that is printed, for every expression.

**Bounded buffer** (`BoundedBuffer`).  A state machine: one semaphore operation or shared access a step,
any number of threads, any schedule.  **Object cache** (`ObjectCache`, `LinkedCache`).  **Transpose**
(`Transpose`).  **Robust I/O** (`Rio`).  **K-best timing** (`KBest`).  `Common` and `Arith` hold what
several modules share.

## Where the code does not do what it should

Every failure named in this list is a theorem of the project.

- A request of at most 8 bytes makes a 24-byte block, which a later free can strand: `TinyFree` shows a
  heap that the repository's own check rejects, and `Free` says exactly when it happens.
- A realloc that moves the payload copies it to the block before `place` may put a free block in front
  of it: `ReallocLosesWords` shows a run that loses data, `Realloc` says what every word of the result is,
  and `PayloadSurvives` and `MarkerFits` say exactly, from the heap before the call, when no payload can be
  lost.  That is whenever no free block is left in front, and in one other case, which `ReallocInPlace`
  shows to occur.
- A realloc that returns NULL has already freed the block (`Realloc`).
- A case list inside a set expression of HCL shares its chain of arms with the set: `SetOfCasesDiffers`
  is an accepted expression whose text has another value, `SetOfCaseKept`, `SetKept` and
  `TranslationKeepsMeaning` say exactly when the value is right, and `AcceptedIff`, `CaseThenElement` and
  `CaseThenElementFails` when gen_expr gets through at all.  A set of empty case lists is accepted and
  printed as `()`, which is no C expression (`TextFails`).  Numerals with leading zeros become octal
  and numerals of 2^63 and above are no constants at all (`NumeralsAlike`, `LongNumeralFails`).
  `make_ele` checks its first argument where it means the elements, so elements of the wrong type
  pass; they still mean the same in C.
- `.align n` at an address at or below -n goes too far (`AlignsToLeast`: from -16, `.align 8` goes to -8),
  unless that address is one above a multiple of n.
- `.pos` with a negative address does not survive the listing (`AddressPrinted`).  A comment longer than
  the loader's line buffer can load as a line of its own (`LongCommentLoads`); `LoadUndoesPrint` says
  exactly which do.
- With zero ways csim counts evictions of entries it never stored (`AccessEntry`, `Run`).

The header comment of mm.c (lines 1-11) describes a naive allocator without headers, coalescing or reuse;
the model follows the code.

## Model

| member | source | states |
|---|---|---|
| HeapFacts.WordsAccountedFor | malloclab-handout/mm.c:112-138 | The blocks tile the heap: a walk from the prologue meets every block once, in address order, and 27 words plus their sizes are all the words from the start of the heap to brk |
| HeapFacts.PayloadsDisjoint | malloclab-handout/mm.c:144-165 | Payloads of allocated blocks are inside the heap, 8-aligned (addresses are whole words) and do not overlap |
| HeapFacts.FreeIndexExact | malloclab-handout/mm.c:463-493 | LAST_FREE_BP is non-null exactly if the last block is free, and then is that block; the eight lists hold every other free block exactly once, in the class of its size, and nothing else |
| HeapFacts.HeaderIsFooter | malloclab-handout/mm.c:57-72 | Header equals footer for every block of a healthy heap and states its size and status; any free block that is not the last has at least 32 bytes (that every block has, in runs with requests above 8 bytes, is in HeapClient.Play) |
| HeapFacts.StoreStep | malloclab-handout/mm.c:66-77 | A client may write anything into the payload of its block: the heap stays well-formed and every other block keeps its words, although links and tags share the same array |
| HeapFacts.CheckedBlock | malloclab-handout/mm.c:495-512 | What the walk of mm_check reads at a block: header and footer differ exactly at a stranded 24-byte block |
| FreeLists.UnlinkWF | malloclab-handout/mm.c:481-493 | Unlinking any entry of any list, with the neighbours read from the block itself, leaves all eight doubly linked lists well-formed and touches no tag and no payload |
| FreeLists.LinkInWF | malloclab-handout/mm.c:463-479 | Linking a block behind its list prologue leaves all lists well-formed, each block in the list of its class, and touches no tag and no payload |
| Blocks.AppendWF | malloclab-handout/mm.c:313-336 | Moving brk up and writing a new epilogue keeps the tiling, the tags and the lists |
| Blocks.SplitWF | malloclab-handout/mm.c:418-450 | A block held by an operation may be cut in two without breaking tiling, tags, lists or index |
| Blocks.AbsorbWF | malloclab-handout/mm.c:338-383 | Two neighbouring held blocks may be joined into one without breaking tiling, tags, lists or index |
| HeapSteps.RemoveStep | malloclab-handout/mm.c:481-493 | remove_from_free_list takes exactly the given block out of the index, from its list or from LAST_FREE_BP |
| HeapSteps.AddStep | malloclab-handout/mm.c:463-479 | add_to_free_list puts exactly the given block into the index: the last block into LAST_FREE_BP, any other one into the list of its size class |
| HeapSteps.GrowStep | malloclab-handout/mm.c:313-336 | The words extend_heap writes make one free last block out of the new space and the old last free block |
| HeapSteps.SplitStep | malloclab-handout/mm.c:418-450 | The tags place writes make an allocated block and a free remainder, without changing the words of the payload |
| HeapSteps.WalkTo | malloclab-handout/mm.c:338-383 | Every block but the first has exactly one predecessor |
| HeapSteps.Neighbours | malloclab-handout/mm.c:338-344 | What coalesce reads: the word before the block leads to its predecessor or to the prologue, and the two allocated bits are those of the neighbours |
| HeapSteps.FooterFacts | malloclab-handout/mm.c:57-72 | The footer of a free block that is followed by another one holds its size, as GET_SIZE(FTRP(PREV_BLKP(bp))) expects |
| HeapSteps.TinyAfterFree | malloclab-handout/mm.c:168-184 | A free strands a block too small for its links and footer if and only if it frees a 24-byte block, not last, between two allocated ones |
| SizeClasses.ClassOfBounds | malloclab-handout/mm.c:452-461 | List n holds the blocks of 2^n up to 2^(n+1) bytes; the first and last list also take what is below and above |
| SizeClasses.FitInFinds | malloclab-handout/mm.c:385-416 | The search of one list returns its first block that is large enough, or NULL if all are too small |
| SizeClasses.FitFromFinds | malloclab-handout/mm.c:385-416 | The search from list k on returns a large enough block of those lists, or NULL if every block in them is too small |
| SizeClasses.SearchIsExhaustive | malloclab-handout/mm.c:385-416 | Starting at the class of the request skips no block that would do: the search fails exactly when every indexed block of the heap is too small |
| Policy.FitFacts | malloclab-handout/mm.c:385-416 | find_fit extends the heap exactly when no free block of the whole heap is large enough, and the block it returns is free and large enough |
| Requests.RoundPageIs | malloclab-handout/mm.c:47-48 | ROUND_PAGE: the only whole number of pages above a size and at most a page more, so a size that is whole pages already gets one more |
| Requests.FreeBelowIs | malloclab-handout/mm.c:397-407 | The size of LAST_FREE_BP, or 0, is that of the free block that ends at brk, whichever that is |
| Requests.MallocServed | malloclab-handout/mm.c:385-416 | Which requests find_fit can serve and how far brk moves, in terms of free block sizes and brk alone |
| Requests.ReallocGrows | malloclab-handout/mm.c:210-255 | The tests of mm_realloc, epilogue and LAST_FREE_BP included, keep the block in place exactly if it can grow there, and brk moves by exactly the pages missing |
| Requests.CutsBlock | malloclab-handout/mm.c:418-450 | How place cuts a block: in front the smaller of request and spare words if that is more than 4 words and wanted, behind what is left if that is at least 4 words; all other blocks as they were |
| Policy.AllocatedFacts | malloclab-handout/mm.c:144-165 | What malloc did to the set of blocks |
| Policy.AllocatedNoAdjacent | malloclab-handout/mm.c:144-165 | If no two free blocks were neighbours before malloc, none are after |
| Policy.FreedFacts | malloclab-handout/mm.c:168-184 | What free did to the set of blocks; if no two free blocks were neighbours before, none are after |
| Policy.FreedAlone | malloclab-handout/mm.c:338-383 | Freeing a block between two allocated ones merges nothing |
| Policy.MovedWords | malloclab-handout/mm.c:257-275 | Every payload word after a move: word i of the result is word i + off of the old payload, where off is the front offset place took, as far as the copy reaches, and from there on what the heap held at its place just before the copy |
| HeapSpec.PayloadSurvives | malloclab-handout/mm.c:257-275 | Whether realloc keeps a payload it moves, in terms of the heap before the call: whole, whatever it is, if place will leave nothing in front of the block found after mm_free, or will put the new block where the old one is, at the end of the heap, with the copy ending below it; and only then: in any other case a first word that occurs nowhere else in the heap and is no tag or link is lost |
| Policy.MarkerFits | malloclab-handout/mm.c:257-275 | Every allocated block of every heap can hold such a first word, so the condition of PayloadSurvives is exact |
| Policy.AllocatedRoomy | malloclab-handout/mm.c:418-450 | A request above 8 bytes leaves no block below 32 bytes behind |
| Policy.FreedRoomy | malloclab-handout/mm.c:338-383 | Nor does freeing a block that has 32 bytes |
| Allocator.AlignedIsLeast | malloclab-handout/mm.c:151 | ALIGN(size + 2 * DSIZE) is the least number of words that hold the payload and two tags |
| Allocator.Heap.constructor | malloclab-handout/mm.c:96 | A heap before mm_init: no word used, LAST_FREE_BP null |
| Allocator.Heap.Sbrk | malloclab-handout/memlib.c:58-69 | brk moves up by the request, or nothing changes and NULL stands for failure, exactly when the memory is used up |
| Allocator.Heap.ComputeFreeListIndex | malloclab-handout/mm.c:452-461 | The shifting loop computes the size class |
| Allocator.Heap.AddToFreeList | malloclab-handout/mm.c:463-479 | The new heap is well-formed and its index is the old one with the block added; no payload word changes |
| Allocator.Heap.RemoveFromFreeList | malloclab-handout/mm.c:481-493 | The new heap is well-formed and its index is the old one without the block; tiling and allocation are as before |
| Allocator.Heap.ExtendHeap | malloclab-handout/mm.c:313-336 | Fails exactly if mem_sbrk does, changing nothing; otherwise the last block is free, holds the new space and is LAST_FREE_BP; live payloads are untouched |
| Allocator.Heap.FindFit | malloclab-handout/mm.c:385-416 | Returns the fit the whole-heap specification chooses, or the extended last block, or NULL. On sizes and brk alone (Served): a large enough free block anywhere serves the request with brk where it is; otherwise brk grows by the only multiple of 128 words that is more than the words missing beyond the free block that ends at brk and at most 128 more, and NULL comes exactly if that many words do not fit an int of bytes or the memory |
| Allocator.Heap.SearchLists | malloclab-handout/mm.c:385-416 | The two loops over lists and blocks compute the first fit from the class of the request on |
| Allocator.Heap.Place | malloclab-handout/mm.c:418-450 | The block becomes, in order, perhaps a free front, the allocated block and perhaps a free remainder; the words and the layout afterwards, free lists and their order included, are those of AfterPlace; payload words stay |
| Allocator.Heap.Coalesce | malloclab-handout/mm.c:338-383 | The freed block and its free neighbours become one block; words, layout and list order are those of AfterCoalesce; all live blocks and the freed block's words behind its links are unchanged |
| Allocator.Heap.MergeNext | malloclab-handout/mm.c:346-356 | Case 2 of coalesce: one block out of two, at the front of the right list, every live payload unchanged |
| Allocator.Heap.MergePrev | malloclab-handout/mm.c:357-367 | Case 3 of coalesce, to the word |
| Allocator.Heap.MergeBoth | malloclab-handout/mm.c:368-380 | Case 4 of coalesce, to the word, with both neighbours taken out of their lists |
| Allocator.Heap.Init | malloclab-handout/mm.c:112-138 | Succeeds exactly if 27 + 128 words are there; then the heap is one free block of 1024 bytes, well-formed |
| Allocator.Heap.Malloc | malloclab-handout/mm.c:144-165 | Keeps the heap well-formed; NULL exactly for size 0 or if the request is not Served (see FindFit), with nothing changed; brk moves as Served says; otherwise a block of the requested size, no other block changed; address, words and layout are functions of the heap before |
| Allocator.Heap.Free | malloclab-handout/mm.c:168-184 | Frees and coalesces; the words and the layout afterwards, list order included, are functions of those before; all other blocks keep their words, every word it changes becomes a tag or a link, and a block at the end of the heap keeps its payload; the heap stays well-formed if and only if the freed block does not strand a 24-byte block |
| HeapSpec.FreedOnly | malloclab-handout/mm.c:168-184 | The blocks and the order of the free lists after mm_free depend on those before it alone, not on what payloads and links hold |
| Allocator.Heap.Shrink | malloclab-handout/mm.c:210-218 | realloc in a block that is large enough: same address, first min(old, new) words kept, all other blocks unchanged |
| Allocator.Heap.Swallow | malloclab-handout/mm.c:220-233 | realloc into the free next block: same address, first min(old, new) words kept, all other blocks unchanged |
| Allocator.Heap.Grow | malloclab-handout/mm.c:235-267 | realloc at the end of the heap by extending it: the same, or NULL with nothing changed if mem_sbrk fails |
| Allocator.Heap.MovePayload | malloclab-handout/mm.c:257-268 | memmove of the payload and memcpy of its first two saved words, overlap included |
| Allocator.Heap.Realloc | malloclab-handout/mm.c:189-276 | All five paths and when each is taken. On sizes and brk alone: the block stays, with its payload, if it and the free block behind it have the words (brk unmoved), or if they end the heap and the fewest pages above the words still missing are available (brk grows by exactly these); otherwise the answer is that of malloc on the freed heap. Address, words and layout are functions of the heap before; on the moving path every payload word of the result is known, a payload with a word of its own is kept exactly if Carried, and on NULL the block is already free |
| Allocator.Heap.CheckBlocks | malloclab-handout/mm.c:495-512 | The first loop of mm_check reports no fault exactly if the heap is well-formed |
| Allocator.Heap.CheckList | malloclab-handout/mm.c:514-537 | The second loop of mm_check never reports a fault in a well-formed heap |
| Allocator.Heap.Check | malloclab-handout/mm.c:495-540 | mm_check returns 0 if and only if the heap is well-formed |
| HeapRuns.TinyFree | malloclab-handout/mm.c:66-72 | Counterexample: malloc(8), malloc(8), free of the first leaves a heap that mm_check rejects |
| HeapRuns.ReallocLosesWords | malloclab-handout/mm.c:257-275 | Counterexample: a realloc that moves a 64-byte payload loses its first word, because place leaves a free block in front |
| HeapRuns.ReallocInPlace | malloclab-handout/mm.c:257-275 | The other case of PayloadSurvives occurs: a realloc with a free block of 64 words left in front that keeps its payload, because it ends up where it was |
| HeapClient.OwnedStep | malloclab-handout/mm.c:144-276 | A step that changes one client's block leaves every other client's block where it was with what was written in it |
| HeapClient.DoResize | malloclab-handout/mdriver.c:577-685 | One realloc of a trace leaves the world the function Next gives; mdriver fails its check exactly if the block left its place, was not carried, and one of the kept words that arrived is not the one written (Loses, a predicate of the world before) |
| HeapClient.Play | malloclab-handout/mdriver.c:577-685 | Every trace of requests above 8 bytes runs as the function After says, to its end or to the first request that fails, and returns which; it fails with lost data exactly if that request is a realloc for which Loses holds in the world before it; up to there the heap is well-formed, every block has at least 32 bytes and every client what it wrote; without realloc no data is lost and no two neighbouring blocks are ever both free |
| HeapClient.Session | malloclab-handout/mdriver.c:577-685 | The same from an empty memory through mm_init, with every block of at least 32 bytes outright |
| LruStack.SinceByTime | cachelab-handout/csim.c:90-120 | Least recent by timestamp is least recent by the blocks accessed since |
| LruStack.HitKeeps | cachelab-handout/csim.c:115-120 | A hit moves no block out of the cache |
| LruStack.MissKeeps | cachelab-handout/csim.c:132-146 | A miss in a set that is not full moves no block out |
| LruStack.MissEvicts | cachelab-handout/csim.c:122-130 | A miss in a full set moves out the least recently used block of the set and no other |
| LruStack.Inclusion | cachelab-handout/csim.c:90-146 | Stack inclusion: every block an E-way cache holds after a trace, an (E+1)-way cache holds |
| LruStack.MoreWaysMissLess | cachelab-handout/csim.c:177-207 | Over any trace, misses never increase with the associativity |
| LruStack.StackIsRecency | cachelab-handout/csim.c:90-146 | The textbook LRU stack of a set holds its accessed blocks once each, and above each one exactly those accessed since |
| LruStack.ResidentIsTop | cachelab-handout/csim.c:90-146 | An E-way LRU cache holds exactly the top E blocks of each set's stack |
| CacheSim.IdOfBlock | cachelab-handout/csim.c:244-252 | The shifts of compute_id yield the set index and the tag of the block number |
| CacheSim.IdsSeparateBlocks | cachelab-handout/csim.c:244-252 | Two addresses get the same identifier exactly if they are in the same block |
| CacheSim.CountIsRow | cachelab-handout/csim.c:95-112 | The number of store entries of a set is the number of its resident blocks |
| CacheSim.StoreIsResidents | cachelab-handout/csim.c:132-146 | The store holds exactly the resident blocks, as many entries as blocks |
| CacheSim.RowFits | cachelab-handout/csim.c:122-146 | No set ever holds more than E blocks |
| CacheSim.StoreBound | cachelab-handout/csim.c:132-146 | The store never holds more than E * 2^s entries |
| CacheSim.NoWays | cachelab-handout/csim.c:122-130 | With E = 0 nothing is ever resident |
| CacheSim.LruCache.constructor | cachelab-handout/csim.c:75-88 | A new cache holds nothing |
| CacheSim.LruCache.Scan | cachelab-handout/csim.c:94-112 | The scan finds the block, counts its set and finds the least recently used entry of the set |
| CacheSim.LruCache.Grow | cachelab-handout/csim.c:132-142 | The store grows to 2 * cap + 1 with its entries kept |
| CacheSim.LruCache.AccessEntry | cachelab-handout/csim.c:90-146 | Hits exactly if the block was seen before and fewer than E other blocks of its set since; evicts exactly on a miss in a full set; the entries stay the resident blocks with their last access times; with E = 0 every access is a miss and an eviction and nothing is stored |
| CacheSim.LruCache.ModifyEntry | cachelab-handout/csim.c:148-153 | A modify counts one access, evictions included, and one more hit |
| CacheSim.ProcessLine | cachelab-handout/csim.c:155-175 | One trace line: its hits and misses are those of the LRU specification |
| CacheSim.Run | cachelab-handout/csim.c:177-208 | The totals over a whole trace: hits and misses of an LRU cache, misses = evictions + blocks resident at the end, at most E * 2^s of the latter; with E = 0 as many evictions as misses and as accesses |
| Words.FromToResidue | archlab-handout/sim/misc/yas.c:238-242 | The bytes written for any number read back as the number modulo 2^64 |
| Words.ToFromBytes | archlab-handout/sim/misc/isa.c:310-343 | Reading bytes as a word and writing the word gives the bytes |
| Isa.SetWordAt | archlab-handout/sim/misc/isa.c:310-343 | set_word_val then get_word_val gives the value; no other byte changes |
| Isa.OverflowIsExact | archlab-handout/sim/misc/isa.c:482-506 | The overflow flag is set exactly if the signed result does not fit 64 bits |
| Isa.CondAfterSub | archlab-handout/sim/misc/isa.c:590-623 | After subq every condition decides the exact signed order of the registers, overflow or not |
| Isa.CondAfterTest | archlab-handout/sim/misc/isa.c:590-623 | After andq of a register with itself the conditions decide its sign |
| Words.BitwiseAt | archlab-handout/sim/misc/isa.c:470-475 | Every one of the 64 bits of a ^ b is set exactly if the bits of a and b differ, of a & b exactly if both are set |
| Words.SameBits | archlab-handout/sim/misc/isa.c:470-475 | The bits determine the number, so the two results are fixed by BitwiseAt |
| Isa.CondAfterLogic | archlab-handout/sim/misc/isa.c:482-506 | After andq and xorq of any two registers: the result bit by bit, the zero flag exactly for no common bit or for equal registers, the sign flag from the signs of the operands, no overflow, and every condition as the sign of the result |
| Isa.UnknownCodes | archlab-handout/sim/misc/isa.c:476-506 | Other function codes: the ALU computes 0, and no jump or move is taken |
| Isa.RunAdd | archlab-handout/sim/misc/yis.c:47-48 | Running a + b steps is running a, then b |
| Execution.StepCmov | archlab-handout/sim/misc/isa.c:683-708 | rrmovq and cmovXX copy rA to rB exactly if the condition holds |
| Execution.StepIrmovq | archlab-handout/sim/misc/isa.c:709-732 | Effect of irmovq from its bytes in memory |
| Execution.StepRmmovq | archlab-handout/sim/misc/isa.c:733-764 | Effect of rmmovq, with or without a base register |
| Execution.StepMrmovq | archlab-handout/sim/misc/isa.c:765-791 | Effect of mrmovq, with or without a base register |
| Execution.StepAlu | archlab-handout/sim/misc/isa.c:792-805 | Effect of the four ALU instructions, for every register identifier |
| Execution.StepJmp | archlab-handout/sim/misc/isa.c:806-823 | Effect of jumps |
| Execution.StepCall | archlab-handout/sim/misc/isa.c:824-846 | Effect of call |
| Execution.StepRet | archlab-handout/sim/misc/isa.c:847-859 | Effect of ret |
| Execution.StepPushq | archlab-handout/sim/misc/isa.c:860-883 | Effect of pushq |
| Execution.StepPopq | archlab-handout/sim/misc/isa.c:884-908 | Effect of popq |
| Execution.StepIaddq | archlab-handout/sim/misc/isa.c:909-935 | Effect of iaddq, flags included |
| Execution.StepHaltNop | archlab-handout/sim/misc/isa.c:677-682 | halt stops in place; nop only advances |
| Execution.PushThenPop | archlab-handout/sim/misc/isa.c:860-908 | popq undoes pushq, for %rsp itself too |
| Execution.StepOutcome | archlab-handout/sim/misc/isa.c:627-943 | For any state whatever: the step goes on exactly if the opcode is known, the instruction lies in memory and names real registers, and the word it touches is in memory; it halts exactly at halt |
| Execution.ErrorKeeps | archlab-handout/sim/misc/isa.c:627-943 | A step that fails changes nothing, but for %rsp where call, pushq or popq touch a word outside memory |
| Execution.StepError | archlab-handout/sim/misc/isa.c:627-943 | Which of the two errors it is, the immediate of irmovq, rmmovq, mrmovq and iaddq outside memory being an invalid instruction and that of jumps and calls an invalid address |
| Execution.CallThenRet | archlab-handout/sim/misc/isa.c:824-859 | ret undoes call |
| Machine.Cpu.constructor | archlab-handout/sim/misc/isa.c:540-548 | A new state; init_mem rounds the memory length up to a multiple of 32 |
| Machine.Cpu.GetByteVal | archlab-handout/sim/misc/isa.c:302-308 | Succeeds exactly inside memory |
| Machine.Cpu.GetWordVal | archlab-handout/sim/misc/isa.c:310-323 | The loop assembles the little-endian word; fails outside memory |
| Machine.Cpu.SetWordVal | archlab-handout/sim/misc/isa.c:333-343 | The loop writes the little-endian word; fails outside memory without a change |
| Machine.Cpu.StepState | archlab-handout/sim/misc/isa.c:627-943 | One step in place is one step of the specification, with the same status, for every state |
| Rsum.RsumCorrect | archlab-handout/sim/misc/rsum.ys:25-38 | For every list and stack: rsum_list returns to its caller after 9n + 4 steps with the sum modulo 2^64 in %rax and %rsp restored, and writes nothing but its 16n bytes of stack |
| Rsum.RsumOfCode | archlab-handout/sim/misc/rsum.ys:25-38 | The same from the contiguous code bytes of rsum_list |
| CopyBlock.CopyMemMoves | archlab-handout/sim/misc/examples.c:38-49 | For blocks that do not overlap, copying word by word moves the block and changes nothing else |
| CopyBlock.LoopCorrect | archlab-handout/sim/misc/copy.ys:32-44 | The loop computes the memory and checksum of copy_block from any state of its own |
| CopyBlock.CopyCorrect | archlab-handout/sim/misc/copy.ys:27-44 | For every signed length and any overlap that spares code and return address: copy returns in 9k + 6 steps with the memory and %rax of copy_block |
| CopyBlock.CopyOfCode | archlab-handout/sim/misc/copy.ys:27-44 | The same from the contiguous code bytes of copy |
| YasFacts.PassesAgree | archlab-handout/sim/misc/yas.c:305-443 | Both passes give every line the same address |
| YasFacts.LabelIsFirstDefinition | archlab-handout/sim/misc/yas.c:505-522 | The symbol table maps a name to the address of the first line that defines it, and to nothing if none does |
| YasFacts.FetchEncoded | archlab-handout/sim/misc/isa.c:644-674 | step_state fetches from the bytes of any encoded instruction its opcode, function, registers and number modulo 2^64 |
| Assembled.ParsesBack | archlab-handout/sim/misc/yas.c:205-291 | The operand parser reads every written instruction back as its registers and number, displacement and label forms included |
| Assembled.ListedLine | archlab-handout/sim/misc/yas.c:305-443 | An accepted program lists every line once, at its address, with the bytes of its operands |
| Assembled.NameMeans | archlab-handout/sim/misc/yas.c:514-522 | A name in an operand stands for the address of its first definition |
| Assembled.InstructionFetched | archlab-handout/sim/misc/yas.c:397-442 | Two-pass assembly is correct: with the listed bytes in memory, step_state fetches the instruction as written, names replaced by addresses, and goes on at the next line |
| Assembled.DataLine | archlab-handout/sim/misc/yas.c:225-243 | .byte, .word, .long and .quad lay their number down little-endian |
| Assembled.DirectiveLine | archlab-handout/sim/misc/yas.c:354-379 | .pos sets the address to its number as an int; .align fails exactly if that is not positive and moves the address to the least multiple of it not below the old one, or, from an address at or below its negative, not below that address plus the number less one; both are listed at the new address and emit nothing |
| Assembled.AlignsToLeast | archlab-handout/sim/misc/yas.c:364-373 | .align finds the least multiple of its number not below the old address exactly for addresses above its negative and for those one above a multiple of it; a case in which it does not |
| Assembled.FirstPassAccepts | archlab-handout/sim/misc/yas.c:304-397 | Exactly which token lines pass 1 does not refuse; empty and label lines emit nothing and stay at the address |
| Assembled.OnlyInstructions | archlab-handout/sim/misc/yas.c:397-442 | finish_line accepts no operands but those of an instruction as written, whatever the tokens, and takes them as meant |
| Assembler.LineIsEncoded | archlab-handout/sim/misc/yas.c:397-441 | Storing both operands into the code buffer, over the opcode byte and an empty register byte, gives the encoding |
| Assembler.Assembler.AddSymbol | archlab-handout/sim/misc/yas.c:505-512 | The symbol is appended |
| Assembler.Assembler.LookUp | archlab-handout/sim/misc/yas.c:514-522 | Finds the first entry of the name, or reports an error and returns -1 |
| Assembler.Assembler.GetReg | archlab-handout/sim/misc/yas.c:205-223 | Changes one nibble of the code buffer, or reports an error |
| Assembler.Assembler.GetNum | archlab-handout/sim/misc/yas.c:227-243 | Stores the bytes of a number or label, or reports an error |
| Assembler.Assembler.GetMem | archlab-handout/sim/misc/yas.c:255-291 | Parses all five operand forms of memory references |
| Assembler.Assembler.FinishLine | archlab-handout/sim/misc/yas.c:305-443 | One line in place is one line of the two-pass specification, the exit of print_code for addresses above 0xFFFF included |
| Assembler.Assembler.Assemble | archlab-handout/sim/misc/yas.c:548-624 | Both passes: succeeds exactly on accepted programs, with their listing and symbols |
| Listing.LineBack | archlab-handout/sim/misc/isa.c:211-275 | load_mem reads a printed line back to its bytes at the address it shows, whatever follows the bar, cut off or not, for both address widths and without bytes; if they reach past the memory it stops |
| Listing.LineLoads | archlab-handout/sim/misc/isa.c:211-275 | load_mem on any line, printed or not: white space anywhere it allows it, 0x or 0X, digits of either case, and bytes up to the first that two digits do not spell go to the address, or loading stops if they do not fit |
| Listing.HexChars | archlab-handout/sim/misc/isa.c:183-192 | The hex digits are those of the two alphabets, with their places as values |
| Listing.InertLine | archlab-handout/sim/misc/isa.c:211-275 | load_mem takes nothing from a line exactly if it does not start with 0x or has a colon after the address and no pair of hex digits after the colon; from any other line it takes bytes or stops |
| Listing.AddressPrinted | archlab-handout/sim/misc/yas.c:133-174 | The address of a line comes back from the listing if and only if it is not negative |
| Listing.LoadUndoesPrint | archlab-handout/sim/misc/isa.c:194-300 | For all source text that yas takes and all listings it prints: loading writes every line's bytes at its address in line order and counts them, exactly if all are inside memory and what each line leaves beyond the buffer of fgets is inert |
| Listing.LongCommentLoads | archlab-handout/sim/misc/isa.c:211-222 | Counterexample: the end of an overlong comment is read as a line of its own |
| ObjectFile.HexStuff | archlab-handout/sim/misc/yas.c:122-131 | The loop writes the hexadecimal digits |
| ObjectFile.PrintCode | archlab-handout/sim/misc/yas.c:133-190 | The line buffer ends up as the specified line; fails exactly for addresses above 0xFFFF |
| ObjectFile.LoadMem | archlab-handout/sim/misc/isa.c:194-300 | The loops over the text change memory and count as specified; 0 after an error |
| Source.AcceptedIffDefined | archlab-handout/sim/misc/yas.c:548-624 | A program of well-formed lines is accepted exactly if every name it uses is defined and every line with tokens is listed at an address up to 0xFFFF |
| Source.Toolchain | archlab-handout/sim/misc/yas.c:305-443 | Assembled, printed and loaded, a program whose addresses go up has every line's bytes at its address and nothing else loaded, exactly if its overlong lines leave nothing behind |
| RsumProgram.ProgramSums | archlab-handout/sim/misc/rsum.ys:1-41 | The whole of rsum.ys, assembled, printed, loaded and run: 36 steps to the halt, with 0xcba in %rax |
| CopyProgram.CopyAssembled | archlab-handout/sim/misc/copy.ys:27-44 | Wherever a program puts the lines of copy, the assembler lays down the code that CopyCorrect is about |
| CopyRun.ProgramCopies | archlab-handout/sim/misc/copy.ys:1-47 | The whole of copy.ys, assembled, printed, loaded and run: 40 steps to the halt, with the three source words at dest and 0xcba in %rax |
| HclWalk.GenIsWalked | archlab-handout/sim/misc/node.c:479-643 | For every expression: what gen_expr prints from the parse tree is the text of the walk of the expression, through every shared next chain, and gen_expr fails exactly where the walk does |
| HclCorrect.TextReads | archlab-handout/sim/misc/node.c:522-639 | Wherever the text of an expression stands, C's precedence rules read it as that expression and nothing more, if every printed set has an element |
| HclCorrect.TextFails | archlab-handout/sim/misc/node.c:566-586 | A text in which some set has no element is no C expression |
| HclCorrect.TransMeans | archlab-handout/sim/misc/node.c:522-639 | The C expression has the value of the HCL expression with its numerals read as C reads them, as soon as they are C constants and the operands of & and | are Boolean |
| HclCorrect.Unreadable | archlab-handout/sim/misc/node.c:503-521 | If some printed numeral is no C constant, the text has no value |
| HclCorrect.BooleanValue | archlab-handout/sim/misc/node.c:238-272 | An expression that fits where a Boolean is wanted is 0 or 1 |
| HclCorrect.NumeralsAlike | archlab-handout/sim/misc/node.c:503-521 | C reads a numeral as the HCL number if and only if long long holds it and it has no leading zero, or only zeros before a last digit up to 7 |
| HclCorrect.LongNumeral | archlab-handout/sim/misc/node.c:503-521 | Numerals of twenty digits, which the lexer takes, are none |
| HclCorrect.NumeralsSame | archlab-handout/sim/misc/node.c:503-521 | If all printed numerals are read alike, the two readings of the expression have the same value |
| HclMeaning.TranslationKeepsMeaning | archlab-handout/sim/misc/node.c:479-643 | For every accepted expression, with 0/1 Boolean signals: the emitted text parses by the precedence of C as one expression, unless the walk has an empty set, and then it does not parse; its value is that of the walk with numerals as C reads them, if all are C constants; so the meaning is kept exactly if the walk, read so, has the value of the expression |
| HclMeaning.PlainSetsKeepMeaning | archlab-handout/sim/misc/node.c:479-643 | Every accepted expression whose sets hold no case list, or one of a single arm that nothing can run into, keeps its meaning |
| HclMeaning.SetKept | archlab-handout/sim/misc/node.c:569-583 | For any accepted set test whose left side prints as written: the meaning is kept exactly if the element is among those the walk of the chain meets just when it is among those of the set |
| HclMeaning.SetOfCaseWalked | archlab-handout/sim/misc/node.c:569-583 | The exact text of a set whose element is a case list: that of the set of all its suffixes |
| HclMeaning.SetOfCaseKept | archlab-handout/sim/misc/node.c:569-583 | Such a test keeps its meaning exactly if the element is the value of the case list, or of none of its proper suffixes |
| HclMeaning.SetOfCasesDiffers | archlab-handout/sim/misc/node.c:187-196 | Counterexample: x in { [ a : 1; 1 : 2; ] } is accepted and its text differs in value |
| HclMeaning.LongNumeralFails | archlab-handout/sim/misc/node.c:503-521 | Counterexamples: x == n is accepted for every numeral n of twenty digits or more, and its text is no C expression |
| HclMeaning.CaseThenElementFails | archlab-handout/sim/misc/node.c:622-632 | A case list whose last condition is not 1, before a signal, a numeral or a negation in a set: gen_expr follows a null pointer, whatever comes after |
| HclMeaning.CaseThenElement | archlab-handout/sim/misc/node.c:622-632 | With nothing after that element the condition is exact: gen_expr gets through exactly if the last condition is 1 |
| HclTypes.CheckArgIsFits | archlab-handout/sim/misc/node.c:238-272 | check_arg decides from the tree exactly whether the expression has the wanted type |
| HclTypes.OneType | archlab-handout/sim/misc/node.c:238-272 | Every expression has exactly one type, but for the numerals 0 and 1, which have both, and undeclared signals and empty case lists, which have none |
| HclTypes.BuildIsTyped | archlab-handout/sim/misc/node.c:274-315 | The make functions report no error exactly for expressions whose operands all have the types their places want; set elements may have either |
| HclTypes.AcceptedIff | archlab-handout/sim/misc/node.c:238-315 | An expression is accepted exactly if it is well typed, gen_expr gets to the end of every chain it walks, and every signal it prints is declared |
| HclTypes.TextIfDeclared | archlab-handout/sim/misc/node.c:486-502 | A text is printed exactly if its signals are declared and it has no empty case list |
| HclMeaning.WellTypedTranslates | archlab-handout/sim/misc/node.c:479-643 | For every well-typed expression, whatever its numerals: when it is accepted and when its C text has its value, both exactly |
| CText.BitsOfTruth | archlab-handout/sim/misc/node.c:522-539 | The bitwise & and | of the emitted text are the Boolean connectives on 0 and 1 |
| HclTree.ConcatLists | archlab-handout/sim/misc/node.c:187-196 | concat links the second list behind the first, in place, and changes no other next field |
| HclTree.Generator.GenExpr | archlab-handout/sim/misc/node.c:479-643 | The recursive printer with its loops appends exactly the specified text |
| BoundedBuffer.AlwaysOk | proxylab-handout/sbuf.c:4-38 | Every interleaving of any number of threads keeps the whole invariant |
| BoundedBuffer.Promises | proxylab-handout/sbuf.c:19-38 | slots + items + operations in flight = n; one thread in the mutex section; 0 <= rear - front <= n; loaded items are the first stored ones, in order |
| BoundedBuffer.AlwaysTraced | proxylab-handout/sbuf.c:19-38 | In every interleaving, thread by thread and in order, an enqueue stores the item it was called with and a dequeue hands its caller the item it loaded |
| BoundedBuffer.CallersSeeABuffer | proxylab-handout/sbuf.c:19-38 | As callers see it: the items of the calls made are exactly those stored together with those still carried, the items loaded exactly those handed back together with those still carried, and the loaded ones are the first stored ones |
| BoundedBuffer.WhenAllReturned | proxylab-handout/sbuf.c:19-38 | Once all calls have returned, the answers of the dequeues are, in some order, the first items stored, and the items stored are those the enqueues were called with |
| BoundedBuffer.Queue | proxylab-handout/sbuf.c:19-38 | With one producer and one consumer the answers are at every moment a beginning of the items enqueued, in order |
| BoundedBuffer.AccessIsSafe | proxylab-handout/sbuf.c:23-33 | No slot is overwritten before it was read, and none is read before it was written |
| BoundedBuffer.StuckReason | proxylab-handout/sbuf.c:19-38 | Threads all block only if all enqueue into a full buffer or all dequeue from an empty one |
| ObjectCache.TrimIsShortest | proxylab-handout/cache.c:75-81 | lru_put evicts the shortest least-recent end that makes room |
| ObjectCache.GetsLatest | proxylab-handout/cache.c:36-87 | The invariant behind AnswerIsLatest: after any operations, duplicate keys included, the first entry for a key is the one last put for it, and the sizes add up to at most max_size |
| ObjectCache.AnswerIsLatest | proxylab-handout/cache.c:36-87 | After any operations lru_get answers exactly if some entry has the key, and then with the entry of the last put for that key |
| ObjectCache.GetMeans | proxylab-handout/cache.c:36-58 | What a lookup is: it fails exactly if no entry has the key, leaving the list alone, and else gives the first that has and moves it to the front |
| ObjectCache.PutMeans | proxylab-handout/cache.c:63-87 | What an insertion is: the new entry, then the longest beginning of the list that fits with it into max_size |
| ObjectCache.MostRecentFirst | proxylab-handout/cache.c:36-58 | The list is in order of last use |
| LinkedCache.RemoveItem | proxylab-handout/cache.c:96-103 | Relinking the neighbours takes one item out of the doubly linked list |
| LinkedCache.MoveItemFront | proxylab-handout/cache.c:105-113 | Relinking puts an item behind the head |
| LinkedCache.Lru.constructor | proxylab-handout/cache.c:9-19 | An empty list between the sentinels |
| LinkedCache.Lru.Get | proxylab-handout/cache.c:36-58 | Answers exactly if some item has the key, with the first that has, which it moves to the front; otherwise nothing changes; size is unchanged |
| LinkedCache.Lru.Put | proxylab-handout/cache.c:63-87 | The eviction loop ends before the sentinels; the new item is in front of the longest beginning of the list that fits with it, with size the sum of all items |
| Transpose.MoveRows | cachelab-handout/trans.c:81-102 | Residual rows and full blocks |
| Transpose.MoveColumns | cachelab-handout/trans.c:103-124 | Residual columns |
| Transpose.MoveCorner | cachelab-handout/trans.c:125-134 | The residual corner |
| Transpose.MoveBlock64 | cachelab-handout/trans.c:30-78 | A block of the 64 x 64 case through scratch words past the matrix, which are read before they are reused |
| Transpose.ScratchInside | cachelab-handout/trans.c:46-59 | The scratch words are the indices 4104..4359 |
| Transpose.TransposeSubmit | cachelab-handout/trans.c:23-160 | For all M and N, B ends as the transpose of A, and past the matrix only scratch words changed |
| Transpose.Trans | cachelab-handout/trans.c:171-183 | So it does for the simple version |
| Transpose.CheckTranspose | cachelab-handout/trans.c:206-221 | is_transpose decides the specification |
| Rio.RioBuf.constructor | proxylab-handout/csapp.c:871-876 | A fresh buffer holds nothing |
| Rio.RioBuf.ReadSome | proxylab-handout/csapp.c:839-864 | rio_read delivers a nonempty beginning of what is pending, 0 only at the end of the stream, through short reads and interruptions |
| Rio.RioBuf.ReadN | proxylab-handout/csapp.c:883-898 | Exactly n bytes, or all up to the end of the stream; nothing lost |
| Rio.RioBuf.ReadLine | proxylab-handout/csapp.c:905-927 | Through the first newline, or maxlen - 1 bytes, or up to the end of the stream; then a NUL |
| Rio.RioBuf.Mix | proxylab-handout/csapp.c:883-927 | Any mix of both calls: those before the first failure get consecutive pieces of the stream that do not depend on the kernel, and nothing is lost but what the failing call had read, fewer bytes than it asked for |
| KBest.SortSorts | malloclab-handout/fcyc.c:81-87 | The sorted samples: sorted, and the same multiset |
| KBest.InsertTake | malloclab-handout/fcyc.c:70-76 | A sample at or above the last of the k smallest leaves them alone; one below pushes that one out |
| KBest.BestNext | malloclab-handout/fcyc.c:67-88 | How one sample changes the k smallest |
| KBest.Sampler.AddSample | malloclab-handout/fcyc.c:67-88 | values[] is the sorted list of the kbest smallest samples so far |
| KBest.Sampler.HasConverged | malloclab-handout/fcyc.c:93-98 | Decides whether the kbest smallest samples lie within epsilon, which ConvergedMeans says of the samples themselves |
| KBest.ConvergedMeans | malloclab-handout/fcyc.c:93-98 | Converged means that at least kbest of the samples, in whatever order they came, are at most 1 + epsilon times the smallest |
| KBest.Fcyc | malloclab-handout/fcyc.c:129-168 | Stops at the first sufficient number of samples and returns the smallest of them |

## Left out

- Requests whose page-rounded size reaches 2^31 bytes: mem_sbrk takes an int, and what a truncated size does is not modelled.
- Allocator.Heap.Check, Allocator.Heap.CheckBlocks and Allocator.Heap.CheckList: run on heaps the allocator can reach, well-formed or with stranded blocks; on arbitrary words the walk of mm_check may leave the memory or not end.
- Running mm_init again: LAST_FREE_BP would be carried over, so a heap here has one lifetime.
- HeapClient.DoResize: fills and checks whole words where mdriver does bytes, so a last partial word of a request is not tracked.
- HeapClient.Play: traces with requests above 8 bytes only, because free can strand smaller blocks; Allocator.Heap.Free and Allocator.Heap.Malloc cover those too.
- The unit of the allocator model is the word: that addresses are 8-aligned is built into it.
- CacheSim.IdOfBlock: needs at least one set-index bit and at most 63 index and offset bits together, since the source otherwise shifts by 64 places.
- CacheSim.Run: a data line with a letter other than L, S and M, for which process_line returns an uninitialised result, is not modelled.  Reads lines that are already parsed; sscanf, the 1024-byte line buffer, option parsing and the exits after a failed malloc are not modelled, and fewer than INT_MAX accesses are assumed.
- Isa.Step: get_word_val near the top of the signed address range adds 8 to pos with overflow; the model takes addresses above 2^63 - 1 as outside memory.
- Assembler.Assembler.FinishLine: takes at most what the token array holds as given; the lexer, its error lines and lines of more than 11 tokens are not modelled, nor is what an erroneous line prints.
- Assembler.Assembler.AddSymbol: the symbol table has no limit; the source's holds 1000 entries and writes past its end after that.
- The Verilog output of yas.c and the Verilog and UCLID branches of node.c.
- The pipeline simulators psim.c and ssim.c, whose control logic is generated from HCL files, and the GUI hooks.
- HclMeaning.TranslationKeepsMeaning: works on tokens; that the printed characters separate into them, and the line wrapping of outgen.c, are not modelled, and quoted signal expressions are taken as whole C expressions.
- Listing.LineLoads: addresses below 2^63; behind that the word_t of load_mem overflows, and a negative one passes its test against the memory length.
- CText.CValue: an octal constant of 2^63 up to 2^64, to which C gives an unsigned type, counts as no constant; and atoll is modelled on numerals within the range of its result.
- BoundedBuffer.Step: front and rear are unbounded; the int counters of the source overflow after 2^31 operations.
- LinkedCache.Lru.Put: needs 0 <= size <= max_size as the eviction loop does, treats the size arithmetic as exact, and assumes that Malloc succeeds; the mutex makes each operation one critical section, and what happens to the pointer lru_get returned after a later eviction is not modelled.
- Transpose.TransposeSubmit: A and B are different arrays, and in the 64 x 64 case B has the 4360 words that the driver's array provides.
- Rio.RioBuf.ReadLine: counts are unbounded; the int counter of the source limits maxlen.
- Rio.Kernel.Read: any finite number of interruptions, errors and short counts may come in any order, then reads deliver all they can; an endless run of interruptions is not modelled.
- rio_readn, rio_writen and the formatting of sio: unbuffered or simpler forms of the same loops.
- KBest.Fcyc: measurements are given real numbers; clearing the cache, the clocks and rounding are not modelled.
- The rest of the repository: the shell, the data lab puzzles, the bomb and attack targets, the proxy and tiny servers, drivers and scoring scripts, which are system calls, fixed-width puzzles or measurement.
