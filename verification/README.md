# Compressed RAM disk: a verified model

This project models the parts of the repository that decide whether a compressed
RAM disk gives back what was written to it, and proves them correct in Dafny:

- **LZO1X-1** (`Lzo*.dfy`). `LzoFormat` defines the stream format and its meaning on its
  own. The compressor and the goto-driven safe decompressor are both proved against
  it, for arbitrary stale contents of the dictionary, and meet in `LzoRoundTrip`.
- **dlmalloc** (`Dl*.dfy`). The tree bins as bitwise tries with rings of equal sizes
  (`DlIndex`, `DlTrie`, `DlForest`, `DlUnhook`, `DlRing`, `DlBins`, `DlTreeOps`), the
  best-fit search over them (`DlFit`), and the boundary-tag heap around them with
  small bins, `dv` and `top` (`DlSmall`, `DlHeap`, `DlSteps`, `DlChunks`,
  `DlKept`, `DlMalloc`).
- **What the page and region allocators share**: partitions of memory (`Tiling`), a
  memory in which every store destroys what overlaps it (`HeapMem`), free lists with
  two bitmap levels (`FreeLists`, `TwoLevel`, `FreeIndex`), and heaps of blocks with
  headers and flags (`BoundaryTags`, `Coalesce`).
- **xvmalloc** (`Xv*.dfy`), **TLSF** in the kernel port and, for `realloc_ex`, in the
  original (`Tlsf*.dfy`), both on top of the shared part; and **zsmalloc** (`Zs*.dfy`).
- **zram** (`ZramTable`, `ZramDrv`), which stacks the compressor on xvmalloc and is
  proved to be an array of optional pages, over whole runs.

Code that works in place is a class or a method on arrays with the source's own
fields and stores; ghost state beside it (a tiling, a forest, list members, the history
of a disk) says what the fields mean. `Valid()` of a class is its invariant over every
run: constructors establish it and every operation keeps it. The lemmas named
`PoolInvariant` and `SegmentInvariant` spell out what it says.

Numbers are those of a 64-bit machine: 4 KiB pages, 64-bit pointers and `size_t`,
wrapped explicitly where the source relies on it.

## Findings

- LZO: the safe decompressor never writes behind its buffer, and accepts exactly the streams of the
  format, the end marker with any length and count included. But it does not check every read: on
  an input that is no stream it can read up to six bytes behind the end, since a pointer that has
  passed the end makes the remaining length wrap to a huge one (`LzoMachine.DecompressSafe`).
- xvmalloc: sizes 4089 to 4092 pass the size check, but their search index is one past the
  last list. Such a request makes the pool take a page and then fails. `XvPool.Pool.Malloc`
  states success exactly, and `XvIndex.SearchIndexInRange` where the limit lies.
- zsmalloc: the recurrence in `init_zspage` would skip an object if an object ended on a page
  boundary before the last page. It never does, because `get_zspage_order` keeps the first
  exact fit (`ZsInit.ExactFitWouldSkip`, `ZsLayout.GetZspageOrder`).
- TLSF: `realloc_ex` copies to the result of `malloc_ex` without looking at it, so that, up to
  2^64 - 16 bytes, it copies to the null pointer exactly when the block cannot stay where it is and
  no list has one for the new size. `TlsfRealloc.Area.Realloc` states this in both directions
  (`fault`), and `TlsfRealloc.ResizeWithoutRoom` is a sequence of calls that gets there.
- TLSF: nothing checks the size of a request. Up to 63 times 16 MiB all is well, and from there on
  no request is served; not even one of 1 GiB less 16 bytes, although a block of that size has a
  list (`TlsfWide.JustBelowOneGiB`). Most larger requests make the search leave the 24 rows of the
  tables, but not all: `fls` sees the low 32 bits, and the second-level index is cut to an int, so
  that some, 2^33 + 64 for one, start inside (`TlsfWide.SearchStays` has the exact condition). Such a
  request gets null if no list from there on has a block, and otherwise a block that is too small
  for it. `Malloc` of both ports reports these calls as faults, and only these
  (`TlsfAnswer.WideAnswer`, `TryWide`).
- TLSF: the last 15 sizes are rounded up to 0 (`TlsfMap.RequestIs`). `realloc_ex` then takes the
  branch that shrinks: the block comes back where it was, untouched exactly if it has 16 bytes and
  its successor is used, and otherwise with no bytes at all, its first bytes overwritten by the
  header of what was cut off.
- TLSF, kernel port: nor does anything check region sizes. The size of a region's block is kept in
  32 bits; where the low 32 bits are 0 or above 1 GiB, the block has no list, and
  `TlsfPool.Pool.Create`, `AddRegion` and `Malloc` report a fault. Above 4 GiB the pool uses as much
  of the region as these bits tell (`TlsfMap.RegionInRange`). `tlsf_malloc` compares the request with
  the full size, though: with such regions it can take memory for as long as there is any, and serve
  nothing (`TlsfAnswer.OrdinaryAnswer`, `GrowsInVain`).
- TLSF, kernel port: the check before growth counts the initial region whether or not the pool still
  has it. Once that has gone back, the pool may hold one more region of `grow_size` in its place, and
  so exceed `max_size` (`TlsfBeyond.ExceedLimit`). It cannot if `grow_size` is at most `init_size`, or
  if max_size leaves room enough; the condition is exact (`TlsfLimit.SafeHolds`).
- TLSF, original: `init_memory_pool` rounds its own description up and the rest down, each on its
  own, so that the sentinel can end 8 bytes behind the caller's memory. In the Makefile's
  configuration it never does (`TlsfRealloc.SentinelInside`, `SentinelSizes`).

## Model

| member | source | states |
|---|---|---|
| LzoRoundTrip.RoundTrip | sub-projects/compression/lzo-kmod/lzo1x_compress.c:177-222 | for every input and every content of the dictionary, the decompressor run on the compressor's output with the input's length answers LZO_E_OK, consumes everything and reproduces the input |
| LzoCompress.Compress | sub-projects/compression/lzo-kmod/lzo1x_compress.c:177-222 | the output is a well-formed stream whose meaning is the input, whatever the dictionary holds at the start, and it is at most x + x/16 + 67 bytes long; what it copies, and from where, is what the dictionary yields, and all else are literals; a byte repeated x times, x from 19 on, takes at most x/255 + 13 bytes, so that a page of one byte takes 29 |
| LzoCompress.DoCompress | sub-projects/compression/lzo-kmod/lzo1x_compress.c:21-175 | between two rounds the emitted bytes are a stream that plays back the input up to the pending literals, within the amortised bound; the copies, with place, distance and length, are those of the greedy parse: at each position the slot that decides is asked and from then on holds the position, a match is taken to its end, and the search goes on behind it or at the next byte |
| LzoCompress.UniformRound | sub-projects/compression/lzo-kmod/lzo1x_compress.c:36-76 | for a byte repeated throughout, whatever the dictionary holds, every position asks the same slot, and has a match as soon as that slot names any earlier position in reach |
| LzoCompress.FindMatch | sub-projects/compression/lzo-kmod/lzo1x_compress.c:36-69 | there is a match exactly if the slot that decides, the second one where the first is in reach and no candidate, is a candidate and agrees in three bytes, for slots that may point anywhere |
| LzoCompress.MatchLength | sub-projects/compression/lzo-kmod/lzo1x_compress.c:102-133 | the length is the longest common run up to the end of the input, found by six comparisons or the loop |
| LzoCompress.PutShortMatch | sub-projects/compression/lzo-kmod/lzo1x_compress.c:109-124 | the short forms M2, M3 and M4 are emitted exactly as the format lays them out |
| LzoCompress.PutLongMatch | sub-projects/compression/lzo-kmod/lzo1x_compress.c:135-166 | the long forms with their zero-run length escape are emitted exactly as the format lays them out |
| LzoCompress.EmitRest | sub-projects/compression/lzo-kmod/lzo1x_compress.c:191-214 | the trailing literals are emitted as an initial run, patched tail bits or a long run, within the bound |
| LzoEmit.EmitLiterals | sub-projects/compression/lzo-kmod/lzo1x_compress.c:80-100 | pending literals extend the stream by the same bytes: the two-bit patch of the previous match, or a run header; they cost at most one byte in sixteen plus one |
| LzoEmit.PatchTail | sub-projects/compression/lzo-kmod/lzo1x_compress.c:83-84 | adding the count to op[-2] turns the layout of the last match into that of the match with trailing literals |
| LzoEmit.MatchSaves | sub-projects/compression/lzo-kmod/lzo1x_compress.c:109-166 | every match that is emitted is at least one byte shorter than what it stands for, which pays for the literal header in front of it |
| LzoMachine.DecompressSafe | sub-projects/compression/lzo-kmod/lzo1x_decompress.c:29-249 | for every input that is not empty: the goto machine ends, writes nothing behind the length it answers, which is within *out_len, and reads at most six bytes behind the input, none if that is a stream; it answers LZO_E_OK or input-not-consumed only if the input is a stream, with an end in any spelling it takes, and the output its meaning; and for every stream its answer and output are what the instruction list prescribes, overruns included |
| LzoMachine.TraceMatch | sub-projects/compression/lzo-kmod/lzo1x_decompress.c:62-219 | a match that has been read and copied extends the instructions read so far, whose bytes are the input up to here and whose meaning is the output |
| LzoDecompress.LocateM3 | sub-projects/compression/lzo-kmod/lzo1x_decompress.c:128-144 | whatever bytes follow the opcode are the spelling of one M3 match, whose distance and length come out; the bytes of an M3 match are read back to its distance, length and tail count |
| LzoDecompress.LocateM4 | sub-projects/compression/lzo-kmod/lzo1x_decompress.c:145-166 | whatever bytes follow the opcode are the spelling of one M4 match or of an end, and these are told apart by distance 0; conversely the bytes of each are read back |
| LzoCopy.CopyMatch | sub-projects/compression/lzo-kmod/lzo1x_decompress.c:187-209 | the match copy, in four-byte words when long and at distance at least four, writes what the overlapping byte-by-byte copy writes, and nothing beyond |
| LzoCopy.CopyRun | sub-projects/compression/lzo-kmod/lzo1x_decompress.c:74-95 | the literal copy in words and bytes writes exactly the announced bytes and nothing beyond |
| LzoCopy.CopyBackWord | sub-projects/compression/lzo-kmod/lzo1x_decompress.c:187-197 | a word of a match at distance at least four equals four byte copies |
| LzoCopy.CopyBackSplit | sub-projects/compression/lzo-kmod/lzo1x_decompress.c:203-208 | a match copy may be done in two parts |
| LzoFormat.CopyBackRepeats | sub-projects/compression/lzo-kmod/lzo1x_compress.c:102-133 | copying back over a stretch that repeats an earlier one continues the original |
| LzoFormat.FailureIsFinal | sub-projects/compression/lzo-kmod/lzo1x_decompress.c:238-249 | the first failing instruction of a stream decides its outcome |
| DlIndex.IndexUnique | sub-projects/allocators/dlmalloc-copy/dlmalloc.c:2216-2247 | the branch-free tree index of a size from 256 on is the one bin with minsize(i) <= size < minsize(i+1), the last bin unbounded |
| DlIndex.IndexMonotone | sub-projects/allocators/dlmalloc-copy/dlmalloc.c:2216-2227 | the tree index is monotone in the size |
| DlTrie.LeftShiftPlaces | sub-projects/allocators/dlmalloc-copy/dlmalloc.c:2233-2236 | the left shift of bin i brings the bit that splits the bin into the sign position |
| DlTrie.ResolvedBit | sub-projects/allocators/dlmalloc-copy/dlmalloc.c:2228-2236 | that bit is the highest in which two sizes of one bin can differ, and some do differ in it |
| DlTrie.KeyStep | sub-projects/allocators/dlmalloc-copy/dlmalloc.c:2952-2956 | doubling the shifted size keeps the branch to take in the sign bit, at every depth |
| DlBins.MemberFacts | sub-projects/allocators/dlmalloc-copy/dlmalloc.c:2600-2649 | each chunk in a tree bin is in one ring of equal sizes, of which only the node has a parent |
| DlTreeOps.TreeBins.InsertLargeChunk | sub-projects/allocators/dlmalloc-copy/dlmalloc.c:2937-2986 | the tree bins stay bitwise tries with one ring per size and a treemap that tells emptiness, and hold exactly one chunk more |
| DlTreeOps.TreeBins.UnlinkLargeChunk | sub-projects/allocators/dlmalloc-copy/dlmalloc.c:3005-3074 | the same with exactly the one chunk less, whether it was chained, shared its ring, or was replaced by the rightmost leaf below it |
| DlTreeOps.TreeBins.Descend | sub-projects/allocators/dlmalloc-copy/dlmalloc.c:2951-2969 | the walk along the bits of the size ends at its node or at the only free place for it |
| DlTreeOps.FollowKey | sub-projects/allocators/dlmalloc-copy/dlmalloc.c:2953-2958 | every node of the size sought lies below the branch the sign bit selects |
| DlFit.BestFit | sub-projects/allocators/dlmalloc-copy/dlmalloc.c:3621-3670 | the walk with the deepest untaken right subtree, the next bin, and the leftmost walk, with wrapped comparisons, find a chunk of least size that holds the request over all bins, or that there is none |
| DlFit.LeastChunk | sub-projects/allocators/dlmalloc-copy/dlmalloc.c:3694-3710 | the search for a small request finds the least chunk of all tree bins |
| DlFit.NextBin | sub-projects/allocators/dlmalloc-copy/dlmalloc.c:3652-3659 | left_bits, least_bit and compute_bit2idx find the lowest marked bin above the request's |
| DlFit.LeastIndex | sub-projects/allocators/dlmalloc-copy/dlmalloc.c:2279-2294 | the arithmetic bit search finds the index of the lowest set bit |
| DlMalloc.Malloc.Malloc | sub-projects/allocators/dlmalloc-copy/dlmalloc.c:4023-4153 | the heap invariant is kept; null comes back, with nothing changed, exactly if no free chunk could serve the request; otherwise which chunk serves is stated over the heap before: dv, if it holds a large request and no binned chunk that does is smaller, or holds a small one and no chunk of its size or the next small one is binned; else a least binned chunk that holds it, the first of its bin if small; else top; it is cut exactly if a chunk can remain, what remains is the new top or dv or is binned, nothing else changes use, and the chunks in use before hold what they held |
| DlMalloc.LargeChosen | sub-projects/allocators/dlmalloc-copy/dlmalloc.c:3672-3690 | what the search of the tree bins and the comparison with dv settle for a large request is a best fit over all binned chunks, small bins included, or that dv serves or nothing binned does |
| DlMalloc.SmallChosen | sub-projects/allocators/dlmalloc-copy/dlmalloc.c:4055-4092 | the first marked small bin from that of the request on has a least binned chunk that holds it |
| DlMalloc.TreeChosen | sub-projects/allocators/dlmalloc-copy/dlmalloc.c:4094-4097 | with no such bin marked, a least chunk of the trees is one |
| DlMalloc.AfterBins | sub-projects/allocators/dlmalloc-copy/dlmalloc.c:4113-4145 | with the bins passed over the request is for dv, or else for top, or else nothing free could serve it |
| DlMalloc.Malloc.Free | sub-projects/allocators/dlmalloc-copy/dlmalloc.c:4155-4248 | the heap invariant is kept through all cases of consolidation, exactly the given chunk is no longer in use, and all others hold what they held; if top or dv is next to it, it becomes part of that, with the free chunk on its other side, and of top if both are; otherwise top and dv stay |
| DlMalloc.Malloc.constructor | sub-projects/allocators/dlmalloc-copy/dlmalloc.c:3181-3203 | a segment of one free top chunk and empty bins satisfies the invariant |
| DlMalloc.SegmentInvariant | sub-projects/allocators/dlmalloc-copy/dlmalloc.c:2518-2779 | between calls: heads state the tiling, chunks do not overlap, the flags and the foot agree with the neighbours, no two neighbours are free, and each free chunk is exactly one of top, dv, or a member of exactly the bin for its size |
| DlMalloc.OwnBytes | sub-projects/allocators/dlmalloc-copy/dlmalloc.c:2552-2561 | the owner of a chunk may store anything at every place from its link fields to the foot field of the next chunk, as any records that come to be read in between, without harm to the invariant, to what is in use, or to what other owners hold |
| DlKept.RelinkKeeps | sub-projects/allocators/dlmalloc-copy/dlmalloc.c:2866-3074 | the bins change link fields of free chunks and bin headers only: every chunk in use keeps its bytes |
| DlKept.CutKeeps | sub-projects/allocators/dlmalloc-copy/dlmalloc.c:4133-4143 | the two heads written when a free chunk is cut touch no byte of a chunk in use |
| DlKept.FreeMergedKeeps | sub-projects/allocators/dlmalloc-copy/dlmalloc.c:4220-4236 | the stores that merge a freed chunk with the free one behind it touch no byte of another chunk in use |
| DlMalloc.NothingLeft | sub-projects/allocators/dlmalloc-copy/dlmalloc.c:4113-4145 | when no binned chunk holds the request, and dv and top do not, no free chunk could serve it |
| DlMalloc.Malloc.TmallocLarge | sub-projects/allocators/dlmalloc-copy/dlmalloc.c:3621-3691 | the best fitting tree chunk is taken unless dv fits better, and otherwise dv is at most as large as any that fits |
| DlMalloc.Malloc.TmallocSmall | sub-projects/allocators/dlmalloc-copy/dlmalloc.c:3694-3730 | the least tree chunk is taken, and a remainder large enough becomes dv |
| DlMalloc.Malloc.SmallRequest | sub-projects/allocators/dlmalloc-copy/dlmalloc.c:4050-4102 | a small request is served from the exact or next bin, from a later bin, or from the trees, by the chunk the choice above prescribes; otherwise that choice is dv, or nothing binned holds the request |
| DlMalloc.Malloc.TakeDv | sub-projects/allocators/dlmalloc-copy/dlmalloc.c:4113-4131 | the request is served at the address of dv, with less than a minimal chunk to spare |
| DlMalloc.Malloc.SplitTopChunk | sub-projects/allocators/dlmalloc-copy/dlmalloc.c:4133-4143 | the request is served at the address of top, in its exact size or with less than a minimal chunk to spare |
| DlMalloc.Malloc.UnlinkChunk | sub-projects/allocators/dlmalloc-copy/dlmalloc.c:3082-3084 | a chunk leaves exactly its bin |
| DlMalloc.Malloc.InsertChunk | sub-projects/allocators/dlmalloc-copy/dlmalloc.c:3078-3080 | a free chunk enters exactly the bin for its size |
| DlMalloc.BestChosen | sub-projects/allocators/dlmalloc-copy/dlmalloc.c:3672-3673 | the comparison rsize < dvsize - nb in wrapped arithmetic decides between dv and the tree chunk as intended, also when dv is too small |
| DlMalloc.NeededFacts | sub-projects/allocators/dlmalloc-copy/dlmalloc.c:1637-1648 | padding keeps alignment, room for the head, the boundary between small and large requests, and the range of size_t |
| DlChunks.UseOk | sub-projects/allocators/dlmalloc-copy/dlmalloc.c:2402-2405 | handing out a whole free chunk keeps the heap and adds it to the chunks in use |
| DlChunks.CarveOk | sub-projects/allocators/dlmalloc-copy/dlmalloc.c:2407-2409 | handing out the front of a free chunk keeps the heap, the rest being a free chunk of its own |
| DlChunks.ReleaseHere | sub-projects/allocators/dlmalloc-copy/dlmalloc.c:4237-4241 | freeing between used neighbours keeps the heap |
| DlChunks.ReleaseMerged | sub-projects/allocators/dlmalloc-copy/dlmalloc.c:4220-4236 | freeing in front of a free chunk makes one free chunk of the two |
| DlChunks.ReleaseTop | sub-projects/allocators/dlmalloc-copy/dlmalloc.c:4208-4219 | freeing in front of top makes it part of top |
| DlSmall.InsertSmallOk | sub-projects/allocators/dlmalloc-copy/dlmalloc.c:2866-2882 | the four stores of a small-bin insertion keep all bins and the map |
| DlSmall.UnlinkSmallOk | sub-projects/allocators/dlmalloc-copy/dlmalloc.c:2885-2919 | leaving a small bin keeps all bins; the map bit goes exactly with the last chunk, and the test F == B tells that |
| XvPool.Pool.Malloc | sub-projects/allocators/xvmalloc-kmod/xvmalloc.c:329-400 | the pool invariant is kept; success exactly if the size is 1..4092 and some free block holds it, rounded up to 8 and at least 32 bytes, or a page was supplied and the size is at most 4088; a page is taken only if no free block does; the block that serves was free before, by eights no larger than any other that holds the request, or is the start of the new page; every other object keeps place, size and bytes |
| XvPool.Pool.Free | sub-projects/allocators/xvmalloc-kmod/xvmalloc.c:405-476 | the pool invariant is kept, exactly the object goes, all others keep their bytes, and the page is given back exactly when nothing else lives in it |
| XvPool.Pool.Write | zram_drv.c:394-409 | an owner's store inside its object keeps the pool and every other object |
| XvPool.PoolInvariant | sub-projects/allocators/xvmalloc-kmod/xvmalloc.c:171-290 | each block of a page states its extent, PREV_FREE holds exactly behind a free block and then prev names it, no two neighbours are free, and a block of at least 32 bytes is on exactly the list for its size when free, smaller or used ones on none |
| XvPool.Pool.InsertBlock | sub-projects/allocators/xvmalloc-kmod/xvmalloc.c:171-200 | the block is on the list for its size, with lists, links and both bitmap levels consistent again; no header and no used payload changes |
| XvPool.Pool.RemoveBlock | sub-projects/allocators/xvmalloc-kmod/xvmalloc.c:234-263 | the block is on no list, wherever it was, with lists, links and both bitmap levels consistent again; no header and no used payload changes |
| XvPool.Pool.GrowPool | sub-projects/allocators/xvmalloc-kmod/xvmalloc.c:265-290 | a page joins the pool as one free block |
| XvIndex.FindBlock | sub-projects/allocators/xvmalloc-kmod/xvmalloc.c:109-165 | the head of the lowest non-empty list at or above the request's index is found, as a linear scan would find it, and null means all those lists are empty |
| XvIndex.IndexFits | sub-projects/allocators/xvmalloc-kmod/xvmalloc.c:76-96 | a free block is on a list from the index of a request on exactly if it holds the request, rounded up to 8 and at least 32 bytes |
| XvHeap.FitsExactly | sub-projects/allocators/xvmalloc-kmod/xvmalloc.c:109-165 | the search finds a list exactly if some free block of the heap holds the request |
| XvHeap.FoundGoodFit | sub-projects/allocators/xvmalloc-kmod/xvmalloc.c:109-165 | the block that it leads to holds the request, and by eights no free block that does is smaller |
| XvIndex.SearchIndexInRange | sub-projects/allocators/xvmalloc-kmod/xvmalloc.c:88-96 | the search index names an existing list exactly for sizes up to 4088; for 4089..4092 it is one past the last list |
| XvIndex.PageFits | sub-projects/allocators/xvmalloc-kmod/xvmalloc.c:265-290 | a fresh page can serve every request up to 4088 bytes |
| XvHeap.PrevFieldKeepsApart | sub-projects/allocators/xvmalloc-kmod/xvmalloc.c:56-64 | the previous offset and the two flags packed into one field are read back independently |
| BoundaryTags.HoldsKept | sub-projects/allocators/xvmalloc-kmod/xvmalloc.c:405-476 | a used block holds after any operation on other blocks what it held before |
| BoundaryTags.WriteOk | zram_drv.c:394-409 | a store into a used block changes no header, no list and no other payload |
| Coalesce.SwallowOk | sub-projects/allocators/xvmalloc-kmod/xvmalloc.c:426-452 | merging a block with its successor by one store keeps the heap |
| Coalesce.RemainderCut | sub-projects/allocators/xvmalloc-kmod/xvmalloc.c:369-384 | writing the header of a remainder cuts the block in two |
| FreeIndex.PushOk | sub-projects/allocators/xvmalloc-kmod/xvmalloc.c:171-200 | pushing a block on a list changes that list, its two bitmap bits and link fields of free blocks only |
| FreeIndex.DropOk | sub-projects/allocators/xvmalloc-kmod/xvmalloc.c:234-263 | taking a block out of a list does so too, clearing the bits exactly when the list becomes empty |
| Tiling.SplitTiled | sub-projects/allocators/xvmalloc-kmod/xvmalloc.c:369-384 | cutting a block leaves a partition into disjoint, adjacent blocks |
| Tiling.MergeTiled | sub-projects/allocators/xvmalloc-kmod/xvmalloc.c:426-452 | merging neighbours does |
| TlsfPool.Pool.Malloc | sub-projects/allocators/tlsf-kmod/tlsf.c:471-561 | the retry loop, for every size and every run of get_mem: the pool invariant is kept, and the outcome (served, null, or a fault), with the number of regions taken, is the answer that AnswerTo defines from the classes that have blocks; without growth the block that serves was free before, and no free block that holds the rounded request was smaller by more than a thirty-second, and after growth it is that of the last region taken; it now has the rounded size and less than a header and a minimal block more, the regions taken are in the pool, and all other blocks keep their bytes |
| TlsfFit.FoundNear | sub-projects/allocators/tlsf-kmod/tlsf.c:209-229 | the head of the first list with blocks from the search class on holds the rounded request, and no free block that does is smaller by more than a thirty-second |
| TlsfFit.ClassWidth | sub-projects/allocators/tlsf-kmod/tlsf.c:193-207 | aligned sizes of one class differ by at most a thirty-second |
| TlsfLimit.LimitHolds | sub-projects/allocators/tlsf-kmod/tlsf.c:506-509 | in every state of a pool that still has its initial region, the regions together are at most max_size, and growth is refused for the limit exactly if one more region would exceed it; for sizes below 4 GiB and a sum that does not wrap |
| TlsfLimit.SafeHolds | sub-projects/allocators/tlsf-kmod/tlsf.c:506-509 | without the initial region this is so, too, if as many regions of grow_size as the check then allows are at most max_size |
| TlsfLimit.SmallGrowthSafe | sub-projects/allocators/tlsf-kmod/tlsf.c:506-509 | in particular if grow_size is at most init_size |
| TlsfBeyond.ExceedLimit | sub-projects/allocators/tlsf-kmod/tlsf.c:471-626 | in all other cases, with regions of up to 1 GiB, a run of requests and one release takes the pool beyond max_size: the condition is exact |
| TlsfBeyond.FirstReturned | sub-projects/allocators/tlsf-kmod/tlsf.c:600-609 | with the release of the only block used in it the initial region goes back |
| TlsfAnswer.OrdinaryAnswer | sub-projects/allocators/tlsf-kmod/tlsf.c:471-517 | every answer to a request up to 63 times 16 MiB, for any region size: it is served at once exactly if a class from its own on has a block; otherwise growing once serves it, unless growing is not allowed, there is no memory, the region has an impossible size, or what is used of the region is too small, when memory is taken for as long as there is any |
| TlsfAnswer.OneGrowth | sub-projects/allocators/tlsf-kmod/tlsf.c:486-517 | with regions of up to 1 GiB at most one is taken, and the search after it succeeds |
| TlsfAnswer.GrowsInVain | sub-projects/allocators/tlsf-kmod/tlsf.c:497-517 | a pool that grows by 4 GiB and 64 KiB takes all memory there is for a request of 128 KiB, and does not serve it |
| TlsfAnswer.WideAnswer | sub-projects/allocators/tlsf-kmod/tlsf.c:471-517 | every answer to a larger request: it is never served, and null comes back exactly if every search stays inside the tables and finds no block |
| TlsfPool.Pool.Free | sub-projects/allocators/tlsf-kmod/tlsf.c:569-626 | the pool invariant is kept, exactly the block goes, all others keep their bytes, and its region is returned, with its sentinel, exactly when nothing else in it is in use |
| TlsfPool.Pool.AddRegion | sub-projects/allocators/tlsf-kmod/tlsf.c:285-304 | a region joins as one free block and a sentinel, in the length that the low 32 bits of its size tell, on exactly the list for it, and used_size counts the sentinel; it cannot exactly if that length is 0 or above 1 GiB |
| TlsfPool.PoolInvariant | sub-projects/allocators/tlsf-kmod/tlsf.c:231-304 | prev_hdr names the physical predecessor and is null only at the start of a region, sizes lead to the next block, flags agree, no two neighbours are free, size 0 marks exactly the end of a region, and each free block is on exactly the list for its size |
| TlsfPool.Pool.Create | sub-projects/allocators/tlsf-kmod/tlsf.c:321-389 | with memory for the pool and for an initial region of a possible size, and only then, a pool comes back that holds that one region, in the length that the low 32 bits of its size tell; sizes are rounded up to pages in wrapped arithmetic |
| TlsfPool.FitsExactly | sub-projects/allocators/tlsf-kmod/tlsf.c:209-229 | the lists serve a request exactly if it is for at most 63 times 16 MiB and some free block has room for it, rounded |
| TlsfPool.Pool.ExtractBlock | sub-projects/allocators/tlsf-kmod/tlsf.c:248-269 | the block is on no list, wherever it was, with lists, links and bitmaps consistent again; no header and no used payload changes |
| TlsfMap.SearchRounds | sub-projects/allocators/tlsf-kmod/tlsf.c:168-191 | a request is rounded up by at most a thirty-second, not at all below 128, to the lower end of a class, and the search starts at that class |
| TlsfMap.SearchIdempotent | sub-projects/allocators/tlsf-kmod/tlsf.c:168-191 | mapping a mapped request again changes nothing |
| TlsfMap.GoodFit | sub-projects/allocators/tlsf-kmod/tlsf.c:168-207 | for aligned requests, exactly the blocks on lists from the search index on are large enough for the rounded request |
| TlsfMap.IndexMonotone | sub-projects/allocators/tlsf-kmod/tlsf.c:193-207 | larger blocks are on the same list or on later ones |
| TlsfMap.InsertInRange | sub-projects/allocators/tlsf-kmod/tlsf.c:193-207 | a block has a list inside the matrix exactly if it is below 1 GiB |
| TlsfWide.SearchOrdinary | sub-projects/allocators/tlsf-kmod/tlsf.c:168-191 | up to 63 times 16 MiB the int and 32-bit arithmetic of the search gives what the mapping in unbounded arithmetic gives |
| TlsfWide.SearchStays | sub-projects/allocators/tlsf-kmod/tlsf.c:168-191 | for every size_t, the search stays inside the tables exactly if the size is below 128; or its low word is between 64 and 63 times 16 MiB and the high word is a multiple of the step of the class that the low word is rounded into; or rounding carries out of the low word, 64 bytes or more are left there, and their step divides the high word plus 1 |
| TlsfWide.WideInside | sub-projects/allocators/tlsf-kmod/tlsf.c:181-190 | two such sizes: 2^33 + 64, whose search starts at class (0, 0), and 2^52 less 16, with a carry |
| TlsfWide.WideSize | sub-projects/allocators/tlsf-kmod/tlsf.c:181-190 | a larger request whose search stays inside is still for 4 GiB or more after rounding, or has wrapped to 0 |
| TlsfWide.SearchAgain | sub-projects/allocators/tlsf-kmod/tlsf.c:486-517 | for every size_t, searching again leaves the size as the first search left it and starts at the same class or a later one |
| TlsfWide.Misfit | sub-projects/allocators/tlsf-kmod/tlsf.c:519-541 | with a block found for such a request the source cuts one off behind an end that is not the block's, or behind no bytes, unless the request is 0 and the block of the least size |
| TlsfWide.JustBelowOneGiB | sub-projects/allocators/tlsf-kmod/tlsf.c:168-207 | a block of 1 GiB less 16 bytes has a list, but the search for as much leaves the tables |
| TlsfMap.RequestIs | sub-projects/allocators/tlsf-kmod/tlsf.c:485-485 | rounding a request up to 16 bytes, in the arithmetic of size_t, keeps its order of magnitude except for the last 15 sizes, which become 0 |
| TlsfMap.RegionInRange | sub-projects/allocators/tlsf-kmod/tlsf.c:285-304 | a region of whole pages becomes one listed block exactly if the low 32 bits of its size are neither 0 nor above 1 GiB, and these are what is used of it |
| TlsfMap.FindSuitableBlock | sub-projects/allocators/tlsf-kmod/tlsf.c:209-229 | the two bitmap searches find the first non-empty list from the given class on, as a linear scan would |
| TlsfSteps.ReleaseStep | sub-projects/allocators/tlsf-kmod/tlsf.c:600-609 | a region that is one free block and its sentinel can be given back whole |
| TlsfRealloc.Area.Realloc | sub-projects/allocators/tlsf-copy/tlsf.c:778-859 | for every size_t: realloc_ex keeps the heap, yields a block of at least the rounded size, keeps the first min(old, new) bytes, changes no other used block, and stays in place whenever it can, for every call but those that fault and the last 15 sizes; with a block it faults exactly where that cannot stay and no list has one for the size, without one exactly where malloc_ex does; the last 15 sizes give the block back in place, the heap as it was exactly if the block has 16 bytes and its successor is used, and otherwise, outside the invariant, with no bytes left, all other used blocks being kept |
| TlsfRealloc.ResizeWithoutRoom | sub-projects/allocators/tlsf-copy/tlsf.c:778-859 | in an area of 4096 bytes, after a request of 16 bytes, a resize to 100000 faults |
| TlsfRealloc.Area.Shrink | sub-projects/allocators/tlsf-copy/tlsf.c:802-825 | shrinking keeps the leading bytes and lists what is cut off, together with a free successor; the invariant is kept unless nothing is left of the block |
| TlsfRealloc.Area.Absorb | sub-projects/allocators/tlsf-copy/tlsf.c:826-848 | growing into a free successor keeps all old bytes |
| TlsfRealloc.Area.Move | sub-projects/allocators/tlsf-copy/tlsf.c:851-858 | moving copies the old bytes into a new block before the old one is freed; it faults exactly if no list has a block |
| TlsfRealloc.Area.Malloc | sub-projects/allocators/tlsf-copy/tlsf.c:677-735 | for every size_t: malloc_ex succeeds exactly if a list can serve the rounded request, and hands out a new block without touching others; it faults exactly if the search leaves the tables or finds a block for a request too large for any; otherwise null comes back and nothing changes |
| TlsfRealloc.Area.Free | sub-projects/allocators/tlsf-copy/tlsf.c:739-774 | free_ex takes away exactly the block, merging it with free neighbours |
| TlsfRealloc.Area.Create | sub-projects/allocators/tlsf-copy/tlsf.c:410-428 | an area becomes one free block and its sentinel exactly if the low 32 bits of the main block's size are neither 0 nor from 1 GiB on |
| TlsfRealloc.Area.InitMemoryPool | sub-projects/allocators/tlsf-copy/tlsf.c:438-474 | null, too little memory and misaligned memory are refused and nothing else is; the heap then is one free block, at the place and of the size that the rounding of the description up and of the rest down gives, and its sentinel |
| TlsfRealloc.SentinelInside | sub-projects/allocators/tlsf-copy/tlsf.c:459-474 | the sentinel of a new pool ends inside the memory given exactly if rounding the rest down takes at least what rounding the description up adds, or the 32-bit size cuts the main block short |
| TlsfRealloc.SentinelSizes | sub-projects/allocators/tlsf-copy/tlsf.c:198-224 | so always with a description of 6304 bytes, with the lock of the Makefile's configuration, and without the lock, 6264 bytes, exactly for pool sizes with a remainder below 8 by 16 |
| TlsfTrim.CopyStep | sub-projects/allocators/tlsf-copy/tlsf.c:853-855 | the copy delivers every byte of the source and touches no header, list or other block |
| TlsfTrim.OpenMerged | sub-projects/allocators/tlsf-copy/tlsf.c:804-811 | a used block and the free one behind it can be treated as one block to be cut |
| TlsfTrim.JoinedStep | sub-projects/allocators/tlsf-copy/tlsf.c:832-834 | the successor of a block that grew learns that its predecessor is in use |
| ZsLayout.GetZspageOrder | sub-projects/allocators/zsmalloc-kmod/zsmalloc.c:189-210 | the page count chosen is within bounds, the first of those with the best use, and no smaller count is an exact fit |
| ZsLayout.FirstExactFit | sub-projects/allocators/zsmalloc-kmod/zsmalloc.c:189-210 | the first page count with the best percentage is the first exact fit if there is one |
| ZsLayout.Located | sub-projects/allocators/zsmalloc-kmod/zsmalloc.c:265-274 | slot j starts at byte j * size counted through the pages: in page j * size / PAGE at the offset its index there gives |
| ZsLayout.LocatedAt | sub-projects/allocators/zsmalloc-kmod/zsmalloc.c:265-274 | every index in a page names a slot that starts in that page |
| ZsLayout.PageInRange | sub-projects/allocators/zsmalloc-kmod/zsmalloc.c:306-349 | the slots of a zspage are those that start in its pages |
| ZsLayout.ObjectsDisjoint | sub-projects/allocators/zsmalloc-kmod/zsmalloc.c:306-349 | objects are whole, disjoint and inside the zspage |
| ZsInit.InitZspage | sub-projects/allocators/zsmalloc-kmod/zsmalloc.c:306-349 | with the chosen page count, the recurrence records in each page where its first object starts and threads the free list through every slot in order, for any page and class size |
| ZsInit.ExactFitWouldSkip | sub-projects/allocators/zsmalloc-kmod/zsmalloc.c:316-347 | after an exact fit before the last page the recurrence would skip an object, which is why the choice of the page count matters |
| ZsInit.HandleRoundTrip | sub-projects/allocators/zsmalloc-kmod/zsmalloc.c:240-263 | a handle gives back the page and index it was made of, and is not null |
| ZsInit.HandleUnique | sub-projects/allocators/zsmalloc-kmod/zsmalloc.c:240-263 | different slots of a zspage have different handles |
| ZsInit.AddrUnique | sub-projects/allocators/zsmalloc-kmod/zsmalloc.c:265-274 | different slots lie at different addresses |
| ZsPool.Pool.Malloc | sub-projects/allocators/zsmalloc-kmod/zsmalloc.c:510-557 | the invariant is kept; null exactly for a bad size, or when all zspages of the class are full and no page is to be had; the handle is new and names a whole object of the class in the zspage that serves: one with room, with more than a quarter in use if any such has room, and a new one only if all are full; no other handle changes |
| ZsPool.Preferred | sub-projects/allocators/zsmalloc-kmod/zsmalloc.c:412-425 | the heads of the two fullness lists, in turn, are such a zspage |
| ZsPool.Pool.Free | sub-projects/allocators/zsmalloc-kmod/zsmalloc.c:560-599 | the invariant is kept, exactly the handle dies, and a zspage goes back exactly when it has become empty |
| ZsPool.Pool.FixFullnessGroup | sub-projects/allocators/zsmalloc-kmod/zsmalloc.c:154-175 | the zspage moves to the list its fullness names |
| ZsPool.PoolInvariant | sub-projects/allocators/zsmalloc-kmod/zsmalloc.c:95-175 | each zspage is on exactly the list get_fullness_group names, none when full or empty; its free list is its objects not in use followed by the partial slot, if any, which is never handed out |
| ZsPool.HandleDetermines | sub-projects/allocators/zsmalloc-kmod/zsmalloc.c:240-263 | a live handle belongs to one object of one zspage |
| ZsPool.ObjectsApart | sub-projects/allocators/zsmalloc-kmod/zsmalloc.c:306-349 | live objects of one or of different zspages share no byte |
| ZsZspage.TakeOk | sub-projects/allocators/zsmalloc-kmod/zsmalloc.c:541-551 | taking the head of the free list keeps the zspage and hands out a whole object that was not in use |
| ZsZspage.PutOk | sub-projects/allocators/zsmalloc-kmod/zsmalloc.c:582-589 | putting an object back at the head keeps the zspage |
| ZsZspage.HandleLocates | sub-projects/allocators/zsmalloc-kmod/zsmalloc.c:256-274 | a handle leads back to the object's first byte |
| ZsZspage.ClassFits | sub-projects/allocators/zsmalloc-kmod/zsmalloc.c:84-93 | the class of a request exists and its size is at least the request |
| ZramDrv.Zram.Write | zram_drv.c:302-432 | a write stores its pages in order up to the first failure, whose slot becomes absent; it fails only if the page allocator refused a page during the call, and never at a page of zeros; each page stored is held as the next row says; the event history records all this and the disk remains what its history makes of it |
| ZramDrv.Zram.Read | zram_drv.c:221-300 | every page read is the data of the last successful write of its slot with no later discard or failed write, and the caller's page is left alone where there is none; a page named by several segments ends up with the last data delivered into it |
| ZramDrv.LandedIs | zram_drv.c:221-300 | of the segments of a read that name one page, the last whose slot holds data decides what the page holds, and without any it is left alone |
| ZramDrv.Zram.Discard | zram_drv.c:176-192 | the slots become absent |
| ZramDrv.Zram.WritePage | zram_drv.c:302-423 | one slot takes the page, or becomes absent with the failure counted, and then the page allocator refused; it is Zero exactly for a page of zeros, and otherwise packed exactly if the stream that the compressor makes is at most 3072 bytes long, and raw if not; table, allocator, statistics and all other slots stay consistent on every path |
| ZramDrv.Zram.StorePacked | zram_drv.c:384-419 | storing a stream fails exactly if the page allocator refuses and the pool has no free block for it |
| ZramDrv.UniformPacked | zram_drv.c:364-382 | a page of one byte throughout, other than zero, is held in at most 29 bytes, and never raw |
| ZramDrv.Zram.ReadPage | zram_drv.c:221-293 | one slot is delivered: zeros, the raw page, the decompressed object, or nothing |
| ZramDrv.Zram.FreePage | zram_drv.c:132-174 | a slot becomes absent, the others stay, and the statistics remain those of the table |
| ZramDrv.Zram.constructor | zram_drv.c:527-581 | a new device is empty and consistent |
| ZramDrv.PageZeroFilled | zram_drv.c:88-101 | the word-wise test holds exactly for a page of zero bytes |
| ZramDrv.DeliveredBy | zram_drv.c:221-300 | what the array of optional pages holds is what the last event of the slot says |
| ZramTable.LastWriteWins | zram_drv.c:302-432 | after any run of stores, failures and discards a slot holds data exactly if its last event stored them |
| ZramTable.WriteAfter | zram_drv.c:302-432 | a write request, complete or cut short, has the effect of its events |
| ZramTable.DiscardsAfter | zram_drv.c:176-192 | so does a discard |
| ZramTable.TotalsUpdate | zram_drv.c:132-174 | changing one slot changes the recomputed statistics by the difference of the two shares |
| ZramTable.TakePackedOk | zram_drv.c:384-419 | storing an object keeps the table consistent with the allocator and the statistics equal to those recomputed from the table and the stored sizes |
| ZramTable.FreePackedOk | zram_drv.c:132-174 | freeing one does |
| ZramTable.OwnersDistinct | zram_drv.c:302-432 | no two slots share an object or a page |

## Left out

LZO
- LzoMachine.DecompressSafe: an empty input is left out. Its first byte already comes from behind the input; where that starts a run of literals, no check after it stops at the end of the input, and there is no bound on what is read.
- The dictionary holds distances from the start of the input, as 64-bit pointers would; inputs are below 2^60 bytes.
- `EmitLiterals` is one method for the literal code that both functions of the compressor contain.

dlmalloc
- One segment that cannot grow: `sys_alloc` gives nothing. Segments, direct mmap, trimming, realloc, calloc and independent allocation, mspaces, FOOTERS and locks are not modelled.
- The RTCHECK tests hold under the invariant and are not written out.
- Memory is a map of chunk records. What the owner of a chunk stores appears as the fields of records in it, up to the foot field behind; `OwnersKept` is stated over these.
- The memory is a field of the object that holds the tree bins (`trees`), which the heap around them shares.

xvmalloc
- Atomic page mapping and the pool lock; the page allocator appears as a page number, 0 for failure. An address is page number times 4096 plus offset.
- The packing of the previous offset with the flags is proved apart from the heap, in which a header is a record.

TLSF
- The memory provider appears as the `supply` argument of `Malloc`: the regions that `get_mem` gives one after the other until it fails. A call that faults leaves the model unchanged, but for regions taken before: what the source then does to memory outside its tables or behind a block is not modelled.
- The retry limit of the debug build, extra statistics, `tlsf_get_total_size` and the destruction of pools are not modelled; nor are other users of the pool between a growth and the search after it.
- `AddRegion` stores the header of the sentinel before the free block is put on its list; the stores do not overlap.
- Of the original TLSF: `add_new_area`, statistics, `calloc_ex`, and `init_memory_pool` on memory that already holds a pool; the size of the pool's description, which depends on the configuration, is an argument. An `Area` has one area; the invariant allows any number. The block that describes the area is never freed and lies outside the modelled heap.

zsmalloc
- A zspage is allocated and given back whole, all pages or none; the failure path of `alloc_zspage` and the loop of `free_zspage` are not modelled.
- Mapping of objects, their contents, and the counter of allocated pages. The fullness lists are sequences, as the kernel's list primitives keep them.
- Handles have 30 index bits (46 bits of physical memory). The layout lemmas hold for any page and class size in range, the pool is for 4 KiB pages.

zram
- Requests lie inside the disk and consist of whole pages. `valid_io_request`, bio completion, device reset and failures of device creation are not modelled.
- The page allocator is the class `PageSource`, of which only the contract matters: a page not held, or a refusal, which it counts. It is asked before each `xv_malloc`, whether or not that needs a page. The header in front of a stored object is empty.
- Locks, and the wrap-around of 32-bit counters.
- The variant under zram_scale, and the other ports of the allocators.
