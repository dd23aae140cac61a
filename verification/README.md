# Proofs about ucore

This project models the parts of the ucore teaching operating system whose correctness is least
obvious, and proves what they promise. `dafny verify dfyconfig.toml` checks all of it.

Each part has a model of what the code computes, as functions on values; classes whose methods do what
the C functions do, in place, and are proved to compute those functions; and lemmas that say what is
true of the functions, of whole runs, and between operations.

**Skew heap** (`Skew*.dfy`, `StrideOrder.dfy`). The priority queue of the stride scheduler: a tree of
entries with parent pointers, relinked in place. Merge, insert and the removal of any entry are proved
on the heap of objects, with their amortised cost. The comparator must order the entries; exactly when
the scheduler's comparator of wrapping 32-bit strides does so is proved too. Running processes keeps it
so; a process that joins can break it, since a new one has stride 0 whatever the others have come to.
Among equal strides the process queued last is on top (`SkewCost.RunRoot`).
The comparator may not depend on the links that are being changed. Cost is counted in calls of merge.

**Buddy allocator** (`Powers.dfy`, `Bits.dfy`, `Buddy*.dfy`). Pages have descriptors; free blocks hang
on eleven lists. A page is named by its index; page 0 has physical page number 0x80000. A function
returns `Panic` where the code fails an assertion or `pa2page` does, and `Wild` where it would touch
what is not there or unlink a page that is on no list. Every page is taken to be reserved and without
`PG_property` when the region is set up: `page_init` sets the one flag and clears nothing, so that no
other is set is an assumption on the memory the descriptors are in.
The code does not keep `PG_property` on exactly the heads of free blocks: when the freed block is the
upper half, line 177 has replaced `base` before line 181 clears the flag, and the merged head is linked
without one. So `Flags.AsWritten`, the code as it is, is proved safe in every run up to an assertion,
with the exact conditions under which a flag goes stale, a later release panics, and two free buddies
are left uncoalesced, each read off the state before the call, and with runs where each happens. What
coalescing is meant to achieve is proved for `Flags.Kept`, a variant of `merge_page` with two changes:
the absorbed head is cleared, and the head that is linked is flagged. Then no two free buddies ever
coexist, wherever the region starts; and nothing panics if there are descriptors for a multiple of 1024
pages (`pa2page` can panic at a buddy past the last descriptor). That returning everything brings the
initial lists back is another matter: it is so exactly when the region starts at a multiple of the size
of its first block. `page_init` aligns the region to pages only, so on most machines it is not so: pages
that were cut as one block come back as neighbours that are no buddies.
`BuddyLists` says what the initial cut and a release leave on every list, in order; `BuddySteps` does so for
a request.

**First fit and best fit** (`Ring.dfy`, `Fit*.dfy`). Both keep one list of free blocks in address
order, threaded through the descriptors as a circular doubly linked list. The insertion loop has no
break after its branch for the end of the list, so the loop turns once more and links the block to
itself. `Loop.Continues` is the code as it is, `Loop.Stops` has the break. `FitMemory` says what each step makes of
any links and descriptors, and `FitAllocator` proves the code, in place, equal to that whenever its loops
end. On memory that records a list these are the operations of `FitBlocks` (`FitRecords`); only an append
by the code as it is is not (`Appends`). `FitAsWritten` follows one further: `list_del` does not take the
block off, so that pages which are out are handed out again, exactly under the condition `Again`; and a
release just below it leaves links that never lead back to the head, so that searches do not end. The
properties of whole runs hold for both loops, for the code as it is as long as nothing is appended, and
`FitCalls` proves every such run to be one of calls on memory that never halt. A release does not notice
pages that are inside a free block; the list is then no longer one of disjoint blocks.

**Image builder** (`Sfs*.dfy`). `mksfs` turns a host directory into an image of the simple file system:
a bump allocator for block numbers, inodes with direct, indirect and doubly indirect blocks, a hash
index of inodes, link counts, a free map, and recursion over the tree. The host is a value: a tree whose
nodes carry host inode numbers, listed in the order of `readdir`. `bug()` and `assert` are results. The
store of `SfsStore` has inodes with the sequences of their blocks; `SfsState` ties it to the memory of the
program, `SfsDisk` to the finished image, and `SfsRoundTrip` has the results about finished images. Host
inodes are told apart by their numbers alone, which may clash between host file systems: `SfsTree` says
what is built whatever the numbers, and `SfsSharing` proves that an image gives its tree back exactly when
no file has a number that was last used for anything but a file with its contents. `SfsDots` says which names
come into an image and which do not, byte for byte.

**Formatter and number parser** (`NumberText.dfy`, `NumberReading.dfy`, `Print*.dfy`). `vprintfmt` as an interpreter of
formats, `vsnprintf` as its bounded form, and `printnum` with its partner `strtol`. `PrintConversions` says
what every conversion puts, and `NumberReading` what `strtol` reads, in terms of the texts alone: a precision in digits
cannot be 0, since that digit is the flag. Two comments there
are not what the code does, and the code is followed: the flag `-`, said to pad on the right, makes
`printnum` pad on the left with dashes, and `%s` takes a width although the heading says that only the
numeric formats do.

**Device tree** (`Device*.dfy`). The walk that looks for the memory node, over trees serialised as in
section 5.4 of the Devicetree Specification. Its flag "in a memory node" goes on into a first child and
is off after any child, so it does not always find the first memory node; the exact condition is proved,
and two trees where it fails. `DeviceBytes` pins names, tokens and lengths on literal bytes.

Integers are unbounded, and wrap where the code relies on it: strides, `nlinks`, the number of blocks
of an image, the hash, and the arguments of formats.

## Model

| member | source | states |
|---|---|---|
| `SkewHeap.Merge` | lab6/libs/skew_heap.h:29-59 | Relinks two disjoint trees in place into the tree that the value-level merge computes: child pointers, back pointers of all children, the root's own parent untouched; the root returned is a if a is below b, and b in every other case, ties among them; and it makes exactly the recursive calls counted. |
| `SkewHeap.Insert` | lab6/libs/skew_heap.h:61-67 | Clears the new entry's links and turns a heap into the heap with that entry more, with a root without parent; that root is the new entry exactly when the heap was empty or its root was not below the new entry. |
| `SkewHeap.Remove` | lab6/libs/skew_heap.h:69-85 | Given the root and any entry of the tree, leaves and returns a well-linked heap without that entry, with the replacement subtree's parent right. |
| `SkewHeap.Replace` | lab6/libs/skew_heap.h:75-84 | The splice at the end of remove: rep takes the place of b below its parent and nowhere else, and points back to that parent. |
| `SkewTree.MergeEntries` | lab6/libs/skew_heap.h:29-59 | A merge holds exactly the entries of both trees. |
| `SkewTree.MergeDistinct` | lab6/libs/skew_heap.h:29-59 | Merging disjoint trees repeats no entry. |
| `SkewTree.MergeOrdered` | lab6/libs/skew_heap.h:29-59 | With a comparator that orders the entries, merging keeps heap order: nothing anywhere is below its ancestors, so the root is minimal. |
| `SkewTree.CutEntries` | lab6/libs/skew_heap.h:69-85 | Removal of an entry leaves exactly the others. |
| `SkewTree.CutOrdered` | lab6/libs/skew_heap.h:69-85 | Removal keeps heap order across the splice. |
| `SkewCost.MergeAmortised` | lab6/libs/skew_heap.h:37-58 | The recursive calls of a merge and the rise of the number of right-heavy nodes are together at most 3 log2 of the size plus 1, whatever the comparator. |
| `SkewCost.InsertAmortised` | lab6/libs/skew_heap.h:61-67 | The same bound for an insertion. |
| `SkewCost.RemoveAmortised` | lab6/libs/skew_heap.h:69-85 | Removing any entry costs at most 4 log2 n + 1 in the same measure; at most log2 n ancestors tip over. |
| `SkewCost.RunKeeps` | lab6/libs/skew_heap.h:61-85 | After any run of legal insertions and removals the heap is ordered and holds exactly what was inserted and not removed since. |
| `SkewCost.RunRoot` | lab6/libs/skew_heap.h:37-67 | After any insertions into the empty heap the root is the last inserted of the entries that none is below: the process queued last among equal strides. |
| `SkewCost.NextRoot` | lab6/libs/skew_heap.h:69-85 | Once the root is removed, its left child's entry comes next only if it is below the right child's. |
| `SkewCost.RunsAreLogarithmic` | lab6/libs/skew_heap.h:29-85 | Any n operations from the empty heap make at most n (4 log2 (n + 1) + 1) calls of merge in all. |
| `StrideOrder.OrderIffWindow` | lab6/kern/schedule/default_sched_stride.c:16-28 | The comparator orders a set of strides, as the heap needs, if and only if they all lie within half the 32-bit range ahead of one of them. |
| `StrideOrder.RunningKeepsOrder` | lab6/kern/schedule/default_sched_stride.c:124-141 | Advancing a least stride by BIG_STRIDE over the priority keeps all queued strides in such a window, so the order survives wrap-around. |
| `StrideOrder.EnqueueIff` | lab6/kern/schedule/default_sched_stride.c:68-89 | A stride that joins a queue in order leaves it in order if and only if it is less than half the range ahead of the least, or all are less than half the range ahead of it. |
| `StrideOrder.NewProcessCycle` | lab6/kern/process/proc.c:166 | A queue of two strides in good order with which a new process, of stride 0, makes a cycle. |
| `BuddySystem.Allocator.Init` | lab2/kern/mm/buddysystem_pmm.c:22-35 | All eleven lists become empty with count 0. |
| `BuddySystem.Allocator.InitMemmap` | lab2/kern/mm/buddysystem_pmm.c:38-73 | Computes BuddyModel.InitMemmap in place: halts exactly for no pages or a page that is not reserved. |
| `BuddySystem.Allocator.SplitPage` | lab2/kern/mm/buddysystem_pmm.c:76-102 | Computes the recursive split; halts exactly outside orders 1 to 10. |
| `BuddySystem.Allocator.AllocPages` | lab2/kern/mm/buddysystem_pmm.c:105-141 | Computes the request: order, search, repeated splits, and taking the front of the list. |
| `BuddySystem.Allocator.MergePage` | lab2/kern/mm/buddysystem_pmm.c:148-185 | Computes the recursive merge in place, list_del of the absorbed buddy and the links of the block that results among it, and halts exactly when pa2page panics. |
| `BuddySystem.Allocator.FreePages` | lab2/kern/mm/buddysystem_pmm.c:188-213 | Computes the release; halts exactly when an assertion or pa2page does. |
| `BuddySystem.Allocator.NrFreePages` | lab2/kern/mm/buddysystem_pmm.c:216-224 | Returns the sum of the counts in pages. |
| `BuddySafety.BuddyIsFlip` | lab2/kern/mm/buddysystem_pmm.c:159-161 | The xor of physical addresses names the page one block size up or down, by the parity of its page number. |
| `BuddySafety.BuddyIsFree` | lab2/kern/mm/buddysystem_pmm.c:163 | A buddy that passes the test of the code is the head of a free block of that very order, even with stale flags about; so list_del always unlinks a listed page. |
| `BuddySafety.HalveInv` | lab2/kern/mm/buddysystem_pmm.c:84-101 | One split keeps the invariant: tiling, lists with counts, descriptors. |
| `BuddySafety.MergeInv` | lab2/kern/mm/buddysystem_pmm.c:148-185 | Merging of any depth keeps the invariant or panics, and never unlinks a page that is not listed; the tiling keeps all other live blocks. |
| `BuddyLists.RemoveAt` | lab2/libs/list.h:92-94 | list_del on a sequence is cutting out that one place, as Ring.DelRing proves it of the pointers. |
| `BuddyLists.MergeLists` | lab2/kern/mm/buddysystem_pmm.c:148-187 | The same of a merge from any order. |
| `BuddyLists.ReleaseLists` | lab2/kern/mm/buddysystem_pmm.c:148-213 | What a release that goes through leaves on every list, in order: each list from the block's order up loses just the buddy absorbed there, the rest in its order; the merged block stands at the front of the list at which merging stops; all others are as they were. |
| `BuddySteps.AllocInv` | lab2/kern/mm/buddysystem_pmm.c:105-141 | A request n takes the least order k with n <= 2^k < 2n from the least non-empty order c at or above it, returns the last 2^k pages of the front block there, leaves exactly one lower half at each order k to c-1, and fails if and only if those lists are all empty or n > 1024. |
| `BuddySteps.FreeInv` | lab2/kern/mm/buddysystem_pmm.c:188-213 | Releasing a live block keeps the invariant and takes just that block out of the live ones, or panics. |
| `BuddyLists.OddSizesHalt` | lab2/kern/mm/buddysystem_pmm.c:190-192 | A number of pages that is none of the powers of two up to 1024 fails an assertion, whatever is free. |
| `BuddyLists.ReleasedClean` | lab2/kern/mm/buddysystem_pmm.c:194-202 | A release leaves every page released without references and not reserved, and touches those of no other. |
| `BuddyRuns.InitInv` | lab2/kern/mm/buddysystem_pmm.c:38-73 | From boot, the greedy cut of a region never panics and tiles it with free blocks, flagged at their heads only. |
| `BuddyLists.InitLists` | lab2/kern/mm/buddysystem_pmm.c:52-71 | What the initial cut puts on every list, in order: on list 10 the whole blocks of 1024 pages, the last in front; on a lower list one block exactly if that bit of the number of pages is set, and where it lies. |
| `BuddyLists.InitClean` | lab2/kern/mm/buddysystem_pmm.c:38-50 | Every page handed over ends without references, not reserved, and with a size only if it heads a block; no other descriptor changes. |
| `BuddyRuns.RunGood` | lab2/kern/mm/buddysystem_pmm.c:76-213 | Safety of every run of requests and returns, flags as written or kept: no wild unlinking ever; while nothing panics, free and live blocks are disjoint and together are the region, and pages free plus pages held stay constant. |
| `BuddyCount.InitCounts` | lab2/kern/mm/buddysystem_pmm.c:38-73 | After initialisation the counters add up to n pages. |
| `BuddyCount.AllocCounts` | lab2/kern/mm/buddysystem_pmm.c:105-141 | A request lowers the total by exactly 2^k, or not at all when it fails. |
| `BuddyCount.MergeCounts` | lab2/kern/mm/buddysystem_pmm.c:148-185 | Merging of any depth raises the total by exactly the block that is merged in. |
| `BuddyCount.FreeCounts` | lab2/kern/mm/buddysystem_pmm.c:188-224 | A release raises the total by exactly n. |
| `BuddyCanonical.ReturnPanicsIff` | lab2/kern/mm/buddysystem_pmm.c:196-201 | In every state, with either flags and for any array of descriptors: returning a block halts if and only if one of its pages still carries PG_property, or the first buddy on the way up that fails the test of line 163 is past the last descriptor. |
| `BuddyCanonical.MergePanicsIff` | lab2/kern/mm/buddysystem_pmm.c:148-161 | Merging halts if and only if the first buddy on the way up that fails the test is past the last descriptor, where pa2page panics. |
| `BuddyAsWritten.StaleIff` | lab2/kern/mm/buddysystem_pmm.c:171-184 | As written, a release leaves the flag on its own head inside a larger block if and only if the block merged and was the upper half. |
| `BuddyAsWritten.FreeBuddiesIff` | lab2/kern/mm/buddysystem_pmm.c:148-213 | A release leaves two free buddies if and only if, in the state before the call, the first buddy on the way up that fails the test of line 163 is listed all the same; it is then a listed head without its flag. |
| `BuddyAsWritten.BuddiesIff` | lab2/kern/mm/buddysystem_pmm.c:148-185 | The same for merging from any order, with the chain of buddies read off the descriptors before it. |
| `BuddyExamples.CoalescingFails` | lab2/kern/mm/buddysystem_pmm.c:148-213 | A run as written after which everything is returned and two free buddies remain. |
| `BuddyExamples.LegalRunPanics` | lab2/kern/mm/buddysystem_pmm.c:196-201 | A legal run as written that halts at the assertion on line 198. |
| `BuddyCoalesce.InitCoalesced` | lab2/kern/mm/buddysystem_pmm.c:51-72 | Wherever the region starts, the greedy cut has flags exactly at listed heads and no two free buddies. |
| `BuddyCoalesce.AllocCoalesced` | lab2/kern/mm/buddysystem_pmm.c:105-141 | A request keeps both, for blocks at any place. |
| `BuddyCoalesce.MergeCoalesced` | lab2/kern/mm/buddysystem_pmm.c:148-185 | With the absorbed head cleared and the merged head flagged (Flags.Kept), merging keeps both too, for blocks at any place. |
| `BuddyCanonical.RunTidy` | lab2/kern/mm/buddysystem_pmm.c:76-213 | With Flags.Kept, for any base: every state of every run has no two free buddies of equal order below 10, and the run goes through without a panic if there are descriptors for a multiple of 1024 pages. |
| `BuddyCanonical.LeasesDetermineLists` | lab2/kern/mm/buddysystem_pmm.c:148-213 | With Flags.Kept, in two states whose blocks are aligned to their sizes, the blocks held determine the free lists as sets, so the order of calls does not matter. |
| `BuddyCanonical.ReturningAllRestores` | lab2/kern/mm/buddysystem_pmm.c:38-213 | With Flags.Kept, on a base aligned to the first block of the cut, any run that ends with everything returned restores the lists of the initial cut. |
| `BuddyCanonical.RestoresIff` | lab2/kern/mm/buddysystem_pmm.c:38-213 | So, with descriptors for a multiple of 1024 pages: everything returned restores the initial lists in every run if and only if the region starts at a multiple of the size of its first block. |
| `BuddyCanonical.OffGridLoses` | lab2/kern/mm/buddysystem_pmm.c:38-213 | On any other base there is a run that does not restore them: taking every page on its own, and returning all. |
| `BuddyGrid.RunOnGrid` | lab2/kern/mm/buddysystem_pmm.c:76-213 | No run, with either flags, makes a block that is not aligned to its size from blocks that are. |
| `BuddyGrid.InitOnGridIff` | lab2/kern/mm/buddysystem_pmm.c:51-72 | The blocks of the cut are all aligned to their sizes if and only if the first one is. |
| `BuddyExamples.OffGridNotRestored` | lab2/kern/mm/buddysystem_pmm.c:38-213 | The run at an unaligned base that does not: two pages from page 1, one asked for and returned, end as two blocks of order 0. |
| `Bits.PowerOfTwoTest` | lab2/kern/mm/buddysystem_pmm.c:15-19 | num & (num - 1) is zero exactly for powers of two. |
| `Ring.RingReads` | lab2/libs/list.h:113-133 | list_empty, list_next and list_prev at the head, read off the sequence that a ring stands for. |
| `Ring.RingReadsAt` | lab2/libs/list.h:122-133 | list_next and list_prev of an entry are its neighbours in the sequence. |
| `Ring.InsertRing` | lab2/libs/list.h:142-146 | __list_add between two neighbours puts one entry more in between, all other links right. |
| `Ring.AddBeforeRing` | lab2/libs/list.h:67-69 | list_add_before an entry is insertion before it. |
| `Ring.AddAfterRing` | lab2/libs/list.h:80-82 | list_add and list_add_after are insertion behind the entry, or at the front for the head. |
| `Ring.DelRing` | lab2/libs/list.h:92-94 | list_del of an entry leaves the ring without it. |
| `FitAllocator.Allocator.ListAdd` | lab2/libs/list.h:142-146 | The four assignments of __list_add, in their order. |
| `FitAllocator.Allocator.ListDel` | lab2/libs/list.h:155-158 | The two assignments of __list_del. |
| `FitAllocator.Allocator.Enlist` | lab2/kern/mm/default_pmm.c:80-93 | Inserts a block by address on whatever the links lead through: before the first entry above it, or behind the last, where the code as written inserts it twice and so links it to itself. Asking which entries are looked at asks only that the loop ends. |
| `FitAllocator.Allocator.Walk` | lab2/kern/mm/default_pmm.c:139-152 | The insertion loop itself, with and without the break. |
| `FitAllocator.Allocator.InitMemmap` | lab2/kern/mm/best_fit_pmm.c:69-109 | Halts exactly for no pages or a page that is not reserved; else clears, marks and inserts the block; on a list, the blocks recorded are the old ones with the new one inserted. |
| `FitAllocator.Allocator.FreePages` | lab2/kern/mm/default_pmm.c:126-174 | On any memory, if the insertion ends: halts exactly for no pages or a page that is reserved or flagged, else does what Released says. On a list, the blocks recorded then are those of Free, fused on both sides; or the block is appended as written and linked to itself; or, if its pages are inside a free block, the list is no longer one of disjoint blocks. |
| `FitAllocator.Allocator.FuseBackward` | lab2/kern/mm/default_pmm.c:154-163 | Fuses with the block that the back link leads to exactly when it ends where this one starts. |
| `FitAllocator.Allocator.FuseForward` | lab2/kern/mm/default_pmm.c:165-173 | Fuses with the block that the forward link leads to exactly when it starts where this one ends. |
| `FitAllocator.Allocator.FirstSearch` | lab2/kern/mm/default_pmm.c:102-110 | On whatever the links lead through, if the search ends: returns the first block of at least n pages, or none when none has as many. |
| `FitAllocator.Allocator.BestSearch` | lab2/kern/mm/best_fit_pmm.c:117-131 | The same for the first of the smallest blocks of at least n pages, and at most nr_free, from which the search starts. |
| `FitAllocator.Allocator.DefaultAllocPages` | lab2/kern/mm/default_pmm.c:96-124 | First fit, on any memory on which the search ends: NULL exactly when no block has n pages, else the first n pages of the block chosen are taken off; on a list, that is the request of FitBlocks. |
| `FitAllocator.Allocator.BestFitAllocPages` | lab2/kern/mm/best_fit_pmm.c:111-146 | Best fit: the same with the block of best fit. |
| `FitAllocator.Allocator.Carve` | lab2/kern/mm/default_pmm.c:111-122 | Splits the block found: the rest takes its place in the list, flags and nr_free follow. |
| `FitAllocator.Allocator.ValidEnds` | lab2/kern/mm/default_pmm.c:102-110 | In every valid state the searches of both policies end. |
| `FitRecords.LandsIff` | lab2/kern/mm/default_pmm.c:139-152 | On links that come back to the head the insertion ends, after exactly the entries up to the first above the block. |
| `FitRecords.ReleasedRecords` | lab2/kern/mm/default_pmm.c:126-174 | On memory that records a list, inserting and the two merges are the release of FitBlocks. |
| `FitRecords.AllocatedRecords` | lab2/kern/mm/best_fit_pmm.c:111-146 | On memory that records a list, a request that ends is the one of FitBlocks: by the policy a block, exactly when any fits. |
| `FitRecords.ReleasedBehind` | lab2/kern/mm/default_pmm.c:126-174 | A release of pages inside a free block, which the assertions let pass, leaves a ring whose blocks overlap. |
| `FitDescriptors.LinkedToItselfIsNoRing` | lab2/kern/mm/default_pmm.c:148-150 | What appending as written leaves: the block's back link is its own, the links are a ring of no sequence whatever, and list_del of the block does not take it off. |
| `FitAsWritten.LoopedCarved` | lab2/kern/mm/default_pmm.c:111-122 | Taking pages from an appended block leaves it on the list with its old size on record, and the rest of it behind it. |
| `FitAsWritten.HandedOutTwice` | lab2/kern/mm/default_pmm.c:96-124 | As written, after pages were taken from an appended block, a request returns the same page again if and only if it is for at most the pages the block had before and no other block is found first; for best fit, only if nr_free is still as large as that. |
| `FitAsWritten.SevenPagesAppend` | lab2/kern/mm/best_fit_pmm.c:148-213 | A run on seven pages that appends nothing, after which giving back the last three pages, all out, does append. |
| `FitAsWritten.SevenPagesTwice` | lab2/kern/mm/best_fit_pmm.c:111-146 | What happens next: two requests for two pages both return page 4, by either policy. |
| `FitAsWritten.ReleasedEndless` | lab2/kern/mm/default_pmm.c:139-173 | A release whose place is just below a block linked to itself leaves links that never lead back to the head; merged with it, the block released leads to itself. |
| `FitAsWritten.SevenPagesHang` | lab2/kern/mm/best_fit_pmm.c:148-213 | Or page 3, which is out, is given back: that passes the assertions, leaves page 3 linked to itself, and no best-fit request for anything that is free ends any more. |
| `FitDescriptors.SoundInsert` | lab2/kern/mm/default_pmm.c:77-93 | Marking and enlisting a block keeps the descriptors sound: in order, unreserved, flagged at heads only, nr_free their total. |
| `FitMemory.PagesUnreferenced` | lab2/kern/mm/default_pmm.c:70-76 | Handing pages over and releasing them clears the references and the reserved flags of just those pages, whatever is merged. |
| `FitDescriptors.SoundPair` | lab2/kern/mm/default_pmm.c:157-162 | So does fusing two neighbours. |
| `FitDescriptors.SoundTake` | lab2/kern/mm/default_pmm.c:111-122 | So does taking pages. |
| `FitBlocks.FreeCanonical` | lab2/kern/mm/default_pmm.c:126-174 | Releasing a block on a list of maximal runs gives a list of maximal runs, with exactly its pages more. |
| `FitBlocks.FreeInSteps` | lab2/kern/mm/default_pmm.c:139-173 | Inserting, fusing below and fusing above is the release. |
| `FitBlocks.TakeCanonical` | lab2/kern/mm/default_pmm.c:111-122 | Taking the front of a block keeps the list of maximal runs and takes exactly those pages. |
| `FitBlocks.FitsIff` | lab2/kern/mm/default_pmm.c:96-124 | A block of n pages is listed if and only if n contiguous pages are free anywhere. |
| `FitBlocks.CanonicalUnique` | lab2/kern/mm/default_pmm.c:126-174 | The pages free determine the list. |
| `FitRuns.RunGood` | lab2/kern/mm/best_fit_pmm.c:69-213 | Every state of every run from one init_memmap is the list of maximal runs of the pages not handed out, nr_free their total; with the break, or as written as long as nothing is appended. |
| `FitRuns.AskIsComplete` | lab2/kern/mm/default_pmm.c:96-124 | In every run, a request of n pages can be met if and only if n contiguous pages of the region are not out. |
| `FitRuns.OutDeterminesList` | lab2/kern/mm/best_fit_pmm.c:148-213 | Any two runs, of either policy, that leave the same pages out leave the same list. |
| `FitRuns.FreeingCommutes` | lab2/kern/mm/best_fit_pmm.c:148-213 | Releasing the same blocks in any two orders leaves the same list. |
| `FitCalls.GiveGoesThrough` | lab2/kern/mm/default_pmm.c:126-134 | No page that is out is reserved or flagged, so that no release of a run fails an assertion. |
| `FitCalls.InitBacks` | lab2/kern/mm/best_fit_pmm.c:69-109 | After init_memmap of one region on an empty list, memory records that region as the one free block, unreserved: the start of the runs. |
| `FitCalls.RunCalled` | lab2/kern/mm/best_fit_pmm.c:69-213 | Every run is one of calls on memory that go through, whatever is asked and given back, and the memory it leaves records the free list of its last state. |
| `FitCalls.Serve` | lab2/kern/mm/pmm.c:48-57 | alloc_pages and free_pages in place, by either policy: asked for pages, or given back pages that are out, they never halt and make a step of the run. |
| `SfsBlockMap.AppendSpec` | lab8/tools/mksfs.c:397-426 | append_block fails exactly at 32768 blocks or when no number is left for an index block it needs; else the block map stands for the sequence with one block more, other files are untouched, and no assertion fails. |
| `SfsBlockMap.BmapReads` | lab8/tools/mksfs.c:397-426 | Looking up place j through direct, indirect or doubly indirect blocks gives the j-th block appended. |
| `SfsBlockMap.NeverSearches` | lab8/tools/mksfs.c:382-394 | Nothing append_block asks of update_cache takes the branch that searches the cache. |
| `SfsBlockMap.SearchFinds` | lab8/tools/mksfs.c:182-199 | If it did, it would find an index block only when its number happens to hash like 0: alloc_cache_block hashes its argument 0. |
| `SfsBlockMap.IndexBlocksNext` | lab8/tools/mksfs.c:402-422 | The index blocks of n data blocks: none up to 12, one up to 1036, then two and one per 1024. |
| `SfsFormat.NameWritten` | lab8/tools/mksfs.c:429-435 | Whatever the static entry held before, the 256 bytes written of it hold the name, cut to 252 bytes. |
| `SfsCost.FileCost` | lab8/tools/mksfs.c:516-530 | A file of k more blocks takes exactly k numbers and the index blocks they need, and is refused exactly when it gets too big or the disk is full. |
| `SfsCost.BuildIff` | lab8/tools/mksfs.c:223-254 | An image is made if and only if it has room for super block, root and free map, the tree has no over-long name, file, directory or link and no directory twice, and its blocks fit; and then it uses exactly those numbers. |
| `SfsCost.OneFileIff` | lab8/tools/mksfs.c:223-254 | The limits in figures, for a directory with one file: the exact number of blocks that the image file needs, by the size of the file and of the free map; names of at most 255 bytes, files of at most 32768 blocks. |
| `SfsCost.OneLinkIff` | lab8/tools/mksfs.c:533-542 | The same for a directory with one link, whose target has less than 4096 bytes. |
| `SfsTree.BuildHolds` | lab8/tools/mksfs.c:466-542 | Whatever the numbers of host inodes: from the root of what was built hang the names of the host tree in readdir order, each with its link, its directory with two dots, or, for a file, with what its number was last used for. |
| `SfsTree.KeptHolds` | lab8/tools/mksfs.c:466-542 | If no file has a number last used for something else, that is the host tree, with every file's bytes padded in its blocks. |
| `SfsTree.SharingKept` | lab8/tools/mksfs.c:449-457 | Two host inodes became one inode if and only if they are the same. |
| `SfsLinks.BuildCounted` | lab8/tools/mksfs.c:428-437 | Every nlinks is the number of entries that name the inode, modulo 2^16. |
| `SfsState.PutRepresents` | lab8/tools/mksfs.c:428-437 | Giving a block a number, writing and appending it is a step of the abstract store: numbers, block maps, chains, owners and accounts all follow. |
| `SfsState.NewRepresents` | lab8/tools/mksfs.c:201-221 | alloc_cache_inode is a step of the store: searching the hash chain finds the last inode made for a host inode. |
| `SfsState.CreateRepresents` | lab8/tools/mksfs.c:223-254 | create_sfs starts from an empty root. |
| `SfsDisk.FlushedShows` | lab8/tools/mksfs.c:312-349 | On the flushed image every inode is at its number with its block sequence, and every data block is as written. |
| `SfsDisk.FreeMapRight` | lab8/tools/mksfs.c:312-335 | In the free map a bit is set exactly for the numbers without an owner, as many as the super block says are unused. |
| `SfsDisk.OneOwner` | lab8/tools/mksfs.c:173-221 | Every number given out has one owner and is used as that. |
| `SfsDisk.ReadsNode` | lab8/tools/mksfs.c:397-542 | Reading the image back from an inode gives the tree stored there. |
| `SfsDisk.StoredFills` | lab8/tools/mksfs.c:287-300 | What fills the last block of a file on the image is less than a block, and zero bytes. |
| `SfsRoundTrip.RoundTrip` | lab8/tools/mksfs.c:428-559 | For every tree of one host file system that is built: reading the image from its root gives back the tree, with names cut to 252 bytes, contents, link targets, nesting and hard links, without dot-files and special files; different host inodes have different inodes. |
| `SfsDots.Directories` | lab8/tools/mksfs.c:467-482 | Every directory of a finished image has as its first two entries the names 46 and 46 46; no later name starts with 46; and every entry leads to an inode. |
| `SfsDots.NoDotNames` | lab8/tools/mksfs.c:479-482 | At no depth does a name read from a finished image start with byte 46, whatever is read and from whichever inode. |
| `SfsSharing.RoundTripIff` | lab8/tools/mksfs.c:201-221 | For any tree that is built, whatever its inode numbers: the image gives it back, for some numbering of its files and directories, if and only if no file is met when its number was last used for anything but a file with its contents, as can be on several host file systems. Links may reuse numbers. |
| `SfsDots.ReadBack` | lab8/tools/mksfs.c:466-514 | Whatever is read from the root has every name of the listing that does not start with 46 and is no special file, in its place and at all depths, cut to 252 bytes, with links and directories as they were; and the contents of all files exactly when no number was last used for anything else, in which case the image can be read. |
| `SfsSharing.TwoHostsClash` | lab8/tools/mksfs.c:449-457 | An image made of two files with one number and different contents gives their tree back under no numbering. |
| `SfsRoundTrip.FreeMapCounts` | lab8/tools/mksfs.c:312-335 | On every finished image the set bits are exactly next_ino to ninos - 1, and unused_blocks is their number. |
| `SfsRoundTrip.SuperCounts` | lab8/tools/mksfs.c:223-242 | The super block has the magic number 0x2f8dbe2a and counts the blocks of the image file, at most 524288; the free map is at block 2 and as long as it takes to have a bit for each. |
| `SfsRoundTrip.LinksCount` | lab8/tools/mksfs.c:428-437 | On every finished image nlinks of an inode is the number of entry blocks that name it, modulo 2^16. |
| `SfsRoundTrip.EveryBlockUsed` | lab8/tools/mksfs.c:173-349 | On every finished image each block in use has one owner: super block, free map, inode, index block of one file, or one block of one file. |
| `SfsImage.Builder.constructor` | lab8/tools/mksfs.c:223-254 | create_sfs on an image file that is large enough. |
| `SfsImage.Builder.AllocIno` | lab8/tools/mksfs.c:173-180 | Gives out the next number and counts it used, or fails when none is left. |
| `SfsImage.Builder.WriteBlock` | lab8/tools/mksfs.c:287-300 | Writes one block; asserts that its number is on the disk. |
| `SfsImage.Builder.AllocCacheBlock` | lab8/tools/mksfs.c:182-190 | Makes an empty index block, on the chain of number 0. |
| `SfsImage.Builder.SearchCacheBlock` | lab8/tools/mksfs.c:192-199 | Finds a number on its chain. |
| `SfsImage.Builder.UpdateCache` | lab8/tools/mksfs.c:382-395 | Computes update_cache in place. |
| `SfsImage.Builder.AppendBlock` | lab8/tools/mksfs.c:397-426 | Computes append_block in place. |
| `SfsImage.Builder.SearchCacheInode` | lab8/tools/mksfs.c:214-221 | Finds the last inode made for a host inode. |
| `SfsImage.Builder.AllocCacheInode` | lab8/tools/mksfs.c:201-212 | Makes an inode and hangs it on its chain. |
| `SfsImage.Builder.AddEntry` | lab8/tools/mksfs.c:428-437 | Writes an entry, appends it to the directory, counts the link. |
| `SfsImage.Builder.OpenFile` | lab8/tools/mksfs.c:516-530 | Reads a file in blocks; the assertion on short reads never fails. |
| `SfsImage.Builder.OpenLink` | lab8/tools/mksfs.c:532-542 | Stores a link target of less than a block. |
| `SfsImage.Builder.AddFile` | lab8/tools/mksfs.c:449-457 | Adds a file, once for each host inode, and its entry. |
| `SfsImage.Builder.AddLink` | lab8/tools/mksfs.c:459-464 | Adds a link, a new inode every time, and its entry. |
| `SfsImage.Builder.AddDir` | lab8/tools/mksfs.c:439-447 | Adds a directory, which must be new, and its entry. |
| `SfsImage.Builder.OpenDir` | lab8/tools/mksfs.c:466-514 | Adds the dots and then every entry that does not start with a dot, in place, in the order of readdir; what that leaves on the image is said by SfsDots. |
| `SfsImage.Builder.FreeMapFrom` | lab8/tools/mksfs.c:316-332 | Sets the bits of one block of the free map. |
| `SfsImage.Builder.Close` | lab8/tools/mksfs.c:312-349 | Leaves the image file exactly as Flushed says, by way of the hash chains. |
| `SfsImage.CreateImg` | lab8/tools/mksfs.c:544-559 | The whole program: ends in bug() or an assertion exactly when the build does, and otherwise leaves a finished image. |
| `NumberText.PrintNumPads` | lab2/libs/printfmt.c:36-52 | printnum puts the padding and then the bare digits, max(width, digits) characters in all. |
| `NumberText.PrintThenParse` | lab2/libs/printfmt.c:36-52 | In base 8, 10 or 16, for any width and padding with zeros or blanks, strtol of what printnum put returns the number and stops at the end. |
| `NumberText.DashThenParse` | lab2/libs/string.c:203-259 | Padded with dashes it does so if and only if there is no padding, or one dash before a zero. |
| `NumberText.NegativeThenParse` | lab2/libs/string.c:203-259 | A negative number as %d prints it reads back if and only if it is padded with zeros or not at all. |
| `NumberText.NoOverflow` | lab2/libs/string.c:232-253 | The value never goes down while digits are read, so it overflows on the way only if the result does. |
| `NumberText.ParseLong` | lab2/libs/string.c:203-259 | strtol with its moving pointer and its accumulator in a long: computes StrToL if and only if the number is within 2^63 - 1 of zero; else it overflows on the way. |
| `NumberReading.StrToLReads` | lab2/libs/string.c:203-259 | strtol skips blanks and tabs, takes one sign, finds the base by the prefix (0x, or 0 in base 0), and reads all digits of that base, small and capital, up to the first character that is none. |
| `PrintFmt.Verbatim` | lab2/libs/printfmt.c:268-273 | An escape that is none, or that the format ends in, is put exactly as it stands. |
| `PrintFmt.PlainOutput` | lab2/libs/printfmt.c:124-129 | Characters that start no escape are put as they are. |
| `PrintFmt.ScanFlags` | lab2/libs/printfmt.c:131-181 | The flags, widths and precisions of an escape, scanned by moving the pointer. |
| `PrintFmt.SprintBuf.PutCh` | lab2/libs/printfmt.c:290-296 | Counts every character and keeps those that fit. |
| `PrintFmt.SprintBuf.PutNum` | lab2/libs/printfmt.c:36-52 | printnum on the buffer. |
| `PrintFmt.SprintBuf.PutString` | lab2/libs/printfmt.c:203-223 | The conversion %s with width, precision, padding side and the flag #. |
| `PrintFmt.SprintBuf.PutConversion` | lab2/libs/printfmt.c:183-266 | Every conversion puts the text that Convert gives, which PrintConversions pins character by character. |
| `PrintConversions.UnsignedPut` | lab2/libs/printfmt.c:235-261 | For any flags, width, precision, l's and argument, anywhere in a format: %x, %o and %u put the low 32 bits, or with an l 64, as the numeral in base 16, 8 or 10, small letters and no zero in front, padded on the left to the width with blanks, zeros or dashes; strtol reads it back but for dashes. |
| `PrintConversions.SignedPut` | lab2/libs/printfmt.c:225-231 | %d puts the signed number of 32 or 64 bits: a minus before the padded numeral; strtol reads it back if padded with zeros or not at all. |
| `PrintConversions.PointerPut` | lab2/libs/printfmt.c:247-261 | %p puts 0x and the 64 bits in base 16; strtol reads it back, in base 16 and in base 0, if padded with zeros or not at all. |
| `PrintConversions.StringPut` | lab2/libs/printfmt.c:203-223 | %s puts the first characters of the string, as many as the precision says, or (null); those that do not print as ? with #; padded to the width, behind with the flag -. |
| `PrintConversions.CharPut` | lab2/libs/printfmt.c:183-266 | %c puts the low byte of its argument, %% one per cent sign. |
| `PrintConversions.ErrorPut` | lab2/libs/printfmt.c:188-200 | %e puts the name of the error with that number, of either sign, or error and the number. |
| `PrintConversions.ScanEscape` | lab2/libs/printfmt.c:131-181 | The scan takes any written escape apart into its flags, fields and conversion: 0, -, #, l, decimal fields, stars that take arguments, and the point. |
| `PrintConversions.NumeralUnique` | lab2/libs/printfmt.c:36-52 | A number has one numeral only, so that the texts above are determined to the character. |
| `PrintConversions.LiteralFormats` | lab2/libs/printfmt.c:235-261 | The same spelled out for the formats %x, %08x and %12lo. |
| `PrintFmt.SprintBuf.PutEscape` | lab2/libs/printfmt.c:131-274 | One escape: flags, conversion, or the rewinding of the pointer for one that is none. |
| `PrintFmt.SprintBuf.PrintFormat` | lab2/libs/printfmt.c:116-276 | vprintfmt ends on every format and puts Output. |
| `PrintFmt.VSNPrintF` | lab2/libs/printfmt.c:328-339 | The bounded form refines the unbounded one: the buffer gets the first min(total, size - 1) characters and a terminator, the result is the total; -E_INVAL for no buffer or size 0. |
| `DeviceTree.Fdt32Reads` | lab2/kern/driver/dtb.c:29-32 | fdt32_to_cpu of a little-endian load is the big-endian number in memory. |
| `DeviceTree.Fdt64Reads` | lab2/kern/driver/dtb.c:34-37 | So is fdt64_to_cpu for eight bytes. |
| `DeviceTree.ExtractMemoryInfo` | lab2/kern/driver/dtb.c:40-101 | The loop computes Walk on any bytes, and always ends. |
| `DeviceTree.WalkTree` | lab2/kern/driver/dtb.c:50-100 | Over any serialised tree, in any order of items, the walk returns what the property says that Search finds, or goes on behind the tree with the flag off. |
| `DeviceTree.SearchIff` | lab2/kern/driver/dtb.c:50-100 | The place of the property found is that of the reg of the first memory node if and only if the tree is trusty. |
| `DeviceTree.Extracts` | lab2/kern/driver/dtb.c:40-101 | For every serialised tree: the walk returns base and size from the property that Search finds, or -1; and that is the reg of the first memory node if and only if, up to that node, none has its first long reg behind a child, and from none without one does the flag lead, through a chain of first children, to a long reg of another node. |
| `DeviceBytes.OneChildFound` | lab2/kern/driver/dtb.c:50-100 | Over the bytes of a root with one child that has one property: base and size are returned exactly if the first six bytes of the child's name spell memory, whatever follows, the property is named reg, and it has at least 16 bytes; else -1. |
| `DeviceTree.ChildTaken` | lab2/kern/driver/dtb.c:57-59 | A tree where the walk fails: a memory node without reg whose first child has one is given the child's. |
| `DeviceTree.LateMissed` | lab2/kern/driver/dtb.c:68-70 | Another: the reg of a memory node comes after a child, and the walk returns -1. |

## Left out

- Hardware plumbing: console, SBI calls, page tables, the macros that set bits atomically. `PG_reserved` and `PG_property` are booleans.
- The `*_check` functions, which are fixed scenarios, and the other labs' copies of the files modelled.
- Processes, the rest of the scheduler, virtual memory, and the kernel's own file system. The kernel's lookup of a block stops at the single indirect block; reading here follows all three levels, as they are written.
- The buddy allocator's lists are sequences; that a circular list of pointers implements a sequence is proved in `Ring.dfy`, for the other two allocators.
- Reference counts of pages: only that handing over and releasing set them to 0.
- After a failed assertion nothing is said of the memory. After `bug()`, nothing of the image file.
- Widths of the counters: `nr_free`, `property`, sizes and block numbers do not wrap in the model. They stay far below 2^32 where the arrays and images fit the machine.
- `FitAllocator.Allocator.Walk`, and the searches: a call whose loop does not end is no call of the model; exactly when the loops end is stated (`Lands`, `Ends`), and where they do not.
- Host calls of `mksfs`: `open`, `read` and `readlink` succeed, and `read` returns whole blocks until the last of a file; allocation of memory does not fail; the name of the image file, and messages with their paths, have no part.
- Blocks of an image are values of a type, not bytes: the layout of an inode, an entry and an index block in bytes is not modelled, nor is the text in the super block.
- `SfsSharing.RoundTripIff`: asks that names are C strings, without a zero byte; where a tree does not come back, what does is said of what is built (`SfsTree.BuildHolds`), not as a tree read.
- `PrintFmt.VSNPrintF`: arguments that are missing or of another kind, which C leaves undefined, count as 0 or NULL.
- `NumberText.ParseLong`: of a number that does not fit a long nothing is said, since C leaves signed overflow undefined.
- `DeviceTree.ExtractMemoryInfo`: the tree is at an address that is a multiple of four; only indices are aligned in the model. Checking the magic number and printing are left out.
- `strlen`, `strcmp`, `memcpy`, `rand` and the like, single loops with nothing to relate.
