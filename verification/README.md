# Verification of the utility layer

This project models the utility layer of the program in Dafny and proves what it promises: the
ordered and unordered intrusive lists (`utils/list.c`), the circular queue (`utils/queue.c`), the
block allocator (`utils/balloc.c`), the symbol table and the handle list (`utils/sym.c`,
`utils/h.c`), the formatter (`utils/misc.c`), the calendar (`utils/time.c`), and on top of the
lists the index of call records (`module/voice/voice_core.c`).

Run `dafny verify dfyconfig.toml`.

## How it is built

Code that rewrites links, fields or buffers is a class with those fields; its methods are proved
against a function of the old state or an edit described element by element (`Edits`), and the
promises are proved about those functions.

| files | what they hold |
|---|---|
| `OrderedSpec`, `OrderedList` | what an ordered list holds as a value; the doubly linked list on the heap |
| `PlainList` | the singly linked list |
| `Queue`, `QueueRun` | the circular queue with its sentinel; runs over several queues |
| `BlockClasses`, `HighWater`, `Balloc` | size classes; counting demand; the arena |
| `SymTab`, `Handles` | the hash table, its cursor; handles and open tables |
| `Numerals`, `Ulong`, `Format` | digits; number text and `hextoi`; the growing buffer and `dsnprintf` |
| `CalendarSpec`, `Calendar` | the reference calendar; the conversions and the time stamps |
| `IdMask`, `VoiceRecords` | the id bits; the four record lists |
| `Edits`, `Powers` | sequence edits; powers |

A parameter stands for what the program cannot decide itself: whether memory is available, what
malloc returns (fresh and disjoint), and what lies one word past the hash table.

## What is not as one might expect

- The header's example for equal weights (`utils/list.h:75-81`) is the other way round from the
  code (`utils/list.c:990-1047`): LTE puts a new item behind its equals, SLT in front. A merge has
  the opposite rule: under SLT list 1's equals come first, under LTE list 2's
  (`utils/list.c:1494-1880`). The code is followed.
- The comment of `calcPrime` says "smaller than"; the code finds the largest that is not larger
  (`utils/sym.c:452-467`), and counts 1 as prime.
- A merge that splices sets the tail pointer to list 2's old tail (`utils/list.c:1868-1874`), which
  is the last link only if it sorts after list 1's old tail; `OrderedList.Merge` states the exact
  condition and `TailLost` is an example. An empty list 1 takes over the links of a list of another
  type without its type; `WrongOrder` is an example, and the exact condition is in the same contract.
- `list_merge` with an empty second list loses the tail pointer (`utils/list.c:722`).
- `symNext` called again after it returned NULL hands out what was read past the table
  (`utils/sym.c:191-220`) exactly when the last bucket is empty and no NULL lies there
  (`TraverseOnceMore`, example `ReadPastTable`); a traversal that stops at NULL is not affected.
- A dynamic buffer with n below 64 still holds 63 characters, and once the count reaches n the
  terminator goes to the buffer's end; with n <= 0 there is none (`utils/misc.c:404-410`).
  `Dsnprintf` states when it is at the count; `EndsLate` and `EndsNever` are examples.
- Time stamps keep two digits of the year: dates before 2000 come back 96 years late.
- A call record of unknown type uses up an id (`module/voice/voice_core.c:378`, `426-429`), and the
  101st record leaves an orphan on its type's list (`module/voice/voice_core.c:469-470`); examples
  are `UnknownBreaks` and `OneTooMany`.
- `symOpen` gives a handle back whose slot is still NULL when the table cannot be allocated
  (`utils/sym.c:93-96`), against the assertion in `hFree` (`utils/h.c:117`); without assertions the
  list stays right.
- The conversion to seconds divides towards 1980: a year before it is right only if it is a leap
  year, else it counts as four years later (`utils/time.c:244-272`).

## Model

| member | source | states |
|---|---|---|
| `OrderedSpec.MergeIsTheStableMerge` | `utils/list.c:1494-1880` | A sequence is the merge of two sorted lists if and only if it interleaves them in order with every tie decided by the list type: list 1 first under SLT, list 2 first under LTE. So the merge is the one stable merge. |
| `OrderedSpec.MergeKeepsAll` | `utils/list.c:1494-1880` | A merge loses, duplicates and invents nothing: the multiset and the size are the sums. |
| `OrderedSpec.MergeSorted` | `utils/list.c:1494-1880` | Merging two sorted lists of one type gives a sorted list. |
| `OrderedSpec.MergeSkips` | `utils/list.c:1589-1592` | The links the first inner scan passes are exactly a prefix of the merge. |
| `OrderedSpec.MergeTakes` | `utils/list.c:1593-1603` | The run the second inner scan covers is exactly the next stretch of the merge. |
| `OrderedSpec.MergePass` | `utils/list.c:1574-1621` | One pass of the splicing loop, as an edit of the first list, keeps 'merged so far, then the merge of what is left' equal to the final merge. |
| `OrderedSpec.MergeAppends` | `utils/list.c:1547-1554` | When list 1's last item may stay ahead of list 2's first, the merge is list 1 followed by list 2 (case 1a). |
| `OrderedSpec.MergePrepends` | `utils/list.c:1556-1564` | When list 2's last item goes before list 1's first, the merge is list 2 followed by list 1 (case 1b). |
| `OrderedSpec.SplitMergeBack` | `utils/list.c:1890-1949` | Splitting and merging back restores the sequence if and only if the type is SLT, the split is at the front, or the weights on the two sides of the split differ. |
| `OrderedSpec.LteSplitReorders` | `utils/list.c:1635-1643` | Two equal weights split and merged back under ascending LTE come back in the other order. |
| `OrderedSpec.InsertPlace` | `utils/list.c:990-1047` | Where a push lands in a sorted list: everything in front is passed by the type's test and nothing from there on is. |
| `OrderedSpec.FourTypes` | `utils/list.c:990-1880` | The comparisons of all four list types: which held weights a push walks past, and which weights of list 1 stay ahead of list 2's in a merge. |
| `OrderedSpec.StepTells` | `utils/list.c:954-1271` | A push adds its entry and nothing else; a pop takes the first, the last or the given entry and leaves the rest in order; an empty list stays empty. |
| `OrderedSpec.CutParts` | `utils/list.c:1890-1949` | Merging the two parts of a cut gives the list back under exactly the condition of SplitMergeBack, and has its size in every case. |
| `OrderedSpec.StepArrivalOrdered` | `utils/list.c:954-1271` | Every push and every pop keeps the list ordered by weight, and equal weights in arrival order (LTE) or reverse arrival order (SLT). |
| `OrderedSpec.RunArrivalOrdered` | `utils/list.c:954-1271` | The same over every run of pushes and pops from the empty list, so every such list is sorted. |
| `OrderedLists.OrderedList.constructor` | `utils/list.c:812-843` | An initialised list is empty and well-formed. |
| `OrderedLists.OrderedList.PushAfter` | `utils/list.c:892-913` | Links the item directly behind the given one; both neighbours, the tail pointer and the size follow. |
| `OrderedLists.OrderedList.PushBefore` | `utils/list.c:923-945` | Links the item directly in front of the given one; both neighbours, the front pointer and the size follow. |
| `OrderedLists.OrderedList.Push` | `utils/list.c:954-1062` | The item goes between what a push of its weight passes and everything else, and the old links stay in order, for all four list types; the walk stops before it runs off the chain. |
| `OrderedLists.OrderedList.FindPlace` | `utils/list.c:990-1047` | The walk of a push stops at the first link that is not passed. |
| `OrderedLists.OrderedList.PopFront` | `utils/list.c:1070-1103` | Returns the first link and leaves all others in order, or returns NULL and changes nothing; the new first link's prev is NULL. |
| `OrderedLists.OrderedList.PopBack` | `utils/list.c:1111-1142` | Returns the last link and leaves all others in order, or returns NULL and changes nothing. |
| `OrderedLists.OrderedList.PopItem` | `utils/list.c:1235-1271` | Removes exactly the given member and leaves the others in order. |
| `OrderedLists.OrderedList.Append` | `utils/list.c:1419-1460` | Concatenates the chains, empties the other list, and gets the tail pointer right exactly when there was something to append or nothing to append to. |
| `OrderedLists.OrderedList.Swap` | `utils/list.c:1469-1482` | Exchanges the two headers completely. |
| `OrderedLists.LinkRun` | `utils/list.c:1604-1619` | The pointer surgery of one pass: the run leaves the second chain and stands in front of temp1 in the first, and both chains are doubly linked again. |
| `OrderedLists.OrderedList.ScanAhead` | `utils/list.c:1589-1592` | temp1 stops at the first link that does not stay ahead of list 2's head, never past list 1's tail. |
| `OrderedLists.OrderedList.ScanRun` | `utils/list.c:1593-1603` | temp3 stops at the last link of list 2 that belongs in front of temp1, and never follows the tail's NULL. |
| `OrderedSpec.PassKeeps` | `utils/list.c:1588-1620` | A pass keeps the last item of list 1, the order of what is still to be merged, and list 2's last item until it has moved; when list 2 is used up, the chain is the merge. |
| `OrderedLists.OrderedList.FindRun` | `utils/list.c:1589-1603` | The two scans of a pass find a stretch of list 2 that goes as a whole in front of one link of list 1. |
| `OrderedLists.OrderedList.SpliceOnce` | `utils/list.c:1588-1620` | One pass strictly shortens list 2 and keeps both chains, the goal of the merge, and what is known about the two tails. |
| `OrderedLists.OrderedList.SpliceLoop` | `utils/list.c:1574-1621` | The loop ends with list 2 empty and list 1 holding the merge; list 2's old tail is then the last link exactly when it sorts behind list 1's old tail. |
| `OrderedLists.OrderedList.Merge` | `utils/list.c:1494-1880` | No item is lost in any case. An empty list 1 takes list 2 over; if list 2 is empty or the types differ, nothing changes; else list 1 ends with the stable merge on an intact doubly linked chain with the right size, and list 2 empty. list 1 is in its own order afterwards if and only if it was not empty, both orders agree, or all weights are equal. In the splice case the tail pointer is list 2's old tail, and it is right if and only if that tail sorts after list 1's under the type's tie rule; in every other case it is right. |
| `OrderedLists.TailLost` | `utils/list.c:1868-1874` | The merge of 1, 5 with 3 leaves the tail pointer on a link that is not the last. |
| `OrderedLists.WrongOrder` | `utils/list.c:1517-1526` | An empty ascending list that takes over 5, 1 from a descending one is out of its own order. |
| `OrderedSpec.SortedBothWays` | `utils/list.c:1517-1526` | What is sorted one way is sorted the other way if and only if all weights are equal. |
| `OrderedLists.OrderedList.SpliceIn` | `utils/list.c:1566-1874` | The splice case: list 1 holds the merge, the tail pointer is list 2's old tail, and it is the last link exactly when it stays behind list 1's. |
| `OrderedLists.OrderedList.Split` | `utils/list.c:1890-1949` | Cuts the chain in front of the given member; both halves are well-formed, with exact sizes and tails. |
| `OrderedLists.SplitAndMerge` | `utils/list.c:1890-1949` | The two heap operations one after the other restore sequence and tail pointer, under exactly the condition of SplitMergeBack. |
| `PlainLists.PlainList.PushFront` | `utils/list.c:139-170` | Puts the item in front. |
| `PlainLists.PlainList.PopFront` | `utils/list.c:178-208` | Removes and returns the first link, or NULL. |
| `PlainLists.PlainList.PushBack` | `utils/list.c:217-250` | Puts the item at the end. |
| `PlainLists.PlainList.PopBack` | `utils/list.c:258-301` | Removes and returns the last link after walking to the one in front of it. |
| `PlainLists.PlainList.PushBefore` | `utils/list.c:487-530` | Puts the item directly in front of a member. |
| `PlainLists.PlainList.PushAfter` | `utils/list.c:537-572` | Puts the item directly behind a member. |
| `PlainLists.PlainList.PopItem` | `utils/list.c:579-624` | Removes exactly the given member and moves the tail pointer back if it was the last. |
| `PlainLists.PlainList.Merge` | `utils/list.c:696-732` | Concatenates; the tail pointer is lost if and only if the second list is empty and the first is not. |
| `PlainLists.TailLost` | `utils/list.c:722` | Merging an empty list into a list of one link leaves a NULL tail pointer. |
| `PlainLists.PlainList.Split` | `utils/list.c:742-797` | Cuts the chain in front of a member, with exact sizes and tails. |
| `PlainLists.SplitAndMerge` | `utils/list.c:742-797` | Splitting at any member and merging back restores sequence, size and tail. |
| `Queues.Queue.Init` | `utils/queue.c:435-464` | An empty queue's link points to itself both ways. |
| `Queues.Queue.Put` | `utils/queue.c:566-594` | Appends; the set of stale back links does not change. |
| `Queues.Queue.Get` | `utils/queue.c:727-780` | Removes and returns the head, or NULL; the new head's back link is repaired, and every other back link is as right or wrong as it was. |
| `Queues.Queue.MovePut` | `utils/queue.c:616-708` | Appends the whole source queue and empties it; of all back links only the moved head's becomes stale. |
| `Queues.Queue.LastGet` | `utils/queue.c:801-859` | Removes and returns the tail, or NULL, given that the tail's back link is right. |
| `Queues.Queue.Insert` | `utils/queue.c:912-977` | Inserts in front of a member whose back link is right, and says which back links are stale afterwards. |
| `Queues.Queue.Delete` | `utils/queue.c:995-1067` | Removes a member whose back link is right, and says which back links are stale afterwards. |
| `Queues.Queue.LinearSearch` | `utils/queue.c:1321-1342` | Returns the first item the caller's test accepts, or NULL if it accepts none. |
| `Queues.GetMany` | `utils/queue.c:727-780` | With one stale back link at position k, a number of gets leaves the queue fully linked if and only if it is at least 1 and at least k. |
| `Queues.MoveThenGet` | `utils/queue.c:616-780` | After one move onto a fully linked queue of k items the full circular invariant is back after exactly max(1, k) gets. |
| `QueueRuns.StepFlows` | `utils/queue.c:566-780` | What one put, get or move does to each queue: an item at the tail, the head gone, or everything moved behind the target's items; what was held and what is put in is what is taken out and what is held then. |
| `QueueRuns.FirstInFirstOut` | `utils/queue.c:566-780` | Over every run of put, move and get over several queues: what its operations put into a queue is what they took out of it followed by what it holds. |
| `QueueRuns.Execute` | `utils/queue.c:566-780` | Every such run on the heap leaves every queue forward-correct, with exact count and tail pointer, holding what the operations so far leave in it, and every get returned the head of its queue at that point, or NULL. |
| `QueueRuns.AnswersInOrder` | `utils/queue.c:616-780` | What the puts and moves of a run put into a queue is what the gets returned and what was moved away, followed by what it holds, in order. |
| `QueueRuns.EmptyAnswer` | `utils/queue.c:727-780` | A get returns NULL if and only if everything that was put into its queue is out again. |
| `BlockClasses.GetSize` | `utils/balloc.c:523-532` | The shift loop finds the size class and the block's full size, which fits an int exactly for requests up to 2^30. |
| `BlockClasses.FitsInt` | `utils/balloc.c:523-532` | For requests that are ints, the block's size fits an int if and only if the request is at most 2^30. |
| `BlockClasses.ClassIsSmallestFit` | `utils/balloc.c:523-532` | A class is large enough for a request if and only if it is at least the computed one. |
| `BlockClasses.ClassOfCapacity` | `utils/balloc.c:365-386` | Looking the class up from a block's noted capacity finds the class the block was carved for. |
| `BlockClasses.CapacityDoubles` | `utils/balloc.c:523-532` | The classes start at 16 bytes and double. |
| `BlockClasses.PooledSizes` | `utils/uemf.h:756-758` | A request has a queue if and only if it is at most 65536 bytes: 13 classes. |
| `HighWater.PeakIsTheMaximum` | `utils/balloc.c:275-305` | The peak count of a history is the maximum over its prefixes, and is reached. |
| `HighWater.BillIsPeakCost` | `utils/balloc.c:290-305` | If as many blocks of each class were made as its peak demand, the bytes carved are the sum of peak times block size. |
| `Balloc.TilesApart` | `utils/balloc.c:290-305` | The carved blocks, headers included, lie inside the carved part and do not overlap. |
| `Balloc.TakeTop` | `utils/balloc.c:278-288` | Unlinking the head of a queue leaves every queue correctly chained through the headers. |
| `Balloc.PutBack` | `utils/balloc.c:395-404` | Linking a live block onto its class's queue leaves every queue correctly chained and the block on no other queue. |
| `Balloc.Arena.constructor` | `utils/balloc.c:137-188` | A fresh arena owns nothing and satisfies the invariant. |
| `Balloc.Arena.TakeFromQueue` | `utils/balloc.c:278-288` | Serves from the head of the class's queue, and the block becomes live. |
| `Balloc.Arena.Carve` | `utils/balloc.c:290-305` | Extends the tiling by one block without a gap; next plus left stays fixed. |
| `Balloc.Arena.Balloc` | `utils/balloc.c:212-356` | Up to 65536 bytes: the head of the class's queue if one waits, whatever is left in the arena; else the front of the free part of the arena if more is left than the block takes. Otherwise, and above 65536, what malloc gave, or NULL. NULL changes nothing; any other answer is a pointer nobody owned, to a block large enough, and the only one that is owned anew. |
| `Balloc.Arena.Serve` | `utils/balloc.c:275-356` | The same for a size class: queue, then arena, then malloc, each with its effect on the queues, the carved blocks and the free part. |
| `Balloc.Arena.Bfree` | `utils/balloc.c:365-405` | Takes back exactly the given pointer: a carved block returns to the head of the queue of its own class, a malloced one leaves and no queue changes; freeing a block that is already queued changes nothing. |
| `Balloc.Arena.OwnedOrQueued` | `utils/balloc.c:365-405` | A carved block is either owned, with its class's capacity, or waits in a queue, never both. |
| `Balloc.Arena.MoveText` | `utils/balloc.c:508-511` | The old block's bytes stand at the start of the new one, the old block is given back, and no other owner's bytes change. |
| `Balloc.Arena.Brealloc` | `utils/balloc.c:490-513` | A block that is large enough is kept; otherwise the new block replaces the old one in what is owned and starts with the old one's bytes, or, when neither queue, arena nor malloc can serve, nothing changes. No owner's bytes change. |
| `Balloc.OwnersApart` | `utils/balloc.c:212-405` | Two owned pieces of memory, from the arena or from malloc and headers included, do not overlap. |
| `Balloc.Arena.NoOverlap` | `utils/balloc.c:212-405` | In every reachable state live blocks never overlap. |
| `Balloc.LiveCount` | `utils/balloc.c:275-405` | Of the blocks made of a class, those that are not live are exactly those on its queue. |
| `Balloc.Arena.OutIsLive` | `utils/balloc.c:275-405` | In every reachable state the events count exactly the live carved blocks of each class. |
| `Balloc.Arena.HighWaterLaw` | `utils/balloc.c:275-405` | In every reachable state the blocks made of each class equal the peak of simultaneously live ones, and size minus left is the sum of peak times block size. |
| `SymTabs.HashIndex` | `utils/sym.c:410-428` | The loop's wrapping sum is the remainder of the exact sum of the characters, each shifted by 7 times its position modulo 24; signed characters included. The bucket is in the table. |
| `SymTabs.ShiftDoubles` | `utils/sym.c:424` | Shifting by one bit more doubles the character's share of the sum. |
| `SymTabs.FiveShifts` | `utils/sym.c:420-427` | Five characters count shifted by 0, 7, 14, 21 and 4 bits. |
| `SymTabs.IsPrime` | `utils/sym.c:435-448` | True exactly for numbers without a divisor between 1 and themselves (1 counts as prime), though only divisors up to half are tried. |
| `SymTabs.CalcPrime` | `utils/sym.c:455-467` | The largest such number that is not larger than the size. |
| `SymTabs.SymTable.constructor` | `utils/sym.c:103-113` | A new table has empty buckets, as many as the largest prime that is not above the given size. |
| `SymTabs.SymTable.Find` | `utils/sym.c:243-252` | The walk of the name's chain finds the symbol if and only if the map has the name, and remembers the symbol before it. |
| `SymTabs.SymTable.Lookup` | `utils/sym.c:228-253` | Agrees with the map for every name but the empty one, which is never found. |
| `SymTabs.SymTable.Enter` | `utils/sym.c:263-336` | The map is updated at the name, whether the symbol existed or not; a new symbol goes to the end of its bucket's chain, an existing one keeps its place; without memory for a new one nothing changes. |
| `SymTabs.SymTable.Delete` | `utils/sym.c:343-388` | The name leaves the map and exactly its symbol the chain, all others staying in order; 0 exactly when it was present, else -1. |
| `SymTabs.SymTable.First` | `utils/sym.c:156-184` | The first symbol in bucket-then-chain order, with the cursor at the rest; NULL only for an empty table. |
| `SymTabs.SymTable.Next` | `utils/sym.c:191-220` | From any cursor: delivers what it points to, else the first symbol of a later bucket, and moves behind it; NULL past the table or when nothing is left, after which the cursor holds what was read past the table. |
| `SymTabs.SymTable.Delivered` | `utils/sym.c:191-220` | A call at a position of the iteration delivers the head of what is left and stands at the rest; it is past the table only if the last bucket has symbols. |
| `SymTabs.SymTable.Traverse` | `utils/sym.c:156-220` | First, then next until NULL, delivers all chains in order and ends, whatever lies one past the table. The cursor is left past the table if and only if the last bucket has symbols. |
| `SymTabs.SymTable.TraverseOnceMore` | `utils/sym.c:156-220` | After a traversal of a table with symbols, one more call returns NULL if and only if the last bucket has symbols or NULL lies past the table; else it returns what lies there. |
| `SymTabs.ReadPastTable` | `utils/sym.c:191-220` | With one symbol in the middle one of three buckets, the call after the end returns what lies past the table. |
| `SymTabs.SymTable.Release` | `utils/sym.c:131-141` | The sweep that closes a table gives back every symbol once, and reads its successor before. |
| `SymTabs.SymTable.TraversalIsTheMap` | `utils/sym.c:156-220` | The traversed symbols have distinct names, and these are exactly the names of the map. |
| `SymTabs.FlatNames` | `utils/sym.c:410-428` | No name appears twice across all chains. |
| `SymTabs.FlatInOrder` | `utils/sym.c:156-220` | The order of the traversal: what comes in front of a chain is from earlier buckets, and the rest of it from later ones. |
| `Handles.UsedStore` | `utils/h.c:45-142` | How one store changes the number of non-null slots. |
| `Handles.UsedAll` | `utils/h.c:71-85` | The count equals the length exactly when no slot is free, so the scan for a free slot cannot fail. |
| `Handles.TopBounds` | `utils/h.c:125-141` | One past the greatest live handle: everything beyond is free and the one below it is not. |
| `Handles.HandleList.HAlloc` | `utils/h.c:45-100` | The least free handle, in a list that grows by 16 free slots if and only if it was full, without changing any entry; -1 only without memory, and then nothing changes. |
| `Handles.HandleList.Store` | `utils/h.c:45-100` | After the caller's store the used count is the number of non-null slots again. |
| `Handles.HandleList.HFree` | `utils/h.c:108-142` | Clears just that slot, stored into or still pending, and returns one past the greatest live handle, or 0; the list goes away if and only if all slots are then free. |
| `Handles.SymTables.SymOpen` | `utils/sym.c:76-113` | Stores the new table at the least free handle; without memory for the list or for the table it returns -1 and changes no entry. symMax stays one past the greatest open table. |
| `Handles.SymTables.SymClose` | `utils/sym.c:121-147` | Frees just that handle; symMax stays one past the greatest open table. |
| `Numerals.FirstDigit` | `utils/misc.c:530-534` | Dividing by the leading power yields the first of the last n+1 digits. |
| `Numerals.DigitShows` | `utils/misc.c:530-534` | The digits are 0 to 9 and then A to F for upper, a to f otherwise. |
| `Numerals.NumeralReads` | `utils/misc.c:496-540` | A numeral, read digit by digit in its base, is its number. |
| `Numerals.NumeralShows` | `utils/misc.c:496-540` | A numeral has no leading zero, only digits of its base, and letters of the case asked for. |
| `Numerals.DigitOfTells` | `utils/misc.c:653-661` | Exactly 0 to 9, a to f and A to F are hexadecimal digits. |
| `Numerals.AllDigits` | `utils/misc.c:530-534` | As many digits as the scan counted are the canonical numeral, and its length is that count. |
| `Numerals.LeadingPower` | `utils/misc.c:502-507` | The scan ends at the largest power of the base that is not above the value, without a product that overflows. |
| `Numerals.ScanSafeMeans` | `utils/misc.c:502-507` | The scan's guard never stops it one power early if and only if no power of the base equals the bound it compares with. |
| `Numerals.ScanSafeHere` | `utils/misc.c:502-507` | That holds for bases 8, 10 and 16 and for 32- and 64-bit unsigned long. |
| `Ulong.UlongLength` | `utils/misc.c:496-540` | The text is as long as the larger of the field width and prefix + zeros + digits. |
| `Ulong.Hextoi` | `utils/misc.c:642-665` | The accumulator loop reads, after an optional 0x or 0X, all leading hexadecimal digits up to the first other character, and computes the number they stand for in base 16, modulo 2^32. |
| `Ulong.HexOfNumeral` | `utils/misc.c:642-665` | Reading a base-16 numeral gives the number's low 32 bits. |
| `Ulong.HexReadsBack` | `utils/misc.c:496-665` | Reading a formatted base-16 number gives its low 32 bits back, with or without 0x, unless spaces or zeros stand in front of what can be read; then it gives 0. |
| `Format.LimitFrom` | `utils/misc.c:435-459` | A buffer of m characters can come to hold m+64*floor((n-m)/64)-1 characters if n is at least m+64, else m-1. |
| `Format.FreshLimit` | `utils/misc.c:435-459` | A new dynamic buffer can come to hold 64*floor(n/64)-1 characters for n >= 64, and 63 for less. |
| `Format.RoomIs` | `utils/misc.c:230-250` | How many characters a call's buffer can hold: one less than a caller's buffer has, and for a new or growing one the closed forms above. |
| `Format.NumShown` | `utils/misc.c:496-540` | A number directive shows its prefix, zeros up to the precision, and the numeral in the right case, filled up to the width in front with spaces or zeros, or behind with spaces. |
| `Format.StrShown` | `utils/misc.c:466-489` | A string directive shows its text cut to the length and to the precision, padded with spaces on the side asked for. |
| `Format.StrBuf.Resize` | `utils/balloc.c:490-513` | Growing the buffer keeps every character of it. |
| `Format.StrBuf.PutChar` | `utils/misc.c:435-459` | The buffer always holds the longest prefix of what was put, without NULs, that its limit allows, a NUL behind it if that was put last, and nothing else; all writes are in bounds. |
| `Format.StrBuf.PutString` | `utils/misc.c:466-489` | Puts exactly the cut and padded string that StrShown describes. |
| `Format.StrBuf.PutDigits` | `utils/misc.c:530-534` | Puts exactly the digits from the leading power down. |
| `Format.StrBuf.PutUlong` | `utils/misc.c:496-540` | Puts exactly the padded, prefixed, zero-filled numeral that NumShown describes. |
| `Format.PutPieces` | `utils/misc.c:252-397` | Puts the full rendering of all directives, one after the other. |
| `Format.Dsnprintf` | `utils/misc.c:230-416` | The result is the longest prefix of the full NUL-free rendering that fits, after the text already there; the terminator stands at the count, or at the buffer's end when the count is not below n; for a new buffer and n > 0 it stands at the count if and only if n is at least 64, or the text is shorter than n or fills 63 characters. Where it is not at the count, the contract says what is there instead, for n <= 0 too. Earlier text survives every growth. |
| `Format.EndsLate` | `utils/misc.c:404-410` | Twenty characters for a new buffer of n = 10 are not terminated: the NUL goes to place 63. |
| `Format.EndsNever` | `utils/misc.c:404-410` | A character for a new buffer of n = 0 is stored and not terminated at all. |
| `CalendarSpec.OrderAgrees` | `utils/time.c:139-288` | Time order in seconds is the lexicographic order of the fields. |
| `CalendarSpec.SecondsTell` | `utils/time.c:139-288` | A date of the four-year calendar is known by its seconds. |
| `CalendarSpec.MonthLengths` | `utils/time.c:80-113` | The length of every month; only February changes in a leap year. |
| `CalendarSpec.YearStarts` | `utils/time.c:69-75` | The days before the first years, and that four centuries have one leap day every four years without exception. |
| `CalendarSpec.YearTabRight` | `utils/time.c:69-75` | The year table is the day count of the calendar. |
| `CalendarSpec.MonthTabRight` | `utils/time.c:80-113` | The month tables are the cumulative month lengths. |
| `CalendarSpec.TablesAddUp` | `utils/time.c:244-272` | The table arithmetic is the day count of the four-year calendar carried on to all years, after taking a non-leap year before 1980 for one four years later. |
| `CalendarSpec.CarriedOn` | `utils/time.c:238-288` | From 1980 on the carried-on calendar is the calendar. |
| `Calendar.Julian.FromSecs` | `utils/time.c:139-236` | The fields are a valid date of the four-year calendar, and name exactly the second; the weekday is (days since 1 January 1980 + 1) mod 7. |
| `Calendar.Julian.ToDays` | `utils/time.c:244-272` | The table arithmetic, for any year and every month the tables have, is the day count of the calendar modulo 2^32, with the year read as in TablesAddUp. |
| `Calendar.Julian.ToSecs` | `utils/time.c:238-288` | The seconds of the fields, less five days, modulo 2^32, if and only if the year is 1980 or later or a leap year; else those of four years later. |
| `Calendar.SecsRoundTrip` | `utils/time.c:139-288` | Seconds to fields and back is the identity for every 32-bit value. |
| `Calendar.TimeZero` | `utils/time.c:139-236` | Time 0 is Sunday, 6 January 1980. |
| `Calendar.DateRoundTrip` | `utils/time.c:139-288` | Fields to seconds and back is the identity for every valid date whose seconds fit 32 bits. |
| `Calendar.OrderKept` | `utils/time.c:139-236` | Later seconds are later dates, for times that do not wrap. |
| `Calendar.BcdRoundTrip` | `utils/time.c:406-470` | A byte keeps a number below 160 through BCD encoding and decoding, and one below 256 less 160. |
| `Calendar.BcdHalves` | `utils/time.c:450-461` | The upper half of the byte is the tens and the lower half the ones, for numbers below 160. |
| `Calendar.HalvesBack` | `utils/time.c:406-437` | Decoding counts the upper half of a byte ten times and the lower half once, whatever they are. |
| `Calendar.Timestamp.FromSecs` | `utils/time.c:439-470` | Every field is the BCD byte of the date's field (the year's of its distance from 2000 modulo 256); the stamp decodes to the date from 2000 on, and to 96 years later before. |
| `Calendar.Timestamp.ToSecs` | `utils/time.c:406-437` | Decoding computes the seconds of the decoded date. |
| `Calendar.StampRoundTrip` | `utils/time.c:406-470` | Seconds to time stamp and back is the identity if and only if the date is in 2000 or later. |
| `Calendar.EarlyStamp` | `utils/time.c:439-470` | Time 0, which is 6 January 1980, comes back from its stamp as 2076. |
| `IdMask.OnlyThatBit` | `module/voice/voice_core.c:58` | Setting or clearing one id's bit changes the answer for that id and for no other. |
| `IdMask.OnlyThatWord` | `module/voice/voice_core.c:58` | Setting or clearing an id changes the word at the id divided by 32, and no other. |
| `IdMask.OneDoubles` | `module/voice/voice_core.c:58` | The mask of bit 0 is 1, and of the next bit twice the mask before. |
| `VoiceRecords.EqualWeightsAppend` | `module/voice/voice_core.c:223-244` | Records are pushed with weight 0 on ascending LTE lists, so a push appends. |
| `VoiceRecords.AllIdsUsed` | `module/voice/voice_core.c:372-379` | At most 100 records fit, and all ids 1..100 are in use exactly when there are 100. |
| `VoiceRecords.AddConsistent` | `module/voice/voice_core.c:449-464` | A record with an unused id pushed onto the total list and its type's list keeps the three lists exactly the parts of the total. |
| `VoiceRecords.RemoveConsistent` | `module/voice/voice_core.c:605-647` | Taking a record out of the total list and its type's list keeps them so and frees exactly its id. |
| `VoiceRecords.ThreeKinds` | `module/voice/voice_core.c:1379-1387` | The total is the sum of the three lists. |
| `VoiceRecords.Orphan` | `module/voice/voice_core.c:469-470` | Dropping the first of 100 records from the total list alone leaves it on its type's list: the lists no longer agree. |
| `VoiceRecords.VoiceData.FreeId` | `module/voice/voice_core.c:372-377` | The least free id, or 100 when 1..99 are taken. |
| `VoiceRecords.VoiceData.SetBit` | `module/voice/voice_core.c:378` | Marks exactly that id as used. |
| `VoiceRecords.VoiceData.ClearBit` | `module/voice/voice_core.c:645` | Marks exactly that id as free. |
| `VoiceRecords.VoiceData.RecordLimit` | `module/voice/voice_core.c:290-325` | Drops just enough records from the front of the total list. |
| `VoiceRecords.VoiceData.AddRecord` | `module/voice/voice_core.c:344-480` | The id taken is the first free one, or 100 if 1 to 99 are taken, and is the only one whose bit is set; the four lists after the call, exactly; the new id is unused unless there were 100 records. Lists and mask stay consistent if and only if the type is known and fewer than 100 records were held (or the type is unknown and all ids were taken). |
| `VoiceRecords.UnknownBreaks` | `module/voice/voice_core.c:426-429` | A call of unknown type on the empty index takes an id for no record. |
| `VoiceRecords.OneTooMany` | `module/voice/voice_core.c:344-480` | A hundred added records fill a consistent index, and the next one leaves 101 entries on a list of a total of 100. |
| `VoiceRecords.VoiceData.DeleteRecord` | `module/voice/voice_core.c:571-648` | Deleting through any of the four lists takes the record out of all lists it is on and frees its id and no other; it fails if and only if that list has no such id, and then changes nothing. |
| `VoiceRecords.VoiceData.RecordCounts` | `module/voice/voice_core.c:1379-1387` | The four reported counts are the list sizes, and the total is the sum of the others. |

## Left out

- Locks, lazy initialisation of lists on first use, the destroy functions, and the same list passed as both arguments.
- Ordered list type words other than the four documented kinds; peeks, sizes and searches of the lists.
- `q_linear_delete`, `q_linear_delete_new`, `q_delete_ext`, `q_destroy`, the single-link and self-pointer builds of the queue, `q_next` and `q_check`.
- `bclose`, opening the allocator twice, statistics, fill patterns and verification of free space.
- BlockClasses.GetSize: goes on with the exact size where the program's int overflows, for requests above 2^30; the contract marks that bound.
- Balloc.Arena.Balloc: likewise serves requests above 2^30 with the exact size.
- Balloc.Arena.Bfree: takes the integrity assertion as compiled out, so that freeing a queued block reaches the check behind it.
- Assertions of the program (`a_assert`) on callers appear as preconditions, except the one in `hFree` that `symOpen` does not keep.
- Handles.SymTables.SymClose: does not model giving the symbols back; that is SymTabs.SymTable.Release, without the memory itself.
- `hAllocEntry`, `symSubOpen` and `symSubClose`; contents of symbols are integers.
- Format.Dsnprintf: takes its directives already parsed: format strings and variadic arguments are left out, and so are `%n`, the negation of the smallest `long`, conversion to and from unicode, and `balloc` failing inside the formatter.
- Calendar.Julian.ToSecs: takes months 1..13, which are those the tables have; another month reads outside them.
- Calendar.Timestamp.ToSecs: takes months that decode to 1..13, for the same reason.
- Time strings, `localtime`, `strtok` and logging.
- VoiceRecords.VoiceData: its four lists are sequences; the links themselves are proved in OrderedLists. Allocation failures, the call data beyond id and type, and the datastore are left out.
- The rest of `module/voice`, and the copies of these files in `module/utils`.
