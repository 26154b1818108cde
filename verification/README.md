# A verified model of the course projects

A Dafny model of six programs of this repository: a binary search tree with threaded traversals, the
two-pass labelling of connected components over a union-find, a client/server program on POSIX
threads, an operating-system simulator, an LRU page table, and three arithmetic kernels (the
midpoint line, the parallel bit count, the search for AES key schedules). Code that changes state is
modelled as classes and methods over nodes, arrays and fields, each method proved against functions
on values; the concurrent program is a system of steps. `dafny verify dfyconfig.toml` checks
everything.

| files | program |
|---|---|
| `SearchTree`, `TreeNodes`, `Threads`, `Agendas`, `BinaryTree` | `bstshit/genBST.h` |
| `Lists`, `Reach`, `Forests`, `UnionFind`, `PixelLabels`, `Closing`, `ObjectOrder`, `Labelling` | `vision/IraLeeHomework2` |
| `RequestQueue`, `RequestInvariant`, `RequestSteps`, `RequestTheorems`, `RequestHang`, `RequestDialogue` | `LeeClientServer/main.c` |
| `Blocks`, `Allocator`, `ReadyQueues`, `Scheduling`, `Machine` | `LeeOSProject` |
| `Recency`, `PageTable` | `sendbobspls/Memory.cpp` |
| `MidpointLine` | `vision/image.cc` |
| `BitCounts`, `KeySchedule`, `Rows`, `KeyFinder`, `AesTables`, `AesStandard`, `AesVectors`, `KeySearch`, `Thresholds` | `asdca` |

## How it is built

**Search tree.** `SearchTree` says what every operation does to the tree of keys and proves the laws
about keys. `TreeNodes` ties node objects to a ghost shape through a ghost picture of the heap, with
contexts for "the tree around this node". `BinaryTree` proves each method to compute its function.
In the Morris traversals the picture of the heap at every moment is the original picture plus one
thread for each ancestor the cursor is to the left of (`Threads`); each method's postcondition
`Valid()` speaks of the original picture, so every thread and every reversed pointer is back in place
when it returns. The stack and queue traversals keep an agenda, what the stack or queue still stands
for (`Agendas`).

**Labelling.** `Forests` is the union-find as a value: parents, roots, a rank that falls along every
parent pointer, the list of roots and the pairs united; validity says that two keys have one root
exactly when the pairs united so far connect them. `PixelLabels` runs the first pass as a function
and proves that labels are equivalent exactly when pixels are 6-connected. `Closing` says of the image
alone where the label of a pixel comes from, and so which images the pass fails on. `ObjectOrder` says
which label of an object survives the unions and in what order objects are numbered. `Labelling` is the
code over the image array. The field `repaired` is false for the program as written. True stands for a
deviation: the missing case (left and top neighbours with one and the same label) assigns that label.

**Client and server.** One step is what a thread does between two points where another may run.
Locking, sleeping and waking are steps, a wait may end without a signal, and the console can always
be read. The number of clients is a parameter. `RequestDialogue` says what each thread asks for over a run.

**Operating-system simulator.** `Blocks` and `ReadyQueues` are the memory and the ready processes as
values; `Allocator`, `Scheduling` and `Machine` are the linked list, the queues and the commands.
`repaired` again marks a deviation: the two link updates that the program lacks.

**AES keys.** `KeySchedule` and `KeyFinder` are the key expansion for any tables, `AesTables` has the
program's own and what the standard says of them. `AesStandard` has the recurrence of section 5.2 of
FIPS 197 written out for each key length, `AesVectors` the expansions its appendix A prints. `Rows` is about rows of elements that should follow
from those before them, and `Thresholds` about the distances that occur.

**Findings.** Four places where the code does not do what it is for, each with the exact condition:

- A foreground pixel whose left and top neighbours carry one label and whose top-left neighbour is
  background stays unlabelled (`vision/IraLeeHomework2/image.cc:98-107`). Follow from a foreground
  pixel its top-left neighbour, else its left, else its top one, as long as one is foreground. The two
  passes number the components right exactly if, wherever left and top are foreground and top-left is
  not, left and top lead to two different pixels: `Closing.ExactlyWithoutClosing`. The last pixel of a
  ring of eight is an example: `PixelLabels.RingIsDropped`.
- The creation loop of the client/server program compares its counter with a variable that exiting
  clients count down (`LeeClientServer/main.c:154`). With two clients or more, main can end up waiting
  for a client it never created: `RequestHang.HungIffStarved`, `RequestHang.HangsIffTwoClients`,
  `RequestHang.HangIsForever`.
- A hole taken in full leaves the next block's back pointer at the discarded hole, and a request for
  size 0 leaves an empty block; freeing the first block before a hole loses the root unless the memory
  becomes empty (`LeeOSProject/Memory.cpp:44-46,123-124`): `Allocator.Memory.Insert`,
  `Allocator.Memory.DeleteProcess`, `Allocator.BothDefects`.
- The 128-bit key check rejects a schedule with exactly as many wrong bits as the threshold, which the
  usage text calls the maximum allowed (`asdca/aeskeyfind.c:123,191`). It decides otherwise than "at most
  the threshold" for some 44 words exactly if the threshold lies between 0 and 1280:
  `Thresholds.StrictSufficesIff`.

## Model

| member | source | states |
|---|---|---|
| `SearchTree.InsertInorder` | bstshit/genBST.h:141-155 | inserting into an ordered tree puts the key into the in-order sequence behind all keys not above it |
| `SearchTree.InsertKeepsOrder` | bstshit/genBST.h:141-155 | insertion keeps the in-order sequence non-decreasing, duplicates included |
| `SearchTree.InsertGrows` | bstshit/genBST.h:141-155 | exactly one empty place becomes a leaf with the key; every other node stays where it is |
| `SearchTree.SearchIffMember` | bstshit/genBST.h:166-186 | in an ordered tree search finds exactly the keys that are in it |
| `SearchTree.RemoveRootInorder` | bstshit/genBST.h:215-280 | both deletions take exactly the root's key out of the in-order sequence and leave the rest in order |
| `SearchTree.RemovedShapes` | bstshit/genBST.h:215-280 | of a node with two children, merging leaves the right links of the left part followed by those of the right part; copying keeps the right part and takes the last node of the left part out of its right links |
| `SearchTree.DeleteInorder` | bstshit/genBST.h:240-302 | deleting by copying or by merging removes one occurrence of the key, nothing if it is absent |
| `SearchTree.ApplyKeepsOrder` | bstshit/genBST.h:141-302 | one operation keeps the order and changes the bag of keys by the key it names |
| `SearchTree.EveryHistory` | bstshit/genBST.h:141-302 | after any mix of inserts and deletes the tree is ordered, holds the bag of keys left over, and search is sound and complete |
| `SearchTree.BalancedIsHalved` | bstshit/genBST.h:467-475 | on increasing data, inserting the middles from the root each time builds the tree one would build by halving |
| `SearchTree.HalvedIsCompact` | bstshit/genBST.h:467-475 | the halved tree has the minimal height h with 2^(h-1) <= n < 2^h |
| `SearchTree.CompactIsLowest` | bstshit/genBST.h:467-475 | no tree with as many keys is lower |
| `SearchTree.BalanceIsOptimal` | bstshit/genBST.h:467-475 | balance on increasing data from the empty tree: in-order gives the data back and no other tree of the size is lower |
| `SearchTree.BalanceInserts` | bstshit/genBST.h:467-475 | on any data, sorted or not: the keys are inserted in the pre-order of the halved tree |
| `SearchTree.MirrorReverses` | bstshit/genBST.h:511-526 | reverseTree reverses the in-order sequence |
| `SearchTree.MirrorTwice` | bstshit/genBST.h:511-526 | reversing twice gives the tree back |
| `BinaryTree.BST.Search` | bstshit/genBST.h:166-175 | the loop over nodes finds a node with the key exactly when the value tree holds it |
| `BinaryTree.BST.Insert` | bstshit/genBST.h:141-155 | the nodes afterwards spell out the value tree with the key inserted; the tree stays well formed |
| `BinaryTree.BST.DeleteByCopying` | bstshit/genBST.h:215-235 | the subtree at a link is replaced by itself without its root, the predecessor's key copied up; keys on the path stay |
| `BinaryTree.BST.FindAndDeleteByCopying` | bstshit/genBST.h:240-258 | the tree loses the first node found with the key, and the outcome reported says whether there was one |
| `BinaryTree.BST.DeleteByMerging` | bstshit/genBST.h:260-280 | the subtree at a link is replaced by its left part with the right part hung below the rightmost node; a null link is left alone |
| `BinaryTree.BST.FindAndDeleteByMerging` | bstshit/genBST.h:282-302 | the same for deletion by merging |
| `BinaryTree.BST.Balance` | bstshit/genBST.h:467-475 | the recursion over the array performs the insertions of the value function |
| `BinaryTree.BST.ReverseTree` | bstshit/genBST.h:511-526 | all children are swapped: the tree becomes its mirror image |
| `BinaryTree.BST.MorrisInorder` | bstshit/genBST.h:380-403 | terminates, dereferences no null, visits the recursive in-order sequence, and leaves every pointer as it was |
| `BinaryTree.BST.MorrisPreorder` | bstshit/genBST.h:405-429 | the same for pre-order |
| `BinaryTree.BST.MorrisPostorder` | bstshit/genBST.h:431-465 | the same for post-order, including the right chains that are reversed and reversed back |
| `BinaryTree.BST.TurnChain` | bstshit/genBST.h:454-456 | the first loop turns every right pointer of the chain back to its predecessor |
| `BinaryTree.BST.WalkBack` | bstshit/genBST.h:457-459 | the second loop visits the chain backwards and turns every pointer forward again |
| `BinaryTree.BST.VisitChainBackwards` | bstshit/genBST.h:454-460 | both loops together visit the chain backwards and change no pointer |
| `BinaryTree.BST.PostorderFrom` | bstshit/genBST.h:431-465 | from the dummy node the traversal visits everything but the dummy's own right spine, and restores the heap |
| `BinaryTree.BST.EndOfLeftChain` | bstshit/genBST.h:389-392 | the inner loop ends at the rightmost node of the left part, thread or not |
| `BinaryTree.BST.IterativePreorder` | bstshit/genBST.h:304-319 | the stack traversal visits the recursive pre-order sequence and terminates |
| `BinaryTree.BST.IterativeInorder` | bstshit/genBST.h:321-342 | the traversal that stacks right children and nodes visits the recursive in-order sequence |
| `BinaryTree.BST.IterativePostorder` | bstshit/genBST.h:344-361 | the traversal that remembers the last node visited gives the recursive post-order sequence |
| `BinaryTree.BST.BreadthFirst` | bstshit/genBST.h:363-378 | the queue traversal visits the levels one after the other, each from left to right |
| `Agendas.LevelOrderIsLevels` | bstshit/genBST.h:363-378 | visiting a row, then the row of its children, and so on is the concatenation of the levels down to the depth |
| `Threads.MoveDown` | bstshit/genBST.h:393-396 | tying a thread and going left keeps the thread invariant |
| `Threads.MoveUp` | bstshit/genBST.h:397-401 | cutting a thread and going right keeps it |
| `Threads.SpineChain` | bstshit/genBST.h:448-456 | in the threaded tree the chain from p's left child along right pointers is the spine of the left part and ends at p |
| `Forests.AddedValid` | vision/IraLeeHomework2/unionfind.h:92-102 | a new key is a class of its own |
| `Forests.CompressedValid` | vision/IraLeeHomework2/unionfind.h:47-51 | hanging a node directly under its root changes no class and makes no cycle |
| `Forests.MergedValid` | vision/IraLeeHomework2/unionfind.h:54-74 | after a union two keys have one root exactly when the unions so far connect them, and the list of roots is exact |
| `Forests.MergedClasses` | vision/IraLeeHomework2/unionfind.h:54-74 | a union joins exactly the two classes it names |
| `UnionFinds.UnionFind.Find` | vision/IraLeeHomework2/unionfind.h:22-52 | returns the root of the key's class, adds an unknown key as a class; the key's node then points straight at the root, is among its children, and no other pointer, class or value changes |
| `UnionFinds.UnionFind.Union` | vision/IraLeeHomework2/unionfind.h:54-74 | unites the classes of two keys, adding them if unknown; the vector of roots loses exactly the absorbed root |
| `UnionFinds.UnionFind.RootOf` | vision/IraLeeHomework2/unionfind.h:34-36 | the walk along parent pointers ends at the root |
| `UnionFinds.UnionFind.EraseRoot` | vision/IraLeeHomework2/unionfind.h:67-72 | the loop over the vector of roots erases the one root with the value |
| `PixelLabels.StepExact` | vision/IraLeeHomework2/image.cc:60-111 | labelling one pixel keeps: two labelled pixels are 6-connected exactly when their labels are in one class |
| `PixelLabels.PassInvariant` | vision/IraLeeHomework2/image.cc:277-291 | this holds all along the first pass, with every class in use and labels within the count |
| `PixelLabels.FirstPassDomain` | vision/IraLeeHomework2/image.cc:93-111 | the labelled pixels are the foreground pixels but those that meet the guard of the missing case |
| `PixelLabels.ObjectCount` | vision/IraLeeHomework2/image.cc:118-133 | the number of objects is at least the number of components, and equals that of the labelled pixels |
| `Closing.StepByOrigin` | vision/IraLeeHomework2/image.cc:60-111 | while no pixel has closed a loop, two labels are one exactly when the pixels lead to one origin; a closing pixel gets none |
| `Closing.PassTracked` | vision/IraLeeHomework2/image.cc:277-291 | all along the first pass labels follow origins, or a closing pixel has been passed over for good |
| `Closing.GapIffCloses` | vision/IraLeeHomework2/image.cc:98-107 | the guard of the missing case is met somewhere exactly if some pixel of the image closes a loop |
| `Closing.ExactlyWithoutClosing` | vision/IraLeeHomework2/image.cc:93-133 | the two passes number the whole foreground by its components, as many as they count, exactly if no pixel of the image closes a loop, or the case is repaired |
| `PixelLabels.RingIsDropped` | vision/IraLeeHomework2/image.cc:98-107 | the last pixel of a three by three ring is foreground and gets no label |
| `PixelLabels.SeparatesCounts` | vision/IraLeeHomework2/image.cc:118-123 | a numbering 1..k that separates the components uses as many numbers as there are components |
| `Labelling.Image.SetLabel` | vision/IraLeeHomework2/image.cc:60-111 | one pixel's label, the label count and the recorded equivalences are those of the step function; no other pixel changes |
| `Labelling.Image.FirstPass` | vision/IraLeeHomework2/image.cc:277-291 | the row and column loops leave the labels and equivalences of the whole pass |
| `Labelling.Image.SecondPass` | vision/IraLeeHomework2/image.cc:118-133 | returns the number of roots; every pixel gets the place of its root in the vector of roots, 0 without a label |
| `Labelling.Image.Renumber` | vision/IraLeeHomework2/image.cc:122-124 | each root's value becomes its place in the vector, links and classes stay |
| `Labelling.Image.LabelObjects` | vision/IraLeeHomework2/image.cc:60-133 | both passes leave 1..k on the labelled pixels, equal exactly for 6-connected ones, and 0 elsewhere; an object's number is the place of its surviving label among all that survive |
| `ObjectOrder.PassTells` | vision/IraLeeHomework2/image.cc:93-106 | all along the first pass the root of each label is its surviving label, that of the left neighbour where two meet, and the roots stand in rising order |
| `ObjectOrder.SmallerFirst` | vision/IraLeeHomework2/image.cc:121-123 | of two labelled pixels the one whose surviving label is smaller has the smaller number |
| `RequestSteps.NextKeeps` | LeeClientServer/main.c:149-343 | every step of every thread keeps the invariant |
| `RequestSteps.ReachableInv` | LeeClientServer/main.c:149-343 | the invariant holds in every reachable state |
| `RequestSteps.LinkKeeps` | LeeClientServer/main.c:188-223 | linking a request at the end of the queue keeps it |
| `RequestSteps.DequeueKeeps` | LeeClientServer/main.c:279-289 | taking the first request keeps it |
| `RequestTheorems.MutualExclusion` | LeeClientServer/main.c:174-235 | no two threads are ever inside the same mutex |
| `RequestTheorems.QueueIsHistory` | LeeClientServer/main.c:188-223 | in every run the served requests, the one in service and the linked queue are together the order of enqueuing, and the last pointer is right |
| `RequestTheorems.SyncReturns` | LeeClientServer/main.c:228-234 | a synchronous call returns only after its own request was served, exactly once, with that request's text |
| `RequestTheorems.TextStays` | LeeClientServer/main.c:299-305 | serving a read request gives it the line typed, and no later step changes it |
| `RequestDialogue.ClientDialogue` | LeeClientServer/main.c:247-253 | in every run each client reads and writes by turns, each write carrying the line its read just got; a client that has gone got an empty line last |
| `RequestDialogue.MainQuits` | LeeClientServer/main.c:160-165 | main asks once, to quit; when it returns that request is the last of all and everything is served |
| `RequestTheorems.CallerWaits` | LeeClientServer/main.c:229-230 | no lost wake-up: a waiting caller's request is queued or in service, or its signal is the server's next step |
| `RequestTheorems.ServerWaits` | LeeClientServer/main.c:278-282 | the server sleeps only with an empty queue or while a caller is about to signal |
| `RequestTheorems.MainWaits` | LeeClientServer/main.c:160-163 | main sleeps only while clients are counted in or one is about to signal |
| `RequestTheorems.SpuriousReturns` | LeeClientServer/main.c:229-230 | every wait tests again: one that ends without a signal while what it waits for has not come is back asleep, nothing else having changed |
| `RequestTheorems.QuitComesLast` | LeeClientServer/main.c:160-165 | when main enqueues the quit request every earlier one has been served; when the server has ended nothing is left in the queue |
| `RequestTheorems.QueueBound` | LeeClientServer/main.c:247-253 | the queue never holds more than two requests for each client |
| `RequestHang.HungIffStarved` | LeeClientServer/main.c:153-163 | before main returns no thread can step exactly when main waits for clients it never created; never once all are created |
| `RequestHang.HangIsForever` | LeeClientServer/main.c:160-163 | no continuation, with waits ending unsignalled, leads out of a hang |
| `RequestHang.HangsIffTwoClients` | LeeClientServer/main.c:153-158 | some run hangs exactly when there are at least two clients |
| `RequestHang.SomeRunHangs` | LeeClientServer/main.c:153-163 | such a run: half of the clients come and go before the others are created |
| `Blocks.FirstFitIsLowest` | LeeOSProject/Memory.cpp:32-59 | first fit takes the lowest address at which a hole fits and fails exactly when none does |
| `Blocks.AllocateSound` | LeeOSProject/Memory.cpp:34-56 | allocating keeps the blocks a gapless tiling of the memory without adjacent holes, none of them empty, exactly for a request of one byte or more |
| `Blocks.FreeSound` | LeeOSProject/Memory.cpp:103-126 | freeing with merging to both sides keeps the tiling and leaves no adjacent holes |
| `Blocks.FreeUndoesAllocate` | LeeOSProject/Memory.cpp:23-126 | freeing what was just allocated gives back the same row of blocks |
| `Blocks.AllocateResidents` | LeeOSProject/Memory.cpp:34-56 | allocating adds one process and moves none |
| `Blocks.FreeResidents` | LeeOSProject/Memory.cpp:103-126 | freeing removes that process and moves no other |
| `Allocator.Memory.Search` | LeeOSProject/Memory.cpp:32-62 | the walk from the root ends at the first hole that fits, if there is one |
| `Allocator.Memory.Place` | LeeOSProject/Memory.cpp:35-52 | the list becomes that of the allocation; the back pointers stay right exactly unless a hole with a block after it is taken in full |
| `Allocator.Memory.Insert` | LeeOSProject/Memory.cpp:23-91 | the new block stands in the first hole that fits, with the priority requested brought into 0..4 and the next process number, or nothing changes; the list stays valid exactly unless the condition above holds or the block is empty |
| `Allocator.GrantedCompare` | LeeOSProject/Memory.cpp:26-31 | two processes compare as the priorities requested, up to the bounds 0 and 4 |
| `Allocator.Memory.MergeBackward` | LeeOSProject/Memory.cpp:108-116 | a hole before the block swallows it, links and processes intact |
| `Allocator.Memory.MergeForward` | LeeOSProject/Memory.cpp:117-126 | a hole after the block swallows it; the root is right exactly unless the first block is swallowed without filling the memory |
| `Allocator.Memory.DeleteProcess` | LeeOSProject/Memory.cpp:103-127 | the blocks are those after freeing, exactly that process leaves, and the list stays valid exactly unless the root is lost |
| `Allocator.BothDefects` | LeeOSProject/Memory.cpp:44-46 | a short history after which both conditions hold |
| `ReadyQueues.SplitPush` | LeeOSProject/ReadyQueue.cpp:7-15 | pushing on the queue of its level is arriving last in the list of ready processes |
| `ReadyQueues.SplitPop` | LeeOSProject/ReadyQueue.cpp:27-37 | popping a queue is taking the earliest of its level from the list |
| `Scheduling.Scheduler.AddProcess` | LeeOSProject/ReadyQueue.cpp:7-15 | a process that outranks the running one runs and the other becomes ready; any other becomes ready; the running priority stays the highest |
| `Scheduling.Scheduler.ContextSwitch` | LeeOSProject/CPU.cpp:7-12 | the process runs, the one before is ready; the mutual recursion with addProcess terminates |
| `Scheduling.Scheduler.ChooseNewProcess` | LeeOSProject/ReadyQueue.cpp:27-37 | the earliest arrival of the highest priority is taken, none only if nobody is ready |
| `Scheduling.IODevice.PopFront` | LeeOSProject/IODevice.cpp:19-24 | device queues are first in, first out, and keep everyone else |
| `Machine.Simulator.Insert` | LeeOSProject/Memory.cpp:23-91 | command A: a process is created exactly if a hole fits; it stands in memory with the priority requested brought into 0..4, and runs at once if it outranks the running process, which then is the last ready one, or else is itself the last; with no hole the scheduler is as before; validity as for the allocator |
| `Machine.Simulator.FinishProcess` | LeeOSProject/CPU.cpp:27-43 | command t: exactly the running process leaves memory and scheduler, the earliest of the highest priority succeeds it; validity as for the allocator |
| `Machine.Simulator.SendToDevice` | LeeOSProject/CPU.cpp:45-70 | the running process goes to the end of the device queue with the index brought into range, and is succeeded |
| `Machine.Simulator.ReleaseProcess` | LeeOSProject/IODevice.cpp:19-29 | the first process of the device queue runs if it outranks the running one, or else is the last ready one; everyone stays in exactly one place |
| `Recency.Inclusion` | sendbobspls/Memory.cpp:19-86 | on any trace, terminations included, the pages held with fewer frames are a prefix of those held with more |
| `Recency.MoreFramesFewerMisses` | sendbobspls/Memory.cpp:58-86 | every access that misses with more frames misses with fewer: more frames never cause more misses |
| `Recency.AfterBounded` | sendbobspls/Memory.cpp:19-86 | the list never holds a page twice or more pages than frames |
| `PageTable.Memory.LeastUsedFrame` | sendbobspls/Memory.cpp:31-44 | the first of the frames with the least stamp, -1 without frames |
| `PageTable.LeastUsed` | sendbobspls/Memory.cpp:31-44 | that is a free frame if there is one, otherwise the one least recently used |
| `PageTable.Memory.CreateNewProcess` | sendbobspls/Memory.cpp:19-29 | the frames sorted by stamp are the recency list with the new process's page 0 used |
| `PageTable.Memory.AccessAddress` | sendbobspls/Memory.cpp:58-86 | the page's frame, or on a miss the first with the least stamp, is stamped anew and no other changes; sorted by stamp the frames are the recency list with the page used; nothing without a process |
| `PageTable.PageHolds` | sendbobspls/Memory.cpp:61 | the page of an address is the block of pageSize bytes it lies in, with the exact value for an address below 0 |
| `PageTable.OnePage` | sendbobspls/Memory.cpp:61 | two addresses lie on one page exactly if no multiple of pageSize parts them |
| `PageTable.Memory.Terminate` | sendbobspls/Memory.cpp:46-56 | the frames sorted by stamp are the recency list without the process's pages |
| `PageTable.HitStep` | sendbobspls/Memory.cpp:71-74 | a new stamp on a held page is moving it to the front of the list |
| `PageTable.MissStep` | sendbobspls/Memory.cpp:80-83 | writing the frame with the least stamp is putting the page in front and dropping the last of a full list |
| `MidpointLine.Advance` | vision/image.cc:220-282 | one step of the scan goes to the nearest pixel of the next column or row and keeps the decision variable |
| `MidpointLine.Image.DrawLine` | vision/image.cc:146-282 | exactly the pixels of the line are set, one for each step, all different, each touching the next; no other pixel changes |
| `MidpointLine.NearestUnique` | vision/image.cc:223-246 | each step along has one nearest pixel, halves rounded down |
| `MidpointLine.HalfPixel` | vision/image.cc:132-145 | every pixel is within half a pixel of the ideal line through both ends |
| `MidpointLine.LineInCoordinates` | vision/image.cc:132-282 | in the coordinates of the ends as given: one pixel in every column (or row), at most half a pixel off, the smaller coordinate of two at half a pixel |
| `MidpointLine.EndsOnLine` | vision/image.cc:160-165 | both ends are drawn |
| `MidpointLine.InsideBox` | vision/image.cc:160-165 | no pixel lies outside the rectangle of the ends |
| `MidpointLine.SpanLength` | vision/image.cc:169-206 | the line has as many steps as the longer side of the rectangle of its ends |
| `MidpointLine.SwapSame` | vision/image.cc:171-194 | swapping the ends draws the same pixels |
| `BitCounts.PopcountCounts` | asdca/util.h:25-30 | the parallel count is the number of set bits, for every 64-bit word |
| `BitCounts.TotalIsSum` | asdca/util.h:29 | the multiplication adds the eight byte counts up |
| `KeySchedule.GetSet` | asdca/util.h:9-17 | a byte that was set is read back, the other bytes are unchanged |
| `KeySchedule.KeyCore` | asdca/aes.h:12-17 | the loop over bytes is rotation, S-box and round constant of the standard |
| `KeySchedule.SboxBytes` | asdca/aes.h:20-25 | the loop over bytes is the S-box on every byte |
| `AesTables.SboxIsPermutation` | asdca/aes.c:7-24 | each entry of the S-box is the affine image of the byte's inverse in the field of 256 elements, and each byte is the entry of exactly one |
| `AesTables.RconDoubles` | asdca/aes.c:26-27 | the round constants that are read start at one and double in the field |
| `AesTables.PerfectAesSchedule` | asdca/aeskeyfind.c:151-193 | with the program's tables, no wrong bit means exactly the AES key expansion |
| `Rows.ZeroIsExpansion` | asdca/aeskeyfind.c:151-171 | a row is at distance zero exactly if it is what its first elements expand to |
| `KeyFinder.PerfectSchedule` | asdca/aeskeyfind.c:151-193 | no wrong bit: exactly the key expansion of section 5.2 of FIPS 197 from the first words |
| `AesStandard.Standard128` | asdca/aeskeyfind.c:175-190 | no wrong bit in 44 words: each word is as section 5.2 of FIPS 197 says for keys of four words, written out |
| `AesStandard.Standard256` | asdca/aeskeyfind.c:151-171 | no wrong bit in 60 words: the same for keys of eight words, with the S-box alone on every fifth word |
| `AesStandard.Counted128` | asdca/aeskeyfind.c:175-190 | the wrong bits of 44 words add up over the words, each against what the recurrence asks for |
| `AesStandard.Counted256` | asdca/aeskeyfind.c:151-171 | the same for 60 words |
| `AesVectors.RoundKey128At10` | asdca/aeskeyfind.c:175-190 | the expansion of the key of appendix A.1 of FIPS 197 ends in the last round key printed there |
| `AesVectors.RoundKey256At14` | asdca/aeskeyfind.c:151-171 | the same for the key of appendix A.3 |
| `KeySearch.Accepts256` | asdca/aeskeyfind.c:151-173 | with the exit after any row, accepts exactly if the 60 words have at most threshold wrong bits |
| `KeySearch.Accepts128` | asdca/aeskeyfind.c:175-192 | accepts exactly if the 44 words have fewer wrong bits than the threshold |
| `Thresholds.DistanceAtMost` | asdca/aeskeyfind.c:175-190 | no 44 words have more than 1280 wrong bits |
| `Thresholds.SomeWordsAt` | asdca/aeskeyfind.c:175-190 | every number of wrong bits up to that occurs |
| `Thresholds.StrictSufficesIff` | asdca/aeskeyfind.c:123-191 | the strict comparison is "at most the threshold" on all words exactly if the threshold is below 0 or above 1280 |
| `Thresholds.PerfectIsRejectedAtZero` | asdca/aeskeyfind.c:191 | a perfect 128-bit schedule is accepted exactly if the threshold is positive |
| `KeySearch.Entropy.Test` | asdca/aeskeyfind.c:93-112 | the counts are always those of the current window of 176 bytes; the test says whether a byte occurs more than eight times |
| `KeySearch.RepetitiveIs` | asdca/aeskeyfind.c:93-112 | a window counts as repetitive exactly if the bag of its 176 bytes holds some byte more than eight times |
| `KeySearch.FindKeys` | asdca/aeskeyfind.c:138-201 | the keys found, in the order they are printed, are those of every offset whose window passes |
| `KeySearch.WordsAtBytes` | asdca/aeskeyfind.c:144 | byte b of word k at offset i is byte i + 4k + b of the image |
| `KeySearch.KeyListed` | asdca/aeskeyfind.c:138-201 | a key is listed exactly if its offset is tried, its window passes, and it has at most (128 bits: fewer than) threshold wrong bits |
| `KeySearch.KeysInOrder` | asdca/aeskeyfind.c:138-201 | the list goes by offset, at one offset the 256-bit key before the 128-bit one |

## Left out

- Console, file, mmap and option code, PGM reading and writing, progress and result printing. Visits are
  recorded in a sequence, a line typed at the console is any text.
- Machine overflow, except in the bit and byte operations and in the page of an address; deallocation.
- `clear`, `recursiveInsert`, `recursiveSearch`, `countNodes` and `countLeafs` of the search tree: the
  first three only repeat what is proved of the loops, and the counting helpers fall off their end.
- Search and insertion after `reverseTree`: the tree is then no longer ordered for them.
- A short image file, and the moments, centres and lines computed after the labelling.
- Which of several waiting threads a signal wakes: every condition variable here has one waiter.
- The prompt, the "(n) " before a written text, the fixed sizes of the text buffers, the database
  commands typed as read requests, and the cut of the last character of a line read.
- The client/server model takes one step for the test and the creation in main's loop.
- What the allocator does after an empty block was placed or one of its two link updates was missed.
- An index out of range in `IODevice::releaseProcess`; a device type with no device.
- The scheduler half of `sendbobspls`, and using a page table without a frame, which is indexed at -1.
- Round constants after the tenth, which no key expansion reads.
- Byte -1 of a word in `key_core` is a negative shift in C; it is taken as byte 3, the rotation meant.
- Older and copied versions of these programs elsewhere in the repository.
