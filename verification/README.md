# Verified model of the server kernel's core structures

This project models, in Dafny, the parts of the repository whose correctness is least obvious from reading one
function, and proves what they are for:

- the hierarchical timer wheel, with callbacks that start and kill timers (`Timer*.dfy`), running on its slots as
  intrusive lists (`WheelLists.dfy`, `LinkList.dfy`); it refines timers that are only due at jiffies
  (`TimerPlain.dfy`);
- the spatial indexes: the R-tree (`Rects.dfy`, `RTree*.dfy`), the area-of-interest flush (`AoiModel.dfy`,
  `ZoneAoi.dfy`) and the grid walks (`Zone.dfy`), each against a brute-force description;
- escaping, in-place decoding, printing and parsing of XML (`Xml*.dfy`), up to the exact class of documents that come
  back from their print, and for documents in any layout (`XmlLayout.dfy`);
- the concurrent parts, as state machines over their single steps: the lock-free list (`AtomicList.dfy`), the life
  cycle of a driver between the main and the worker thread of the epoll engine (`EpollEngine.dfy`, with the capacity
  of its queues in `EpollQueues.dfy`), the ring between one producer and one consumer (`CircularQueue.dfy`), the byte
  buffer between a writer and a reader (`ByteStream.dfy`); what their calls come to by themselves (`AtomicCalls.dfy`,
  `StreamCalls.dfy`) and what a run of the engine's calls tells about its drivers (`EpollHistory.dfy`); and the byte
  buffers with the send and receive loops (`CircularBuffer.dfy`);
- the allocators: blocks and chunks (`PoolLinks.dfy`, `DynPool.dfy`), the binary heap in its array (`Heap.dfy`) and
  the index pool over it (`IndexPool.dfy`);
- the master's introductions that mesh the cluster (`Cluster.dfy`).

`Seqs.dfy` and `Chains.dfy` have what is shared about duplicate-free sequences and the pointers that spell them,
`Division.dfy` what is shared about quotients. `dafny verify dfyconfig.toml` checks everything.

Objects whose methods change fields are classes here; their methods are proved against functions or predicates on
values, and the lasting properties are lemmas about these. Protocols are given as a state, the steps that are
possible in it and what each does; a run is any sequence of possible steps, and the statements hold after every run.
Time, answers of `send`, `recv`, `epoll_ctl` and `epoll_wait`, addresses of new memory and what callbacks do are
parameters.

## What turned out otherwise

Where a property does not hold of the code in full, the model keeps the code as it is, and the exact condition is
proved.

- R-tree, minimum fill: the nodes below the root have at least `MINNODES` entries in every tree if and only if
  `2 * MINNODES <= MAXNODES + 1` (`RTreeRuns.AlwaysFilled`; for all other parameters the first split of a new tree
  leaves a node with fewer, `RTreeRuns.FirstSplit`, and so does every growth of the root, `RTree.RTree.InsertRect`).
  The parameters in `RectTree.h` (64, 48) and `TestRtree.h` (48, 32) are such. What holds for all parameters is that
  a node has at least what a split leaves over (`RTreePartition.PartitionVars.ChoosePartition`).
- R-tree, the root: an internal root loses its last child exactly when, with `MINNODES` 1, which the constructor
  allows, the only entry of a tree with an internal root is removed (`RTree.RTree.Remove`); `Insert` must not meet
  such a tree. A run from the constructor leads there for every `MAXNODES` (`RTreeRuns.NoChildLeft`). From 2 on it
  cannot happen (`RTree.RTree.WayDownIff`).
- The question in `RemoveRect` whether branches of eliminated nodes should go in one level lower: the level in the
  code is the right one (`RTree.RTree.ReInsertAll`).
- Epoll engine: a SHUT_DOWN request carries only a socket number. It reaches its own driver as long as that is open,
  and if the driver has been closed while the request waited, an open owner it meets is then another driver: the two
  are one if and only if the driver asked for is not closed (`EpollEngine.ShutDownReachesOwnIff`; a run that comes to
  it is `EpollEngine.ShutDownAfterClose`). UNBIND requests, which carry the number too, are safe.
- Epoll engine: a push waits while its queue is full, so the two threads can come to wait for each other. With queues
  of `n` places (2048 in the source) and never more than `k` drivers open this is possible if and only if
  `2 * k > n` (`EpollQueues.DeadlockIff`).
- XML: an ampersand that begins no entity is passed over without being copied. Decoding replaces the entities and
  nothing else if and only if each such ampersand finds another at the place of the buffer that has been written up to
  (`XmlEntities.DecodeIsUnescapeIff`), as it does in front of the first entity; behind one it may be lost
  (`XmlEntities.StrayAmpersand`). Of a bare `&#` at the end the ampersand goes (`XmlEntities.BareReference`).
- XML: character references to numbers of 2^32 and above wrap. They still give what the number asks for, which is
  nothing, if and only if what is left of the number also needs more than 21 bits (`XmlReference.ReferenceIsUtf8Iff`).
- Byte buffer: `GetCanReadBuff` mentions the writer's counter three times. If it is loaded once, the piece handed out
  always lies in the ring (`ByteStream.StaysInside`); if it is loaded again for the length, the piece runs over the
  end of the ring if and only if the writer has gone round the end in between (`ByteStream.OverrunIff`), and this can
  be reached if and only if the ring has four bytes or more (`ByteStream.OverrunReachableIff`). The loads of the other
  calls have no such condition.
- Index pool: `InitHeapCapacity` numbers allocations instead of nodes, so indices and nodes agree exactly if no
  allocation succeeds after one that failed (`IndexPool.InitialPartition`); `ExpandCapacity` has no such condition.
  `Find` lets the index that equals the number of nodes through (`IndexPool.FindChecksRange`).
- `HeapSort` leaves a descending array, which is a heap only if all items are equal (`Heap.SortedIsNoHeap`).
- XML: line ends are normalized on input, so text comes back exactly if it is free of CR (`XmlRoundTrip.RoundTrip`);
  a document without nodes is refused (`XmlDocument.EmptyDocumentIsRefused`). The documents that come back are exactly
  the legal ones (`XmlExact.ComesBackIff`). The comment in `ParseAttributes` that
  duplicate attributes are not detected is out of date: the code reports them as errors, and so does the model.

## Model

| member | source | states |
|---|---|---|
| TimerArithmetic.SlotIsReachedInTime | Project/Kernel/Timer/TimerWheel.cpp:116-156 | For every expiry and time, the chosen slot exists, is reached within the current turn of its level and no later than the timer is due; in the root level exactly when it is due, in an upper level never at once. |
| TimerArithmetic.ReachedOnce | Project/Kernel/Timer/TimerWheel.cpp:75-92 | A slot of any level is reached at one moment of a turn only. |
| TimerArithmetic.ReachedNow | Project/Kernel/Timer/TimerWheel.cpp:84-90 | If an upper-level slot is reached at a jiffy, that jiffy is a multiple of its span and all levels below are at their slot 0. |
| TimerArithmetic.TimeGoesOn | Project/Kernel/Timer/TimerWheel.cpp:91-91 | A slot that is not reached at a jiffy keeps its moment when the jiffies advance. |
| TimerArithmetic.NotReachedNow | Project/Kernel/Timer/TimerWheel.cpp:116-156 | A timer never goes into an upper-level slot that is being reached, so a cascade never refills the slot it drains nor one of a level already cascaded in the tick. |
| TimerArithmetic.NextLevel | Project/Kernel/Timer/TimerWheel.cpp:86-90 | The next level has a slot to cascade exactly when the present one has come to its slot 0; this is what the chain of tests in Process relies on. |
| TimerArithmetic.LevelZero | Project/Kernel/Timer/TimerWheel.cpp:85-86 | Off the multiples of 256 no upper-level slot is reached. |
| TimerArithmetic.OneSlotPerLevel | Project/Kernel/Timer/TimerWheel.cpp:75-90 | At any jiffy a level has at most the one slot INDEX names to cascade. |
| TimerArithmetic.DelayIs | Project/Kernel/Timer/TimerMgr.cpp:14-21 | For a delay of d ms at jiffy j, with 0 <= d: 0 <= d - 10 * (due - j) < 10; a negative delay is due at once. |
| TimerArithmetic.IntervalIs | Project/Kernel/Timer/TimerMgr.cpp:14-21 | The interval kept is, for 0 <= ms < 10 * 2^31, the k with 0 <= ms - 10 * k < 10; mirrored, and widened to 64 bits, for a negative one. |
| TimerArithmetic.S32Is | Project/Kernel/Timer/TimerMgr.cpp:14-21 | An interval that does not fit 32 bits is kept up to a multiple of 2^32, between -2^31 and 2^31. |
| TimerArithmetic.DueIs | Project/Kernel/Timer/TimerWheel.cpp:116-156 | An expiry of the coming 2^63 jiffies is met in its own iteration, any other in the very next. |
| TimerHistory.ArmedThenCalledWhenDue | Project/Kernel/Timer/TimerWheel.cpp:77-101 | In a log without fault, the event of a timer after its arming is its callback in the very iteration it is due, or its kill; if there is none yet, the timer still waits for that jiffy. |
| TimerHistory.ArmedBetweenCalls | Project/Kernel/Timer/TimerWheel.cpp:9-37 | Between two callbacks of a timer there is an arming: no arming is answered twice. |
| TimerHistory.ConsecutiveCalls | Project/Kernel/Timer/TimerWheel.cpp:26-32 | The second of two consecutive callbacks comes in the iteration that the interval, counted from the jiffy after the first, makes due. |
| TimerHistory.IntervalIsKept | Project/Kernel/Timer/TimerWheel.cpp:26-32 | For intervals that do not overflow, consecutive callbacks are exactly interval + 1 jiffies apart. |
| TimerHistory.NoCallAfterEnd | Project/Kernel/Timer/TimerWheel.cpp:46-59 | A terminated timer is neither called nor armed again. |
| TimerHistory.CountersFitThePhase | Project/Kernel/Timer/TimerWheel.cpp:9-59 | At every point of a log the numbers of OnStart, OnTime, OnTerminate and releases are those that the phase of the timer and its plan allow. |
| TimerHistory.AtMostOneEnd | Project/Kernel/Timer/TimerWheel.cpp:46-59 | At most one OnStart, one OnTerminate and one release per timer, the release never before OnTerminate, whatever callbacks do. |
| TimerHistory.CompleteLife | Project/Kernel/Timer/TimerWheel.cpp:9-59 | A timer of N repetitions that is never killed has, once it is gone, had one OnStart, N OnTime, one OnTerminate(false) and one release. |
| TimerHistory.NeverEnds | Project/Kernel/Timer/TimerWheel.cpp:26-36 | A timer with the count -1 that nobody kills has had no OnTerminate and no release at any time. |
| TimerHistory.NotReleasedInsideCallback | Project/Kernel/Timer/TimerWheel.cpp:11-25 | Between entering a timer's callback and its return the timer is not released, even if it is killed in there. |
| TimerWheelState.AttachKeeps | Project/Kernel/Timer/TimerWheel.cpp:116-156 | Putting a timer that is in no list into a slot that is reached in time keeps the invariant of the wheel. |
| TimerWheelState.DetachKeeps | Project/Public/TList.h:52-81 | Taking a timer out of whatever list it is in keeps the invariant. |
| TimerWheelState.AdvanceKeeps | Project/Kernel/Timer/TimerWheel.cpp:91-92 | If every upper-level slot reached now is empty, the step to the next jiffy, with the root slot becoming the work list, keeps every timer where it will be met in time. |
| TimerWheelState.NothingOverdue | Project/Kernel/Timer/TimerWheel.cpp:77-101 | Between iterations no waiting timer is overdue. |
| TimerWheelState.DueNow | Project/Kernel/Timer/TimerWheel.cpp:92-98 | Every timer in the work list is due in the iteration being processed. |
| TimerWheelState.NoBadLife | Project/Kernel/Timer/TimerWheel.cpp:9-101 | In every reachable state the log of events of each timer is free of faults, so that the statements of TimerHistory hold of it. |
| TimerWheelState.EvolvesTransitive | Project/Kernel/Timer/TimerWheel.cpp:9-59 | What callbacks may do to other timers - leave them, or kill them - composes over nested callbacks. |
| TimerWheel.TimerWheel.AddTimer | Project/Kernel/Timer/TimerWheel.cpp:116-156 | A timer in no list ends up at the tail of the slot for its expiry, and the invariant is kept. |
| TimerWheel.TimerWheel.StartTimer | Project/Kernel/Timer/TimerMgr.cpp:14-21 | The timers are what they were and a new one, armed as asked in milliseconds and jiffies of 10 ms: for a delay d >= 0, 0 <= d - 10 * (due - now) < 10, a negative one due at once; for an interval that fits 32 bits, 0 <= ms - 10 * interval < 10, mirrored below zero; the count as given. All this whatever else is in the wheel. |
| TimerWheel.TimerWheel.KillTimer | Project/Kernel/Timer/TimerMgr.cpp:23-29 | The killed timer is gone, or dead until its own callback returns; everything else is what the kill and its OnTerminate make of timers without a wheel. |
| TimerWheel.TimerWheel.KillBase | Project/Kernel/Timer/TimerWheel.cpp:39-44 | A kill ends the timer once: released at once if it may be, otherwise after its callback. |
| TimerWheel.TimerWheel.End | Project/Kernel/Timer/TimerWheel.cpp:46-59 | OnTerminate and removal happen at most once; the memory is given back exactly when the timer is not inside its callback. |
| TimerWheel.TimerWheel.Terminate | Project/Kernel/Timer/TimerWheel.cpp:46-56 | After OnTerminate, whatever it starts or kills, the timer is in no list and otherwise unchanged. |
| TimerWheel.TimerWheel.Exec | Project/Kernel/Timer/TimerWheel.cpp:9-37 | The callback is entered once, in the iteration the timer is due; afterwards the timer is gone, or armed for its interval with one repetition less. |
| TimerWheel.TimerWheel.RunScript | Project/Kernel/Timer/TimerWheel.cpp:9-59 | Any finite sequence of starts and kills inside a callback, with nested OnTerminate, does to the wheel what it does to timers without one, keeps it valid and only shortens the work list. |
| TimerWheel.TimerWheel.Cascade | Project/Kernel/Timer/TimerWheel.cpp:103-114 | The slot is drained completely; slots reached now that were empty stay empty; only places change, no timer is called. |
| TimerWheel.TimerWheel.CascadeLevels | Project/Kernel/Timer/TimerWheel.cpp:82-90 | After the cascades of a tick no upper-level slot reached now holds a timer. |
| TimerWheel.TimerWheel.StepJiffies | Project/Kernel/Timer/TimerWheel.cpp:91-92 | The root slot of the iteration becomes the work list and is left empty; time has gone on by one jiffy, and nothing else has happened to any timer. |
| TimerWheel.TimerWheel.DrainWork | Project/Kernel/Timer/TimerWheel.cpp:92-99 | The work list is emptied although callbacks start timers and kill timers waiting in it: each timer that was due at the jiffy has its turn once, and is called if it still waits. |
| TimerWheel.TimerWheel.Tick | Project/Kernel/Timer/TimerWheel.cpp:80-99 | One iteration is one jiffy of timers without a wheel: exactly those that are due at it are called, one after another, as far as they are not killed meanwhile; cascades change nothing of it. |
| TimerWheel.TimerWheel.Process | Project/Kernel/Timer/TimerWheel.cpp:77-101 | The jiffies catch up with the clock (0 <= now - tick - 10 * jiffies < 10 unless they are ahead of it), one jiffy of the plain timers for each; then every waiting timer is due at or after the present jiffy. |
| TimerWheel.TimerWheel.Run | Project/Kernel/Timer/TimerMgr.cpp:9-29 | Any sequence of starts, kills and Process calls, with any callbacks, from a state between two calls (such as a new wheel): the wheel with its levels, slots and cascades goes step by step through a run of timers that are only due at jiffies; it stays valid, and at the end every arming whose jiffy has been processed was answered exactly once. |
| TimerWheel.ArmingIsServed | Project/Kernel/Timer/TimerWheel.cpp:77-156 | In every valid state between two calls: an arming whose jiffy has been processed was answered exactly once, by the callback in precisely the iteration it was due or by a kill before, and no further callback comes without a new arming. |
| TimerPlain.StartedAsAsked | Project/Kernel/Timer/TimerMgr.cpp:14-21 | A timer that is started without a wheel is armed within 10 ms of its delay, with the interval and the count asked for. |
| TimerPlain.RanThen | Project/Kernel/Timer/TimerWheel.cpp:9-59 | What callbacks do one after the other is what they do together. |
| TimerPlain.ScriptsAreHeard | Project/Kernel/Timer/TimerMgr.cpp:14-29 | Inside a callback, a start under a free name is heard as birth and arming of a new timer, a kill under a taken one as the end of its timer; the others have no effect. |
| TimerPlain.OneMoreTick | Project/Kernel/Timer/TimerWheel.cpp:77-101 | The jiffies of a catching-up are passed one by one. |
| WheelLists.SlotLists.TailInsert | Project/Kernel/Timer/TimerWheel.cpp:116-156 | With all slots as intrusive lists over the same nodes: a timer in no list joins the tail of one slot, all other slots keep their timers in order. |
| WheelLists.SlotLists.HeadRemove | Project/Kernel/Timer/TimerWheel.cpp:92-111 | The first timer of a slot leaves it; no other slot changes. |
| WheelLists.SlotLists.Remove | Project/Kernel/Timer/TimerWheel.cpp:46-56 | A timer leaves the list that its node names as host, wherever it stands in it; a node without a host is left alone. |
| WheelLists.SlotLists.Swap | Project/Kernel/Timer/TimerWheel.cpp:91-92 | Two of the lists exchange their timers, whose nodes name the right list again; no other slot changes. |
| WheelLists.OthersStay | Project/Public/TList.h:22-127 | What happens to the nodes of one list leaves every other list what it was, links, ends and size. |
| LinkList.LinkList.HeadInsert | Project/Public/TList.h:83-104 | A node without a host becomes the first; a node with a host, and every other node, is left alone. |
| LinkList.LinkList.TailInsert | Project/Public/TList.h:106-127 | A node without a host becomes the last; a node with a host, and every other node, is left alone. |
| LinkList.LinkList.HeadRemove | Project/Public/TList.h:22-35 | The first node leaves, with host and links cleared; null for an empty list. |
| LinkList.LinkList.TailRemove | Project/Public/TList.h:37-50 | The last node leaves, with host and links cleared; null for an empty list. |
| LinkList.LinkList.Remove | Project/Public/TList.h:52-81 | A node is taken out of the middle, the others keep their order; false, and nothing done, for a node without a host. |
| LinkList.LinkList.TailMerge | Project/Public/TList.h:129-148 | The other list's nodes follow in their order and name this list as host; the other list is empty. |
| LinkList.LinkList.Swap | Project/Public/TList.h:153-174 | The two lists exchange their sequences of nodes; no link changes, every node names its new list. |
| LinkList.Join | Project/Public/TList.h:106-148 | Joining two chains at their ends gives the chain that spells both sequences, forwards and backwards. |
| LinkList.BypassChain | Project/Public/TList.h:57-75 | Joining a node's neighbours gives the chain without the node and touches no other node. |
| LinkList.RemovedFrom | Project/Public/TList.h:22-81 | The three removals come to the same: chain and hosts of the rest are right and the node is clean. |
| LinkList.OtherList | Project/Public/TList.h:10-189 | A list does not notice what happens to nodes it does not hold. |
| LinkList.Nodes.SetHosts | Project/Public/TList.h:141-146 | The loop over a chain gives exactly its nodes the new host. |
| Rects.CombineRect | Project/Public/2D/RTree.h:1093-1108 | The least rectangle that contains both. |
| Rects.Overlap | Project/Public/2D/RTree.h:1528-1543 | True exactly when no dimension keeps the rectangles apart; for proper ones exactly when they have a point in common. |
| Rects.OverlapGrows | Project/Public/2D/RTree.h:1492-1492 | Whatever overlaps a rectangle overlaps every rectangle around it, so no subtree with a hit is skipped. |
| Rects.OverlapsIff | Project/Public/2D/RTree.h:1528-1543 | Proper rectangles overlap if and only if a point lies between minimum and maximum of both in every dimension. |
| Rects.ContainsIff | Project/Public/2D/RTree.h:1093-1108 | One proper rectangle contains another if and only if it has all its points. |
| RTree.RTree.NodeCover | Project/Public/2D/RTree.h:993-1006 | The least rectangle around all branches of a node. |
| RTree.RTree.PickBranch | Project/Public/2D/RTree.h:1056-1090 | The branch with the smallest increase in area, among equals the smallest, among these the first. |
| RTreePartition.PartitionVars.Classify | Project/Public/2D/RTree.h:1398-1421 | An untaken entry enters a group; the group's count, cover and area follow, the other group's do not change. |
| RTreePartition.PartitionVars.FindSeeds | Project/Public/2D/RTree.h:1363-1391 | The two entries that waste most area together, or the first two if no pair wastes more than the bound the search starts from. |
| RTreePartition.PartitionVars.PickSeeds | Project/Public/2D/RTree.h:1363-1395 | The worst pair is separated, one entry for each group. |
| RTreePartition.PartitionVars.PickNext | Project/Public/2D/RTree.h:1261-1294 | The untaken entry most strongly drawn to one group, and that group; among equals one whose group is smallest, and among these the first. |
| RTreePartition.PartitionVars.constructor | Project/Public/2D/RTree.h:1207-1232 | Nothing is taken, and the cover of all entries is the least rectangle around them. |
| RTreePartition.PartitionVars.PutRest | Project/Public/2D/RTree.h:1298-1316 | All untaken entries go to one group, the others stay where they are. |
| RTreePartition.PartitionVars.ChoosePartition | Project/Public/2D/RTree.h:1246-1321 | Every entry is in exactly one group, and neither group has fewer entries than the minimum fill, or than all but the minimum fill if that is less. |
| RTree.RTree.LoadNodes | Project/Public/2D/RTree.h:1324-1343 | The two nodes have the entries of the two groups, and together exactly the entries of the buffer. |
| RTree.RTree.SplitNode | Project/Public/2D/RTree.h:1112-1141 | Both halves are well formed, hold together exactly the old entries and the new one, MAXNODES + 1 branches in all, and stay inside what covers these; each has as many as its share of the minimum fill allows, and with 2 * MINNODES above MAXNODES + 1 one of them has fewer than MINNODES. |
| RTree.RTree.AddBranch | Project/Public/2D/RTree.h:1009-1033 | The entry is added, with a split exactly of a full node; nothing is lost. |
| RTree.RTree.InsertRectRec | Project/Public/2D/RTree.h:883-941 | Insertion at a given level keeps the subtree well formed (levels, covers, fill), stores exactly one entry or branch more, and stays inside every rectangle around the old contents and the new entry. |
| RTree.RTree.InsertRect | Project/Public/2D/RTree.h:944-990 | The tree grows at the root at most, by one level; a root that was split has two children, and then all nodes below it are filled to MINNODES exactly if 2 * MINNODES <= MAXNODES + 1. |
| RTree.RTree.RemoveRectRec | Project/Public/2D/RTree.h:1478-1525 | Either no entry with the id overlaps the rectangle and nothing changes, or exactly one entry with the id is gone and the rest is in the node and the orphans. |
| RTree.RTree.ChildRemoved | Project/Public/2D/RTree.h:1496-1506 | A child below the minimum is cut off and becomes an orphan, any other gets its least cover; nothing else changes. |
| RTree.RTree.ReInsertAll | Project/Public/2D/RTree.h:1438-1457 | Every branch of every orphan is put back at the level of its node, and that level exists; this answers the source's question about the level. |
| RTree.RTree.RemoveRect | Project/Public/2D/RTree.h:1424-1475 | Exactly one entry is removed, or nothing if none overlaps; the tree is valid and at most one level lower. Afterwards an insertion finds its way down if and only if it did before and the removal was not, with MINNODES 1, that of the only entry of a tree with an internal root. |
| RTree.RTree.Insert | Project/Public/2D/RTree.h:484-505 | The tree stays valid and stores exactly one entry more. |
| RTree.RTree.Remove | Project/Public/2D/RTree.h:508-527 | Removing an entry with its own rectangle succeeds; with unique ids it removes that entry and no other. The same exact condition for the way down as for RemoveRect. |
| RTree.RTree.SearchNode | Project/Public/2D/RTree.h:1560-1606 | The callback gets the overlapping entries below a node in order, until it stops. |
| RTree.RTree.Search | Project/Public/2D/RTree.h:530-555 | With a continuing callback the entries reported are exactly the stored ones that overlap, for proper rectangles those that share a point with the query, each as often as it is stored; a callback that stops gets no others, and stops at the last. |
| RTree.RTree.WayDownIff | Project/Public/2D/RTree.h:890-941 | An insertion lacks a way down exactly in a tree with an internal root that stores nothing, and never with a minimum of two entries per node. |
| RTreeRuns.NoChildLeft | Project/Public/2D/RTree.h:1438-1468 | With a minimum of one entry there is, for every MAXNODES, dimension and area function, a run of insertions and removals from the constructor to an internal root without children, where the next insertion finds no branch to pick. |
| RTreeRuns.DropOthers | Project/Public/2D/RTree.h:1456-1468 | A root of level 2 or more with one thinned child collapses once when its other children are gone, although the new root has a single child again. |
| RTreeRuns.FirstSplit | Project/Public/2D/RTree.h:1112-1141 | For all parameters and every area function, insertions into a new tree reach a tree of level 1 whose leaves have MINNODES entries if and only if 2 * MINNODES <= MAXNODES + 1. |
| RTreeRuns.AlwaysFilled | Project/Public/2D/RTree.h:1290-1312 | With 2 * MINNODES <= MAXNODES + 1 every node but the root of every valid tree has at least MINNODES entries. |
| RTreeRuns.ThinnerAt | Project/Public/2D/RTree.h:1478-1525 | A removal with MINNODES 1 takes the entry from below the one branch that stores it: that branch stores one less, or is gone with its only entry; no other changes. |
| RTreeModel.StoresAtMost | Project/Public/2D/RTree.h:944-990 | A tree of level n stores at most MAXNODES^(n+1) entries, so that trees must grow. |
| RTree.HitsAreTheOverlapping | Project/Public/2D/RTree.h:1560-1606 | The search order lists exactly the stored entries that overlap, as often as they are stored. |
| RTree.ReportAll | Project/Public/2D/RTree.h:1594-1600 | A callback that never stops gets all of them. |
| RTree.NoHitsOutside | Project/Public/2D/RTree.h:1573-1573 | A subtree whose rectangle does not overlap has nothing to report. |
| RTree.NotEmptyStores | Project/Public/2D/RTree.h:1496-1506 | A well formed node with branches stores an entry. |
| RTreeModel.ItemsInside | Project/Public/2D/RTree.h:993-1006 | Everything stored below a branch lies in the branch's rectangle. |
| RTreeModel.ItemsDisconnect | Project/Public/2D/RTree.h:1036-1048 | Disconnecting a branch loses exactly what is stored below it. |
| RTreeModel.AllAtOneDepth | Project/Public/2D/RTree.h:1039-1048 | The tree is balanced: every entry is found exactly at the depth of the root's level. |
| ZoneAoi.ZoneAoi.Flush | Project/Public/2D/ZoneAOI.cpp:60-89 | Over positions and the boundary vector alone, positive in X and Z and the same for all: every object with up to 128 others q whose position differs from its own by at most the boundary along each of the three axes ends with exactly their ids, in increasing order; one with more has 128 or 129 of them; of two of the first kind both have each other or neither; the old list is put aside. |
| ZoneAoi.ZoneAoi.RDClustering | Project/Public/2D/ZoneAOI.cpp:92-151 | Serves every object as brute force over all objects would, and terminates by list length and unmarked axes. |
| ZoneAoi.ZoneAoi.ServeCluster | Project/Public/2D/ZoneAOI.cpp:117-148 | A cluster is compared, or clustered along the other axis, and served as if it were alone. |
| ZoneAoi.ZoneAoi.DoCompare | Project/Public/2D/ZoneAOI.cpp:153-212 | The sweeps serve every object of a cluster with its neighbours in the cluster. |
| ZoneAoi.ZoneAoi.Sweep | Project/Public/2D/ZoneAOI.cpp:160-206 | The two-way sweep finds each neighbour once; stopped early only by the limit of 128 does it miss any. |
| ZoneAoi.ZoneAoi.StepForward | Project/Public/2D/ZoneAOI.cpp:168-185 | One step forward finds the next object or skips all that are out of range. |
| ZoneAoi.ZoneAoi.StepBack | Project/Public/2D/ZoneAOI.cpp:187-202 | The same backwards. |
| ZoneAoi.ZoneAoi.CollectEdges | Project/Public/2D/ZoneAOI.cpp:64-80 | Both edges of every box are collected once, the old neighbours put aside, the new ones empty. |
| ZoneAoi.ZoneAoi.Enter | Project/Public/2D/ZoneAOI.cpp:22-32 | A new object gets the box from its position less the boundary vector to its position plus it; an id that is present keeps its object. |
| ZoneAoi.ZoneAoi.Leave | Project/Public/2D/ZoneAOI.cpp:34-45 | The object is gone, the others are unchanged. |
| ZoneAoi.ZoneAoi.Update | Project/Public/2D/ZoneAOI.cpp:54-59 | The object gets the new position, and the box from it less the boundary vector to it plus that; no other changes. |
| ZoneAoi.StopForward | Project/Public/2D/ZoneAOI.cpp:177-183 | The first object out of range along the sorted axis puts every later one out of the box. |
| ZoneAoi.StopBack | Project/Public/2D/ZoneAOI.cpp:194-200 | The same backwards. |
| ZoneAoi.AllClosed | Project/Public/2D/ZoneAOI.cpp:101-150 | At the end of the list every bracket is closed, so no object is left unserved. |
| ZoneAoi.ClusterDone | Project/Public/2D/ZoneAOI.cpp:117-148 | Serving a cluster by itself serves its objects with respect to all. |
| AoiModel.Balanced | Project/Public/2D/ZoneAOI.cpp:105-117 | Between two zeros of the bracket count lie both edges of the same objects. |
| AoiModel.ClusterApart | Project/Public/2D/ZoneAOI.cpp:117-148 | Objects of different clusters are not in each other's box. |
| AoiModel.NeighboursInCluster | Project/Public/2D/ZoneAOI.cpp:117-148 | Hence the neighbours of an object are those within its cluster. |
| AoiModel.NeighboursAreSeen | Project/Public/2D/ZoneAOI.h:41-74 | The neighbours by boxes are the others within the boundary vector along each axis. |
| AoiModel.SeenBothWays | Project/Public/2D/ZoneAOI.h:41-74 | Of two objects either both are in the other's box or neither. |
| AoiModel.OpensSorted | Project/Public/2D/ZoneAOI.cpp:94-110 | In the order of their left edges the objects are sorted by position. |
| AoiModel.ClosedHasOpened | Project/Public/2D/ZoneAOI.cpp:105-115 | A closing edge since the last zero has its opening edge there too. |
| AoiModel.SortEdges | Project/Public/2D/ZoneAOI.cpp:94-99 | A sorted permutation of the edges. |
| AoiModel.SortIds | Project/Public/2D/ZoneAOI.cpp:207-207 | The ids in increasing order. |
| Zone.Zone.Init | Project/Public/2D/Zone.h:76-102 | The grid is the least one that covers the rectangle, all grids empty; refused for an empty rectangle. |
| Zone.Zone.EnterZone | Project/Public/2D/Zone.h:129-138 | The element is in that grid and nothing else changes; refused exactly for a number below zero or not below the size. |
| Zone.Zone.LeaveZone | Project/Public/2D/Zone.h:140-149 | The element is out of that grid and nothing else changes; refused exactly for a number below zero or not below the size. |
| Zone.Zone.TraversingCallAll | Project/Public/2D/Zone.h:55-60 | Stops exactly if the callback stops at some element. |
| Zone.Zone.GetIDsByRadiusFromInner | Project/Public/2D/Zone.h:184-243 | Visits the cells of the grid at most the radius away in column and row, in the order of rings, up to the first at which the callback stops. |
| Zone.Zone.GetAllIDsByRadius | Project/Public/2D/Zone.h:151-183 | Visits the cells of the grid at most the radius away in column and row, row by row, up to the first at which the callback stops. |
| Zone.Zone.GetASubBIds | Project/Public/2D/Zone.h:244-272 | Visits the cells at most the radius away from A in column and row, and further away from B, all of them if nothing stops it. |
| Zone.Zone.GetAIntersectionBIds | Project/Public/2D/Zone.h:274-302 | Visits the cells at most the radius away in column and row from both A and B, all of them if nothing stops it. |
| Zone.RectIsSquare | Project/Public/2D/Zone.h:309-317 | The clipped rectangle holds exactly the grid's cells within the Chebyshev distance, for every radius, also a negative one. |
| Zone.RingsAreRect | Project/Public/2D/Zone.h:151-243 | The walk from the inside and the walk over the rectangle visit the same cells, each once; from the inside in non-decreasing distance. |
| Zone.SubAndIntersection | Project/Public/2D/Zone.h:244-302 | A without B and A with B partition the cells of A. |
| Zone.StoppedIsPrefix | Project/Public/2D/Zone.h:184-243 | A walk that is stopped has visited the beginning of the walk that is not. |
| Zone.IdInRange | Project/Public/2D/Zone.h:214-216 | Different cells have different grid numbers, all in range. |
| XmlText.PrintString | Project/Public/tinyxml2/tinyxml2.cpp:2160-2207 | Appends the text with every flagged byte as its entity, though runs are flushed in one piece (what the entities are: XmlEntities). |
| XmlText.Utf8RoundTrip | Project/Public/tinyxml2/tinyxml2.cpp:381-427 | The bytes written for a code are its UTF-8 form of section 3 of RFC 3629, the shortest that will do. |
| XmlText.Utf8IsUnique | Project/Public/tinyxml2/tinyxml2.cpp:381-427 | Bytes that are read back as a code for which no shorter form would do are the bytes written for it. |
| XmlText.GetCharacterRef | Project/Public/tinyxml2/tinyxml2.cpp:430-523 | What a reference expands to is never longer than the reference. |
| XmlText.BackwardIsValue | Project/Public/tinyxml2/tinyxml2.cpp:450-515 | The backward sum in 32-bit factors is exact for every number of less than 2^32, with any number of leading zeros. |
| XmlText.ReferenceIsUtf8 | Project/Public/tinyxml2/tinyxml2.cpp:430-523 | A decimal or hexadecimal reference to a number below 2^32 decodes to the UTF-8 form of the number. |
| XmlReference.ReferenceIsUtf8Iff | Project/Public/tinyxml2/tinyxml2.cpp:430-523 | Any reference made of digits decodes to the UTF-8 form of its number if and only if the number is below 2^32, or what is left of it also needs more than 21 bits. |
| XmlReference.ReferenceIsWrapped | Project/Public/tinyxml2/tinyxml2.cpp:430-523 | What any reference made of digits decodes to: in hexadecimal the UTF-8 form of the number modulo 2^32, in decimal that of the sum of the digits' terms, each cut to 32 bits. |
| XmlReference.BackwardIsWrapped | Project/Public/tinyxml2/tinyxml2.cpp:450-515 | The backward loop computes the sum of the terms cut to 32 bits, modulo 2^64, for any number of digits in any base. |
| XmlReference.HexIsModulo | Project/Public/tinyxml2/tinyxml2.cpp:450-483 | Of a hexadecimal number exactly the last eight digits count. |
| XmlReference.DecimalSumFits | Project/Public/tinyxml2/tinyxml2.cpp:484-515 | The decimal sum has at most 32 terms that are not zero and never wraps in 64 bits. |
| XmlText.GetStr | Project/Public/tinyxml2/tinyxml2.cpp:260-356 | Decoding in place gives the decoded text and its terminator, with the write pointer never passing the read pointer and nothing outside the text touched (what is decoded to what: XmlEntities). |
| XmlText.DecodeLoop | Project/Public/tinyxml2/tinyxml2.cpp:272-346 | The loop writes the decoding of what it reads. |
| XmlText.DecodeOne | Project/Public/tinyxml2/tinyxml2.cpp:273-345 | One round advances by one piece and leaves what is still unread in place. |
| XmlEntities.EscapedAs | Project/Public/tinyxml2/tinyxml2.cpp:129-135 | < > & are always printed as &lt; &gt; &amp; and, where quotes are flagged, " and ' as &quot; and &apos;; every other character as itself. |
| XmlEntities.UnescapeEscape | Project/Public/tinyxml2/tinyxml2.cpp:2160-2207 | Printed text with each of the five predefined entities of section 4.6 of XML 1.0 replaced by its character is the text. |
| XmlEntities.EntitiesAreDecoded | Project/Public/tinyxml2/tinyxml2.cpp:314-337 | Behind text that needs no decoding, and in front of any rest, &lt; &gt; &amp; &quot; and &apos; each decode to their character. |
| XmlEntities.DecodeIsUnescape | Project/Public/tinyxml2/tinyxml2.cpp:314-337 | A text in which every ampersand begins one of the five entities decodes to the text with these replaced. |
| XmlEntities.DecodeIsUnescapeIff | Project/Public/tinyxml2/tinyxml2.cpp:314-337 | A text without character references decodes to the text with its entities replaced if and only if each ampersand that begins none finds an ampersand at the place that has been written up to. |
| XmlEntities.StrayAmpersand | Project/Public/tinyxml2/tinyxml2.cpp:332-336 | Behind an entity such an ampersand is lost: &lt;&x decodes to <lx. |
| XmlEntities.MalformedIsKept | Project/Public/tinyxml2/tinyxml2.cpp:430-523 | What begins like a character reference but has no semicolon, or something else than digits before it, is kept. |
| XmlEntities.EmptyReference | Project/Public/tinyxml2/tinyxml2.cpp:430-523 | &#; and &#x; are taken for references to the number zero, a byte of zeros. |
| XmlEntities.BareReference | Project/Public/tinyxml2/tinyxml2.cpp:430-523 | Of &# at the end of a text only the # is left. |
| XmlEntities.DigitIs | Project/Public/tinyxml2/tinyxml2.cpp:463-508 | The digits of both bases, each by its letter, and no others. |
| XmlEntities.Utf8Is | Project/Public/tinyxml2/tinyxml2.cpp:381-427 | The bytes of the examples in section 7 of RFC 3629. |
| XmlRoundTrip.DecodeEscape | Project/Public/tinyxml2/tinyxml2.cpp:260-356 | Escaped text, with either entity set, decodes to itself with line ends normalized. |
| XmlRoundTrip.RoundTrip | Project/Public/tinyxml2/tinyxml2.cpp:260-356 | Decoding inverts escaping exactly for text free of CR. |
| XmlRoundTrip.VerbatimRoundTrip | Project/Public/tinyxml2/tinyxml2.cpp:260-356 | Text that is not escaped comes back exactly if it is free of CR. |
| XmlRoundTrip.NormalizedIff | Project/Public/tinyxml2/tinyxml2.cpp:273-295 | Normalization changes a text exactly if it holds a CR, and leaves none. |
| XmlRoundTrip.LineEndsAre | Project/Public/tinyxml2/tinyxml2.cpp:273-295 | The first line end of a text, be it CR LF, LF CR, CR or LF, becomes one LF. |
| XmlDom.XMLPrinter.OpenElement | Project/Public/tinyxml2/tinyxml2.cpp:2222-2238 | The pending end of the last tag is printed first; the element is pushed. |
| XmlDom.XMLPrinter.PushAttribute | Project/Public/tinyxml2/tinyxml2.cpp:2241-2247 | The attribute is printed with its value escaped for quotes. |
| XmlDom.XMLPrinter.CloseElement | Project/Public/tinyxml2/tinyxml2.cpp:2282-2305 | An element that nothing was put into closes its own tag, any other gets an end tag with the name it was opened with. |
| XmlDom.XMLPrinter.PushText | Project/Public/tinyxml2/tinyxml2.cpp:2318-2329 | Text is escaped, CDATA is not. |
| XmlDom.XMLPrinter.PushLeaf | Project/Public/tinyxml2/tinyxml2.cpp:2371-2405 | Comments, declarations and unknowns between their markers. |
| XmlDom.XMLPrinter.Accept | Project/Public/tinyxml2/tinyxml2.cpp:2407-2464 | The visitor, with its element stack and pending tag ends, prints exactly the recursively defined text of the node and leaves the stack as it was. |
| XmlDom.XMLPrinter.Print | Project/Public/tinyxml2/tinyxml2.cpp:685-696 | A document is printed as its mark followed by its nodes. |
| XmlParser.ParseTextLoop | Project/Public/tinyxml2/tinyxml2.cpp:191-208 | The text up to the first occurrence of the end tag; none if there is none. |
| XmlParser.ParseNameLoop | Project/Public/tinyxml2/tinyxml2.cpp:211-228 | The longest name at the front; none if no name starts there. |
| XmlParser.ParseAttributesLoop | Project/Public/tinyxml2/tinyxml2.cpp:1590-1647 | Reads distinct attributes up to the end of the tag, or reports the error the source reports. |
| XmlParser.ParseDeep | Project/Public/tinyxml2/tinyxml2.cpp:930-1015 | Reads children until an end tag, which is handed to the parent, or the end of the text; a declaration after the first child is an error. |
| XmlParser.ParseNode | Project/Public/tinyxml2/tinyxml2.cpp:611-682 | The node whose mark stands next is read by its own ParseDeep loop, in the order of the source's tests, in any context: what the loops give is the recursive reading of the text that the round trip is about. |
| XmlParser.ParseAttrDeep | Project/Public/tinyxml2/tinyxml2.cpp:1252-1277 | Name, equals sign, quote and value up to the same quote, by the loops; none if one is missing. |
| XmlParser.ParseElementDeep | Project/Public/tinyxml2/tinyxml2.cpp:1661-1686 | Reads an element with the end tag that its last child has read; a wrong or missing end tag is an error. |
| XmlParser.Parse | Project/Public/tinyxml2/tinyxml2.cpp:2091-2101 | White space and a mark are skipped; an empty text is an error. |
| XmlDocument.FindsFirst | Project/Public/tinyxml2/tinyxml2.cpp:191-208 | A body that lacks its terminator is found complete, whatever follows. |
| XmlDocument.ParsesAttributes | Project/Public/tinyxml2/tinyxml2.cpp:1590-1647 | Printed attributes with distinct legal names come back in order. |
| XmlDocument.LeafComesBack | Project/Public/tinyxml2/tinyxml2.cpp:1104-1215 | Printed comments, CDATA, declarations and unknowns come back, if their bodies lack their terminators and any CR. |
| XmlDocument.TextComesBack | Project/Public/tinyxml2/tinyxml2.cpp:1039-1064 | Printed text that is not blank comes back with its leading white space, if markup follows. |
| XmlDocument.NodeComesBack | Project/Public/tinyxml2/tinyxml2.cpp:930-1064 | Every legal node comes back, whatever follows it. |
| XmlDocument.NodesComeBack | Project/Public/tinyxml2/tinyxml2.cpp:930-1015 | Every legal list of nodes comes back in front of whatever else there is. |
| XmlDocument.DocumentComesBack | Project/Public/tinyxml2/tinyxml2.cpp:2091-2464 | Parsing the compact print of a document gives the document back: names legal, values and bodies free of CR and of their terminators, text not blank, no two adjacent plain texts, no text at the end, declarations first. |
| XmlExact.ComesBackIff | Project/Public/tinyxml2/tinyxml2.cpp:2091-2464 | A document comes back from its compact print if and only if it is legal in this sense. |
| XmlExact.NodesAreLegal | Project/Public/tinyxml2/tinyxml2.cpp:930-1015 | Any list of siblings that the parser gives back from its own print, before an end tag or at the end, is legal. |
| XmlExact.ElementIsLegal | Project/Public/tinyxml2/tinyxml2.cpp:1590-1686 | An element that comes back has a legal name and legal attributes, and its children come back from between its tags. |
| XmlExact.LeafIsLegal | Project/Public/tinyxml2/tinyxml2.cpp:611-682 | A comment, CDATA, declaration or unknown that comes back was not cut at a terminator in its body, not taken for something else, and holds no CR. |
| XmlExact.TextRead | Project/Public/tinyxml2/tinyxml2.cpp:1039-1064 | Printed text is read as text only in front of markup and if it is not blank, and then with its line ends normalized. |
| XmlExact.AttributesAreNamed | Project/Public/tinyxml2/tinyxml2.cpp:1590-1637 | Whatever the text, attributes that are accepted have legal names, each once. |
| XmlExact.NoTextBehindText | Project/Public/tinyxml2/tinyxml2.cpp:1039-1064 | The parser never gives two adjacent plain texts. |
| XmlDocument.EmptyDocumentIsRefused | Project/Public/tinyxml2/tinyxml2.cpp:2091-2101 | A document without nodes does not come back. |
| XmlLayout.WhiteIs | Project/Public/tinyxml2/tinyxml2.h:535-537 | White space is blank, tab, line feed, vertical tab, form feed and carriage return. |
| XmlLayout.NameCharsAre | Project/Public/tinyxml2/tinyxml2.h:539-554 | Names begin with a letter, colon, underscore or a byte from 128 on, and go on with these, digits, points and hyphens. |
| XmlLayout.LayoutIsRead | Project/Public/tinyxml2/tinyxml2.cpp:1590-1647 | However attributes are written - any white space between them and around the equals sign, either quote, entities in the value - the tag is read up to its end with each of them, in order. |
| XmlLayout.FormIsRead | Project/Public/tinyxml2/tinyxml2.cpp:930-1064 | A node is read as what it means however it is laid out, whatever follows it: white space in front of markup, in tags and end tags, entities and line ends in text, elements with or without children. |
| XmlLayout.FormsAreRead | Project/Public/tinyxml2/tinyxml2.cpp:930-1015 | Nodes in any layout are read one after another, at any depth. |
| XmlLayout.LaidOutDocument | Project/Public/tinyxml2/tinyxml2.cpp:2091-2101 | A document with white space before and behind it, with or without the bytes EF BB BF, is read as what its nodes mean. |
| XmlLayout.Unterminated | Project/Public/tinyxml2/tinyxml2.cpp:1104-1215 | Comments, CDATA, declarations and unknowns without their terminator are errors, each of its own kind. |
| XmlLayout.WordsAtTheEnd | Project/Public/tinyxml2/tinyxml2.cpp:1039-1064 | Text behind which no markup comes is an error. |
| XmlLayout.OtherEndTag | Project/Public/tinyxml2/tinyxml2.cpp:960-1005 | An element in any layout whose end tag has another name is an error. |
| XmlLayout.DoubledAttribute | Project/Public/tinyxml2/tinyxml2.cpp:1600-1628 | A second attribute of the same name is an error, wherever it stands. |
| XmlLayout.LateDeclaration | Project/Public/tinyxml2/tinyxml2.cpp:945-958 | A declaration behind another node is an error. |
| AtomicList.LoadKeeps | Project/Public/AtomicIntrusiveLinkedList.h:80-83 | The load keeps the invariant, and the check that the hook is clear succeeds. |
| AtomicList.LinkKeeps | Project/Public/AtomicIntrusiveLinkedList.h:85-85 | The store to the new element's link disturbs no chain. |
| AtomicList.SwapKeeps | Project/Public/AtomicIntrusiveLinkedList.h:92-96 | The exchange keeps the invariant whether it succeeds, fails or fails spuriously, even if the expected head has been taken and inserted again meanwhile. |
| AtomicList.ExchangeKeeps | Project/Public/AtomicIntrusiveLinkedList.h:106-107 | Taking the whole list hands its chain to the sweeper. |
| AtomicList.ReverseStepKeeps | Project/Public/AtomicIntrusiveLinkedList.h:142-151 | One round of the reversal keeps the order of delivery. |
| AtomicList.UnlinkStepKeeps | Project/Public/AtomicIntrusiveLinkedList.h:156-162 | Unlinking the next element keeps the order of delivery. |
| AtomicList.CallKeeps | Project/Public/AtomicIntrusiveLinkedList.h:161-161 | The element in hand is the next one owed. |
| AtomicList.EveryRun | Project/Public/AtomicIntrusiveLinkedList.h:80-163 | Over every interleaving, with reuse of elements: three chains without cycles or common elements; the list holds the insertions since the last exchange; delivered, held and listed elements are the inserted ones. |
| AtomicList.SpellsOrder | Project/Public/AtomicIntrusiveLinkedList.h:104-111 | With sweep, delivered elements, then the sweeper's chain, then the list from its tail spell the order of the successful exchanges. |
| AtomicList.TakenInOrder | Project/Public/AtomicIntrusiveLinkedList.h:104-111 | With sweep, elements are taken in the order of insertion. |
| AtomicList.SweepIsComplete | Project/Public/AtomicIntrusiveLinkedList.h:104-111 | When sweep is about to return, every insertion made so far has been delivered. |
| AtomicList.AnswerIsEmptiness | Project/Public/AtomicIntrusiveLinkedList.h:80-97 | insertHead is about to return true exactly if the list is empty. |
| AtomicList.TrueWhenEmpty | Project/Public/AtomicIntrusiveLinkedList.h:80-97 | Over every run the true answers are exactly those of insertions into an empty list. |
| AtomicList.HookIsClear | Project/Public/AtomicIntrusiveLinkedList.h:81-81 | The assertion of insertHead holds for every element that is not in use. |
| AtomicCalls.InsertAlone | Project/Public/AtomicIntrusiveLinkedList.h:80-97 | From any state of any run, with the other threads standing still, insertHead puts its element at the head and answers whether the list was empty. |
| AtomicCalls.SweepAlone | Project/Public/AtomicIntrusiveLinkedList.h:104-111 | Likewise sweep comes to its end with the list empty, having delivered what was in it in the order of insertion. |
| AtomicCalls.ReverseSweepAlone | Project/Public/AtomicIntrusiveLinkedList.h:125-130 | Likewise reverseSweep delivers what was in the list, the newest first. |
| EpollEngine.Notifications | Project/Kernel/Net/IOEngine_Epoll.cpp:135-146 | Over every interleaving a driver hears Establish, Close, or Close alone, each at most once and in this order; once the worker has given it up and the queue is empty, it has heard Close. |
| EpollEngine.NoTouchAfterUnbind | Project/Kernel/Net/IOEngine_Epoll.cpp:255-364 | The worker never uses a driver whose UNBIND it has pushed, hence none that has been closed and deleted. |
| EpollEngine.UnbindFindsItsOwn | Project/Kernel/Net/IOEngine_Epoll.cpp:335-357 | UnBindEpoll, which looks up by socket number, finds its event's own driver, even if the number has a new owner. |
| EpollEngine.BindFindsNothing | Project/Kernel/Net/IOEngine_Epoll.cpp:302-310 | The branch of BindEpoll for a socket already registered is never taken. |
| EpollEngine.AddKeeps | Project/Kernel/Net/IOEngine_Epoll.cpp:167-186 | A new driver with an unused socket number keeps the protocol's invariant. |
| EpollEngine.RemoveKeeps | Project/Kernel/Net/IOEngine_Epoll.cpp:188-217 | A close asked for, at once or delayed, keeps it. |
| EpollEngine.ExpireKeeps | Project/Kernel/Net/IOEngine_Epoll.cpp:150-164 | The delayed UNBIND keeps it, also when the worker has given the driver up already. |
| EpollEngine.DeliverKeeps | Project/Kernel/Net/IOEngine_Epoll.cpp:137-148 | Telling a driver keeps it. |
| EpollEngine.PopKeeps | Project/Kernel/Net/IOEngine_Epoll.cpp:262-274 | Taking a request keeps it; the socket number of the request still means its driver. |
| EpollEngine.CtlAddKeeps | Project/Kernel/Net/IOEngine_Epoll.cpp:311-325 | Registration, or the UNBIND for one that failed, keeps it. |
| EpollEngine.PublishKeeps | Project/Kernel/Net/IOEngine_Epoll.cpp:326-326 | Announcing the registration keeps it. |
| EpollEngine.UnBindEpollKeeps | Project/Kernel/Net/IOEngine_Epoll.cpp:335-357 | UnBindEpoll keeps it, also the second call that the changed event type leads to. |
| EpollEngine.OnEventKeeps | Project/Kernel/Net/IOEngine_Epoll.cpp:286-296 | Giving up a driver inside a batch of events keeps it. |
| EpollEngine.EveryRun | Project/Kernel/Net/IOEngine_Epoll.cpp:135-364 | The invariant holds over every run. |
| EpollHistory.ClosedIff | Project/Kernel/Net/IOEngine_Epoll.cpp:135-364 | By the calls alone, over every interleaving: a driver is closed only if its registration, its OnRead or its OnEvent has failed or its delayed end was asked for; once both queues are empty and the worker is not inside UnBindEpoll, exactly these drivers are closed. No end is lost between the threads, and none comes without a cause. |
| EpollHistory.EstablishedIff | Project/Kernel/Net/IOEngine_Epoll.cpp:135-332 | Likewise a driver hears OnEstablish only if its registration succeeded, and has heard it once the main queue is empty and the worker not about to push. |
| EpollHistory.ExpireIff | Project/Kernel/Net/IOEngine_Epoll.cpp:150-164 | Over every run, the delayed end of a driver can be asked for exactly if it is open and was first to be removed, with data left to send, five seconds ago or more, since the last such request. |
| EpollHistory.PendingSince | Project/Kernel/Net/IOEngine_Epoll.cpp:204-213 | The moment this counts from is that of such a removal. |
| EpollHistory.StoppedIff | Project/Kernel/Net/IOEngine_Epoll.cpp:255-299 | The worker leaves its loop exactly when waiting has failed for another reason than an interruption, or it is told to. |
| EpollHistory.EndingStep | Project/Kernel/Net/IOEngine_Epoll.cpp:135-364 | Each step makes a driver end - given up, being given up, or asked to be - exactly if it is one of the four causes for that driver. |
| EpollHistory.BindsFirstKeeps | Project/Kernel/Net/IOEngine_Epoll.cpp:255-357 | Every step keeps what this rests on: no UNBIND stands before, or is served before, its driver's BIND, where the look-up in UnBindEpoll would miss and drop it. |
| EpollHistory.AnnouncedStep | Project/Kernel/Net/IOEngine_Epoll.cpp:135-332 | Each step makes a driver known to be registered exactly if it registers that driver. |
| EpollHistory.FlushEnds | Project/Kernel/Net/IOEngine_Epoll.cpp:359-363 | FlushData comes to its end with one call to each registered driver. |
| EpollHistory.ShutDownsAreServed | Project/Kernel/Net/IOEngine_Epoll.cpp:188-207 | Every removal with nothing left to send is served by the worker as one shutdown, and there are no others. |
| EpollEngine.ShutDownReachesOwnIff | Project/Kernel/Net/IOEngine_Epoll.cpp:269-272 | Over every run, an open driver that owns the number of a SHUT_DOWN about to be served is the one for which it was asked if and only if that one has not been closed. |
| EpollEngine.ShutDownAfterClose | Project/Kernel/Net/IOEngine_Epoll.cpp:188-207 | A run in which a SHUT_DOWN reaches the next owner of the number: it goes by the number alone, and its driver was closed while it waited. |
| EpollQueues.DeadlockIff | Project/Public/CircularQueue.h:40-45 | With queues of n places and never more than k drivers open, main and worker thread can come to wait for each other in TryPush if and only if 2 * k > n. |
| EpollQueues.StuckIff | Project/Public/CircularQueue.h:40-45 | A waiting main thread and its worker are both stuck exactly when each waits for the other, or the worker has left its loop and the queue to it is full. |
| EpollQueues.WaitTakesDrivers | Project/Kernel/Net/IOEngine_Epoll.cpp:311-357 | The worker waits only while more drivers are open than half the main queue has places. |
| EpollQueues.MainQueueBound | Project/Kernel/Net/IOEngine_Epoll.cpp:135-148 | In every reachable state the main queue holds at most two events for each open driver and none for any other. |
| EpollQueues.SameStates | Project/Public/CircularQueue.h:40-45 | Whatever the capacity, the engine with waiting threads gets only into states of the engine without bounds, so all that is proved there holds. |
| EpollQueues.StepSound | Project/Public/CircularQueue.h:40-45 | Every step keeps what a waiting thread is about to do possible, and both queues within their capacity. |
| PoolLinks.InsertHeadSpells | Project/Public/TDynPool.h:17-25 | Inserting at the head gives the doubly linked list with the node in front. |
| PoolLinks.TakeOutSpells | Project/Public/TDynPool.h:36-46 | Removing a node, after moving the root on if need be, gives the list without it and clears the node. |
| DynPool.TakeIsTakeOut | Project/Public/TDynPool.h:148-151 | The pointer changes of GetChunk are those of a removal at the head. |
| DynPool.TakeKeeps | Project/Public/TDynPool.h:140-161 | Handing out the first free chunk keeps free list, counts and types in agreement. |
| DynPool.ReturnKeeps | Project/Public/TDynPool.h:162-176 | So does taking a chunk back when its block stays. |
| DynPool.NewBlockKeeps | Project/Public/TDynPool.h:198-199 | A new block disturbs nothing that exists. |
| DynPool.AddChunkKeeps | Project/Public/TDynPool.h:200-208 | Each chunk of it enters the free list once. |
| DynPool.AddBlockKeeps | Project/Public/TDynPool.h:209-211 | The complete block enters the block list. |
| DynPool.DropChunkKeeps | Project/Public/TDynPool.h:180-186 | A chunk of a block that goes leaves the free list, if it is in it. |
| DynPool.DropBlockKeeps | Project/Public/TDynPool.h:187-191 | The memory of a block goes only when no link leads into it. |
| DynPool.UsedFlip | Project/Public/TDynPool.h:154-167 | The count of a block follows the number of its chunks in use. |
| DynPool.TDynPool.constructor | Project/Public/TDynPool.h:79-82 | The pool starts with the blocks it keeps and no chunk in use. |
| DynPool.TDynPool.AllocBlock | Project/Public/TDynPool.h:194-214 | The blocks asked for are added, all their chunks free. |
| DynPool.TDynPool.GetChunk | Project/Public/TDynPool.h:140-161 | The chunk handed out was not in use; a block is added exactly when no chunk was free. |
| DynPool.TDynPool.Recover | Project/Public/TDynPool.h:162-176 | The chunk is out of use; its block goes exactly when it was the last in use there and there are more blocks than the pool keeps. |
| DynPool.TDynPool.RecoverBlock | Project/Public/TDynPool.h:178-192 | The block goes with all its chunks, none of them in use or linked; the rest of the pool is as before. |
| Heap.RootIsLeast | Project/Public/THeap.h:66-75 | The root of a heap is its least item. |
| Heap.MoveDown | Project/Public/THeap.h:143-155 | One step of sifting down moves the hole and keeps the rest in heap order. |
| Heap.MoveUp | Project/Public/THeap.h:122-132 | One step of sifting up likewise. |
| Heap.THeap.Insert | Project/Public/THeap.h:51-64 | Keeps the heap and adds one item, with doubled capacity if needed; refused only by a full heap over a foreign array. |
| Heap.THeap.Delete | Project/Public/THeap.h:66-75 | Takes out the least item and keeps the heap of the others, although it sifts before it shrinks. |
| Heap.THeap.FileterUp | Project/Public/THeap.h:115-135 | Restores the heap for a new last item, with the same items. |
| Heap.THeap.FileterDown | Project/Public/THeap.h:137-158 | Restores the heap below a position, with the same items; an equal last item is not moved. |
| Heap.THeap.HeapFromat | Project/Public/THeap.h:160-168 | Makes any array a heap of the same items. |
| Heap.THeap.HeapSort | Project/Public/THeap.h:102-110 | A descending arrangement of the same items. |
| Heap.THeap.ExpanCapacity | Project/Public/THeap.h:170-178 | Twice the capacity, the same items. |
| Heap.SortedIsNoHeap | Project/Public/THeap.h:102-110 | After HeapSort the array is a heap exactly if all items are equal. |
| IndexPool.IndexPool.Create | Project/Public/TIndexPool.h:35-48 | The least free index, or the first new one when none is free; no other index changes; none only if no memory could be had. |
| IndexPool.IndexPool.Recover | Project/Public/TIndexPool.h:57-63 | The index is free again and waits in the heap once. |
| IndexPool.IndexPool.ExpandCapacity | Project/Public/TIndexPool.h:66-80 | One free index more for each allocation that succeeds. |
| IndexPool.IndexPool.InitHeapCapacity | Project/Public/TIndexPool.h:82-95 | One node for each allocation that succeeds, and the number of each such allocation in the heap. |
| IndexPool.IndexPool.constructor | Project/Public/TIndexPool.h:23-25 | Free indices and nodes agree exactly when no allocation succeeds after one that failed. |
| IndexPool.InitialPartition | Project/Public/TIndexPool.h:82-95 | The condition under which the initial heap matches the nodes. |
| IndexPool.FindChecksRange | Project/Public/TIndexPool.h:50-55 | The range check of Find is exact for every index but one: the size itself passes. |
| CircularBuffer.CircluarBuffer.Write | Project/Public/CircularBuffer.h:26-41 | As many bytes as there is room for join the queue. |
| CircularBuffer.CircluarBuffer.GetCanWriteBuff | Project/Public/CircularBuffer.h:43-54 | All the unused room in one piece behind the queue; none exactly when the buffer is full. |
| CircularBuffer.CircluarBuffer.WriteBuff | Project/Public/CircularBuffer.h:56-59 | Bytes put there join the queue. |
| CircularBuffer.CircluarBuffer.GetCanReadBuff | Project/Public/CircularBuffer.h:61-73 | The longest piece of the queue's front; none exactly when the queue is empty. |
| CircularBuffer.CircluarBuffer.Read | Project/Public/CircularBuffer.h:93-110 | At most so many bytes come off the front, in order. |
| CircularBuffer.CircluarBuffer.Skip | Project/Public/CircularBuffer.h:112-115 | So many bytes come off the front. |
| CircularBuffer.CircluarBuffer.TryReadBuff | Project/Public/CircularBuffer.h:75-91 | The first bytes in order, if there are so many; nothing is taken off. |
| CircularBuffer.Offsets | Project/Public/CircularBuffer.h:117-119 | Positions and size of the queue are right although the 32-bit counters wrap. |
| CircularBuffer.Bump | Project/Public/CircularBuffer.h:39-115 | Moving a counter on, with wrap-around, moves position and size by as much. |
| CircularBuffer.EmptyIff | Project/Public/CircularBuffer.h:63-64 | Equal counters mean an empty queue. |
| CircularBuffer.PowersOfTwo | Project/Public/CircularBuffer.h:121-126 | The sizes of the ring are the powers of two up to 2^30. |
| CircularBuffer.EpollDriver.OnSend | Project/Kernel/Net/IOEngine_Epoll.cpp:51-80 | However short the sends, bytes sent followed by bytes buffered are the bytes there were; the answer is true exactly if all have gone or the last send, of the first of what is left, asked to try again; shutdown exactly when all have gone and the close was asked for. |
| CircularBuffer.EpollDriver.OnRead | Project/Kernel/Net/IOEngine_Epoll.cpp:82-106 | Bytes received follow those that were there; the answer is true exactly if there is room left and the last recv asked to try again, so false exactly for a full buffer, the peer's end (which is kept in mind) or an error. |
| ByteStream.StreamInOrder | Project/Public/CircularBuffer.h:26-119 | With one writer and one reader, every call split into its loads, single byte copies and the counter step, over every interleaving: bytes read are the first of the bytes written, and bytes being fetched the next. |
| ByteStream.StepKeeps | Project/Public/CircularBuffer.h:26-119 | Every such step keeps the queue in the ring, what is stored already behind it and what is fetched already in front. |
| ByteStream.StaysInside | Project/Public/CircularBuffer.h:61-74 | If GetCanReadBuff loads the writer's counter once a call, the piece it hands out never runs over the end of the ring. |
| ByteStream.OverrunIff | Project/Public/CircularBuffer.h:61-74 | If it loads the counter again for the length, the piece runs over the end if and only if the writer has gone round the end by then, and no other step leads there. |
| ByteStream.OverrunReachableIff | Project/Public/CircularBuffer.h:61-74 | If it loads the counter again, an overrun is reachable in a ring if and only if the ring has four bytes or more. |
| ByteStream.MayOverrun | Project/Public/CircularBuffer.h:61-74 | A run to it in any such ring: one byte is seen, and the rest of the ring is written, round the end, before the length is computed. |
| StreamCalls.ReadAlone | Project/Public/CircularBuffer.h:93-110 | From any state of any run, with the writer standing still, Read reads what there is, up to the number asked for. |
| StreamCalls.TryAlone | Project/Public/CircularBuffer.h:75-91 | Likewise TryReadBuff gets all that was asked for, if there is so much. |
| StreamCalls.PieceAlone | Project/Public/CircularBuffer.h:61-73 | Likewise GetCanReadBuff gives what there is up to the end of the ring. |
| StreamCalls.WriteAlone | Project/Public/CircularBuffer.h:26-41 | From any state of any run, with the reader standing still, Write writes as much as there is room for. |
| StreamCalls.FillAlone | Project/Public/CircularBuffer.h:43-59 | Likewise anything that fits into the room up to the end of the ring, or to the queue, can be put there through GetCanWriteBuff. |
| StreamCalls.FetchIsPossible | Project/Public/CircularBuffer.h:61-110 | In every state of any run, the next byte of a read that does not run over the end of the ring lies in the ring. |
| CircularQueue.FirstInFirstOut | Project/Public/CircularQueue.h:23-38 | Over every interleaving of check, slot access and counter step: popped values are a prefix of the pushed ones, across wraps of the counters. |
| CircularQueue.NoOverwrite | Project/Public/CircularQueue.h:31-38 | Over every run a store never hits a slot whose value has not been popped. |
| CircularQueue.Refusals | Project/Public/CircularQueue.h:25-33 | Over every run Push refuses exactly when the ring is full and Pop exactly when it is empty, at the moment of the check. |
| CircularQueue.RoundupPowerOf2 | Project/Public/CircularQueue.h:50-55 | The least power of two above the number, below 2^31; zero from 2^31 on. |
| CircularQueue.SingleBit | Project/Public/CircularQueue.h:13-14 | The bit test of the constructor holds exactly for powers of two. |
| CircularQueue.RoundedIsRingSize | Project/Public/CircularQueue.h:11-16 | What the rounding gives is a size that the 32-bit counters run through without a break. |
| CircularQueue.CircluarQueue.constructor | Project/Public/CircularQueue.h:11-17 | The ring is empty; a size that is a power of two is kept, another is rounded up to the next. |
| CircularQueue.CircluarQueue.Push | Project/Public/CircularQueue.h:31-38 | The value joins the queue unless the ring is full. |
| CircularQueue.CircluarQueue.Pop | Project/Public/CircularQueue.h:23-30 | The oldest value leaves; on an empty ring the caller's variable keeps its value. |
| Cluster.ChannelIsInjective | Project/logic/Framework/Cluster/Cluster.cpp:180-186 | Different nodes have different channels. |
| Cluster.ChannelOrder | Project/logic/Framework/Cluster/Cluster.cpp:180-186 | Channels are ordered by type and then identity, negative identities last, and so is who has to connect. |
| Cluster.Master.OnOpen | Project/logic/Framework/Cluster/Cluster.cpp:77-115 | A node not yet known is introduced to every open node in one direction; the mesh is complete again. |
| Cluster.Master.OnClose | Project/logic/Framework/Cluster/Cluster.cpp:117-125 | The node is forgotten; the mesh of the others stays complete. |
| Cluster.IntroduceOne | Project/logic/Framework/Cluster/Cluster.cpp:100-110 | One message settles one pair. |
| Cluster.MeshGrows | Project/logic/Framework/Cluster/Cluster.cpp:101-113 | With the newcomer introduced to everybody every pair is settled. |
| Cluster.OneInitiator | Project/logic/Framework/Cluster/Cluster.cpp:77-125 | Of any two open nodes exactly one has been told to connect in their present stays: the one with the smaller channel, once, with the other's address. |

## Left out

- Aliasing and updates in place of R-tree nodes, timers, area-of-interest objects and DOM nodes: these are values
  here, so sharing of nodes and dangling pointers are not captured. The linked structures that are captured with
  their pointers are the wheel's lists, the pool's lists and the lock-free list.
- Reuse of a timer's memory by the pool is not part of the wheel's model: every timer has a number and a node of its
  own.
- Timer callbacks are finite scripts of starts and kills, chosen for every timer and iteration. A start for an object
  that has a timer, and a kill for one that has none, are callers' errors (asserted in the source) without effect
  here; exceptions thrown by callbacks are left out.
- Jiffies are below 2^63. Repetition counts are unbounded integers, so the wrap of a negative count other than
  FOREVER is not modelled.
- `TimerBase::End` calls `Remove` through a null host for a timer in its own callback; this is taken to do nothing.
- LinkList.LinkList.TailMerge: requires both lists to be non-empty; on an empty receiver the source follows a null
  tail.
- LinkList.LinkList.Remove: requires that the node's host, if any, is this list, as the source asserts.
- R-tree coordinates and areas are exact numbers and the area an arbitrary function, so rounding and overflow of
  volumes are left out; so are loading, saving and counting.
- RTree.RTree.Remove: does not say which of several entries with one id is removed when ids are not unique.
- ZoneAoi.ZoneAoi.Flush: does not say which of the ids of more than 128 neighbours are kept, only that 128 or 129
  are, because the sweep stops there; the difference lists that `tools::Difference` (not part of this model)
  computes are left out. `std::list::sort` is an insertion sort.
- Zone: `CalcZoneID`; grids with more than 32767 cells, which do not fit the 16-bit size; the order in which the
  elements of one cell are visited. The loops over a rectangle, which the source repeats in three functions, are one
  method with a filter.
- XML: `PreserveWhitespace`, `COLLAPSE_WHITESPACE`, entity processing switched off, pretty printing, printing to a
  file, numeric attributes, visitors, cloning and error texts. A string has one character per byte and no NUL. The
  in-place loop is modelled in an array; the parser works on the text that a pointer points to.
- AtomicList: memory orders; every step sees the steps before it.
- EpollEngine: memory orders, and events that `epoll_wait` might report for a socket whose removal failed. A socket
  number is not reused before its driver's `OnClose`, nor a driver used by the main thread after it. `Process` may be
  interrupted between any two of its steps.
- CircularQueue: `TryPush`, which steps `_tail` before it stores; memory orders; `& mask` is the remainder.
- CircularQueue.CircluarQueue.constructor: requires a size above zero and up to 2^31; other sizes give a ring without
  a slot.
- ByteStream: memory orders and torn loads; a fetch beyond the end of the ring is not possible as a step, the run ends
  there.
- CircularBuffer.CircluarBuffer.constructor: requires a power of two; the rounding of the source works on a negative
  mask. The operations are atomic here, and split into steps in `ByteStream`; `& mask` is the remainder, which it
  equals for negative two's complement numbers.
- Heap.THeap.HeapFromat: requires an array that is not empty, since the source reads its first item.
- Heap.THeap.constructor: requires a size above zero; doubling zero makes no room. `THeap::Remove`, which only sifts
  down, and overflow of the size are left out.
- IndexPool.IndexPool.Create: says nothing about the object built in the node.
- DynPool: construction and destruction of the objects in the chunks, statistics and debug fields. A chunk's type is
  taken to be in use before it is first set.
- Cluster: the harbour, the controller and address conversion; a message is recorded, not delivered.
- Asynchronous tasks, sockets, files, configuration, logging, module loading and the other containers.
