# blktrace, modelled and verified in Dafny

blktrace records what a block device does; its companions replay, merge and summarise the
recordings.  This project models the parts of them that carry real algorithms or protocols
and proves what those parts are for.  Each file is a component:

- `RbShape.dfy`, `RbTree.dfy`: the red-black tree with parent pointers.  `RbShape` has the
  trees as values and the theory of balance; `RbTree` has the nodes in the heap, with the
  rotations, both fix-ups and the four ways to erase, in place.
- `Spans.dfy`, `PLive.dfy`: the merged "device busy" spans of `btt`, as theory and kept in
  such trees.
- `DipRb.dfy`: I/Os keyed by sector in such a tree, with `btt`'s pruned range search.
- `Replay.dfy`: btreplay's submitter, its reclaimer and the kernel, which share control
  blocks and counters, as steps that interleave in any order.
- `Barrier.dfy`: the tokens with which btreplay starts and ends an iteration.
- `Bunching.dfy`, `Record.dfy`, `Playback.dfy`: btrecord's bunching as theory, its output
  file, and how btreplay reads it back and submits it.
- `Framing.dfy`, `Reframe.dfy`: blktrace's piped output, from buffers cut anywhere to whole
  records, as a law of byte streams and in the buffers themselves.
- `Piped.dfy`: the count of buffers between the tracers and the main thread.
- `Mmap.dfy`: the window through which blktrace writes a trace file.
- `NetRun.dfy`: the opens, data and closes between a blktrace client and its server.
- `MergeTheory.dfy`, `Merge.dfy`: blkparse's batches, and its merge of all trace files by
  time.
- `Matching.dfy`, `Iomon.dfy`: blkiomon's pairing of issues and completions, and the hash it
  is done with.
- `Jhash.dfy`: the hash of `jhash.h`, byte-wise and word-wise.
- `TraceApi.dfy`: the bits of an action and the layout of a trace record.
- `Common.dfy`: machine words, a little arithmetic and sequences, used by several of these.

Code that changes structures in place is modelled by classes and methods; each method is
proved against a function of the old state, and what the program promises is proved about
those functions.  Threads are modelled as state machines whose steps are single critical
sections, single unguarded reads, or calls into the kernel; `Run` is any finite sequence of
such steps, and the main results hold in every state of every run.

Where a promise does not hold of the code as it is, the model keeps the code and states
exactly when the promise is kept:

- The pruned range search misses extents that overlap in a certain way (`NothingLostIff`);
  a tree of any three extents does so if the last ends no later than the middle one
  (`ThreeIff`, `LoseOne`).  The search for a sector misses extents that it turns away from
  (`FoundIff`, `ThreeFoundIff`).  Neither misses anything if no extent lies
  inside another (`NoneInsideNoneLost`).
- A recording that fits into one bunch is written but never replayed (`RecordThenReplay`).
- A window is overrun by some run exactly if it is not larger than the longest read by two
  pages that are not full (`NeverOverrunsIff`).  A tracer's window is large enough whenever a
  page is not larger than a buffer (`PageInBuffer`), but not for buffers of 4 KiB, which can
  be asked for, on pages of 64 KiB (`SmallBuffersOnLargePages`).
- A write that fails when a record has been completed drops all bytes at hand, and with them
  the framing (`Framing.NothingLostIff`).
- The server takes a block of one byte for a close.  So it never removes a host too soon
  exactly if no block has one byte (`NeverTooSoonIff`).  A tracer sends what a read of its
  relay file returns; the records there have 48 bytes at least (blktrace_api.h:96-108), so it
  takes a read that returns a single byte.
- A file is cut short exactly if a batch of its records has no trace and there is a trace
  behind them (`ReadsAllIff`).
- Once the submitter has ended, btreplay's reclaimer ends if and only if it was not left
  waiting with nothing out (`ReclaimerEndsIff`); whatever bunches a file has, it can be left
  so after the last (`StrandingHappens`).  Before that there is no deadlock (`CanMoveIff`).
- blkiomon pairs issues and completions that come in turn exactly if each completion is
  later than its issue (`AlternatingPairsUp`).
- btreplay's rounds are one pass of each thread in every run exactly if there is at most one
  thread or at most one round (`RoundsArePassesIff`).

## Model

| member | source | states |
|---|---|---|
| RbTree.Root.RotateLeft | rbtree.c:25-46 | at any place in the tree, the pointers and the root change so that the tree at the node becomes its left rotation; no other node is redrawn |
| RbTree.Root.RotateRight | rbtree.c:48-69 | at any place in the tree, the pointers and the root change so that the tree at the node becomes its right rotation; no other node is redrawn |
| RbTree.LeftRotatedSame | rbtree.c:25-46 | a rotation to the left keeps the set of nodes and their in-order sequence |
| RbTree.RightRotatedSame | rbtree.c:48-69 | a rotation to the right keeps the set of nodes and their in-order sequence |
| RbTree.Root.InsertStep | rbtree.c:75-131 | one round of the fix-up settles the tree or moves the red clash up, and keeps the sequence |
| RbTree.Root.InsertColor | rbtree.c:71-134 | the fix-up of a fresh red leaf ends, keeps the in-order sequence and restores every red-black and pointer invariant |
| RbTree.PushedDownBalanced | rbtree.c:84-95 | recolouring parent, uncle and grandparent leaves a balanced subtree with the same black height, nodes and order |
| RbTree.LiftedLeftBalanced | rbtree.c:97-108 | recolouring and rotating leaves a balanced subtree with a black top and the same black height, nodes and order, whether the red child is on the outside or the inside |
| RbTree.Root.EraseColor | rbtree.c:136-220 | given a tree that is one black node short below a place, the fix-up ends and leaves a valid red-black tree with the same in-order sequence |
| RbTree.Root.EraseShortLeft | rbtree.c:141-178 | with a black sibling, one round for a shortage on the left: it is repaired for good, or is the same shortage one level higher; the sequence stays |
| RbTree.Root.EraseShortRight | rbtree.c:179-216 | with a black sibling, one round for a shortage on the right: it is repaired for good, or is the same shortage one level higher; the sequence stays |
| RbTree.TurnedLeftShort | rbtree.c:144-151 | turning a red sibling away keeps the shortage, its black heights and its place, with a black sibling |
| RbTree.RepairedLeftBalanced | rbtree.c:159-176 | with a red far child of the sibling, recolouring and rotating pay the shortage |
| RbTree.Root.Erase | rbtree.c:222-287 | for every node of every valid tree: exactly this node leaves the in-order sequence and the tree is valid again, in all four cases of children |
| RbTree.Root.EraseDouble | rbtree.c:231-268 | with two children the successor takes the node's place, also when it is the right child itself |
| RbTree.Root.EraseSimple | rbtree.c:226-230 | with one child at most, the child takes the node's place |
| RbTree.Root.LinkNode | rbtree.h:156-163 | the fresh node hangs as a red leaf at the link that was found |
| RbTree.Root.Insert | rbtree.h:156-163 | linking and fixing up puts the node between what is before and what is after the search position, and the tree is valid |
| RbTree.Root.First | rbtree.c:292-302 | the first node of the in-order sequence, or none if the tree is empty |
| RbTree.Root.Next | rbtree.c:316-342 | the node that follows in the in-order sequence, or none for the last |
| RbTree.Root.Walk | rbtree.c:292-342 | from the first node on, by way of the next, every node is met once and in order |
| RbShape.InorderOfPlug | rbtree.c:71-287 | the in-order sequence of a whole tree is what comes before a subtree, the subtree, and what comes after it |
| RbShape.UnplugRedBlack | rbtree.c:71-287 | in a red-black tree every subtree is balanced, and its surroundings accept just its black height |
| RbShape.PlugRedBlack | rbtree.c:71-287 | a balanced subtree of the accepted height, black under a red parent, makes a red-black tree |
| RbShape.BalancedMeansEveryWay | rbtree.c:71-287 | in a balanced tree every way down has the same number of black nodes and no two red ones in a row |
| RbShape.BalancedIff | rbtree.c:71-287 | a tree is balanced if and only if all ways down have the same number of black nodes and no two red ones in a row |
| RbShape.HeightBound | rbtree.c:71-287 | a valid tree of n nodes is at most twice the logarithm of n + 1 high |
| RbShape.SuccessorTakesOver | rbtree.c:231-268 | a tree with the in-order successor in the place of a node has the old sequence without that node |
| Spans.Components | btt/p_live.c:75-106 | two points of the cover are in one span if and only if all between them is covered: the spans are the connected components |
| Spans.MergedIsCanonical | btt/p_live.c:75-106 | there is just one list of merged spans with a given cover |
| Spans.TotalLengthIsMeasure | btt/p_live.c:144-145 | the total length is the number of covered unit intervals |
| PLive.InsideIsTouching | btt/p_live.c:64-73 | the test holds if and only if the two spans have a point in common |
| PLive.LiveTree.Add | btt/p_live.c:75-106 | adding a span ends, the tree covers just that much more and its spans are merged and in order; the list of all spans is kept in step |
| PLive.Lives.Alloc | btt/p_live.c:108-112 | a new device gets an empty tree of its own; all other trees stay as they were and cover what was added to them |
| PLive.Lives.Add | btt/p_live.c:119-123 | for any number of devices: the span goes to the device's tree and to that of all devices; each tree stays merged and covers exactly what was added to it, no two trees share a record, and the list has just the records of all trees, each once |
| PLive.AddAll | btt/p_live.c:75-123 | after any completions on any devices in any order, each device's tree has the merged spans of that device's completions, and the common tree those of all |
| PLive.OrderIndependent | btt/p_live.c:75-123 | the order and repetition of the added spans do not matter |
| PLive.LiveTree.Get | btt/p_live.c:125-154 | the number of lives is the number of merged spans, their total the length of the cover, the end the latest completion, and the start always zero |
| DipRb.IoTree.Insert | btt/dip_rb.c:24-47 | fails if and only if an extent begins at the same sector, and otherwise adds the extent in its place |
| DipRb.IoTree.FindSec | btt/dip_rb.c:49-65 | what is found contains the sector, and something is found exactly if an extent with the sector is not cut off; over disjoint extents it is the only one with the sector |
| DipRb.FoundIsRight | btt/dip_rb.c:49-65 | the search down the tree finds the one extent with the sector, if extents are disjoint |
| DipRb.FoundIff | btt/dip_rb.c:49-65 | whatever the overlaps, a sector is found if and only if some extent contains it that is not in the left subtree of one that begins and ends no later than the sector |
| DipRb.ThreeFoundIff | btt/dip_rb.c:24-65 | in every valid tree of three extents, every sector of an extent is found if and only if the first extent ends no later than the middle one, or what is behind that is in the last |
| DipRb.NoneInsideNoneLost | btt/dip_rb.c:49-86 | if no extent lies inside another, then in every tree of them every sector of an extent is found and the range search is complete for all queries |
| DipRb.IoTree.ForEach | btt/dip_rb.c:67-86 | the caller's list grows by what the pruned search collects, in that order |
| DipRb.CollectedIsSound | btt/dip_rb.c:67-86 | whatever the overlaps, only stored extents inside the query are collected, each once |
| DipRb.NothingLostIff | btt/dip_rb.c:81-84 | the pruned search is complete for all queries if and only if everything to the right of an extent ends after it |
| DipRb.ThreeIff | btt/dip_rb.c:24-86 | in every valid tree of three extents, whatever the order they came in, the search is complete for all queries if and only if the last ends after the middle one; otherwise it misses the last even when asked for just that |
| DipRb.IoTree.LoseOne | btt/dip_rb.c:24-86 | any three extents with ascending first sectors, the last ending no later than the middle one, can be inserted, and then the search for the last does not find it |
| DipRb.ApartEndsLater | btt/dip_rb.c:81-84 | disjoint extents meet that condition |
| DipRb.IoTree.AllInside | btt/dip_rb.c:67-86 | over disjoint extents the search finds exactly those inside the query |
| Replay.Tip.IocbsMap | btreplay/btreplay.c:1230-1263 | the first free blocks become the last used ones and the free count falls by as many |
| Replay.Tip.CountOut | btreplay/btreplay.c:1299-1306 | after the submission the out count grows by the blocks submitted, the waiting flag of the reclaimer is cleared, and nothing else changes |
| Replay.Tip.Reclaim | btreplay/btreplay.c:1070-1096 | the blocks of the events move from the used list to the end of the free list, both counts follow, and the result is how many more are known to be out |
| Replay.Tip.constructor | btreplay/btreplay.c:774-812 | at the beginning all blocks are free, in order, and none is out |
| Replay.RunKeepsInv | btreplay/btreplay.c:1170-1311 | lists and counts stay in balance in every interleaving of submitter, reclaimer and kernel |
| Replay.Safety | btreplay/btreplay.c:1025-1122 | in every state each block is on one list, the free count is right, the out count never exceeds what the kernel holds, no assertion fails, and at the end all blocks are free |
| Replay.NoWakeUpIsLost | btreplay/btreplay.c:1029-1041 | in every state of every run, a thread that waits has been signalled if and only if there is something for it: a free block for the submitter, one that is out for the reclaimer |
| Replay.CanMoveIff | btreplay/btreplay.c:1025-1311 | in every state of every run, a step that needs no wait to end by itself is possible unless the submitter has ended and the reclaimer has ended or sleeps, and only then: before the submitter has ended there is no deadlock |
| Replay.EveryBunchIsSubmitted | btreplay/btreplay.c:1271-1311 | from every state of every run, the steps before the next bunch is begun are bounded in number, and while the submitter is at a bunch some step is possible: every bunch that is begun is submitted |
| Replay.StrandedForGood | btreplay/btreplay.c:1025-1040 | once the submitter has ended, nothing is out and the reclaimer waits, it is so in every state of whatever follows |
| Replay.ReclaimerEndsIff | btreplay/btreplay.c:1025-1122 | in every run and every state in which the submitter has ended: some continuation ends the reclaimer if and only if it is not stranded; if it is not, every continuation is bounded in length and can go on, without a wait ending by itself, until the reclaimer has ended |
| Replay.StrandingHappens | btreplay/btreplay.c:1362-1378 | for any number of blocks and any sequence of bunches there is a run in which all bunches are submitted and reclaimed, the reclaimer waits for more, and then the submitter ends and leaves it stranded; no wait ends by itself in it |
| Barrier.RunKeepsInv | btreplay/btreplay.c:390-492 | the tokens of a round are still there, in use or handed back, and passes add up to rounds times files |
| Barrier.AssertsHoldInRuns | btreplay/btreplay.c:390-492 | no assert of the counters and tokens can fail |
| Barrier.EveryThreadMadeItsPasses | btreplay/btreplay.c:1635-1643 | when main is through, each thread has made exactly the given number of passes |
| Barrier.PassesWithinShare | btreplay/btreplay.c:1366-1373 | in every state of every run no thread has made more passes than there are iterations |
| Barrier.TokenTaken | btreplay/btreplay.c:472-480 | for any two or more files and iterations there is a run in which one thread takes another's token, so that after the first round their passes differ from it |
| Barrier.RoundsArePassesIff | btreplay/btreplay.c:466-492 | in every run, each thread has made as many passes as there were rounds at every start of a round and at the end, if and only if there is at most one file or at most one iteration |
| Barrier.EveryRunEnds | btreplay/btreplay.c:1635-1643 | no run is longer than a number of steps that depends on files and iterations alone, and main has finished exactly in the runs of that length: with no deadlock, main always finishes |
| Barrier.NoDeadlock | btreplay/btreplay.c:407-492 | in every state of every run in which main has not finished, some step is possible |
| Bunching.GreedyIsOptimal | btreplay/btrecord.c:646-673 | no way to cut an ordered stream under both limits makes fewer bunches |
| Bunching.StaysAhead | btreplay/btrecord.c:646-673 | begun at any place, the greedy cut of the rest has no more runs than any cut of the whole |
| Bunching.GreedyIsCut | btreplay/btrecord.c:646-673 | the greedy cut obeys both limits and loses nothing |
| Bunching.GreedyOnline | btreplay/btrecord.c:662-673 | deciding trace by trace gives the greedy cut |
| Bunching.OneIsEnough | btreplay/btrecord.c:646-673 | one bunch is enough for exactly the streams that fit into one |
| Record.IfileInfo.NextIo | btreplay/btrecord.c:486-565 | skips what is no queue trace and gives the next one, the end, or a failure for a time before the first |
| Record.IoBunch.Push | btreplay/btrecord.c:270-287 | the packet goes to the end of the packets in the array, and the time of the bunch stays |
| Record.IoStream.BunchAdd | btreplay/btrecord.c:270-287 | fails where an assert would, and otherwise adds the packet and its time |
| Record.IoStream.BunchDone | btreplay/btrecord.c:646-655 | for times in order the unsigned difference is the true one: done if and only if the bunch is full or the trace too late |
| Record.IoStream.Flush | btreplay/btrecord.c:624-639 | header and packets of a bunch that is not empty go to the file |
| Record.IoStream.AddIo | btreplay/btrecord.c:662-673 | keeps the file and the current bunch at the greedy cut of all traces added; fails only on times out of order |
| Record.IoStream.Close | btreplay/btrecord.c:728-739 | the file has all bunches, its header counts all but the last |
| Record.OnlyQueueingMatches | btreplay/btrecord.c:205-209 | of the actions of a request the queueing matches in any direction, and the merges, allocations, requeueing, issue and completion do not |
| Record.MatchesIff | btreplay/btrecord.c:205-209 | whatever event and categories an action is made of, it matches if and only if the event is the queueing and the queue category is among them |
| Record.QueuedDescribe | btreplay/btrecord.c:486-565 | what is taken from a file has time, place and size of each queue trace, in their order, and 1 for a read and 0 for others |
| Record.Process | btreplay/btrecord.c:762-773 | aborts on exactly the files whose queue traces are out of order, and otherwise writes the greedy cut of what has the fields of those traces |
| Playback.BunchRoundTrip | btreplay/btreplay.c:1137-1161 | reading what was written for a bunch, whatever follows it, gives the same bunch and what follows |
| Playback.FileRoundTrip | btreplay/btreplay.c:1137-1161 | reading what was written for a list of bunches gives all their packets in order |
| Playback.RecordedReadsBack | btreplay/btrecord.c:571-673 | whatever the limits, the file holds the packets of the queue traces in their order |
| Playback.TracesReadBack | btreplay/btrecord.c:486-673 | the packets on file have place, size and direction of the queue traces, in their order |
| Playback.LargestBunch | btreplay/btreplay.c:1137-1161 | a bunch of 512 packets is read back, and one that announces more is fatal |
| Playback.PacketOfTrace | btreplay/btreplay.c:1238-1259 | the packet of a trace is accepted if and only if the trace has whole sectors, at least one, less than 2 GiB, in reach of a signed offset; then the operation is at 512 times the sector, has the trace's size, and is a read if and only if the trace is one or writes are disabled |
| Playback.IocbsMap | btreplay/btreplay.c:1238-1259 | each packet becomes a request of the same place and size, a write only if it was one and writes are enabled; it fails on exactly the packets on which an assert would |
| Playback.ProcessBunch | btreplay/btreplay.c:1271-1311 | each batch takes all blocks that are free in its turn or all that is left, none is empty, and the batches one after the other are the bunch; it aborts on exactly the bunches with no, too many or unacceptable packets |
| Playback.Pass | btreplay/btreplay.c:1370-1371 | the batches of a pass are the packets of the file in their order, none larger than the blocks free in its turn; it aborts on exactly the files that cannot be read to their end or hold a packet no request can be made of |
| Playback.RecordThenReplay | btreplay/btreplay.c:921-926 | on the traces themselves: recording aborts if and only if the queue traces are out of order, replaying is skipped if and only if they fit into one bunch, and otherwise operation k has place and size of queue trace k and is a read if and only if that is or writes are disabled; no batch is larger than the blocks free in its turn |
| Playback.SingleTraceIsSkipped | btreplay/btrecord.c:728-739 | for a single trace the bunch is in the file but the header counts no bunch |
| Framing.ChunkInvariance | blktrace.c:1353-1416 | written and kept bytes are the received ones, what is written is the longest run of whole records, and all that and the record count depend on the bytes alone |
| Framing.CutsDoNotMatter | blktrace.c:1353-1416 | unless a write fails, what is written, kept and counted after any sequence of buffers is what it is for all their bytes at once |
| Framing.NothingLostIff | blktrace.c:1397-1401 | bytes are lost if and only if a write fails for a buffer that completes a record of the bytes received so far |
| Framing.RecordsComeOut | blktrace.c:1381-1390 | records one after the other come out as they are and are counted |
| Framing.LengthInHeader | blktrace_api.h:96-108 | for a header written field by field in either byte order, the record's length is 48 and what the last field says, whatever follows |
| Framing.FoundWhole | blktrace.c:1381-1390 | a record of header and payload is found with just its length, whatever follows it |
| Framing.TracesComeOut | blktrace.c:1353-1416 | however records are cut into buffers, with the beginning of another behind them or not, while no write fails all come out whole, as they are and counted, and the beginning is kept |
| Framing.WholeIsLongest | blktrace.c:1381-1390 | the length found is that of whole records, and no longer beginning of the bytes is made of whole records |
| Framing.WholeSplit | blktrace.c:1372-1390 | the whole records of two joined byte strings are those of the first, and those of what is left of the first joined with the second |
| Reframe.TbCombine | blktrace.c:1328-1351 | the new bytes are at the end of the leftover, in a buffer that is large enough for both and never smaller than the usual size |
| Reframe.CountWhole | blktrace.c:1379-1390 | the loop finds length and number of the whole records |
| Reframe.DropFront | blktrace.c:1403-1408 | the rest moves to the beginning of the buffer |
| Reframe.Head.HandleOne | blktrace.c:1362-1412 | one buffer: what is written, kept and counted afterwards is the specified step for the leftover and the new bytes, and the memory used is that of the leftover, of the buffer, or new |
| Reframe.Head.HandleListFile | blktrace.c:1353-1416 | a list of buffers is taken one after the other, each as the specified step, all are counted as handled, and the kept buffer is never smaller than its data or the usual size; if the buffers hold records of header and payload, these come out whole |
| Piped.Balance | blktrace.c:1191-1220 | in every state of every run, counted and uncounted buffers together are those on the lists and those taken and not uncounted |
| Piped.CleanSeesTheLists | blktrace.c:1453-1461 | after the tracers are joined the count is zero exactly when all lists are empty |
| Piped.NothingLost | blktrace.c:1931-1954 | at the end every buffer was handled once and in order |
| Piped.OneScanCleans | blktrace.c:1453-1461 | one scan after the joining leaves no reason for another |
| Piped.CountCanBeNegative | blktrace.c:1206-1220 | for any numbers of devices and CPUs the count can be any number below zero, and the main thread does not wait then |
| Piped.DataPath.ProcessTraceBufs | blktrace.c:1418-1445 | every list is emptied and the count falls by what was on them |
| Piped.DataPath.CleanTraceBufs | blktrace.c:1453-1461 | if the count is what is on the lists, the loop ends with a count of zero and every buffer handled |
| Mmap.FitsIff | blktrace.c:749-761 | a newly mapped window holds the next read if and only if twice the bytes in its first page leave room |
| Mmap.RoomyNeverOverruns | blktrace.c:745-781 | in a roomy window, whatever is asked for and read each time up to the longest read, the window starts on a page, lies in the file, ends the data, and holds whatever may be asked for next |
| Mmap.CrampedOverruns | blktrace.c:745-781 | if the window is not roomy, some run of reads as the caller makes them overruns it: whole buffers asked for by a tracer, or blocks of two bytes and more by the server |
| Mmap.NeverOverrunsIff | blktrace.c:745-781 | for both callers and all sizes of pages, buffers and longest reads, no run overruns the window if and only if it is roomy |
| Mmap.PageInBuffer | blktrace.c:745-756 | a tracer's window is roomy whenever a page is not larger than a buffer |
| Mmap.SmallBuffersOnLargePages | blktrace.c:2122-2130 | with buffers of 4 KiB on pages of 64 KiB some run overruns the window |
| Mmap.WindowTakes | blktrace.c:750-761 | a window that begins on a page takes as many whole buffers as there are, sixteen at least, and is full then and not before |
| Mmap.IoInfo.SetupMmap | blktrace.c:745-781 | succeeds if and only if something can be mapped and holds the next read; then the window is where the specification has it and the data stay |
| Mmap.IoInfo.Read | blktrace.c:1710-1715 | the bytes read are appended to the data of the file |
| Mmap.IoInfo.Close | blktrace.c:1583-1596 | the file is cut to its data |
| Mmap.WriteFile | blktrace.c:1693-1734 | with a length asked for before each read, as both callers do: it succeeds if and only if no window is overrun, which a roomy one never is, and then the file is all that was read and nothing else |
| NetRun.RunKeepsInv | blktrace.c:2435-2502 | connections and host stay in step in every interleaving of the client's threads and the server's reads |
| NetRun.OpensBeforeCloses | blktrace.c:1672-1677 | when any close is sent every open of every connection was read |
| NetRun.RemovedOnlyWhenOver | blktrace.c:2488-2498 | the host is removed once at most, and then every block sent on any connection was read |
| NetRun.RemovedWhenOver | blktrace.c:2488-2498 | once every close of every connection has been read, the host has been removed |
| NetRun.EachReadIsAcknowledged | blktrace.c:2482-2492 | in every state of every run, on each connection the acknowledgements given are the opens and closes that were read |
| NetRun.NoDeadlock | blktrace.c:2435-2502 | in every state of every run some step is possible until the host has been removed |
| NetRun.BytesCloseTheHost | blktrace.c:2481-2500 | for any numbers of connections and opens, blocks of one byte on one connection make the server remove the host while its client runs |
| NetRun.NeverTooSoonIff | blktrace.c:2481-2500 | whatever lengths blocks may have: in every run with such blocks, all connections are over once the host is removed, if and only if one is not among the lengths |
| MergeTheory.ReadsAllIff | blkparse.c:2375-2461 | what is read are the first traces of a file; they are all of them if and only if, notifications apart, there is no batch of records without a trace and with a trace behind it |
| MergeTheory.OwnIsReadable | blkparse.c:2422-2426 | of files of their own CPU's records all traces are read, for every batch size |
| MergeTheory.ForeignersHide | blkparse.c:2422-2426 | a batch of another CPU's records hides what comes after |
| MergeTheory.BatchKeeps | blkparse.c:2375-2461 | the traces of a batch and those it leaves in the file are the traces of the file, in order |
| Merge.MsStream.Prime | blkparse.c:2375-2461 | the queue grows by the traces that one batch takes from the file, the file is what that leaves, and the count says how many came |
| Merge.PlaceIff | blkparse.c:2355-2373 | there is one place for a stream: behind all that begin earlier and before all that begin at the same time, except that a head of the same time stays the head |
| Merge.Merger.MsSort | blkparse.c:2355-2373 | the stream is put behind the streams with earlier first times and behind a head with the same, before all others; the list stays linked and ordered |
| Merge.Merger.MsResort | blkparse.c:2331-2338 | if only the head may be out of place, the list is linked and ordered again and has the same streams |
| Merge.Merger.MsDeq | blkparse.c:2340-2353 | the first trace goes, the queue is filled again if it is empty, and a stream without traces leaves the list |
| Merge.Merger.MsAlloc | blkparse.c:2463-2476 | a new stream gets its first batch, enters the list if there is any trace, and all that is known of the other streams stays true |
| Merge.Merger.Handle | blkparse.c:2522-2555 | the head's first trace goes out with its time relative to the first, unless it is behind the window; what came out of each file and what is pending of it stay all that is read of it |
| Merge.Merger.SetGenesis | blkparse.c:2598-2602 | the first time of the head of the list is the least time in all files |
| Merge.DoFile | blkparse.c:2575-2612 | from each file all traces in the window come out once and in order, all together in order of time, shown relative to the least time |
| Matching.EveryEventOnce | blkiomon.c:394-430 | every event is in one pair, given up or waiting |
| Matching.PairsAreGood | blkiomon.c:405-421 | every pair is an issue and a completion that is not older |
| Matching.TablePairsAreGood | blkiomon.c:394-430 | with any other events between, every pair is an issue and a completion that is not older, of one device and sector and alike in being a read, a write, a file system and a packet request |
| Matching.SameKeyIff | blkiomon.c:360-383 | two events share a key if and only if they agree in device, sector and each of the four bits of their kind |
| Matching.IssuesAndCompletions | blkiomon.c:503-507 | of the actions of a request the issue and the completion count, each as what it is; queueing, requeueing and driver data do not |
| Matching.RelevantIff | blkiomon.c:492-507 | an event counts if and only if it is an issue or a completion and has no driver data |
| Matching.EventsAddUp | blkiomon.c:394-430 | events are twice the matches, and the mismatches, and what is stored |
| Matching.KeysAreIndependent | blkiomon.c:374-430 | the pairs, the events given up and the event waiting for one device, sector and kind are those that its own events alone would lead to |
| Matching.NothingGivenUpIff | blkiomon.c:394-430 | for any events: none is given up if and only if of each two events, as they come, the older is an issue and the younger a completion; then just these are the pairs, and an odd last event waits |
| Matching.AlternatingPairsUp | blkiomon.c:394-430 | issues and completions in turn are all paired if each completion is later than its issue, and, when no event is both, only then: with the same time they are no pair |
| Iomon.Monitor.FetchTrace | blkiomon.c:374-392 | takes the one structure of the key out of its chain, if there is one |
| Iomon.Monitor.StoreTrace | blkiomon.c:366-372 | the structure waits in the hash for its key, with all others as they were |
| Iomon.Monitor.AllocTrace | blkiomon.c:338-348 | a vacant structure, or a new one if none is |
| Iomon.Monitor.FreeTrace | blkiomon.c:350-358 | at most 256 structures are kept |
| Iomon.Monitor.DoTrace | blkiomon.c:394-430 | the hash goes through the step of the map that has at most one event for each key; every structure is in just one of hash, vacant list and hand, and none is given back before 256 are vacant |
| Iomon.DoFifo | blkiomon.c:451-520 | for any events the counts and pairs are those of the map for all issues and completions, each accounted pair is an issue and a not older completion of one device, sector and kind, and events are twice the matches, the mismatches and what waits |
| Jhash.RotBit | jhash.h:26 | a rotation takes every bit to the place that is as much further, around the end |
| Jhash.XorBit | jhash.h:28-49 | a bit of the exclusive or is set if and only if it is set in just one of the two words |
| Jhash.MixReversible | jhash.h:28-37 | undoing the six lines of the mixing in reverse gives back the three words |
| Jhash.UnmixReversible | jhash.h:28-37 | mixing what the undoing gives leads back to the three words: with the other direction, mixing is a bijection |
| Jhash.FinalReversible | jhash.h:39-49 | undoing the seven lines of the final mixing in reverse gives back the three words |
| Jhash.UnfinalReversible | jhash.h:39-49 | the final mixing of what the undoing gives leads back to the three words: with the other direction, it is a bijection |
| Jhash.Hash | jhash.h:58-97 | the byte-wise hash of any key is the reference hash of its padded words |
| Jhash.HashOfWords | jhash.h:102-131 | the word-wise hash of any words is the reference hash of these words |
| Jhash.SameHash | jhash.h:54-131 | for all words and seeds both hashes are the same |
| Jhash.Hash3IsHash | jhash.h:136-145 | the three-word form is the general one with its seed moved by twelve |
| Jhash.PaddedBytes | jhash.h:66-94 | the little-endian bytes of words are these words again |
| Jhash.LastThree | jhash.h:109-129 | three words at the end of a key join the state as three words before the end do |
| Jhash.HashOfNothing | jhash.h:51-64 | the hash of the empty key is the seed added to 0xdeadbeef, which lookup3.c of Bob Jenkins gives for it |

## Left out

- The packed word with parent and colour is two fields; `rb_last`, `rb_prev` and `rb_replace_node` are not modelled, being mirror images or unused by the clients here.
- RbTree.Root.Relink: the rotations' tests of which link to the parent to change are one method, which asks for the left child first; the order of writes inside a rotation and an erase is regrouped.
- PLive.LiveTree.Get: floating-point averages are not modelled; the start never leaves zero because it begins at 0 and the original asks first whether an unsigned value is below 0.0 (btt/p_live.c:147), which is proved as it is.
- PLive.LiveTree.Add: asks for the issue time not to be after the completion time, as the callers see to it; times are unbounded.
- DipRb.IoTree.ForEach: the callback is left out and the caller's list is a list of nodes.
- Jhash.Xor: exclusive or is defined bit by bit on numbers, and a rotation by adding its two parts, which do not overlap.
- Replay: exits by signal, fatal errors and stalls are not modelled; the two reads of `is_reap_done` are one where it is asserted.
- Replay.CanMoveIff: asks for one control block at least; there are 512 (btreplay/btreplay.c:144).
- Barrier: each `__wait_cv` that gets through and each `__set_cv` is one step, and the wait for the reclaimers at the very end is not modelled.
- Record.Process: whole records in native byte order; the bytes of a record, of a short read and of a payload are not modelled.
- Playback.Pass: waiting for the time of a bunch, the alignment of buffers and an early end by signal are not modelled; how many blocks are free each time is a parameter, at least one and at most all.
- Reframe.Head.HandleListFile: whether a write succeeds is a parameter; lengths are unbounded where the original has int.
- Piped.Run: reading a relay file, and the buffers' contents, are not modelled here.
- Mmap.NeverOverrunsIff: asks for a longest read of two bytes for a tracer and of three for the server, where a buffer has 1024 at least (blktrace.c:2122-2130).
- MergeTheory.ReadsAllIff: a batch has one record at least, as the option is read (blkparse.c:2825-2828).
- Mmap.IoInfo.SetupMmap: a mapping that is too short is reported, where the original goes on and reads; locking memory and growing limits are left out; the page size is used as a divisor, where the original masks with a power of two.
- NetRun.Run: one run of one client from its address, no stop before the start and no failure; whole messages, in order on each connection; acknowledgements of closes are not waited for, which allows more runs than the original.
- NetRun.RemovedOnlyWhenOver: asks for blocks of at least two bytes, since one byte is taken for a close (`NeverTooSoonIff`).
- Merge.DoFile: files end where the first bad record is; printing, the binary dump and the sorting for text output are left out; the time relative to the first is kept with the output and not written into the trace.
- Merge.Merger.Handle: the start of the stopwatch only decides what is printed and is left out.
- Iomon.Monitor.DoTrace: the chains of the hash and the vacant list are sequences of structures, without their next pointers; the statistics made of a pair (blkiomon.c:310-336) are left out, and with them a division by the elapsed microseconds.
- Counters and times of 64 bits do not wrap, except where the model says so (`BunchDone`, `Handle`).
- blkparse's pipe mode promises only a best effort and is not modelled; nor are printing, plotting and option parsing, the counters of the statistics (sums, least and greatest values), `btt`'s seek and skip statistics, and hash look-ups by process.
