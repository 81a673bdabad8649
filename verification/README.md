# A verified model of a userspace iWARP stack

RDMAP over DDP over MPA over a TCP byte stream, with the data structures below it, as
Dafny models with proofs. The code works by changing things step by step, and so do the
models: loops, arrays, linked nodes and objects are methods and classes, each proved
against a function of its inputs or of the old state; what the protocol promises is
proved about those functions.

* **Balanced tree** (`Avl*.dfy`). Nodes on the heap, with a tree value and a path value
  (`AvlTree.Tree`, `AvlTree.Ctx`) saying what the pointers stand for. Search, insertion,
  deletion, traversers that survive updates, copy and destruction without a stack.
* **Checksum** (`Crc32c*.dfy`). The 256-entry table, the loops, the bit-serial division,
  which bursts of errors always show, the check value, and the state that every message
  with its own checksum leads to.
* **MPA** (`MpaLayout`, `MpaWriter`, `MpaReader`, `MpaBlocks`, `MpaRoundTrip`, `MpaRun`,
  `MpaCorners`, `MpaPlain`, `VectorIo`). Markers every 512 bytes (RFC 5044, section 4.3), pad, checksum field,
  32-bit positions that wrap, and vectored I/O under any short counts. `DdpWire` carries
  DDP segments over it, `DdpSink` is the test a header has to pass, and `WireFormat` says
  what the bytes are, one by one.
* **DDP and RDMAP** (`DdpSegments`, `DdpReassembly`, `Rdmap`, `Iwsk`, `RdmapWorld` to
  `RdmapTheorems`). One end of a connection is a value (`Rdmap.St`) with a function per
  operation; `Iwsk.Connection` is the object whose methods do the same in place. Two ends
  are joined by the FIFO of segments each has sent. A run is any interleaving of posts,
  sends, writes, reads, polls, completions taken, tags changed and memory stored to; what
  has happened is kept beside the state (`RdmapWorld.Hist`) and the theorems are about it;
  `RdmapPlacement` says, for any segment at all, when it is taken, what it writes and what
  it leaves alone, and `RdmapSpared` lifts that to runs; `RdmapCalls` and `RdmapShown` tie
  completions and logs to calls and memory; `RdmapTags` is about reads that share a tag,
  `RdmapBytes` puts the byte stream under the FIFO.
* **Completion ring and the kernel module's read queue** (`CompletionQueue`,
  `KernelReads`), **page splitting** (`KernelPages`), **steering tags** (`Stags`,
  `MemRegistry`, on the balanced tree itself) and the **linked list** under every queue
  (`ListHead`).

## Where code and intent differ

The models follow the code. Each departure is stated as a theorem, with the exact
condition under which the intent is met.

* A padded length equal to the pending marker position emits a marker that is not counted
  (iwarp/mpa.c:428 against iwarp/mpa.c:495): `MpaWriter.NumMrkrsRight`,
  `MpaRun.StayInStep`. What follows goes out without markers for 2^32 - 4 bytes:
  `MpaCorners.DesyncRun`. Runs of `MpaRun.AllGood` are those without such an FPDU.
* The FPDU length with markers always includes the checksum (iwarp/mpa.c:434):
  `MpaRun.LengthRight` says when it is right, `MpaRun.SendMarked` what goes out when it is
  not, and `VectorIo.Socket.WritevFull` why.
* The reader's checksum return with markers is unbraced (iwarp/mpa.c:744-747), and a frame
  that comes with an error is not handed up (iwarp/mpa.c:600-603): `MpaCorners.NoneAccepted`.
  `MpaRoundTrip.RoundTrip` states what was recovered beside the value returned.
* Together these leave markers with next to no use: `MpaCorners.OneWorks` and
  `MpaCorners.OnlyTheFirst` for FPDUs, `DdpWire.MarkedDelivers` for segments. The layout
  itself is right (`MpaRun.RunRoundTrip`, `DdpWire.MarkedLayout`), and without markers
  everything is delivered (`DdpWire.PlainDelivers`, `RdmapBytes.BytesTheorem`).
* Positions with markers leave the checksum out (iwarp/mpa.c:502-507), where RFC 5044,
  section 4.3, counts it: `MpaRun.MarkersSent` says where each marker sits in the bytes
  sent, `MpaRun.SpacingFails` gives a run that misses a multiple of 512.
* Nothing compares the reader's block index with MAX_BLKS (iwarp/mpa.c:695-722):
  `MpaBlocks.BlocksFit`, `MpaBlocks.OneTooMany`.
* A length field too small for its header becomes a length just below 2^64
  (iwarp/ddp.c:258, 293), and the sums that test it are 64-bit (iwarp/mem.c:261,
  iwarp/ddp.c:295): `Stags.LocatedExact`, `DdpSink.GetSinkExact` and
  `MemRegistry.Registry.StagLocation` say when such a length passes, `DdpSink.SlipsOnce`
  gives one; the readers go by its low 32 bits (`MpaBlocks.BlocksFit`, `MpaPlain.SumWraps`).
  The headers the code itself sends are free of it: `RdmapBytes.SinkTheorem`.
* The plain reader ignores a refusal by `ddp_get_sink` and goes on with an unset buffer
  (iwarp/mpa.c:773). `MpaPlain.ParsePlain` ends there; `RdmapTheorems.PollFailsExactly` says
  when that is.
* The count of segments is a 32-bit sum (iwarp/ddp.c:153, 191):
  `DdpSegments.NumSegments32Right`.
* The kernel's tagged send returns with every page mapped when a segment fails to go out
  (kiwarp/ddp.c:240-242): `KernelPages.Kernel.SendTm`.
* Growing the region array moves descriptors that tags point to (iwarp/mem.c:119-131):
  `MemRegistry.Registry.Register`, `MemRegistry.GrowNeedsNoTags`,
  `MemRegistry.GrowThenDestroy`.
* `mem_stag_create` does not look at the valid flag (iwarp/mem.c:172-187):
  `MemRegistry.Registry.StagCreate`, `MemRegistry.CreateNeedsValid`.
* A tagged segment with the opcode of a read request is granted by read access
  (iwarp/rdmap.c:77) and then written to the tag (iwarp/ddp.c:258-262, iwarp/mpa.c:777-787):
  `RdmapPlacement.ReadOnlyWritten`; `RdmapPlacement.ReceiveSpares` says that this is the only
  such case, and `RdmapSpared.MemorySpared` that no end of a run sends one.
* The lookup of a receive always yields the queue head (iwarp/rdmap.c:369-376): modelled so;
  `RdmapTheorems.SendsTheorem` shows that the head is the right one on a FIFO stream.
* A response marks every read with its sink tag (iwarp/rdmap.c:475-481):
  `RdmapTags.AnswersItsRead` says when it answers just its own read,
  `RdmapTags.SharedTagLoses` what is lost otherwise. A read of no bytes gets no answer
  (iwarp/ddp.c:191-200): `RdmapTheorems.ZeroReadUnanswered`. Legal steps
  (`RdmapWorld.Legal`) ask for a size and a tag of its own.
* Completions for reads go to the send queue, and in user space a completion that finds its
  queue full is dropped, for receives (iwarp/rdmap.c:294) and for reads (iwarp/rdmap.c:501):
  `RdmapTheorems.SendsTheorem` and `RdmapTheorems.ReadsTheorem` state the log of completions
  outright, and that the queues report it if and only if none was dropped;
  `RdmapTheorems.NoneDropped` gives the bound that users can keep to. `KernelReads` compares
  the two forms of the loop over whole runs: `KernelReads.UserConserves`,
  `KernelReads.UserOrder`.

## Model

| member | source | states |
|---|---|---|
| AvlTable.Table.constructor | iwarp/avl.c:36-59 | a new table is a valid, empty tree of count and generation 0 |
| AvlTable.Table.Find | iwarp/avl.c:63-82 | finds an item with the key, and reports none only when no item has it |
| AvlTable.Table.Descend | iwarp/avl.c:97-114 | the search of avl_probe ends at the one link where the key belongs; y is the last node out of balance on the way, z its parent, da[] the directions below y |
| AvlTable.Table.Probe | iwarp/avl.c:88-194 | keeps order, balance and count; inserts exactly the new item at its place in order, or nothing when the key is there; the generation changes, by one, exactly when the path to some older item does |
| AvlInsertion.Bump | iwarp/avl.c:128-132 | the loop from y down to the new node makes each balance on the way the one of the grown subtree, and no other |
| AvlInsertion.RebalanceAt | iwarp/avl.c:134-193 | after the rotation, if any, the subtree at y has the height it had before, so nothing above it needs work; items and nodes are kept |
| AvlInsertion.Settle | iwarp/avl.c:121-193 | from linking the new node to the end: balanced, with exactly the new node added |
| AvlTree.SingleIsAvl | iwarp/avl.c:136-143 | a single rotation restores balance; the height drops by one, or not at all when the child was even |
| AvlTree.DoubleIsAvl | iwarp/avl.c:144-159 | a double rotation restores balance and lowers the height by one |
| AvlTree.SingleItems | iwarp/avl.c:330-342 | a single rotation keeps the order of the items |
| AvlTree.DoubleItems | iwarp/avl.c:311-328 | a double rotation keeps the order of the items |
| AvlTree.GrowTaller | iwarp/avl.c:128-132 | a subtree whose balances on the path are all 0 grows by exactly one level when only those balances are adjusted |
| AvlTree.GrowTop | iwarp/avl.c:134-189 | at y the growth shows in the balance alone: it becomes 0 and the height stays, or it reaches 2 towards the new item |
| AvlTree.PlaceResult | iwarp/avl.c:102-193 | putting back a balanced subtree of the old height gives a balanced, ordered tree that is the old list with the item inserted |
| AvlTree.RotationMoves | iwarp/avl.c:188-193 | a rotation always changes the path to an older item, so that the generation is never bumped in vain |
| AvlTree.GraftInserts | iwarp/avl.c:105-124 | a leaf at the link where the search ended is the sorted insertion of its item |
| AvlTable.Table.DescendTo | iwarp/avl.c:240-253 | the stacks pa[] and da[] hold exactly the path to the node with the key, or to the link where it would be |
| AvlTable.Table.Delete | iwarp/avl.c:227-395 | keeps order, balance and count; removes exactly the item with the key, returns it and frees its node, or changes nothing |
| AvlDeletion.FindSuccessor | iwarp/avl.c:271-283 | the walk to the left finds the successor of p and records every node on the way |
| AvlDeletion.MoveChild | iwarp/avl.c:261-268 | without a left child, the right child takes the place of p |
| AvlDeletion.MoveSuccessor | iwarp/avl.c:269-293 | the successor, cut out of its place, takes over links, balance and stack entry of p |
| AvlDeletion.SpliceLeaf | iwarp/avl.c:256-257 | the first case removes one item, and shortens what hangs there by one |
| AvlDeletion.SpliceSuccessor | iwarp/avl.c:258-294 | so do the other two cases, at the place the successor came from |
| AvlDeletion.Splice | iwarp/avl.c:256-296 | all three cases leave stacks that are the path to the one subtree that got shorter; only p leaves the tree |
| AvlDeletion.RemoveInside | iwarp/avl.c:254-294 | a subtree replaced by its items without the root is the list without that key |
| AvlDeletion.RebalanceUp | iwarp/avl.c:299-387 | one turn of the loop does to the nodes what the balanced-tree step Shrink does to the value, and stops exactly when that says so |
| AvlTree.ShrinkAvl | iwarp/avl.c:303-386 | the step yields a balanced subtree, of unchanged height exactly when the loop may stop |
| AvlTree.ShrinkItems | iwarp/avl.c:303-386 | and keeps the items in order |
| AvlDeletion.RebalancePath | iwarp/avl.c:298-387 | the whole loop, with its early breaks, ends with a balanced tree of the same items and nodes |
| AvlHeight.FewestItems | iwarp/avl.c:230-232 | a balanced tree of height h has at least Fib(h + 2) - 1 items |
| AvlHeight.HeightBound | iwarp/avl.h:52-55 | below 5702886 items the height is less than AVL_MAX_HEIGHT, so the stacks hold every path, the table itself included |
| AvlHeight.DescendHeight | iwarp/avl.c:97-114 | the directions recorded below y, with the height still below, fit the height of y |
| AvlDeletion.StackRoom | iwarp/avl.c:231-294 | while there is a node below, one more entry fits both stacks |
| AvlTraverser.NeighbourIsNext | iwarp/avl.c:580-582 | Neighbour is the least greater, or greatest smaller, item of the list |
| AvlTraverser.NeighbourHere | iwarp/avl.c:598-627 | it is the edge of the child subtree on that side or, without one, the nearest item above |
| AvlTraverser.Traverser.constructor | iwarp/avl.c:427-434 | a new traverser has no current item |
| AvlTraverser.Traverser.Locate | iwarp/avl.c:399-423 | the refreshed stack is exactly the path from the root to the current item |
| AvlTraverser.Traverser.ToEdge | iwarp/avl.c:450-458 | the loop to the outermost node finds the first (or last) item of a subtree and keeps the stack exact, within AVL_MAX_HEIGHT |
| AvlTraverser.Traverser.Climb | iwarp/avl.c:611-627 | the loop up the stack stops at the neighbour, or finds that there is none |
| AvlTraverser.Traverser.Seek | iwarp/avl.c:590-628 | from any valid traverser, stale or not, the item found is the true neighbour in the present tree |
| AvlTraverser.Traverser.Next | iwarp/avl.c:583-631 | avl_t_next returns the next item in order and leaves the traverser on it |
| AvlTraverser.Traverser.Prev | iwarp/avl.c:636-684 | avl_t_prev the previous one |
| AvlTraverser.Traverser.Find | iwarp/avl.c:495-525 | avl_t_find, on any traverser of the table, stands on the item with the key, with an exact stack, or on none |
| AvlTraverser.Traverser.Insert | iwarp/avl.c:534-556 | avl_t_insert, on any traverser of the table, inserts like avl_probe and stands on the item, with the stack marked stale |
| AvlTraverser.Traverser.CopyFrom | iwarp/avl.c:559-578 | the copy stands where the source stands and is as valid |
| AvlTraverser.ProbeUnder | iwarp/avl.c:188-193 | every valid traverser stays valid over an insertion, bumped generation or not |
| AvlTraverser.DeleteUnder | iwarp/avl.c:389-391 | and over a deletion of an item that none of them stands on |
| AvlSession.Session | iwarp/avl.c:583-684 | any interleaving of insertions, deletions and steps of any number of traversers acts on the tree as on a sorted list with cursors |
| AvlDestroy.RotateRight | iwarp/avl.c:844-846 | one rotation of the destroying loop keeps items and nodes |
| AvlDestroy.Destroy | iwarp/avl.c:827-850 | terminates without a stack, visits every item once, in ascending order, and frees every node once |
| AvlCopy.Copy | iwarp/avl.c:732-822 | the copy has new nodes, the same shape, items and balances, and is a valid table; the original is unchanged |
| AvlCopy.GoLeft | iwarp/avl.c:756-780 | going left, each node of the original faces a new one; the pairs on the stack fit 2 * (AVL_MAX_HEIGHT + 1) entries |
| AvlCopy.FinishUp | iwarp/avl.c:782-821 | going up, finished nodes are copied subtrees of the original, until a right child is entered or only the two heads are left |
| AvlCopy.SameAvl | iwarp/avl.c:732-822 | a tree of the same shape and balances is balanced exactly when the original is |
| MpaLayout.LayLength | iwarp/mpa.c:427-434 | the layout is the body and four bytes for every marker |
| MpaLayout.LayIsWeave | iwarp/mpa.c:440-500 | counting from the FPDU gives the same bytes as weaving a marker in at every multiple of 512 of the stream |
| MpaLayout.MarkerAt | iwarp/mpa.c:440-500 | every multiple of 512 covered by an FPDU holds a marker that points back to its start |
| MpaLayout.StripThen | iwarp/mpa.c:656-724 | taking four bytes out at every multiple of 512 gives back the body and leaves what follows |
| MpaLayout.MarkerRoundTrip | iwarp/mpa.c:443-452 | a sixteen-bit marker pointer is read back as it was written |
| MpaWriter.NumMrkrsRight | iwarp/mpa.c:427-433 | the closed count of markers is the number the loops emit if and only if the padded length is not the marker position |
| MpaWriter.MarksBound | iwarp/mpa.c:100-113 | an FPDU that fits FPDU_LEN stays below MAX_BLKS blocks and MAX_MRKRS markers |
| MpaWriter.FillHeader | iwarp/mpa.c:440-460 | the header blocks, with the marker that falls into the header, are the start of the layout |
| MpaWriter.FillPayload | iwarp/mpa.c:462-487 | the payload loop continues the layout up to the last payload byte |
| MpaWriter.FillTail | iwarp/mpa.c:489-500 | pad and closing marker complete it |
| MpaWriter.CrcBlk | iwarp/mpa.c:504-508 | the checksum field is that of all bytes before it, however they are split into blocks |
| MpaWriter.LayOut | iwarp/mpa.c:411-508 | the blocks are the layout of header, payload and pad, and the checksum field, within MAX_BLKS |
| MpaWriter.Endpoint.WriteMarked | iwarp/mpa.c:406-515 | the same with the positions: send_sp moves by the bytes laid out, send_mp by the markers counted, both modulo 2^32 |
| MpaReader.PlanReads | iwarp/mpa.c:689-713 | the payload loop builds the receive vector for any length the DDP layer gives |
| MpaReader.ReadHead | iwarp/mpa.c:656-683 | header and the marker in or before it are read and separated, or the peer closed too early |
| MpaReader.ScatterLay | iwarp/mpa.c:689-724 | filling that vector with what the writer laid out gives the payload and pointers to the start of the FPDU |
| MpaReader.CheckPtrs | iwarp/mpa.c:726-732 | the marker check passes exactly when every pointer is the expected one, modulo 2^32 |
| MpaReader.NewMpAsExpected | iwarp/mpa.c:733-737 | the check of the new marker position can never fail |
| MpaReader.ReadMarked | iwarp/mpa.c:642-751 | the reader is Parse on every byte stream: it takes exactly those bytes, puts them into the blocks of its vector, advances by its own counts, prints the checksum complaint exactly when the field is wrong, and stops exactly when the vector it builds has more than MAX_BLKS entries |
| MpaReader.PlanAligned | iwarp/mpa.c:693-719 | the reader stays on word boundaries whatever it is sent |
| MpaBlocks.PlanCount | iwarp/mpa.c:695-713 | the payload loop fills one block per stretch of payload and per marker, and one for the pad |
| MpaBlocks.BlocksFit | iwarp/mpa.c:656-722 | for every length field, and every marker position below 512, the reader stays within MAX_BLKS if and only if the field covers its header and the FPDU is not one of the padded ones over 65532 bytes with a marker at 0, 4 or 8 (TooLong) |
| MpaBlocks.OneTooMany | iwarp/mpa.c:689-722 | two inputs for which it does not: length fields 65535 and 10, marker at 4 |
| MpaBlocks.WrittenFits | iwarp/mpa.c:100-113 | an FPDU that fits FPDU_LEN is within MAX_BLKS for the reader too |
| MpaBlocks.MarkersFit | iwarp/mpa.c:708-712 | MAX_MRKRS suffices if and only if the length field covers its header |
| MpaBlocks.FrameRoom | iwarp/mpa.c:689-719 | after any frame, from any stream, the reader's marker position lies 0 to 508 ahead |
| MpaRoundTrip.RoundTrip | iwarp/mpa.c:642-751 | an FPDU laid out for the reader's marker position is read back, header, payload, all pointers, checksum field, and nothing of what follows, if and only if it is not a header without payload that ends on the marker position and not too long for the block vector |
| MpaRoundTrip.LoneHeaderLeft | iwarp/mpa.c:695-722 | of that one the last marker stays on the stream or, with checksums, is taken for the checksum field |
| MpaRun.StayInStep | iwarp/mpa.c:427-502 | after an FPDU the writer's and the reader's positions agree if and only if the padded length was not the marker position |
| MpaRun.LandsBack | iwarp/mpa.c:415-500 | the marker position returns to 4..508 |
| MpaRun.Desync | iwarp/mpa.c:427-435 | after an FPDU that ended on the marker position the writer thinks the next marker 2^32 - 4 bytes away |
| MpaRun.LengthRight | iwarp/mpa.c:427-434 | the length given to writev_full is right if and only if checksums are on exactly when the padded length is not the marker position |
| MpaRun.RunRoundTrip | iwarp/mpa.c:406-751 | over any run of such FPDUs the writer with its own send_sp and send_mp puts out the intended stream, a reader that starts in step takes in all of them one by one, and at the end both ends' counters are equal |
| MpaRun.ReaderRoom | iwarp/mpa.c:642-751 | over any run and on any stream the reader's own counters keep its marker position on a word boundary, less than 512 ahead |
| WireFormat.MarkerBytes | iwarp/mpa.c:440-500 | byte by byte: at every multiple of 512 of a run, without checksum fields, two zeros and then the distance back to the start of the FPDU that covers it, low byte first |
| MpaRun.MarkersEvery512 | iwarp/mpa.c:415-502 | over a whole run a marker to the start of its FPDU sits at every multiple of 512 of the stream without checksum fields |
| MpaRun.NoOtherMarkers | iwarp/mpa.c:415-502 | and nowhere else |
| MpaRun.MarkersSent | iwarp/mpa.c:415-509 | in the bytes sent, the marker in FPDU n of a run sits later by n checksum fields, so at a multiple of 512 if and only if checksums are off or n is a multiple of 128 |
| MpaRun.SpacingFails | iwarp/mpa.c:502-509 | a run where it is not: two FPDUs of 500 bytes |
| MpaRun.SendMarked | iwarp/mpa.c:406-518 | for every FPDU that fits: whole, or a prefix on an error, when the length is right; otherwise the checksum field may be missing, or there is no success at all; the writer stays in step exactly as StayInStep says |
| MpaRun.ReceiveMarked | iwarp/mpa.c:642-751 | the reading method recovers every FPDU but the lone header, also one that ends on the marker position, and stays in step with the stream |
| MpaCorners.NoMarkers | iwarp/mpa.c:427-487 | a run goes out without markers if and only if its contents stay below the writer's marker position |
| MpaCorners.DesyncRun | iwarp/mpa.c:427-502 | after an FPDU that ended on the marker position the FPDUs that follow go out without markers if and only if they hold less than 2^32 - 4 bytes |
| MpaCorners.OnlyTheFirst | iwarp/mpa.c:427-517 | without checksums a run with markers has only right lengths if and only if it is empty or one FPDU that ends on the marker position |
| MpaCorners.OneWorks | iwarp/mpa.c:427-748 | one FPDU with markers is both sent with the right length and read back without an error if and only if there is no checksum, it ends on the marker position and it has a payload |
| MpaCorners.NoneAccepted | iwarp/mpa.c:739-748 | with checksums, no FPDU with markers is accepted over any run, on any stream |
| MpaCorners.MarkedVerdict | iwarp/mpa.c:726-748 | on any stream, a frame read with markers gets 0 exactly when checksums are off and every marker points to the start of its FPDU, and -EBADMSG otherwise |
| MpaPlain.SendPlain | iwarp/mpa.c:521-556 | without markers exactly header, payload, pad and checksum go out, the length is right with checksums or without, and send_sp counts all of it |
| MpaPlain.ReceivePlain | iwarp/mpa.c:754-801 | the plain reader is ParsePlain on every byte stream: buffer, pad and checksum word are filled with just their bytes, and all of them are counted; it ends where ddp_get_sink refuses, which the source ignores, and where the 32-bit sum of the lengths wraps |
| MpaPlain.PlainVerdict | iwarp/mpa.c:787-801 | on any stream, a frame is the bytes in front, and its result is 0 exactly when checksums are off or the field is the checksum of all bytes before it, and -EBADMSG otherwise |
| MpaPlain.PlainOutcome | iwarp/mpa.c:754-787 | and what is read is such a frame, with the payload behind the header, if and only if header, payload, pad and checksum are all there, ddp_get_sink has a buffer and the 32-bit sum does not wrap |
| MpaPlain.SumWraps | iwarp/mpa.c:773-785 | that sum wraps if and only if the length field is too small for its header by one to three bytes, or to seven with a checksum |
| MpaPlain.PlainRoundTrip | iwarp/mpa.c:754-801 | every plain FPDU is read back whole and accepted |
| MpaPlain.BurstRejected | iwarp/mpa.c:789-798 | of two streams whose frames differ only inside four consecutive bytes and carry the same checksum field, the plain reader gives 0 for at most one |
| MpaPlain.FieldResidue | iwarp/mpa.c:521-556 | the bytes of an FPDU with its checksum field behind them, in the order in which they are sent, leave the checksum loop in the state 0xB798B438 |
| WireFormat.BodyBytes | iwarp/mpa.c:521-541 | byte by byte: the length of what follows in the first two bytes, high byte first, the rest of the header, the payload, and zeros up to a multiple of four |
| WireFormat.HeaderBytes | iwarp/ddp.c:133-221 | byte by byte: control bytes with version, TAGGED, LAST and opcode, then tag and address, or queue, message number and offset, each high byte first |
| WireFormat.RequestBytes | iwarp/rdmap.h:62-68 | byte by byte: the read request at the offsets of its struct, low byte first |
| DdpWire.HeaderTrip | iwarp/ddp.h:43-66 | a header read back gives the segment it was made from |
| DdpSink.GetSinkExact | iwarp/ddp.c:247-304 | ddp_get_sink, on any header, gives a buffer if and only if what the header announces fits its tag or queue, or its length field is too small by no more than its offset into them; it is right if and only if that is not so |
| DdpSink.SlipsOnce | iwarp/ddp.c:258-262 | a header for which it is not |
| DdpSink.SinkIsPlace | iwarp/ddp.c:247-304 | on the headers that the DDP layer sends it is Place: the same refusals, the same buffer |
| DdpSink.ReadLocated | iwarp/rdmap.c:307-316 | nor does the wrap matter for the source of a read request |
| DdpWire.PlainDelivers | iwarp/mpa.c:591-604 | the byte stream delivers the segments sent, in order |
| DdpWire.WrongFieldDrops | iwarp/mpa.c:591-604 | with checksums, nothing is handed up from a frame whose field is not the checksum of the bytes before it, nor from anything behind it |
| DdpWire.MarkedLayout | iwarp/mpa.c:591-604 | from a stream that holds the layout of a run with markers everything is taken in; the segments are handed up without checksums and dropped with them |
| DdpWire.MarkedDelivers | iwarp/mpa.c:406-751 | with markers, a run of segments is sent with the right lengths and handed up whole if and only if it is empty, or one segment with a payload, without checksum, whose padded FPDU ends on the marker position |
| Crc32cTable.TableIsShift8 | iwarp/crc32c.c:48-113 | every table entry is eight single-bit divisions of its index by the reflected 0x1EDC6F41 |
| Crc32c.Checksum | iwarp/crc32c.c:119-129 | in network order, the complement of what the bit-serial division leaves that starts from all ones, written out without the table |
| Crc32c.ChecksumVec | iwarp/crc32c.c:131-147 | the same for the concatenation, over any fragmentation |
| Crc32c.UpdateIsSerial | iwarp/crc32c.c:125-126 | one table step is eight bit-serial steps |
| Crc32c.FoldIsSerial | iwarp/crc32c.c:119-129 | the table-driven loop is the bit-serial reflected division on every byte string |
| Crc32c.CrcIsSerial | iwarp/crc32c.c:119-129 | with the ones at both ends: checksum xor 0xFFFFFFFF is the serial division from 0xFFFFFFFF |
| Crc32c.HtonlBytes | iwarp/crc32c.c:128 | the word returned has the checksum's lowest byte highest, and so on |
| Crc32cResidue.Residue | iwarp/crc32c.c:119-147 | any message followed by its own checksum, lowest byte first, leaves the loop in the state 0xB798B438 |
| Crc32cResidue.CheckValue | iwarp/crc32c.c:48-129 | the checksum of the digits 1 to 9 is 0xE3069283 |
| Crc32cBurst.WindowInjective | iwarp/crc32c.c:125-126 | up to 32 bits fed from one state lead to different states unless they are equal |
| Crc32cBurst.BurstDetected | iwarp/crc32c.c:119-129 | messages that differ only inside a window of 32 bits, at any bit position, have different checksums |
| Crc32cBurst.ByteBurstDetected | iwarp/crc32c.c:119-129 | so do messages that differ only inside four consecutive bytes |
| VectorIo.Socket.WriteFull | iwarp/util.c:206-220 | all bytes go out once, in order, whatever the short counts; on an error a prefix |
| VectorIo.Socket.ReadFull | iwarp/util.c:180-200 | all bytes come in, in order, if and only if the stream has them |
| VectorIo.Socket.SkipDone | iwarp/util.c:234-242 | the vector index and offset left by a short count are where the remaining bytes begin |
| VectorIo.Socket.WritevFull | iwarp/util.c:251-279 | for every sequence of short counts and every length given: with the right length the concatenation goes out once and in order; a smaller one sends that many bytes or runs past the vector, a larger one always runs past it |
| VectorIo.Socket.ReadvFull | iwarp/util.c:223-246 | for every sequence of short counts the blocks keep their sizes and are filled, end to end, with the next bytes of the stream, if and only if there are enough |
| VectorIo.OverlayIs | iwarp/util.c:228 | one readv puts its bytes into the blocks from the first one on and leaves the others |
| DdpSegments.CutAt | iwarp/ddp.c:153-174 | the segments are as many as num_sgmnts, follow each other at multiples of the payload limit, and only the final one is LAST |
| DdpSegments.SegmentIs | iwarp/ddp.c:133-221 | field by field: queue, message number and offset, or tag and address, opcode, LAST and bytes of every segment |
| DdpSegments.CutTiles | iwarp/ddp.c:191-219 | their payloads, put together, are the message |
| DdpSegments.NumSegments32Right | iwarp/ddp.c:153-155 | the 32-bit count of segments is their number if and only if message and payload limit together do not exceed 2^32 |
| DdpReassembly.Update | iwarp/ddp.c:330-349 | the search loop and the update after it |
| DdpReassembly.ListsExact | iwarp/ddp.c:306-418 | after any segments in any order the list holds exactly the messages partly received, with what has come of them, and every LAST reports the sum of its message's segments |
| DdpReassembly.OnlyItsOwn | iwarp/ddp.c:306-418 | what is reported for a message depends on its own segments alone |
| DdpReassembly.ReportedOnce | iwarp/ddp.c:306-418 | in any interleaving, a message whose segments arrive in order is reported once, with its exact length, and leaves nothing behind |
| Iwsk.Connection.constructor | iwarp/rdmap.c:116-143 | a registered socket starts with all three message numbers at 1 and empty queues |
| Iwsk.Connection.SendAll | iwarp/ddp.c:153-175 | the sending loop emits exactly the cut of the message |
| Iwsk.Connection.SendUntagged | iwarp/ddp.c:133-178 | and takes the next message number, once per message |
| Iwsk.Connection.SendTagged | iwarp/ddp.c:181-221 | a tagged message of no bytes emits nothing |
| Iwsk.Connection.Send | iwarp/rdmap.c:207-240 | refused without effect if and only if the send queue is full; else its segments are sent, the message number is taken and the completion has the id and the length |
| Iwsk.Connection.RdmaWrite | iwarp/rdmap.c:407-440 | likewise for RDMA Write, which takes no message number |
| Iwsk.Connection.RdmaRead | iwarp/rdmap.c:512-554 | refused if and only if the send queue is full; the read is queued as pending before its request goes out |
| Iwsk.Connection.PostRecv | iwarp/rdmap.c:242-263 | posted at the end of the queue, or refused if and only if the receive queue is full |
| Iwsk.Connection.Place | iwarp/ddp.c:247-304 | succeeds if and only if the oldest posted receive has room or the tag covers the range with the access of the opcode; then just those bytes of memory, or one new read request, change |
| Iwsk.Connection.ProcessUlpdu | iwarp/ddp.c:306-418 | the lists are updated and a LAST completes its message |
| Iwsk.Connection.UntagRecv | iwarp/rdmap.c:271-346 | completes the oldest receive, or serves the oldest read request from memory, if a tag covers its source with the access of the opcode |
| Iwsk.Connection.PopComplete | iwarp/rdmap.c:491-505 | the second loop completes the entries at the front, in order, up to the first pending one |
| Iwsk.Connection.ReapRwr | iwarp/rdmap.c:467-506 | marks every entry with the tag, then completes from the front |
| Iwsk.Connection.TagRecv | iwarp/rdmap.c:443-459 | an RDMA Write needs nothing, a response reaps, anything else ends the process |
| Iwsk.Connection.Receive | iwarp/mpa.c:591-604 | one poll: placement, then processing |
| RdmapPlacement.PlaceExactly | iwarp/ddp.c:247-304 | a segment has somewhere to go if and only if its tag exists, covers the range and has the access flags its opcode asks for, or the oldest receive or a read request has room |
| RdmapPlacement.PlaceWrites | iwarp/mpa.c:777-787 | then the data lies where the header says, every other byte of memory is unchanged, and so is all other state; a read request is padded with zeros |
| RdmapPlacement.ReceiveExactly | iwarp/rdmap.c:271-346 | a poll takes any segment, wherever it comes from, if and only if it may land and, as the last of its message, is a receive, a read request whose source tag exists, covers the range and allows it, an RDMA Write, or the answer to an outstanding read |
| RdmapPlacement.RecvCompletes | iwarp/rdmap.c:285-302 | the last segment of a message to the send queue completes the oldest receive with its id, the operation of its opcode and the length received, or loses the completion on a full queue |
| RdmapPlacement.ReceiveSpares | iwarp/ddp.c:247-304 | whatever segment is polled, a byte in no posted receive and in no tag with write access keeps its value, unless a tagged read request is addressed to it |
| RdmapPlacement.ReadOnlyWritten | iwarp/rdmap.c:348-354 | then it is written, with read access alone |
| RdmapPlacement.CallsRefused | iwarp/rdmap.c:207-263 | sends, writes, reads and posts are refused if and only if their completion queue is full |
| RdmapSpared.MemorySpared | iwarp/ddp.c:247-304 | over any run and whatever the peer does: a byte in no posted receive and in no tag with write access at any poll, and that its user does not store to, ends as it began |
| Rdmap.ReqRoundTrip | iwarp/rdmap.c:522-527 | a read request placed in memory is read back as it was sent |
| Rdmap.MarkComplete | iwarp/rdmap.c:475-481 | the first loop marks all entries with the tag, and says whether there was one |
| RdmapRun.StepKeeps | iwarp/rdmap.c:207-554 | every legal step of either end keeps the invariant of the two ends; only a poll can lose the connection |
| RdmapRun.PollNext | iwarp/mpa.c:591-604 | so does every poll, and it fails if and only if its segment is not welcome |
| RdmapRun.RunKeeps | iwarp/rdmap.c:207-554 | so does every run |
| RdmapRun.Fresh | iwarp/rdmap.c:116-143 | two fresh ends satisfy it |
| RdmapTheorems.SendsTheorem | iwarp/rdmap.c:242-346 | in every run, both ways: receive completion k has the k-th posted id and the k-th sent length, its buffer then holds message k, the completions consumed and waiting are exactly these if and only if none found the queue full, and recv_msn = sink_msn = 1 + messages completed |
| RdmapTheorems.ReadsTheorem | iwarp/rdmap.c:443-554 | in every run, both ways: reads complete once, in issue order, with the length asked for, the sink then holding the bytes the source held when served; the rest wait, in order; the read completions consumed and waiting are exactly these if and only if none found the queue full |
| RdmapCalls.CallsTheorem | iwarp/rdmap.c:207-440 | in every run, both ways: the completions of sends and writes, consumed and waiting, are those of the accepted calls in order, each with its operation, id and length; the messages sent are what the calls asked for, but for writes of no bytes |
| RdmapShown.StepShown | iwarp/rdmap.c:242-506 | at every step of every run: a receive that completes has the message in its buffer, a read that completes has the bytes it was served with at its sink, and a read is served with the bytes at its source |
| RdmapTheorems.NoneDropped | iwarp/cq.c:62-83 | an end whose every post leaves room for the receives posted, and every other call for the reads outstanding, gets every completion of both queues, in every run |
| RdmapQueues.PollReadCount | iwarp/rdmap.c:491-505 | a poll adds as many read completions as there is room for, and counts the others as lost |
| RdmapQueues.RunLeavesRoom | iwarp/rdmap.c:207-554 | posted receives and waiting completions together stay within the receive queue, outstanding reads and waiting completions within the send queue, over every run of careful calls |
| RdmapTheorems.NothingLost | iwarp/rdmap.c:242-554 | once both streams are read to the end every message is received and every read complete |
| RdmapTheorems.PollFailsExactly | iwarp/ddp.c:247-304 | in a run a poll fails if and only if there is no posted receive with room, no tag that covers the range with write access, or none that covers the source of the requested read with read access, each spelled out by the fields of the tag |
| RdmapTheorems.ZeroReadUnanswered | iwarp/ddp.c:191-200 | a served read emits nothing if and only if it asks for no bytes |
| RdmapTags.AnswersItsRead | iwarp/rdmap.c:467-506 | an answer completes its own read and reports what is ready, and nothing else, if and only if it would change no other outstanding read: none has its tag, or is complete with its length already |
| RdmapTags.SharedTagLoses | iwarp/rdmap.c:475-505 | reads that share the tag of the oldest one are completed with its length before any byte of theirs has come, up to the first pending read with another tag, and a later answer for the tag ends the process if and only if none of them is left |
| RdmapTags.HeadBlocks | iwarp/rdmap.c:491-493 | over any sequence of answers, and with room in the completion queue, nothing completes if and only if none is for the oldest pending read |
| RdmapBytes.SegmentsFit | iwarp/ddp.h:43-66 | every segment sent in a run, responses to the peer's reads included, fits the fields of its header, and every message is cut into as many as the 32-bit count says |
| RdmapBytes.BytesTheorem | iwarp/mpa.c:521-604 | in every run, both ways, the plain FPDUs of what has been sent deliver just those segments, one by one: the FIFO of the run is the byte stream |
| RdmapBytes.SinkTheorem | iwarp/ddp.c:247-304 | and ddp_get_sink refuses, of all that is sent in any run and in any state of the receiver, just what the run refuses |
| KernelReads.ReadQueue.PopComplete | kiwarp/rdmap.c:705-722 | on the ring itself, stops when it is full and keeps the rest |
| KernelReads.ReadQueue.Reap | kiwarp/rdmap.c:680-725 | an unknown tag changes nothing; a known one marks and then completes from the front |
| KernelReads.KernelConserves | kiwarp/rdmap.c:680-725 | over any run, completions consumed, completions waiting and reads queued are together the reads submitted, in order |
| KernelReads.CompletionOrder | kiwarp/rdmap.c:673-725 | for answers in any order, with one tag each, the completions are the first reads submitted, in order, each with its own answer's length |
| KernelReads.KernelPopConserves | kiwarp/rdmap.c:705-722 | the loop leaves a pending head, or a full queue with a complete one |
| KernelReads.UserLosesIffFull | iwarp/rdmap.c:491-505 | one user-space loop does the same, and loses reads if and only if the queue lacks room for all that are ready |
| KernelReads.UserIsKernel | iwarp/rdmap.c:467-506 | over a run with room at every answer the two forms do the same |
| KernelReads.UserConserves | iwarp/rdmap.c:467-506 | over any run the user-space form conserves reads, in order, if and only if there was room at every answer |
| KernelReads.UserOrder | iwarp/rdmap.c:460-506 | for answers in any order and any queue size, what it reports is in submission order and each with its own answer's length: all of the first reads, or where room lacked some of them; the others are queued behind a pending head |
| CompletionQueue.Ring.constructor | iwarp/cq.c:24-43 | a new ring is empty and has room for num_cqe - 1 |
| CompletionQueue.Ring.Produce | iwarp/cq.c:72-83 | appends to the queue, or refuses exactly when num_cqe - 1 entries wait |
| CompletionQueue.Ring.Consume | iwarp/cq.c:85-93 | hands out the oldest entry |
| CompletionQueue.CheckedProduce | iwarp/cq.c:62-66 | after cq_isfull said no, the next produce succeeds |
| CompletionQueue.RunRing | iwarp/cq.c:52-93 | any run of calls acts on the ring as on a queue of num_cqe - 1 entries |
| CompletionQueue.Fifo | iwarp/cq.c:72-93 | nothing accepted is lost, doubled or reordered |
| MemRegistry.CompareTags | iwarp/mem.c:67-73 | the subtraction orders tags as numbers if and only if their difference fits 32 bits, as it does for all tags that are not negative |
| MemRegistry.Registry.constructor | iwarp/mem.c:78-81 | an empty registry |
| MemRegistry.Registry.Register | iwarp/mem.c:109-138 | takes the first free slot; only without one does the array grow, by ten slots that are free but for the new one, and then every older handle is stale, those in live descriptors included: tree and lists agree afterwards if and only if there was a slot or no tag was live |
| MemRegistry.GrowNeedsNoTags | iwarp/mem.c:119-131 | when the array moves, tree and lists agree if and only if no tag is live |
| MemRegistry.GrowThenDestroy | iwarp/mem.c:205-216 | after that, destroying any live tag goes through a pointer into the old array |
| MemRegistry.Registry.Deregister | iwarp/mem.c:149-162 | refused for a stale handle or while tags live on the region |
| MemRegistry.DeregisterNeedsNoTags | iwarp/mem.c:149-162 | a valid region can be deregistered if and only if no live tag is on it |
| MemRegistry.Registry.Insert | iwarp/avl.c:200-205 | avl_insert reports a collision exactly when the key is in the tree, and then changes nothing |
| MemRegistry.Registry.StagCreate | iwarp/mem.c:168-203 | the new tag is the first unused one from the counter on, the collision loop ends, the tag is in the tree and at the head of its region's list, and tree and lists still agree if and only if it was refused or the region is valid |
| MemRegistry.CreateNeedsValid | iwarp/mem.c:172-203 | tree and lists still agree if and only if the region is valid |
| MemRegistry.Registry.StagDestroy | iwarp/mem.c:205-226 | removes exactly that tag from the tree, its region's list and memory, or reports that there is none; it meets a stale pointer if and only if the descriptor has one, never while tree and lists agree |
| MemRegistry.Unlink | iwarp/mem.c:213-223 | the list loop unlinks the descriptor and nothing else |
| MemRegistry.Registry.StagLocation | iwarp/mem.c:243-265 | grants a range if and only if a live tag of that number covers it with the access, or off + len wraps around and comes out inside such a tag again; right if and only if the latter is not so; what a tag covers lies in a valid region |
| MemRegistry.Registry.Fini | iwarp/mem.c:83-107 | destroys every tag of every region; the tree is empty before avl_destroy |
| MemRegistry.OneList | iwarp/mem.c:185-188 | no descriptor is on two lists |
| MemRegistry.RunCalls | iwarp/mem.c:109-226 | over any run of calls tree and lists agree up to the first call that moves the array under live tags or creates a tag on an invalid region |
| Stags.GrantedInside | iwarp/mem.c:252-264 | what a grant is for: every byte lies inside the tag and the access is allowed |
| Stags.LocatedExact | iwarp/mem.c:252-264 | the test, with its 64-bit sum, is that if and only if not: access allowed, off in the tag, and off + len at least 2^64 + start |
| KernelPages.PageListed | kiwarp/mem.c:154-156 | every byte of a region lies in a page of its list |
| KernelPages.NoPageTooMany | kiwarp/mem.c:154-156 | and the list holds no page that the region does not touch |
| KernelPages.PieceAt | kiwarp/mem.c:382-404 | pieces follow each other without gap, never cross a page, and use page indexes below npages |
| KernelPages.PiecesCover | kiwarp/mem.c:382-404 | together they have the length of the range |
| KernelPages.PieceCount | kiwarp/mem.c:382-404 | there are exactly as many as pages touched |
| KernelPages.FiveEnough | kiwarp/ddp.c:204-231 | five entries are enough for every start if and only if the length is at most four pages and a byte |
| KernelPages.SegmentTwoPages | kiwarp/ddp.c:201-238 | a segment touches at most two pages |
| KernelPages.GatherIs | kiwarp/ddp.c:219-238 | the pieces hold the bytes of the range |
| KernelPages.Kernel.FillIovec | kiwarp/mem.c:372-406 | fills the vector with those pieces, and overflows if and only if they do not fit; then the pages it had mapped stay mapped |
| KernelPages.Kernel.UnmapIovec | kiwarp/mem.c:411-431 | unmaps exactly what filling mapped |
| KernelPages.MappedOnce | kiwarp/mem.c:382-431 | what is mapped meanwhile is each page that the range touches, once, and no other |
| KernelPages.Kernel.SendUtm | kiwarp/ddp.c:96-170 | emits the cut of the message gathered from its pages and never overflows; when a segment fails to go out, some of it; nothing stays mapped either way |
| KernelPages.Kernel.FillSegment | kiwarp/ddp.c:219-238 | the page loop of one segment |
| KernelPages.Kernel.AllPagesOnce | kiwarp/ddp.c:188-199 | that is each page of the region once |
| KernelPages.Kernel.SendTm | kiwarp/ddp.c:173-251 | the same for tagged messages, with one empty segment for no bytes; the region's pages are mapped before the loop, and all of them stay mapped when a segment fails to go out, none otherwise |
| ListHead.Insert | iwarp/list.h:42-50 | links the entry in after its neighbour; the rest of the circle is unchanged |
| ListHead.Add | iwarp/list.h:60-63 | the entry becomes the first |
| ListHead.AddTail | iwarp/list.h:73-76 | the entry becomes the last |
| ListHead.Del | iwarp/list.h:97-100 | the circle without the entry, which keeps its own pointers |
| ListHead.IsEmpty | iwarp/list.h:139-142 | true exactly when there is no entry |
| ListHead.Splice | iwarp/list.h:163-167 | the entries of one list go, in order, before those of the other |

## Left out

- Sockets, poll, MTU discovery, connection setup and the MPA startup exchange: TCP is a byte sequence or a FIFO of segments.
- Allocation failure and the error paths that end the process: where the code ends the process or gives up a connection the model returns a failure and stops.
- Write errors inside `mpa_send`: covered for one FPDU by `MpaRun.SendMarked` and `MpaPlain.SendPlain`; the protocol runs assume that a segment handed to MPA goes out.
- Aliasing of the static buffers (block vector, header, pad and checksum words) between calls: each call has its own.
- Terminate messages, the `TERM_Q` queue, SEND with invalidate and with solicited event, and error surfacing: incomplete in the code.
- `avl_replace`, `avl_t_replace`, `avl_t_first` and `avl_t_last` as entry points, and copying with a copy or destroy function: thin next to what is modelled; the loops of `avl_t_first` and `avl_t_last` are `Traverser.ToEdge`.
- Wrap-around of the 64-bit tree generation and of the 32-bit tag counter: both counters are unbounded here; the comparison of tags is modelled with its 32-bit subtraction.
- One completion queue shared by two sockets, or by both directions of one, and sockets without completion queues: each end has its own two.
- Segment payload limits below 32 bytes: a read request would be cut, and each piece would get a buffer of its own (`RdmapWorld.GoodConfig`).
- Tags, access and posted buffers of a run follow `RdmapWorld.Legal`: the user leaves memory alone that the peer may be writing to, and keeps tags while a tagged message is coming in.
- Marker mode in the protocol runs: they are over segments, which `RdmapBytes` carries in FPDUs without markers; with markers there is no such run (`DdpWire.MarkedDelivers`).
- Requests for more than 32-bit lengths and tags or 64-bit addresses can hold, and payload limits that leave no room for the header: outside `RdmapBytes.AllInFields` and `RdmapBytes.ShortPdus`.
- What lies behind the block vector when a reader or `writev_full` runs past it, what `readv_full` does with a length short of its vector, and memory that was given back: the model stops there and says so (`Overrun`, `past`, `stale`).
- Addresses handed out again by malloc: a handle into an earlier region array never becomes current again.
- kmap, page pinning, spin locks and the character device: pages are numbers, and a mapping is a count.
- The kernel's own MPA framing, hash tables, socket table, verbs, emulation layers and test programs.
- Iwsk.Connection.Place: it states the test as it is meant, without the wrap-around that `DdpSink.GetSinkExact` is about; and a segment for `TERM_Q` is refused, where the source makes a buffer for the terminate message and prints it; no end in the model sends one.
- Iwsk.Connection.UntagRecv: leaves out the same queue.
- MpaPlain.ReceivePlain: ends where the source goes on with an unset buffer, and where its 32-bit sum wraps.
- MemRegistry.Unlink: the list of descriptors is a sequence, so the rewriting of one next pointer is not modelled; `ListHead` models link surgery on the heap.
