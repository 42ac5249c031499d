# VSOS: page tables, debugger transport and runtime routines

A Dafny model of the parts of the VSOS kernel where the hard invariants are, with proofs about every run or every input.

* **Page tables** (`src/mem`). `Layout` holds the entry bit-fields and the address split. `PagePool` is the page pool as a value: the bool index and one flat array of 64-bit words. `Tables` has the walk, `MapPage`, `MapPages`, `ResolveAddress` and the operations on roots as functions of the pool. `Tree` and `Mapping` carry the invariant (each page is free and zero, or a table of one level at one position) through one `MapPage`. `Ranges` carries it through `MapPages` and counts the pages taken. `Entries` gives every bit of every entry on every walk afterwards. `Roots` does the same for `CreateNew`, `LoadKernelMappings` and `ClearKernelEntries`. `Runs` defines runs over any number of roots. `PageTheorems` and `KernelMaps` hold the guarantees. `PageTablesCode` has the classes with their mutable arrays, each method tied to its function.
* **Debugger transport** (`src/kdCom`). The serial line is a list of events (byte, timeout, line error) followed by timeouts for ever. A call that returns has read finitely many events, so this covers every call that returns. `KdWire` and `KdReceive` give what the code reads and answers, `KdFrames` what one turn does with a frame, and `KdCalls` what a whole call delivers and acknowledges. `KdEnds` says with which status a call ends, read off the line, and that a debugger reads back what a call sent. `KdLine` is the line as frames and other bytes of which a call hears a part, and `KdAligned` the calls that keep in step with its frames. `KdLink` composes calls of every kind with a debugger over such a line and proves the order of deliveries, `KdSkips` when none is skipped. `KdPlain` has the ordinary link, with nothing asked of the payloads. `KdForged` has the exact conditions under which leftovers are taken for packets, `KdQuiet` a condition on the messages that rules this out for calls of every kind, and `KdFailures` the inputs at which the protocol fails. `KdCode` has the loops over a port and two packet ids.
* **Runtime routines**. `Strings` (`itoa`, `strtol`), `Format` (`ksprintn`, the number path of `kvprintf`), `Memory` (`memcpy`, `memmove`), `Lists` (intrusive lists), `RamDrives` (the RAM drive allocator) and `Codec` (CodeView compressed integers). `Notation` holds positional notation for the first two.

How the source is rendered:

* 64-bit words, packet ids and sums are integers with their wrap-around written out; `int` and `long` are 32 bits and wrap in two's complement.
* A failed `Assert` is the outcome `Bugcheck`, since `Bugcheck` does not return. A walk that leaves the pool's own pages is the outcome `Foreign` (or `None` for a read): those tables are reached by identity address and are not held here.
* The current root (`__readcr3`) is a parameter.
* The pool's base is page aligned and it has between 1 and 4095 pages, as its index page and the assert in `Initialize` demand.

What the proofs found about the code:

* `AllocatePage` does not clear a page and `MapPage` trusts zero entries, so free pages must be zero. `DeallocatePage` keeps that exactly when the page it returns is already zero (`PagePool.DeallocateKeepsZeroed`).
* `ResolveAddress` does not test for unused entries. An unused entry of an existing level 1 table resolves to the bare page offset (`Roots.ResolveReads`).
* A page mapped in the upper half through one root appears in another exactly when both share the top entry, so a top entry created after a process copied the kernel's is invisible to it (`PageTheorems.VisibleExactlyWhenShared`).
* `KdReceivePacket` acknowledges a packet of the expected id and the wrong type without delivering it. The debugger moves on and its next message is lost as well (`KdFailures.WrongTypeSkipsTwo`). `KdSkips.AcknowledgedAreDelivered` gives the exact condition under which this never happens, and `KdSkips.OneTypeSkipsNothing` a simple one: one type for all messages and data calls.
* A poll, a call awaiting an acknowledgement, a call with too large a header or without a buffer, and a timeout each leave part of a frame on the line. The next call scans it for leaders, so a payload that holds an encoded packet makes it deliver a message that was never sent (`KdFailures.PollForges`, `KdFailures.AckForges`). `KdForged.ForgedExactly` says exactly when. It cannot happen to data calls with a buffer that hear whole frames, whatever the payloads hold (`KdPlain.PlainRunsDeliver`), nor to any call while no frame holds four equal leader bytes in a row behind its own (`KdQuiet.QuietRunsDeliver`).
* Without a data buffer a packet is accepted exactly when it has no data (`KdFrames.WithoutDataBuffer`), and the checksum no longer catches every change of one byte (`KdFrames.OneByteUndetected`, exact condition in `KdFrames.OneByteExactly`).
* `itoa` writes a sign only in base ten, so reading back fails for the other negative values except the smallest (`Strings.ItoaStrtolRoundTrip`).
* The backward loop of `memmove` counts in 32 bits and is complete exactly for sizes up to 2^31 (`Memory.MemMove`).
* `EncodeSignedInt32` loses exactly the smallest value (`Codec.SignedRoundTrip`).

## Model

| member | source | states |
|---|---|---|
| Layout.TableEntryBits | src/mem/PageTables.cpp:205-217 | every bit of a new table's entry: below bit 12 exactly Present, ReadWrite, User if not global and Accessed where asked, above it the bits of the page |
| Layout.LeafEntryBits | src/mem/PageTables.cpp:255-259 | every bit of a level 1 entry: Present and ReadWrite set, User = not global, Global = global, all others those of the physical address, aligned or not |
| Layout.FieldsAreIndices | src/mem/pagetables.h:214-231 | the bit-fields index1 to index4 are the four indices of the address's slot, whatever the upper 16 bits |
| Layout.PrefixDetermined | src/mem/pagetables.h:214-231 | slots that agree on every index above a level select the same table; at level 0 they are the same slot |
| Layout.BuildAddressRoundTrip | src/mem/PageTables.cpp:264-271 | splitting an address and building it again returns it if and only if it is canonical |
| Layout.BuildAddressSplits | src/mem/PageTables.cpp:264-271 | a built address is canonical and splits into the indices and offset it was built from |
| PagePool.Allocate | src/mem/PageTablesPool.cpp:29-45 | takes the lowest unset page from 1 on and sets only its index entry; fails exactly when all are set |
| PagePool.AllocateTakesOne | src/mem/PageTablesPool.cpp:29-45 | succeeds if and only if a page is free, and then exactly one page fewer is free |
| PagePool.DeallocateUndoesAllocate | src/mem/PageTablesPool.cpp:47-59 | deallocating the page just allocated restores the pool |
| PagePool.DeallocateKeepsZeroed | src/mem/PageTablesPool.cpp:47-59 | after deallocation all free pages are zero if and only if the returned page was |
| PagePool.DeallocateExactly | src/mem/PageTablesPool.cpp:47-59 | succeeds if and only if the address is that of an allocated page, and then marks that page free and changes nothing else |
| Tree.TableTyped | src/mem/PageTables.cpp:192-253 | a walk from a root meets a table of the right level, sitting at the index the walk used |
| Tree.SamePosition | src/mem/PageTables.cpp:192-253 | two walks meeting in a table below the roots agree on all indices above it and share the level 3 table; in the lower half they have the same root |
| Tree.EnsureTableGrows | src/mem/PageTables.cpp:205-217 | one level of MapPage follows an existing link, or links one zero page, or bugchecks exactly when the pool is empty |
| Tree.GrowTyped | src/mem/PageTables.cpp:205-217 | linking a fresh zero page as a table keeps the tree |
| Tree.GrowTable | src/mem/PageTables.cpp:205-250 | linking a new table extends exactly the walks that stopped at that entry, by that table |
| Mapping.EnsureTablesEffect | src/mem/PageTables.cpp:202-250 | creating the tables of a slot bugchecks exactly when fewer pages are free than tables are missing, takes exactly those, and changes no mapping of any root |
| Mapping.LeafPosition | src/mem/PageTables.cpp:252-255 | a level 1 entry belongs to one slot only, in one root and the roots sharing its top table |
| Mapping.MapPageEffect | src/mem/PageTables.cpp:192-262 | MapPage keeps the tree, maps its slot to the frame in this root and the roots sharing its top table, changes no other mapping anywhere, and costs exactly the missing tables |
| Ranges.MapAllEffect | src/mem/PageTables.cpp:44-59 | any list of MapPage calls bugchecks or overlays exactly its pages, later ones winning, and keeps the tree |
| Ranges.MapPagesCost | src/mem/PageTables.cpp:51-58 | with one free page for each table the range meets, MapPages succeeds and takes no more than that |
| Ranges.SpansBound | src/mem/PageTables.cpp:205-250 | a range of n pages meets at most ceil(n/512)+1 + ceil(n/512^2)+1 + ceil(n/512^3)+1 tables |
| Entries.MapPageEntries | src/mem/PageTables.cpp:192-262 | on every walk of every root: entries in use above level 1 stay, those that come into use have exactly Present, ReadWrite, User if not global, Accessed at levels 4 and 3 only, and the address of the walk's next table; the level 1 entry of the slot has Present and ReadWrite set, User = not global, Global = global and all other bits of the physical address; every other level 1 entry stays |
| Entries.MapAllEntries | src/mem/PageTables.cpp:44-59 | the same for any list of pages, the last page of a slot deciding its level 1 entry |
| Roots.CreatedEffect | src/mem/PageTables.cpp:28-31 | a new root maps nothing and every other root maps what it did |
| Roots.UpperEffect | src/mem/PageTables.cpp:93-118 | LoadKernelMappings makes a root map the upper half as the current one, ClearKernelEntries unmaps it, and neither touches the lower half or another root |
| Roots.LoadOwned | src/mem/PageTables.cpp:104-118 | loading kernel mappings into an empty upper half leaves no table unreferenced |
| Roots.ResolveReads | src/mem/PageTables.cpp:61-91 | ResolveAddress gives frame plus offset for a mapped page, the bare offset for an unused entry of an existing level 1 table, and leaves the pool otherwise |
| Roots.ResolveLarge | src/mem/PageTables.cpp:76-83 | an entry with the page-size bit resolves to its own bits from 21 on and the lower ones of the virtual address |
| Runs.ExecuteRun | src/mem/PageTables.cpp:28-118 | every run of CreateNew, LoadKernelMappings and MapPages keeps the tree, all earlier walks and the index page |
| Tables.LaterPagesFail | src/mem/PageTables.cpp:51-58 | once a page of a list fails, mapping the whole list has that outcome |
| PageTheorems.ReachedIsWellFormed | src/mem/PageTablesPool.cpp:21-27 | every configuration reached from an initialized, zeroed pool is well formed |
| PageTheorems.AllocatedIsReachable | src/mem/PageTablesPool.cpp:29-45 | in every run the pages marked allocated are exactly the tables reachable from the roots, and page 0 is never written as a table |
| PageTheorems.OneReference | src/mem/PageTables.cpp:192-262 | no table is met at two levels or at two positions; it is referenced by one entry, except that level 3 tables of the upper half may be shared by several roots once kernel mappings were copied |
| PageTheorems.RangeContents | src/mem/PageTables.cpp:51-56 | a range of at most 2^36 pages gives the slot of its page i the frame of its page i, for every i, and touches no other slot |
| PageTheorems.MapPagesResolves | src/mem/PageTables.cpp:44-91 | after MapPages of an aligned range, byte v+d resolves to p+d for every d in the range |
| PageTheorems.MapPagesFrame | src/mem/PageTables.cpp:44-91 | in every root, every canonical address outside a canonical range is mapped as before, resolves as before if it was mapped, and stays unmapped if it was not |
| PageTheorems.MapPagesEntries | src/mem/PageTables.cpp:44-59 | after MapPages on a well-formed configuration, for every root and slot: the level 1 entry of page i of the range is present and writable, user or global as asked, and otherwise the physical address of page i; the entries above it are those that were there or have exactly the bits of a new table; every other level 1 entry is as it was |
| PageTheorems.MapPagesWithinBudget | src/mem/PageTables.cpp:51-58 | with the closed bound of pages free MapPages returns true and takes at most that many |
| PageTheorems.LowerHalfIsPrivate | src/mem/PageTables.cpp:192-262 | mapping through one root never changes a lower-half mapping of another |
| PageTheorems.KernelMappingsStayShared | src/mem/PageTables.cpp:104-118 | after a process copies the kernel's top entries, both roots map every page under an entry present at the copy alike, after any later run |
| PageTheorems.SpawnAgrees | src/kernel/proc/UProc.cpp:27-28 | right after the copy both roots agree on the whole upper half and the new lower half is empty |
| PageTheorems.VisibleExactlyWhenShared | src/mem/PageTables.cpp:104-118 | a page mapped through one root shows in another exactly when they share the top entry |
| PageTheorems.UserAccessFollowsHalf | src/mem/PageTables.cpp:205-259 | if every range had the global flag of its half, the mapped pages whose whole walk has the User bit are exactly those of the lower half (section 4.6 of Intel SDM Vol. 3A) |
| KernelMaps.RequestShape | src/kernel/Kernel.cpp:401-413 | a request in an aligned upper-half window that does not pass 2^64 asks for an aligned range that covers every requested byte and has no page too many |
| KernelMaps.RequestsAgree | src/kernel/Kernel.cpp:401-413 | requests in one window, overlapping or not, write no other frame into each other's slots |
| KernelMaps.RunKeepsSlot | src/kernel/Kernel.cpp:401-413 | a mapped slot stays mapped as it is, in every root, through every run that writes no other frame into it |
| KernelMaps.PointersStayValid | src/kernel/Kernel.cpp:401-413 | every byte behind a returned pointer resolves to the requested byte, in the requesting root and every root sharing its top entry, after any later requests, process creations and mappings that write no other frame into the request's own slots |
| KernelMaps.AllPointersStayValid | src/kernel/Kernel.cpp:401-413 | in every run of requests in one window, with roots created and copied between them, every pointer ever returned still resolves over its whole length in every root sharing the requester's top entry |
| PageTablesCode.PageTablesPool.Initialize | src/mem/PageTablesPool.cpp:21-27 | clears the index page and leaves the words alone |
| PageTablesCode.PageTablesPool.AllocatePage | src/mem/PageTablesPool.cpp:29-45 | takes the lowest free page and returns its address, or changes nothing |
| PageTablesCode.PageTablesPool.DeallocatePage | src/mem/PageTablesPool.cpp:47-59 | clears one index entry, or bugchecks for an address that is unaligned, outside the pool or not allocated |
| PageTablesCode.PageTablesPool.EntryWord | src/mem/PageTablesPool.cpp:62-71 | entry i of the table at a pool address, seen through GetVirtualAddress, is word i of that page |
| PageTablesCode.PageTables.CreateNew | src/mem/PageTables.cpp:28-31 | the root becomes the page allocated |
| PageTablesCode.PageTables.ReadEntry | src/mem/PageTables.cpp:202-203 | reads the entry of the table at a pool address |
| PageTablesCode.PageTables.WriteEntry | src/mem/PageTables.cpp:252-259 | changes one entry of one table and nothing else |
| PageTablesCode.PageTables.EnsureTable | src/mem/PageTables.cpp:205-219 | one level of MapPage does what its function says to the words and the index |
| PageTablesCode.PageTables.MapPage | src/mem/PageTables.cpp:192-262 | the words and the index become those of the function, or it bugchecks when the function does |
| PageTablesCode.PageTables.MapPages | src/mem/PageTables.cpp:44-59 | the loop does what its function says and returns true whenever it returns |
| PageTablesCode.PageTables.ResolveAddress | src/mem/PageTables.cpp:61-91 | reads what its function says, large pages included |
| PageTablesCode.PageTables.ClearKernelEntries | src/mem/PageTables.cpp:93-103 | zeroes the upper half of the root and nothing else; with a root outside the pool the pool is unchanged |
| PageTablesCode.PageTables.LoadKernelMappings | src/mem/PageTables.cpp:104-118 | the upper half of the root becomes that of the current root, in the pool or outside it, and nothing else changes; with a root outside the pool the pool is unchanged |
| PageTablesCode.MapPhysicalMemory | src/kernel/Kernel.cpp:401-413 | makes the MapPages call of the request and returns its pointer, or bugchecks |
| KdWire.ScanIsFirst | src/kdCom/kdserial.cpp:77-151 | the synchroniser stops at the first point ending four equal leader bytes of the call, or at the first timeout, with RESEND exactly when a break-in byte came right before it |
| KdWire.TakeStarts | src/kdCom/kdserial.cpp:45-66 | bytes that come next on the line are received whole |
| KdWire.TakenStarts | src/kdCom/kdserial.cpp:45-66 | whatever was received were the next bytes on the line |
| KdWire.ValueOfLittle | src/kdCom/kddll.cpp:111-150 | a header field read back from its little-endian bytes is the value sent |
| KdWire.LittleOfValue | src/kdCom/kddll.cpp:111-150 | the little-endian bytes of a received field are the bytes received |
| KdWire.LittleAt | src/kdCom/kddll.cpp:111-150 | byte i of a field has weight 256^i |
| KdWire.CalculateChecksum | src/kdCom/kddll.cpp:23-37 | the loop returns the sum of the bytes modulo 2^32 |
| KdWire.SumUpdate | src/kdCom/kddll.cpp:23-37 | changing one byte changes the sum by the difference |
| KdReceive.ChecksumExact | src/kdCom/kddll.cpp:232-262 | for at most 4000 payload bytes header sum plus data sum is the natural sum of all of them |
| KdFrames.DataTurnReply | src/kdCom/kddll.cpp:193-285 | after the header fields a data call sends an acknowledgement exactly when the count fits and payload, trailer and checksum check as far as the call reads, else a resend request |
| KdFrames.OneReplyPerFrame | src/kdCom/kddll.cpp:96-305 | in every call but a poll, every data-leader frame whose header fields arrive causes exactly one control packet, an acknowledgement with its id if and only if the caller does not await one and everything it reads checks |
| KdFrames.AcknowledgedIsPacket | src/kdCom/kddll.cpp:96-285 | what a data call acknowledges is exactly a packet whose count fits and whose bytes, as many as the call reads, match the announced checksum and end in the trailer |
| KdFrames.AcknowledgedIsEncoded | src/kdCom/kddll.cpp:96-285 | with a data buffer the acknowledged frames are exactly the encodings of packets that fit the call |
| KdFrames.FrameTurn | src/kdCom/kddll.cpp:193-305 | what every call but a poll does with a frame: awaiting an acknowledgement or a larger header it leaves the payload on the line, else it reads what it has buffers for and one byte, and acknowledges or delivers accordingly |
| KdFrames.FrameAnswer | src/kdCom/kddll.cpp:202-285 | a data call acknowledges a frame that fits, intact or garbled, exactly when trailer and sum are right as far as it reads, and else asks for a resend; an intact one exactly when a buffer was supplied or there is no data, with a buffer a garbled one never |
| KdFrames.GoodIsEncoded | src/kdCom/kddll.cpp:202-282 | an intact frame is the encoding of its packet |
| KdFrames.OneByteRefused | src/kdCom/kddll.cpp:202-282 | an intact frame with one payload byte changed makes every data call that reads the whole payload ask for a resend and go on behind the frame |
| KdFrames.OneByteUndetected | src/kdCom/kddll.cpp:239-301 | the failing input: without a data buffer a frame with a zero byte changed to the trailer byte is delivered |
| KdFrames.OneByteExactly | src/kdCom/kddll.cpp:202-282 | every change of one payload byte of every intact frame that fits is refused if and only if the call supplies a data buffer or a header as large as the largest packet |
| KdFrames.WithoutDataBuffer | src/kdCom/kddll.cpp:239-273 | without a data buffer a well-formed packet is acknowledged if and only if it has no data |
| KdCalls.ReceiveDelivers | src/kdCom/kddll.cpp:76-308 | for every kind of call and every line: a delivery is the payload of a packet of the awaited type and expected id that just ended on the line, acknowledged last; any other call leaves the expected id alone unless it read a reset |
| KdCalls.AcknowledgedStands | src/kdCom/kddll.cpp:284-285 | every acknowledgement a call sends is for a packet on the line that it looked at and accepts |
| KdCalls.AcknowledgedExactly | src/kdCom/kddll.cpp:284-285 | the ids a call acknowledges are exactly those of the packets it looks at and accepts |
| KdCalls.LookedAtIsAnswered | src/kdCom/kddll.cpp:284-304 | a packet a call looks at and accepts is acknowledged, and delivered whole if it has the expected id and the awaited type, the call ending right behind it |
| KdCalls.CallGoesOn | src/kdCom/kddll.cpp:96-305 | behind a frame that does not end it, a call of any kind answers and goes on exactly as a new call would |
| KdEnds.PollAnswers | src/kdCom/kddll.cpp:90-94 | a poll answers RECEIVED if and only if the next event is the byte 0x62, else TIMEOUT; it takes one event and changes neither ids nor output nor break-in flag |
| KdEnds.SilenceEnds | src/kdCom/kddll.cpp:98-108 | a call that hears silence before a leader ends there, with RESEND and the break-in flag raised if and only if a break-in byte came right before, else with TIMEOUT |
| KdEnds.CutShort | src/kdCom/kddll.cpp:110-155 | a call cut short at any byte of the header fields ends there with RESEND after a line error and TIMEOUT after silence, and nothing else happens |
| KdEnds.TakeCut | src/kdCom/kdserial.cpp:45-66 | a buffer stops behind the first event that is no byte, with its status and the bytes before it |
| KdEnds.ResendEnds | src/kdCom/kddll.cpp:118-123 | a resend request ends every such call with RESEND right behind its type field |
| KdEnds.ControlAnswers | src/kdCom/kddll.cpp:157-191 | a reset restores both ids, is answered and ends the call with RESEND; the acknowledgement of the current id without its sync bit ends a call awaiting one with RECEIVED and flips that id; every other control packet is passed over |
| KdEnds.DataForAcknowledgement | src/kdCom/kddll.cpp:193-200 | a data packet's header ends a call awaiting an acknowledgement with RECEIVED and a flipped id, is answered by a resend request, and its payload stays on the line |
| KdEnds.MisfitRefused | src/kdCom/kddll.cpp:205-214 | a packet shorter than the header buffer or longer than 4000 bytes gets a resend request and the call goes on behind its header as a new one would |
| KdEnds.PayloadCut | src/kdCom/kddll.cpp:216-273 | a packet cut short at any byte of header, data or trailer gets a resend request and the call goes on behind the event that cut it |
| KdEnds.FlipLowBits | src/kdCom/kddll.cpp:168 | flipping an id changes its lowest bit and no other |
| KdEnds.WithoutSyncBits | src/kdCom/kddll.cpp:165 | dropping the sync bit clears bit 11 and no other |
| KdEnds.ControlReadsBack | src/kdCom/kddll.cpp:39-54 | a receiver that reads leader, type, byte count, id and checksum gets back the control packet from its sixteen bytes, with count and checksum zero |
| KdEnds.WireReadsBack | src/kdCom/kddll.cpp:39-54 | reading as many control packets as were sent returns the list and consumes exactly its bytes |
| KdEnds.AnswersReadBack | src/kdCom/kddll.cpp:39-308 | whatever a call hears, the bytes it sends read back as exactly its acknowledgements, resend requests and resets, in order |
| KdLine.PacketIsFrame | src/kdCom/kddll.cpp:202-301 | a packet that a call accepts and that stands where an intact frame starts is that frame, and behind it the chunks after it are left |
| KdAligned.AlignedIsGenuine | src/kdCom/kddll.cpp:96-305 | a call that starts at a frame and reads frames whole, with line errors, other bytes and control packets but no reset between them and silence behind any, accepts nothing but intact frames, whatever the payloads hold |
| KdLink.DeliveredInOrder | src/kdCom/kddll.cpp:76-308 | over lines that lose, repeat and corrupt frames and carry any other bytes, with calls of every kind, timeouts and line errors, a run delivers whole messages in order and none twice if, at each call, the packet it could deliver of those it looks at is an intact frame, and none is a reset |
| KdLink.SafeIsSound | src/kdCom/kddll.cpp:76-308 | that holds of every run each of whose calls keeps in step with the frames, or finds on the whole line before it nothing it could deliver but intact frames, and no reset |
| KdSkips.NothingSkipped | src/kdCom/kddll.cpp:284-301 | if all that calls look at and accept is intact frames, none reads a reset, and each such frame with the expected id has the type the call awaits, the deliveries are a prefix of the messages and the debugger never moves past an undelivered one |
| KdSkips.AcknowledgedAreDelivered | src/kdCom/kddll.cpp:284-304 | throughout such a run the answers on their way never take the debugger past an undelivered message if and only if each intact frame with the expected id that a call looks at and accepts has the type it awaits |
| KdSkips.FairIsCandid | src/kdCom/kddll.cpp:76-308 | calls that keep in step with the frames, or before which nothing on the line but intact frames is acceptable and no reset stands, accept only intact frames |
| KdSkips.FairRunsDeliver | src/kdCom/kddll.cpp:76-308 | runs of such calls deliver in order, and skip none if and only if the expected frames have the awaited types |
| KdSkips.OneTypeIsAwaited | src/kdCom/kddll.cpp:287-301 | if all messages have one type and every data call awaits it, every expected frame has the awaited type |
| KdSkips.OneTypeSkipsNothing | src/kdCom/kddll.cpp:287-301 | so then nothing is skipped: the deliveries are a prefix of the messages, at most one ahead of the debugger |
| KdPlain.PlainRunsDeliver | src/kdCom/kddll.cpp:76-308 | with data calls that have a buffer and hear whole frames, over lines that lose, repeat and garble whole frames, for all payloads: deliveries are in order, and none is skipped if and only if the expected frames have the awaited types |
| KdForged.ForgedExactly | src/kdCom/kddll.cpp:76-308 | whatever was read of the line before, a call delivers only payloads of intact frames if and only if nothing else on the line is a packet it accepts, of the awaited type and expected id |
| KdForged.GenuineExactly | src/kdCom/kddll.cpp:76-308 | where it is on the line, a call delivers only the payload of an intact frame if and only if the packet of the awaited type and expected id that it looks at and accepts, if any, is one |
| KdForged.ForgedRun | src/kdCom/kddll.cpp:90-94 | on any other line a run of polls and one such call delivers what is no intact frame |
| KdForged.PollsRead | src/kdCom/kddll.cpp:90-94 | polls can read away any part of the line, a byte each, and change nothing else |
| KdForged.ResetExactly | src/kdCom/kddll.cpp:157-184 | whatever was read of the line before, a call resets no ids if and only if no reset packet stands anywhere on the line |
| KdQuiet.QuietIsFair | src/kdCom/kdserial.cpp:77-151 | if neither frames nor other bytes put on the line hold four equal leader bytes in a row, but at the start of a frame or of a control packet that is no reset, no call of any kind finds anything acceptable but intact frames |
| KdQuiet.AnswersAreQuiet | src/kdCom/kddll.cpp:39-54 | the acknowledgements and resend requests a debugger sends are such control packets |
| KdQuiet.QuietRunsDeliver | src/kdCom/kddll.cpp:76-308 | so on such lines, with calls of every kind, deliveries are in order, and none is skipped if and only if the expected frames have the awaited types |
| KdFailures.AckForges | src/kdCom/kddll.cpp:193-200 | after a call awaiting an acknowledgement met a frame whose payload is an encoded packet, the next call delivers that packet, which was never sent as a message |
| KdFailures.PollForges | src/kdCom/kddll.cpp:90-94 | the same after a single break-in poll |
| KdFailures.ResetRedelivers | src/kdCom/kddll.cpp:174-184 | after a reset a message whose acknowledgement the debugger has not seen is delivered twice |
| KdFailures.WrongTypeSkipsTwo | src/kdCom/kddll.cpp:284-304 | a call awaiting another type makes the debugger lose that message and the next |
| KdCode.KdTransport.ReceiveBuffer | src/kdCom/kdserial.cpp:45-66 | the loop returns the bytes, status and position of the line function |
| KdCode.KdTransport.ReceivePacketLeader | src/kdCom/kdserial.cpp:77-151 | the index and buffer loop stops where and as the first-match search does |
| KdCode.KdTransport.SendControlPacket | src/kdCom/kddll.cpp:39-54 | appends the 16 bytes of the control packet to the output |
| KdCode.KdTransport.constructor | src/kdCom/kddll.cpp:9-10 | the two packet ids start as declared |
| KdCode.KdTransport.ReceiveByte | src/kdCom/kdcom.cpp:123-143 | takes one event and reports it as byte, timeout or resend |
| KdCode.KdTransport.SendBuffer | src/kdCom/kdserial.cpp:23-35 | the loop appends the buffer to the output |
| KdCode.KdTransport.HandleControl | src/kdCom/kddll.cpp:157-191 | ids and output become those of the control turn, fall-through of the reset included |
| KdCode.KdTransport.ReceiveTurn | src/kdCom/kddll.cpp:98-304 | one pass of the loop does what the turn function says |
| KdCode.KdTransport.ReceiveLoop | src/kdCom/kddll.cpp:96-305 | the loop does what the call function says and ends |
| KdCode.KdTransport.HandleData | src/kdCom/kddll.cpp:193-304 | position, ids, output and mail become those of the data turn |
| KdCode.KdTransport.ReceivePacket | src/kdCom/kddll.cpp:76-308 | status, position, ids, break-in flag, output and mail become those of the call function, and the call returns; a poll answers RECEIVED exactly to the byte 0x62 and changes only the position |
| Notation.DigitsEval | src/core_crt/stdio.c:74-87 | the digits of a number evaluate to it and have no leading zero except for zero |
| Notation.DigitsLength | src/core_crt/stdio.c:12-14 | a number below base^k has at most k digits |
| Strings.MirrorAt | src/core_crt/string.c:287 | entry 35 + r of the mirrored table is the digit of the absolute value of r |
| Strings.SkipWhite | src/core_crt/string.c:313-315 | the loop stops behind the leading blanks and tabs |
| Strings.ReadPrefix | src/core_crt/string.c:324-333 | skips the base prefix and gives the base of the digits as the specification says |
| Strings.ScanDigits | src/core_crt/string.c:337-357 | the loop takes the longest run of digits of the base and wraps its value to 32 bits |
| Strings.TextFits | src/core_crt/string.c:264-300 | 34 characters hold the text of every value in every base, terminator included |
| Strings.WriteDigits | src/core_crt/string.c:282-289 | the mirrored table and truncating division write the digits of the absolute value backwards, also for the smallest int |
| Strings.ReverseInPlace | src/core_crt/string.c:291-298 | the swap loop reverses the segment and touches nothing else |
| Strings.Itoa | src/core_crt/string.c:264-300 | the buffer holds the text and a terminator and is unchanged behind it |
| Strings.ParseLong | src/core_crt/string.c:307-363 | the scan returns the value and end position of the specification: blanks, sign, prefix, longest digit run, 32-bit value |
| Strings.StrtolOfParts | src/core_crt/string.c:307-363 | a text made of blanks, an optional sign, the prefix of a base, digits and a rest gives sign times the digits' value in the announced base, wrapped to 32 bits, and the position right behind the digits |
| Strings.EveryTextHasParts | src/core_crt/string.c:307-363 | every text with every base argument is made of such parts |
| Strings.StrtolOfText | src/core_crt/string.c:264-363 | reading back what itoa wrote consumes it all and gives the value, or the wrapped absolute value where no sign was written |
| Strings.ItoaStrtolRoundTrip | src/core_crt/string.c:264-363 | the round trip holds if and only if the value is not negative, the base is ten or the value is the smallest int |
| Format.Ksprintn | src/core_crt/stdio.c:74-87 | at most 64 digits, backwards behind a terminator, equal to the cased digits of the number |
| Format.NumberFits | src/core_crt/stdio.c:12-14 | a 64-bit number has at most 64 digits in every base, so the buffer is large enough |
| Format.Pad | src/core_crt/stdio.c:395-397 | a padding loop emits and counts its character that many times, none for a negative number |
| Format.EmitLead | src/core_crt/stdio.c:398-408 | emits and counts the sign and the base prefix |
| Format.EmitBackwards | src/core_crt/stdio.c:412-413 | walking down to the terminator emits and counts the digits in reading order |
| Format.EmitNumber | src/core_crt/stdio.c:368-440 | emits the specified text and counts each of its characters |
| Format.NumberLength | src/core_crt/stdio.c:388-411 | the text has max(width, sign + prefix + digits) characters, where the digits are at least as many as the precision, or as the width leaves when padding with zeroes |
| Format.NumberReads | src/core_crt/stdio.c:398-413 | padding zeroes and digits evaluate to the magnitude in either case, without a leading zero of the digits' own |
| Format.TextReadsBack | src/core_crt/stdio.c:368-440 | blanks stand only in front, or only behind when adjusted to the left; between them come a minus sign exactly for a negative number, 0 or 0x exactly for a number that is not zero with the flag in base 8 or 16, and as many digits of the base as asked for, in the case asked for; sign and digits give back the number passed |
| Memory.MemCpy | src/core_crt/string.c:41-63 | for every overlap the exact bytes word-wise copying leaves, and none outside the destination changes; it is a move unless the destination starts inside the source |
| Memory.CopiedRepeats | src/core_crt/string.c:41-63 | a destination eight bytes or more inside the source receives the bytes before it over and over |
| Memory.MemMove | src/core_crt/string.c:65-100 | for every overlap the destination gets the old source bytes and nothing else changes; backwards, for as many bytes as the 32-bit counter reaches |
| Memory.BackwardCount | src/core_crt/string.c:94-97 | the backward loop copies the whole size if and only if it is at most 2^31 |
| Lists.ListRemoveEntry | src/OS.List.h:23-29 | the ring closes around the entry without knowing its head |
| Lists.ListInsertHead | src/OS.List.h:38-45 | the entry comes first, in both directions |
| Lists.ListInsertTail | src/OS.List.h:47-54 | the entry comes last, in both directions |
| Lists.ListRemoveHead | src/OS.List.h:31-36 | unlinks and returns the first entry; an empty list returns its head and stays empty |
| Lists.ListIsEmpty | src/OS.List.h:18-21 | true exactly for a ring of the head alone |
| Lists.ListInitializeHead | src/OS.List.h:13-16 | the head becomes a ring of itself |
| Lists.ListSpace.InitializeHead | src/OS.List.h:13-16 | adds an empty list and all others keep their rings |
| Lists.ListSpace.IsEmpty | src/OS.List.h:18-21 | true exactly if the list has no entries |
| Lists.ListSpace.InsertHead | src/OS.List.h:38-45 | with any number of lists, this one gains the entry in front and all others keep their rings |
| Lists.ListSpace.InsertTail | src/OS.List.h:47-54 | this list gains the entry at the end and all others keep their rings |
| Lists.ListSpace.RemoveEntry | src/OS.List.h:23-29 | the list of the entry loses exactly it and all others keep their rings |
| Lists.ListSpace.RemoveHead | src/OS.List.h:31-36 | the list loses its first entry, if any, and all others keep their rings |
| RamDrives.SameNamePadded | src/RamDrive.cpp:43-74 | comparing any string with a field written without terminator over zeroes is equality with the name written |
| RamDrives.RangesDisjoint | src/RamDrive.cpp:34-50 | every allocation ends, in bytes, before each later one starts, and none starts before the end of the superblock's page |
| RamDrives.NoPageWasted | src/RamDrive.cpp:47-48 | the first allocation starts at page 1 and each next one less than a page behind the end of the one before |
| RamDrives.FilesAreNames | src/RamDrive.cpp:34-80 | the stored names are distinct and are exactly the names requested |
| RamDrives.OpenAfter | src/RamDrive.cpp:34-62 | an allocation makes its own name open to the new range and changes no other file |
| RamDrives.FileCountIsNames | src/RamDrive.cpp:21-32 | the number of files is the number of distinct names requested |
| RamDrives.OpenGivesLatest | src/RamDrive.cpp:34-62 | opening a name gives the page and length of its latest allocation while page numbers fit 32 bits |
| RamDrives.RamDrive.GetFileIndex | src/RamDrive.cpp:65-80 | for any string finds the file, the next slot, or -1 when all 128 are taken |
| RamDrives.RamDrive.constructor | src/RamDrive.cpp:6-13 | the watermark starts at page 1 |
| RamDrives.RamDrive.FileCount | src/RamDrive.cpp:21-32 | the number of files |
| RamDrives.RamDrive.Allocate | src/RamDrive.cpp:34-50 | the superblock holds the new file list, the address is the old watermark's, and the new watermark is the first page boundary at or behind the end of the allocated bytes |
| RamDrives.RamDrive.Open | src/RamDrive.cpp:52-62 | for any string gives the address and length stored under the name, or reports that there is none |
| RamDrives.RamDrive.Clear | src/RamDrive.cpp:15-19 | no files are left and the watermark stays |
| Codec.CompressData | ext/coreclr/cvinfo.h:4887-4913 | writes exactly the compressed bytes, or returns -1 and writes nothing above 0x1FFFFFFF |
| Codec.CompressedLayout | ext/coreclr/cvinfo.h:4887-4913 | the bytes are the value, most significant first, under the bits that tell the length, and as few as hold it |
| Codec.UncompressedLayout | ext/coreclr/cvinfo.h:4927-4953 | reading takes the bytes the first one announces, most significant first, without the length bits; a first byte from 0xE0 on gives all ones and is not consumed |
| Codec.UncompressCompressed | ext/coreclr/cvinfo.h:4927-4953 | a compressed value is read back from anywhere in a stream and the reader stops right behind it |
| Codec.StreamRoundTrip | ext/coreclr/cvinfo.h:4887-4953 | reading as many values as were written returns the list and consumes exactly its bytes |
| Codec.SignedRoundTrip | ext/coreclr/cvinfo.h:4960-4984 | decoding an encoded signed value returns it if and only if it is not the smallest |
| Codec.SignedLayout | ext/coreclr/cvinfo.h:4960-4971 | the lowest bit of an encoding is the sign and the others the magnitude, which only the smallest value loses |
| Codec.SignedStreamRoundTrip | ext/coreclr/cvinfo.h:4887-4984 | a list of signed values written one behind the other is read back, with exactly its bytes consumed, if and only if no magnitude is above 0x0FFFFFFF |

## Left out

- UART register access and timing (`src/kdCom/cport.cpp`): replaced by the event list.
- The debugger's own code and `KdSendPacket`, which is empty: the debugger is an environment process in `KdLink`.
- KdLink.DeliveredInOrder: calls that read a reset packet are ruled out, since after one a message can be delivered twice (`KdFailures.ResetRedelivers`); the debugger restarting its own numbering is not modelled.
- Buffer capacity of `KdReceivePacket`: the caller's data buffer is taken to be large enough for 4000 bytes.
- Tables built by the firmware, large pages in `MapPage`, and the TLB: runs start from an empty pool.
- `ClearKernelEntries` and `DeallocatePage` inside runs: the first is called once, by the loader on the firmware's tables, and the second has no caller; each has its own results.
- The pool's contents after a bugcheck, since the kernel does not go on.
- PageTablesCode.PageTables.ClearKernelEntries: does not say what happens to the words of a root outside the pool, which are not held here.
- PageTablesCode.PageTables.LoadKernelMappings: likewise of the words of a root outside the pool; the words of a current root outside it are a parameter.
- PageTablesCode.PageTablesPool.EntryWord: is about addresses of the pool; below its base the source uses the address itself, which is a word not held here.
- PageTablesCode.PageTables.ReadEntry: is about tables of the pool; its callers report a table outside it as Foreign or None.
- PageTablesCode.PageTables.WriteEntry: is about tables of the pool, for the same reason.
- PageTablesCode.PageTables.EnsureTable: is about tables of the pool; MapPage reports a root or an entry outside it as Foreign.
- KernelMaps.PointersStayValid: the window is aligned and in the upper half, as the default window is, and the request does not pass 2^64.
- PageTheorems.MapPagesFrame: says nothing about what `ResolveAddress` gives for addresses that were not mapped, since a new table changes that.
- Signed overflow in `strtol` and `itoa`, and of printf widths: taken as two's complement wrap-around, or as not occurring for widths.
- Reads of `CVUncompressData` past the end of its data: given as no result.
- `Display`, `DisplayRoot` and all tracing: output only.
- Overlap of the index page with words of page 0: the index is a separate array; that no table write touches page 0 is proved.
- `kvprintf` outside its number path: the other conversions copy a character or a string, `%b` appends bit names to the number, and the rest picks arguments off a variable list.
- The wide-character formatter: the same algorithm as `kvprintf` on another character type.
- `memcmp`: compares eight bytes at a time as little-endian words, so its sign is not that of the first differing byte; only equality would be left to state, which one loop invariant gives.
- `strstr`: its loop advances a copy of the pointer it tests, so it finds a match at the very start or does not end (on an empty string it returns null).
- RamDrives.RamDrive.Allocate: a new name with all 128 entries taken writes outside the superblock in the source; the precondition rules it out. It also rules out names of 20 or more bytes, which overwrite the page number, and the empty name, which reads as a free entry.
