# AmaterasuOS kernel components, modelled and proved

A Dafny model of the stateful parts of the AmaterasuOS kernel, with proofs of what they promise.
`dafny verify dfyconfig.toml` checks the whole project.

Each component comes in two layers. The first is a value-level description of what each operation
computes, together with the theorems about it: invariants over every run, refinements, round trips.
The second is the component as it runs: classes whose fields and arrays are updated in place, and loops
where the kernel has loops. Each of its methods is proved to compute what the first layer says.

| files | component |
|---|---|
| `SlabHeap`, `SlabSafety`, `SlabRuns`, `SlabAllocator` | slab and bump allocator; memory is a map of 8-byte words, and the freelists are threaded through it |
| `ProducerRing`, `RingBatches`, `EventRing`, `XhciDriver` | xHCI command, transfer and event rings with the controller as the other party |
| `KeyboardPoll`, `ControlTransfers`, `CommandRing`, `TrbFields` | the three rings in use: the keyboard's interrupt endpoint under the timer poll, a device's EP0, and the command ring under enumeration; what the TRBs on them say |
| `SlotEnumeration`, `DescriptorScan` | device slots handed out and given back during port enumeration; the search for the keyboard's endpoint |
| `Paths`, `DirTree`, `Listing`, `Readdir`, `Ustar`, `UstarFields`, `Utf8Scalars`, `ArchiveRoundTrip`, `Vfs` | ustar parser and its fields, directory tree, listings, path lookup, and a writer for the round trip |
| `Console`, `CursorMoves`, `Paper`, `Framebuffer` | text console: a character grid, its cursor, the text printed on it, and the bytes that show it |
| `KeyRing`, `HidReports`, `HidBytes`, `ByteBits` | the interrupt-to-main-loop key ring, press detection on boot keyboard reports, and the bytes the presses send |
| `LineEditor`, `ShellState` | line editor and history |
| `EditDistance`, `Lexer`, `WorkingDir` | suggestions, the two lexers, path normalization and `cd` |
| `Arith`, `Wrappers` | multiplication and remainder facts; the option type |

## Where the code falls short of its promise

Each of these is proved, with the exact condition under which the promise holds.

- Alignment rounding in the allocator (kernel/src/allocator.rs:70, kernel/src/allocator.rs:174-176) can run past
  the end of the address space. A build with overflow checks stops there. Without them the rounded start is 0, the
  caller gets null, and the bump pointer is left below the heap. `SlabRuns.AllocSafeIff` says allocation is safe
  exactly when that does not happen; `SlabRuns.WrapExample` is a heap and a request for which it does.
- A producer ring of N slots holds N - 1 TRBs, but the last of them may only be pushed once the controller has
  followed the Link TRB. A push beyond that restamps the Link under a parked controller, or overwrites a TRB it has
  yet to fetch; either way it idles at the next look, and at every look during a further lap of pushes, although the
  ring is full. With room it reaches the oldest TRB in two looks: `ProducerRing.SubmitSafeIff`,
  `ProducerRing.StallLasts`.
- The second Address Device command (hal/src/xhci.rs:924-931) uses the input context of the first, which names the
  base of the EP0 ring as dequeue pointer (hal/src/xhci.rs:588-589). Loading it (xHCI 1.2 section 4.6.5) takes the
  controller back to slot 0, where the first read's TRBs still are: it executes them again, and then everything
  pushed, in order (`ControlTransfers.Ep0Executes`). So each later wait is answered by the transfer before the one
  waited for (`ControlTransfers.AnswersAreShifted`): in `ControlTransfers.FallsSilentOverruns` the third read counts
  as done with none of it executed.
- Enumeration gives a device up if one of the first three waits is not answered, but ignores how the fourth read ends,
  as long as the buffer reads as a keyboard's, and how the three requests end (hal/src/xhci.rs:975-988,
  hal/src/xhci.rs:1006-1028). The reads always find room on the ring; the requests exactly if at most five TRBs are
  left when each begins, or four with the controller parked on the Link (`ControlTransfers.Ep0SafeIff`). The first
  request that finds no room stalls the ring for good (`ControlTransfers.Ep0Overrun`); `FallsSilentOverruns` is such a
  device. Taking a data stage as all or nothing, the condition holds once the fourth read's data stage has been
  executed (`ControlTransfers.Ep0KeepsUp`); until then the buffer holds a header of an earlier read and zeros, which
  does not read as a keyboard's if the header has at least nine bytes (`DescriptorScan.UnreadIsNoKeyboard`).
- Commands that time out pile up on the command ring (hal/src/xhci.rs:351, hal/src/xhci.rs:814-818). Every command of
  an enumeration finds room exactly if none finds fifteen waiting, or fourteen before the Link
  (`CommandRing.CommandsFitIff`); `CommandRing.SixteenDeadPorts` is an enumeration that overruns the ring.
- An error completion of the keyboard's transfer is consumed without arming the next one, and any good event of the
  keyboard's slot counts as a report, whatever its endpoint (hal/src/xhci.rs:1134-1136): a late event of one of the
  unanswered requests returns what the buffer happens to hold and arms a second transfer
  (`KeyboardPoll.StrayIsReported`). For every run, with both kinds in any number: transfers armed are one more than
  good events of the slot consumed, and transfers pending are one, plus the good strays, minus the errors
  (`KeyboardPoll.ArmedLaw`). The reports returned are the reports completed, each once and in order, exactly if no
  good stray was consumed (`KeyboardPoll.OnceEachIff`). With at most five strays, which is all a device can send
  (`ControlTransfers.LateEventsAtMostFive`), the keyboard can still deliver without their help if and only if the
  errors are no more than the good strays (`KeyboardPoll.SilentIff`); `KeyboardPoll.ErrorSilences` is a run that
  ends it.
- The comment at hal/src/framebuffer.rs:261-263 says moving the cursor never erases text. Every cursor drawing
  writes the remembered character into the cursor cell, and that character can be stale: `Console.StaleCursorChar`
  shows one cell overwritten by a blink and by a newline, and `CursorMoves.PrintThenErase` what backspacing leaves.
  `Console.CursorKeepsTextIff` says for every call when it leaves just the text it is meant to leave, and
  `Paper.PrintedTextIff` says it for printed text of any length, backspaces included, against a typewriter that
  never scrolls. The pixel theorems follow the code: the grid they speak of has the remembered character written
  into it.
- A visible cursor that is moved stays behind on the screen (hal/src/framebuffer.rs:256-259 leaves that to the
  callers): `Framebuffer.Writer.SetColumn` says exactly when the bytes still show the screen.
- The archive parser panics on some archives (kernel/src/ramfs.rs:49-59): exactly those with a member below a path
  at which the first member was a file, `ArchiveRoundTrip.ParsePanicsIff`; `ArchiveRoundTrip.FileBelowFilePanics` is one.
- Recalling a line and coming back restores the text but leaves the cursor at the end
  (kernel/src/shell.rs:308-314): `LineEditor.UpsThenDowns` says so.

## Reading the model

- Addresses, sizes and counters are unbounded naturals. The allocator's machine arithmetic (wrapping, saturation)
  is written out; everywhere else the values stay far below the machine's limits by the invariants proved.
- A build's overflow panic is the outcome `Trap`, and the parser's panic on a file used as a directory is `None`.
- Memory ordering of the key ring's atomics is taken as interleaving of single loads and stores.
- Calls into parts that are not modelled are parameters: what ring memory shows at each read, what the controller
  answers, what Tab finds, what is at a path.

## Model

| member | source | states |
|---|---|---|
| SlabRuns.EveryRunIsSafe | kernel/src/allocator.rs:26-56 | after any run of allocations, frees and client writes, live blocks lie inside the heap, overlap neither one another nor a free block, and each class's list followed through memory is its free blocks, once each, ending in null |
| SlabRuns.AllocContract | kernel/src/allocator.rs:121-131 | a pointer is new, aligned and big enough inside the heap; null means every fitting class was empty and the bump tail too small; the invariant is kept |
| SlabRuns.SmallestServes | kernel/src/allocator.rs:123-129 | the smallest fitting class with a free block is the one that serves |
| SlabRuns.SlabGrant | kernel/src/allocator.rs:39-45 | a block from a class is the head of its list, which loses just that block; no other list changes, and the bump pointer stays |
| SlabRuns.BumpGrant | kernel/src/allocator.rs:69-75 | a request no class serves is granted at the first multiple of its alignment from the bump pointer on, which then stands right behind it; null means it does not fit before the end |
| SlabRuns.BumpUsedIsGranted | kernel/src/allocator.rs:69-79 | over every run what is used of the bump region is the sizes granted from it and the padding before them, each less than its alignment; so null means these and the request really exceed the capacity |
| SlabRuns.StepSpends | kernel/src/allocator.rs:121-138 | every step moves the bump pointer by what it grants from the bump region and the padding before it, and by nothing else |
| SlabRuns.FreshHeap | kernel/src/allocator.rs:108-119 | the layout start-up gives: six classes of 512 blocks of 8 to 256 bytes back to back from the heap base, and the rest for bump allocation, none of it used |
| SlabRuns.FreshList | kernel/src/allocator.rs:26-37 | at start-up each class lists all its 512 blocks in address order |
| SlabRuns.AllocSafeIff | kernel/src/allocator.rs:69-75 | allocation keeps the invariant if and only if rounding the bump pointer up does not wrap unnoticed |
| SlabRuns.WrappedAlloc | kernel/src/allocator.rs:174-176 | a wrapped rounding answers null and moves the bump pointer below the heap |
| SlabRuns.WrapExample | kernel/src/allocator.rs:174-176 | a concrete heap base and layout for which that happens |
| SlabRuns.DeallocSlab | kernel/src/allocator.rs:133-136 | a freed slab block becomes the head of the list of the class it came from, whatever size was asked for; no other list changes |
| SlabRuns.DeallocBump | kernel/src/allocator.rs:137-138 | freeing a bump block changes nothing in the allocator |
| SlabRuns.WriteKeeps | kernel/src/allocator.rs:39-51 | no write by a client inside its blocks disturbs any freelist |
| SlabRuns.ClassConserved | kernel/src/allocator.rs:153-160 | in every class, free and live blocks together are always 512 |
| SlabRuns.AllFreed | kernel/src/allocator.rs:47-51 | once no slab block is live every class's list is its whole pool again |
| SlabRuns.BumpConserved | kernel/src/allocator.rs:77-79 | the recomputed bump start is where the pools end, and used plus remaining is the capacity |
| SlabRuns.StepKeeps | kernel/src/allocator.rs:121-138 | every allowed allocation, free or client write keeps the invariant |
| SlabSafety.InitInv | kernel/src/allocator.rs:108-119 | start-up establishes the invariant for any non-zero heap base that is a multiple of 256 |
| SlabSafety.ThreadedList | kernel/src/allocator.rs:30-36 | following the links written at start-up visits the blocks in address order and ends in null |
| SlabSafety.BlocksApart | kernel/src/allocator.rs:5-9 | no two blocks of any two classes overlap |
| SlabSafety.BlockAligned | kernel/src/allocator.rs:125 | a block satisfies every power-of-two alignment up to its size |
| SlabSafety.OwnsOnlyItsPool | kernel/src/allocator.rs:53-56 | the address test finds exactly the class a block belongs to |
| SlabSafety.PopKeeps | kernel/src/allocator.rs:39-45 | taking the head off a list leaves a good list without that block |
| SlabSafety.PushKeeps | kernel/src/allocator.rs:47-51 | putting a live block at the head leaves a good list with that block in front |
| SlabAllocator.SlabClass.Init | kernel/src/allocator.rs:26-37 | the loop threads every block and sets the counters |
| SlabAllocator.SlabClass.Alloc | kernel/src/allocator.rs:39-45 | in place, what popping the list computes |
| SlabAllocator.SlabClass.Dealloc | kernel/src/allocator.rs:47-51 | in place, what pushing onto the list computes |
| SlabAllocator.SlabClass.IsOwner | kernel/src/allocator.rs:53-56 | answers whether the address is in the pool |
| SlabAllocator.Allocator.Init | kernel/src/allocator.rs:108-119 | in place, the initial heap of the value-level model |
| SlabAllocator.Allocator.BumpAlloc | kernel/src/allocator.rs:69-75 | in place, the bump allocation of the value-level model, whose grants and pointer `SlabRuns.BumpGrant` states |
| SlabAllocator.Allocator.Alloc | kernel/src/allocator.rs:121-131 | in place, the allocation of the value-level model, first fitting class first |
| SlabAllocator.Allocator.Dealloc | kernel/src/allocator.rs:133-138 | in place, the deallocation of the value-level model |
| SlabAllocator.Allocator.Stats | kernel/src/allocator.rs:153-170 | reports each class's free and total counts and the bump figures |
| ProducerRing.RingRefinesQueue | hal/src/xhci.rs:274-285 | over any run whose pushes find room, as they do with at most N - 2 TRBs outstanding, the controller executes exactly the pushed TRBs in order, none twice, none stale, and never stops while one is outstanding |
| ProducerRing.SubmitKeeps | hal/src/xhci.rs:358-368 | a push with room keeps the ring's invariant |
| ProducerRing.SubmitSafeIff | hal/src/xhci.rs:279-284 | with room a push keeps the ring good and the controller reaches the oldest TRB in two looks; without room, one slot less while it is parked on the Link, its next look idles |
| ProducerRing.StallLasts | hal/src/xhci.rs:279-284 | after a push without room the controller executes nothing during a further lap of pushes, however often it looks |
| ProducerRing.ParkedOverrunStalls | hal/src/xhci.rs:632-640 | one push too many while the controller is parked on the Link makes every look idle with a full lap waiting |
| ProducerRing.HwKeeps | hal/src/xhci.rs:726-731 | one look by the controller follows the Link, takes the oldest outstanding TRB, or idles, exactly when it should |
| ProducerRing.StartInv | hal/src/xhci.rs:1036-1042 | a zeroed ring with its Link TRB satisfies the invariant |
| EventRing.EventsConsumedInOrder | hal/src/xhci.rs:294-322 | across laps and the handover, the driver consumes each posted event once and in order, ERDP is its dequeue slot, and the next look takes the next event |
| EventRing.LookTakesOldest | hal/src/xhci.rs:1113-1126 | a look returns the oldest unread event, or nothing exactly when there is none |
| EventRing.PollTakes | hal/src/xhci.rs:1108-1132 | the poll consumes the oldest unread event and keeps the ring's invariant |
| EventRing.RoomIff | hal/src/xhci.rs:312-316 | a controller that honours ERDP has room exactly below 63 unread events; a post without room is still readable but brings its cursor onto ERDP's slot, where full looks like empty |
| EventRing.ErdpRoundTrip | hal/src/xhci.rs:1131 | the ERDP written names the dequeue slot, with only the busy bit below |
| EventRing.StepKeeps | hal/src/xhci.rs:1072-1075 | posting, consuming and handing over keep the invariant |
| KeyboardPoll.ArmedLaw | hal/src/xhci.rs:1134-1164 | for every run, errors and late events of the slot included: transfers armed are one more than good slot events consumed, each of which returned a report, and pending transfers are one plus good strays minus errors |
| KeyboardPoll.OnceEachIff | hal/src/xhci.rs:1134-1167 | the reports returned are the reports completed, in order and once each, exactly if no good stray of the slot has been consumed |
| KeyboardPoll.PollNeverStalls | hal/src/xhci.rs:1105-1167 | without errors and good strays, the reports returned are the run's completed reports in order and at most one behind, exactly one transfer is pending, and if it is neither in flight nor announced two looks put it in flight |
| KeyboardPoll.SilentIff | hal/src/xhci.rs:1134-1136 | after any run with at most five good strays, another report can be returned without further strays if and only if the errors so far are no more than the good strays |
| KeyboardPoll.DeadIff | hal/src/xhci.rs:1136 | in every such run nothing is armed, in flight or announced exactly if the errors consumed are one more than the good strays consumed |
| KeyboardPoll.HandoverInv | hal/src/xhci.rs:1062-1083 | what enumeration leaves behind, late control events included, starts the books |
| KeyboardPoll.SoundStep | hal/src/xhci.rs:1105-1167 | every step, whatever the event, keeps the books, and the ring and the reports as long as strays allow |
| KeyboardPoll.PollTakes | hal/src/xhci.rs:1117-1167 | a poll takes the oldest unread event, and returns the buffer and arms a transfer exactly for a good event of the slot |
| TrbFields.EventFields | hal/src/xhci.rs:1117-1136 | an event is of type 32 in bits 10 to 15 and of the slot in bits 24 to 31 of its fourth double word, of the endpoint in bits 16 to 20, and good if the top byte of its third is 1 or 13; whatever its other bits |
| TrbFields.ArmReads | hal/src/xhci.rs:618-631 | the transfer armed asks for eight bytes into the report buffer and an event at its end |
| KeyboardPoll.ErrorKills | hal/src/xhci.rs:1136 | an error completion is consumed with nothing armed |
| KeyboardPoll.DeadForGood | hal/src/xhci.rs:1136 | and then, unless a good stray comes, no report is ever returned again |
| KeyboardPoll.ErrorSilences | hal/src/xhci.rs:1136 | a run of one error after which no continuation returns a report |
| KeyboardPoll.StrayIsReported | hal/src/xhci.rs:1134-1135 | a run in which a late control event is returned as a report though the device has completed none |
| XhciDriver.TransferRing.Enqueue | hal/src/xhci.rs:274-285 | in place, the push of the ring model, for the command ring and for EP0 |
| XhciDriver.PushControl | hal/src/xhci.rs:413-423 | in place, the three or two TRBs of a control transfer, one push after the other |
| TrbFields.StagesRead | hal/src/xhci.rs:401-466 | by its fields a read is a setup stage with its packet in the TRB, a data stage from the device into its buffer and a status stage to the device; a request is a setup stage and a status stage from the device; only status stages are announced |
| ControlTransfers.Ep0Executes | hal/src/xhci.rs:882-1028 | while pushes find room, what the controller executes is the first read and then everything pushed, in order, starting with the first read again, and two looks reach what is left |
| ControlTransfers.AnswersAreShifted | hal/src/xhci.rs:924-968 | an answered wait means the reads before the one waited for have been executed, the first twice, and at most three TRBs are left |
| ControlTransfers.Ep0SafeIff | hal/src/xhci.rs:882-1028 | every push of an enumeration's transfers finds room exactly if at most five TRBs are left when each request begins, or four with the controller on the Link |
| ControlTransfers.Ep0KeepsUp | hal/src/xhci.rs:975-1028 | which holds once the fourth read's data stage has been executed, however the requests are answered |
| ControlTransfers.Ep0Overrun | hal/src/xhci.rs:1006-1028 | the first request without room stalls the ring to the end of the enumeration and after |
| ControlTransfers.FallsSilentOverruns | hal/src/xhci.rs:882-1010 | a device whose third read is answered unexecuted and whose first request overruns the ring |
| ControlTransfers.LateEventsAtMostFive | hal/src/xhci.rs:378-397 | at most five EP0 events are left that no wait has taken |
| ControlTransfers.RewindIs | hal/src/xhci.rs:924-931 | after the rewind the ring is as if the controller had never looked at the first read |
| RingBatches.PermittedIffFits | hal/src/xhci.rs:401-468 | every push of a sequence of batches finds room exactly if each batch fits when it begins, and then the ring stays good |
| RingBatches.StallsToTheEnd | hal/src/xhci.rs:358-368 | from the first batch without room, less than a lap of further batches leaves the controller executing nothing |
| RingBatches.ParkedLeaves | hal/src/xhci.rs:358-368 | while the controller is parked on the Link, exactly the TRBs pushed on this lap are outstanding |
| CommandRing.CommandsFitIff | hal/src/xhci.rs:274-285 | every command of an enumeration finds room exactly if none finds fifteen waiting, or fourteen before the Link, and then the commands are executed in order |
| CommandRing.CommandReadsBack | hal/src/xhci.rs:350-1050 | the TRB of a command, read by its fields, is the command: type 9 to 13, slot in the top byte, Block Set Address Request in bit 9, input context in the first two double words, and reserved fields zero |
| CommandRing.ExecutedIsMeant | hal/src/xhci.rs:274-285 | while every command finds room, what the controller was asked to do, read from the TRBs it executed, is what the driver meant by the first commands of its log |
| CommandRing.AnsweredCommandsFit | hal/src/xhci.rs:326-340 | which holds with every command answered, or with at most fifteen commands |
| CommandRing.CommandOverrun | hal/src/xhci.rs:279-284 | from the first command without room the controller executes nothing more |
| CommandRing.SixteenDeadPorts | hal/src/xhci.rs:812-818 | sixteen ports and a controller that answers nothing overrun the ring |
| XhciDriver.EventConsumer.Wait | hal/src/xhci.rs:294-322 | in place, the look at the first read that shows a new event, or nothing |
| XhciDriver.WaitFindsFirst | hal/src/xhci.rs:298-321 | a wait returns nothing exactly when every read shows the other cycle bit, and then changes nothing |
| XhciDriver.KeyboardDriver.constructor | hal/src/xhci.rs:1062-1083 | what enumeration stores, with the first transfer armed, is the handover state of the model |
| XhciDriver.KeyboardDriver.ArmKbdEpRaw | hal/src/xhci.rs:618-644 | in place, the same push, of the eight-byte Normal TRB for the report buffer |
| XhciDriver.KeyboardDriver.TakeHidReport | hal/src/xhci.rs:1105-1167 | in place, the poll of the model and its result |
| SlotEnumeration.Enumerate | hal/src/xhci.rs:782-1087 | the loop over the ports issues the modelled commands and keeps the modelled slot |
| SlotEnumeration.VisitPort | hal/src/xhci.rs:811-1060 | the loop body, early exit by early exit, issues the commands the model gives for one port |
| SlotEnumeration.VisitIs | hal/src/xhci.rs:811-1060 | a port with a slot is sent Enable Slot, Address Device blocked, Evaluate Context, Address Device, Configure Endpoint, cut short after the first answer that fails it, and then Disable Slot unless it is the keyboard |
| SlotEnumeration.FirstKept | hal/src/xhci.rs:782-1087 | ports are visited in order up to the first keyboard, and no further; its slot is kept |
| SlotEnumeration.NoneKept | hal/src/xhci.rs:782-1087 | with no keyboard every port is visited, in order, and none is kept |
| SlotEnumeration.VisitAccounts | hal/src/xhci.rs:811-1060 | a port that was granted a slot gives exactly that slot back unless it is the keyboard |
| SlotEnumeration.SlotsConserved | hal/src/xhci.rs:347-352 | the slots granted are, in order, the slots given back, followed by the one kept |
| SlotEnumeration.LogDisciplined | hal/src/xhci.rs:853-1058 | every slot command is about the slot in hand, and a new one is asked for only when there is none |
| SlotEnumeration.NoStarvation | hal/src/xhci.rs:341-346 | the slots held are the one in hand and those whose Disable Slot failed, so with none failing at most one is held |
| SlotEnumeration.HeldAtTheEnd | hal/src/xhci.rs:1068-1089 | with no failed Disable Slot only the keyboard's slot is held at the end |
| DescriptorScan.FindHidKbdEp | hal/src/xhci.rs:472-509 | finds the first interrupt IN endpoint of a boot keyboard interface among the whole records, and nothing exactly when there is none |
| DescriptorScan.WrittenIsFound | hal/src/xhci.rs:472-509 | for any configuration written out byte by byte, words low byte first, the one answer is the first IN endpoint of interrupt type behind an interface of class 3, subclass 1 and protocol 1, with its address, eleven bits of packet size and interval |
| DescriptorScan.InterfaceBeforeIsNearest | hal/src/xhci.rs:484-495 | an endpoint belongs to the nearest interface record before it |
| DescriptorScan.UnreadIsNoKeyboard | hal/src/xhci.rs:985-992 | a configuration header of nine bytes or more with nothing from byte 18 on does not read as a keyboard's |
| Paths.SplitJoin | kernel/src/vfs.rs:40-44 | splitting undoes joining |
| Paths.ComponentsJoin | kernel/src/ramfs.rs:62 | the components of joined names are the names |
| Paths.ComponentsAre | kernel/src/vfs.rs:40-44 | what the components of any path are: separators count for nothing in front of it, and a name in front of one is its first component |
| Paths.SplitAcross | kernel/src/shell.rs:775 | splitting across a separator splits both sides |
| DirTree.InsertLook | kernel/src/ramfs.rs:61-78 | after an insertion the directories on the way are there, the node is there if nothing was, and every other path shows what it did |
| DirTree.InsertFailsIff | kernel/src/ramfs.rs:49-59 | an insertion panics exactly if a proper ancestor is a file |
| Listing.BuildLook | kernel/src/ramfs.rs:223-263 | inserted in any order, with or without parents, the members show exactly as listed and nothing else does |
| Listing.FirstDecides | kernel/src/ramfs.rs:61-78 | for any listing, duplicates included, the first member at or below a path decides what shows there |
| Listing.BuildFailsIff | kernel/src/ramfs.rs:49-59 | inserting a listing panics exactly if a member lies below a path at which the members before it show a file |
| Readdir.InsertNames | kernel/src/ramfs.rs:49-78 | an insertion adds to the listing of a directory on its way the next name of its path, at the end, if it is new there or a file's own; every other listing stays |
| Readdir.ParsedNames | kernel/src/ramfs.rs:120-122 | for any bytes that parse, every directory lists the names its members add, in the order of the archive |
| Readdir.ArchiveLists | kernel/src/ramfs.rs:120-122 | in a written archive each directory lists each of its children once and nothing else |
| Readdir.NamesAtWalk | kernel/src/ramfs.rs:120-122 | what is listed at a path are the names in the directory a walk along it finds |
| Ustar.ParseUstar | kernel/src/ramfs.rs:223-263 | the loop terminates on every input and inserts the members of the archive in order |
| Ustar.MembersAt | kernel/src/ramfs.rs:228-259 | a header is one member, if it is kept, and then whatever follows its padded data |
| UstarFields.WhereItEnds | kernel/src/ramfs.rs:228-232 | an archive ends where there is no whole block left or none with "ustar" at byte 257 |
| UstarFields.WhatABlockSays | kernel/src/ramfs.rs:229-259 | byte by byte what a block says: name in bytes 0 to 99, octal size in 124 to 135, '5' at 156 for a directory; data cut short makes an empty file; the next block is at the next multiple of 512; no name or "." is passed over |
| UstarFields.NameReads | kernel/src/ramfs.rs:234-235 | a name ends at the first NUL and loses slashes around it and "./" before it; one that is not text, or only slashes, is none |
| UstarFields.NumberReads | kernel/src/ramfs.rs:23-26 | NULs around white space around octal digits, with or without a plus sign, read as the number, or 0 past 64 bits |
| UstarFields.NumberOrZero | kernel/src/ramfs.rs:23-26 | a field that gives anything but 0 holds the digits of what it gives, with only NULs, white space and a plus sign around them |
| Utf8Scalars.ValidIff | kernel/src/ramfs.rs:24 | the bytes taken for text are exactly the UTF-8 encodings of sequences of Unicode scalar values |
| ArchiveRoundTrip.ArchiveShows | kernel/src/ramfs.rs:223-263 | writing members and parsing them back gives a tree that shows each file's bytes, each directory and ancestor, and nothing else |
| ArchiveRoundTrip.ParsePanicsIff | kernel/src/ramfs.rs:223-263 | for any bytes, parsing panics exactly if a member lies below a path at which the members before it show a file |
| ArchiveRoundTrip.ParsedShows | kernel/src/ramfs.rs:223-263 | for any bytes that parse, the first member at or below a path decides what shows there |
| ArchiveRoundTrip.FileBelowFilePanics | kernel/src/ramfs.rs:49-59 | an archive of two members on which parsing panics |
| ArchiveRoundTrip.MembersRoundTrip | kernel/src/ramfs.rs:228-259 | the parser reads back exactly the members written |
| ArchiveRoundTrip.MemberRoundTrip | kernel/src/ramfs.rs:234-256 | one header and its data are read back as the member written |
| ArchiveRoundTrip.SizeRoundTrip | kernel/src/ramfs.rs:23-26 | the octal size field is read back, ended by NUL or by a space |
| ArchiveRoundTrip.OctalRoundTrip | kernel/src/ramfs.rs:25 | octal digits have the value they were written for |
| ArchiveRoundTrip.NameRoundTrip | kernel/src/ramfs.rs:234-235 | the name field is read back without leading slashes, "./" prefixes, trailing slashes and padding |
| ArchiveRoundTrip.TrimNulPadded | kernel/src/ramfs.rs:28-31 | trimming at the first NUL takes the padding off |
| Vfs.FileSystem.Mount | kernel/src/vfs.rs:30-32 | sets the root |
| Vfs.FileSystem.LookupPath | kernel/src/vfs.rs:36-58 | the component walk finds what the tree has at the path, and refuses the empty path and everything before a mount |
| Vfs.MountedArchive | kernel/src/vfs.rs:36-58 | looking up any path text in a mounted archive tells exactly what the archive lists there |
| Console.BlitShows | hal/src/framebuffer.rs:264-275 | drawing the cursor cell shows the grid with that character there and the cursor as visible as drawn |
| Console.ShiftShows | hal/src/framebuffer.rs:297-314 | moving the pixels up and blanking the bottom shows the grid without its top row, for any height |
| Console.HiddenCursorMoves | hal/src/framebuffer.rs:256-259 | a hidden cursor may be moved without drawing |
| Console.FilledShows | hal/src/framebuffer.rs:321-336 | a buffer full of background shows the blank grid |
| Console.CursorKeepsTextIff | hal/src/framebuffer.rs:261-389 | every call leaves the text it is meant to leave exactly if the character it restores in the cursor's cell, if any, is the one that was there |
| CursorMoves.CursorLaw | hal/src/framebuffer.rs:257-389 | where the cursor is after each call, counting cells in reading order, whether it shows and what it remembers: a character moves it one cell on, a backspace one back and from the first cell nowhere, a newline to the next row, the last row scrolling; a tick toggles it |
| CursorMoves.TextInCells | hal/src/framebuffer.rs:354-398 | text that fits on the screen, across rows, is in its cells, and nothing else changes |
| CursorMoves.BackspacesErase | hal/src/framebuffer.rs:338-352 | after some backspaces the cell the cursor comes to rest in is blank and the others it was in hold the remembered character |
| CursorMoves.PrintThenErase | hal/src/framebuffer.rs:338-398 | printing text that fits and as many backspaces brings the cursor back; the text's cells are blank and all others untouched exactly if the remembered character is the one behind the text and, for two characters or more, a blank |
| Console.PixelOfCell | hal/src/framebuffer.rs:464-496 | each pixel of a cell is its font bit, the leftmost the top bit of the row byte, inverted in the cursor's cell while the cursor shows |
| Console.PrintedLineIff | hal/src/framebuffer.rs:354-389 | text that fits in the row and a newline show exactly that line, scrolled if need be, if and only if the remembered character is the one after the text |
| Paper.PrintedTextIff | hal/src/framebuffer.rs:338-398 | text of any length, backspaces included, shows exactly what a typewriter would have put there if and only if every cell a newline or a backspace was the last to leave, as far as still on the screen, holds the remembered character on the typewriter's sheet |
| Paper.TextIsFoot | hal/src/framebuffer.rs:338-398 | for any text the screen is always the foot of the sheet written on, cursor and all |
| Paper.WrittenIsStained | hal/src/framebuffer.rs:338-389 | the sheet differs from the typewriter's in just those cells |
| Console.VisibleCursorStays | hal/src/framebuffer.rs:256-259 | a visible cursor that is moved without drawing is left behind on the screen |
| Console.StaleCursorChar | hal/src/framebuffer.rs:277-295 | a run after which a blink overwrites a cell with a stale character |
| Console.PrintedInPlace | hal/src/framebuffer.rs:354-389 | text that fits in the row is put there exactly, and nothing else changes |
| Framebuffer.Writer.PutPixel | hal/src/framebuffer.rs:485-493 | stores blue, green, red and, at four bytes a pixel, 255 at the pixel's bytes, and changes no other byte |
| Framebuffer.Writer.WriteGlyph | hal/src/framebuffer.rs:464-496 | the nested loops draw the glyph in its cell and leave every other pixel alone |
| Framebuffer.Writer.DrawCursorCell | hal/src/framebuffer.rs:264-275 | the bytes show the grid with the remembered character in the cursor cell |
| Framebuffer.Writer.CursorShow | hal/src/framebuffer.rs:279-283 | the bytes show the cursor inverted on the given character |
| Framebuffer.Writer.CursorHide | hal/src/framebuffer.rs:286-289 | the bytes show the cursor cell plain |
| Framebuffer.Writer.TickCursor | hal/src/framebuffer.rs:292-295 | the bytes show the cursor toggled |
| Framebuffer.Writer.SetColumn | hal/src/framebuffer.rs:257-259 | moves the cursor within the row, clamped to the last column; the bytes still show the screen exactly if the cursor was hidden or did not move |
| Framebuffer.Writer.ScrollUp | hal/src/framebuffer.rs:300-314 | the bytes show the grid scrolled by one row |
| Framebuffer.Writer.Clear | hal/src/framebuffer.rs:321-336 | from any contents, the bytes show the blank grid |
| Framebuffer.Writer.Backspace | hal/src/framebuffer.rs:338-352 | the bytes show the cursor one cell back, across rows, and that cell blanked, and nothing moved at the origin |
| Framebuffer.Writer.WriteChar | hal/src/framebuffer.rs:354-389 | the bytes show the grid after the character, newline or backspace, scrolling at most once |
| Framebuffer.Writer.WriteStr | hal/src/framebuffer.rs:393-398 | the bytes show the grid after the whole string |
| Framebuffer.Writer.Perform | hal/src/framebuffer.rs:264-389 | after any run of calls that moves the cursor only while hidden, every pixel shows the grid the run comes to |
| Framebuffer.Writer.constructor | hal/src/framebuffer.rs:232-243 | a new writer stands at the origin with a hidden cursor and has drawn nothing |
| KeyRing.RingIsQueue | kernel/src/keyboard.rs:177-210 | every interleaving of the two sides is a run of a queue of capacity 63 that drops only when 63 are unread; each byte pushed is enqueued or dropped, in order, save one still under way; what is delivered is a prefix of what was enqueued |
| KeyRing.RunLosesNothing | kernel/src/keyboard.rs:177-183 | in every interleaving the bytes handed to the producer are the bytes enqueued or dropped and the one in hand |
| KeyRing.StepRefines | kernel/src/keyboard.rs:177-183 | each atomic step is one queue step, drops only at 63 unread, overwrites no unread slot and reads no unwritten one |
| KeyRing.PushAlone | kernel/src/keyboard.rs:177-183 | undisturbed, a push appends the byte, or drops it when full |
| KeyRing.Ring.Push | kernel/src/keyboard.rs:177-183 | in place, appends the byte unless 63 are unread |
| KeyRing.Ring.Drain | kernel/src/keyboard.rs:200-209 | the loop hands over everything unread in order and leaves the ring empty |
| KeyRing.Ring.ContentsAreHeld | kernel/src/keyboard.rs:167-175 | the ring's contents, slot by slot, are the queue of the step model |
| HidReports.SentOnPressOnly | kernel/src/keyboard.rs:311-336 | in every run a mapped key sends a byte for each entry in a report if it was up before, and none while it stays down |
| HidReports.HeldKeySentOnce | kernel/src/keyboard.rs:311-336 | a key held over consecutive reports is sent exactly once, at the start |
| HidReports.CapsIsParity | kernel/src/keyboard.rs:316 | after any run caps lock is the parity of the reports in which its key newly appeared |
| HidReports.Keyboard.HandleKey | kernel/src/keyboard.rs:312-335 | one usage sends a byte only when fresh, and caps lock toggles the value read at the start |
| HidReports.Keyboard.ProcessHidReport | kernel/src/keyboard.rs:303-339 | the loop over six usages sends the presses `HidBytes.ReportSends` states and remembers the report |
| HidBytes.ReportSends | kernel/src/keyboard.rs:303-339 | what a report sends: for each newly pressed key with a legend, in the report's order, its byte under the modifier bits 0x22 and 0x11 of the first byte and caps lock: letters upper case if one of shift and caps lock is on, letter codes 1 to 26 under control, the other keys by their two legends, six navigation bytes |
| HidBytes.ModifierBits | kernel/src/keyboard.rs:304-306 | shift and control are the bits 0x22 and 0x11 of the first byte |
| LineEditor.LogIsWhatWasSent | kernel/src/shell.rs:254-273 | for every run of keys the history is the lines sent without empty ones and immediate repeats, and line and history cursor stay in bounds |
| LineEditor.TypedLineIsSent | kernel/src/shell.rs:108-273 | typing any line that fits at an empty prompt, and Enter: exactly that line is sent, recorded unless it is the newest, and the prompt is empty again |
| LineEditor.PrintableDoes | kernel/src/shell.rs:108-127 | a character is put in at the cursor, which moves behind it, while the line has fewer than 256; otherwise nothing changes |
| LineEditor.EraseDoes | kernel/src/shell.rs:132-148 | the character before the cursor goes and the cursor moves back; at the start nothing changes |
| LineEditor.MovesDo | kernel/src/shell.rs:169-234 | where each move leaves the cursor, the text staying |
| LineEditor.ClearingDoes | kernel/src/shell.rs:217-273 | what Ctrl-C, Ctrl-U and Enter leave, and what Enter records |
| LineEditor.TabDoes | kernel/src/shell.rs:368-400 | a completion is appended as far as 256 characters allow; listing candidates moves the cursor to the end |
| LineEditor.HistoryDoes | kernel/src/shell.rs:275-296 | one line further back or forward in the last sixteen recorded, the unsent line being before them all |
| LineEditor.PressKeepsSound | kernel/src/shell.rs:93-130 | every key keeps the bounds of line, cursor and history |
| LineEditor.MovesKeepText | kernel/src/shell.rs:169-205 | moving the cursor never changes the text |
| LineEditor.MovesAreInverse | kernel/src/shell.rs:169-187 | left and right undo each other |
| LineEditor.EraseUndoesTyping | kernel/src/shell.rs:108-148 | erasing undoes typing, and a full line takes no more |
| LineEditor.CutWordParts | kernel/src/shell.rs:236-248 | Ctrl-W removes trailing spaces and one word from the end of the line, wherever the cursor is, and everything if there are only spaces |
| LineEditor.UpsShow | kernel/src/shell.rs:275-285 | the k-th press of up shows the k-th newest line |
| LineEditor.UpsThenDowns | kernel/src/shell.rs:287-314 | k ups and k downs give the unsent line back, with the cursor at its end |
| LineEditor.UpsStop | kernel/src/shell.rs:276-277 | going up past the oldest entry changes nothing |
| ShellState.Shell.PushPrintable | kernel/src/shell.rs:108-127 | in place, inserts at the cursor unless the line is full |
| ShellState.Shell.Backspace | kernel/src/shell.rs:132-148 | in place, removes the character before the cursor |
| ShellState.Shell.CursorLeft | kernel/src/shell.rs:169-177 | in place, one step left |
| ShellState.Shell.CursorRight | kernel/src/shell.rs:179-187 | in place, one step right |
| ShellState.Shell.CursorToStart | kernel/src/shell.rs:189-196 | in place, to the start |
| ShellState.Shell.CursorToEnd | kernel/src/shell.rs:198-205 | in place, to the end |
| ShellState.Shell.CtrlC | kernel/src/shell.rs:217-223 | in place, drops the line and stops browsing |
| ShellState.Shell.CtrlU | kernel/src/shell.rs:250-252 | in place, drops the line |
| ShellState.Shell.CtrlW | kernel/src/shell.rs:236-248 | in place, the two loops cut the last word |
| ShellState.Shell.CompleteWith | kernel/src/shell.rs:368-400 | in place, appends as much of a completion as fits |
| ShellState.Shell.Submit | kernel/src/shell.rs:254-273 | in place, records the line unless empty or a repeat, overwriting the oldest of sixteen slots |
| ShellState.Shell.RepeatsNewest | kernel/src/shell.rs:257-260 | answers whether the line equals the newest entry |
| ShellState.Shell.HistoryUp | kernel/src/shell.rs:275-285 | in place, saves the unsent line once and shows the next older entry |
| ShellState.Shell.HistoryDown | kernel/src/shell.rs:287-296 | in place, shows the next newer entry or the unsent line |
| ShellState.Shell.LoadHistoryEntry | kernel/src/shell.rs:298-306 | copies the right ring slot into the line |
| ShellState.Shell.ListHistory | kernel/src/cmd/ui.rs:22-38 | lists the last n entries of the log with their numbers counted from the first line ever recorded |
| EditDistance.EditDistanceOf | kernel/src/shell.rs:738-756 | one rolling row computes the least cost over all edit scripts |
| EditDistance.DistIsEditDistance | kernel/src/shell.rs:742-755 | the table entry is reached by some script and undercut by none |
| EditDistance.Neighbours | kernel/src/shell.rs:747-751 | dropping a last character changes the entry by at most one, which is why equal characters need no minimum |
| EditDistance.Suggest | kernel/src/shell.rs:432-443 | suggests the first name the input is a prefix of, else the first closest name, and only within two edits |
| Lexer.LexersRoundTrip | kernel/src/shell.rs:671-725 | words quoted by either quote in any parts, any blanks between, before and after them, and `;` or `&&` between commands: the two lexers recover what each word says, except for words that say nothing |
| Lexer.SplitRoundTrip | kernel/src/shell.rs:671-700 | the split gives the commands back as written, quoted separators and lone `&` left alone |
| Lexer.TokenizeRoundTrip | kernel/src/shell.rs:704-725 | the tokenizer gives what the words say |
| Lexer.WhitespaceIs | kernel/src/shell.rs:714 | a blank is one of the 25 white space characters of Unicode |
| Lexer.PiecesRebuild | kernel/src/shell.rs:671-700 | for every input the segments and the separators between them rebuild it |
| Lexer.SplitCommandsLoop | kernel/src/shell.rs:671-700 | the loop with its index, quote and start computes the split |
| Lexer.TokenizeLoop | kernel/src/shell.rs:704-725 | the loop computes the tokens |
| WorkingDir.NormalizeLoop | kernel/src/shell.rs:773-791 | the two loops compute the normalized path |
| WorkingDir.NormalizeIsCanonical | kernel/src/shell.rs:773-791 | a normalized path is the root or slash-separated names without "." and ".." |
| WorkingDir.CanonicalIff | kernel/src/shell.rs:773-791 | canonical paths are exactly those left alone, so normalizing is idempotent |
| WorkingDir.NormalizeBase | kernel/src/shell.rs:773-791 | normalizing a base before going on from it makes no difference |
| WorkingDir.RelativeCd | kernel/src/shell.rs:551-561 | a relative path leads where its names lead from those of the working directory |
| WorkingDir.StepLaws | kernel/src/shell.rs:773-791 | a name goes down, ".." up and at the root nowhere, "." and nothing stay; with NormalizeBase this decides every path |
| WorkingDir.CdLaw | kernel/src/cmd/fs.rs:121-152 | `cd` to the root or an existing directory makes it the working directory and PWD and remembers the old one; to anything else it changes nothing |
| WorkingDir.CdSteps | kernel/src/cmd/fs.rs:121-152 | in a directory `cd` to a name goes down if that is a directory, and `cd ..` goes up |
| WorkingDir.Session.CwdSet | kernel/src/shell.rs:544-547 | replaces the working directory and remembers the old one |
| WorkingDir.Session.CmdCd | kernel/src/cmd/fs.rs:121-152 | in place, the working directory, the previous one and PWD after `cd` |
| WorkingDir.CwdIsAPlace | kernel/src/cmd/fs.rs:121-152 | after any run of `cd` the working directory is the root or the normalized path of a directory, and PWD equals it |
| WorkingDir.CdDashTwice | kernel/src/shell.rs:532-547 | `cd -` swaps the two directories as read, so twice is the identity |

## Left out

- RunKeeps: the xHCI runs assume the controller behaves as sections 4.6.5 and 4.9.2 to 4.9.4 of the xHCI 1.2 specification say; register order, doorbells and real time are not modelled.
- SlotsConserved: assumes no command times out; after a timeout a late completion would be taken for the next command's.
- Enumerate: `wait_cmd`, control transfers, port reset and the contents of contexts are an oracle of outcomes.
- Insert: works on tree values; the original walks down with a mutable reference and pushes in place.
- Ep0KeepsUp: a data stage is taken as executed whole or not at all; one that fails half-way may have filled the buffer already.
- Answered: commands between the transfers are taken to leave EP0's events alone; `wait_cmd` discards any that arrive while it waits.
- SilentIff: only for at most five good strays; beyond that they could overrun the interrupt ring.
- Perform: asks that the cursor is hidden when it is moved, as hal/src/framebuffer.rs:256 asks of callers; what a visible move does is stated by SetColumn.
- Shows: fixed colours and no drawing outside the text area; switching colours mid-screen is not modelled.
- HandleKey: returns the bytes to push; the drop of a byte by a full ring is stated in `KeyRing`.
- CompleteWith: where completions come from is not modelled, only what they do to the line.
- ListHistory: takes the parsed number; parsing the argument is not modelled.
- StepRefines: the weak memory orderings of the atomics, beyond interleaving, are not modelled.
- The ustar prefix field, which the parser ignores, and duplicate paths in the round trip (the tree theorems do cover them: the first entry wins).
- PS/2 scancodes, ACPI, PIC, APIC, PCI, serial, timers, boot and the runner: port I/O or simpler walkers.
- Prompt drawing, redrawing, environment expansion, argument flags and the remaining commands.
