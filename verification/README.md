# A Dafny model of the emulator's closed machinery

BasiliskII runs a 68k Macintosh. This project models the parts of it that are
state machines, small interpreters or small code generators, and proves what
they promise, for all inputs and all runs. `dafny verify dfyconfig.toml` checks
everything.

Code that works in place is modelled in place: a class with the source's fields,
arrays and loops, each method proved against a function of the old state. The
theorems are about those functions, so each method's postcondition is the link
between the loops and the theorems.

| files | part of the emulator |
|---|---|
| GuestMemory, Arithmetic | big-endian guest memory whose ROM ignores writes; 32-bit arithmetic |
| Machine68k, WindowCalls | the assembler that turns queued window operations into 68k words, and the stack machine that runs them: compiler correctness |
| SafePoint, FilterStub, FilterHook | the flag/busy hand-off between host and guest under cooperative switching, the 68k filter stub, and the host's visit |
| Arena, Redirect, WindowSync | the first-fit pixel arena, window ports redirected into it modulo 2^32, and the walk of the window list against what the host was told |
| SccModel, Scc, LocalTalk, LocalTalkNetwork | the Z8530 with LocalTalk over UDP: register machine, framer, receiver, and a multicast of stamped nodes |
| Scsi | the SCSI Manager's self-modifying TIB programs, the merged scatter/gather table and the bus phases |
| Bitfield | 68020 bit fields of 1 to 32 bits at any signed bit offset |
| Interrupts, M68kCpu | SR packing, the three stack pointers, exception frames and interrupts |
| Traps, TrapRegistry | Toolbox trap trampolines through registration, installation and machine reset |
| Timer, TimeManager | Time Manager tasks that insert, remove and prime tasks while they run |
| MemoryRanges | the table of committed guest pages |
| SlotRom, DeclarationRom | the declaration ROM, printed with relative offsets and patched in place |

How the main results fit together:

- **Window operations.** A reference meaning of each operation (the Toolbox calls
  it stands for) is defined without the assembler. `RoutineMakesExactlyTheCalls`
  connects it with the words, through an independent 68k decoder. The Toolbox is
  an arbitrary function of the calls made so far. The stub that enters the
  routine is proved word by word, and `SafePoint` takes it from there: any
  number of applications, any interleaving.
- **Drawing.** The allocator keeps blocks apart, every record is backed by its
  own block, and the address arithmetic puts every pixel inside it:
  `WindowsNeverDrawOverEachOther`. The pass over all records keeps it so
  (`PassPutsPortsBack`, `PassTouchesNothingElse`), and no buffer outlives its
  window (`ProcessWalk`).
- **LocalTalk.** The guest's accesses (`Chip.Access`), the ticks of interrupts and
  the 60 Hz timer (`Chip.LocalTalkTick`) and machine resets (`Chip.Reset`) are
  exactly the steps the theorems quantify over, in any order. A frame heard is a
  frame transmitted by another node, and what `LocalTalk` proves of the data
  register is how it is read out.
- **SCSI.** The merged table, flattened to bytes, is compared with the runs the
  executed instructions named, as read from memory when they ran.

Where the code falls short of what one would expect, the code is modelled as it
is and the exact condition is proved:

- an arena request over 0xfffffff0 bytes rounds to 0 and is granted; no other
  grant leaves the arena (`GrantsStayInsideUnlessTheyWrap`, `WrappingIsNeverRefused`);
- a row stride over 14 bits does not fit the PixMap field
  (`PixelsLandExactlyWhenRowsFit`);
- the teardown hook leaves the missing count, and a window at a reused address
  goes on from it (`HostKnowsTheWindowsInView`, `AStaleCountRetiresTheNextWindow`);
- a routine the watchdog gave up on may still return, and uncovers another one
  if that is inside (`RoutinesStayCoveredExactlyWhen`,
  `AStalledRoutineThatComesBackUncoversTheNext`);
- the blocked visits the watchdog counts need not be consecutive: visits with
  nothing pending come between without resetting the count;
- merged scatter/gather lengths wrap at 4 GB (`AddAppendsBytes`), and an scLoop
  whose counter is 0 runs on (`CounterZeroWraps`);
- master and interrupt stacks that overlap lose what was saved
  (`StacksMustBeFarApart`);
- an access over more than two pages can hide a hole, and a commit that ends at
  4 GB or finds the table full is lost (`EndBytesAreEnoughExactlyWhen`,
  `ACommitIsLostExactlyWhen`);
- a reset that leaves an old stub's contents and a table entry leading to it goes
  unnoticed (`ResetThenInstallHooksEverything`);
- unregistering a trap between a reset and the next install writes the last
  boot's routine into the new table (`UnregisterPutsTheEntryBack`,
  `LateUnregisterBringsBackTheLastBoot`).

Comments and code disagree in one place that matters here: counting the
enumerators of `include/emul_op.h`, the dispatch opcode is 0x7131 and the
safe-point opcode 0x7132, while comments say 0x7130. The model uses the code's
values.

## Model

| member | source | states |
|---|---|---|
| Machine68k.DecodeEncode | BasiliskII/toolbox_window.cpp:1815-2002 | Every instruction the assembler uses, with any operands, is read back by the 68k decoder from its own words, followed by the word after it. |
| Machine68k.RunExecutesInstructions | BasiliskII/toolbox_window.cpp:1815-2002 | Fetching and running the words of a program makes the machine do exactly its instructions, whatever follows them in memory. |
| WindowCalls.InvalidateCalls | BasiliskII/toolbox_window.cpp:1815-2002 | The words of a repaint request bracket one _InvalRect of the port's rectangle with GetPort/SetPort, restoring the very port found, and leave the stack as it was. |
| WindowCalls.ScreenResizedCalls | BasiliskII/toolbox_window.cpp:1815-2002 | The words of a resize notice begin the configuration, set the mode, end it and draw the desktop, in that order, handing on the state the first call leaves, and keep the stack, DisplayDispatch popping the word count in its selector. |
| WindowCalls.OperationCalls | BasiliskII/toolbox_window.cpp:1815-2002 | Each of the kinds of operation compiles to code that makes the Toolbox calls the operation means, with its arguments, and no others. |
| WindowCalls.OperationsCall | BasiliskII/toolbox_window.cpp:1815-2002 | A queue of operations makes the calls of each in queue order; what one call answers can reach the arguments of the next. |
| WindowCalls.RoutineMakesExactlyTheCalls | BasiliskII/toolbox_window.cpp:1815-2002 | Compiler correctness: running the assembled words makes exactly the calls of the operations, records the sequence number in the done word, and returns with the stack pointer where it started, for every queue and every behaviour of the Toolbox. |
| WindowCalls.WindowCode.Assemble | BasiliskII/toolbox_window.cpp:1815-2002 | The loop leaves in the scratch area the routine for the longest fitting prefix of the wanted operations (vanished windows skipped), with the next sequence number, or writes nothing when there is none; no byte outside the 180 is written. |
| WindowCalls.AssembledRoutineMakesExactlyTheCalls | BasiliskII/toolbox_window.cpp:1815-2002 | What was assembled into guest memory, fetched word by word and run, makes exactly the calls of its operations and returns. |
| WindowCalls.FittingIsPrefix | BasiliskII/toolbox_window.cpp:1815-2002 | What is emitted is a prefix of what is wanted: from the first operation that does not fit the rest are dropped, and nothing overtakes. |
| WindowCalls.EmittedWhileRoom | BasiliskII/toolbox_window.cpp:1815-2002 | The k-th wanted operation is emitted if and only if the code of those before it leaves 128 bytes of room. |
| SafePoint.QueueKeepsOnlyTheLatest | BasiliskII/toolbox_window.cpp:2040-2069 | Queueing replaces an earlier request of the same kind for the same window, keeps every other one, and never holds two. |
| SafePoint.NoticeKeepsOnlyTheLatest | BasiliskII/toolbox_window.cpp:2106-2127 | After a screen change there is one resize notice and it names the newest geometry. |
| SafePoint.RunKeepsInv | BasiliskII/toolbox_window.cpp:2137-2256 | Whatever applications enter the filter, yield inside calls or return, and whatever the host queues, the flag, busy byte, stall counter and activations stay consistent. |
| SafePoint.ScratchIsRewrittenOnlyWhenIdle | BasiliskII/toolbox_window.cpp:2137-2256 | In every reachable state, whatever happens next: the scratch code is rewritten only with both bytes clear, or by a visit that is at least the 600th in a row (idle ones not counted) to find work pending behind the very same routine. |
| SafePoint.EachRoutineIsEnteredAtMostOnce | BasiliskII/toolbox_window.cpp:2170-2256 | In every run no two activations belong to the same assembled routine. |
| SafePoint.RoutinesStayCoveredExactlyWhen | BasiliskII/toolbox_window.cpp:2170-2256 | When code is never replaced underneath an activation: in every state of a run each activation inside its routine has the busy byte up and its own code in the scratch area, if and only if no activation the watchdog gave up on ever returns while another is inside. |
| SafePoint.ActivationsRunTheirOwnRoutine | BasiliskII/toolbox_window.cpp:1749-1798 | In every run in which nothing the watchdog gave up on returns while another activation is inside: at most one is inside, the scratch area holds its code, and each has executed a prefix of the routine it entered, all of it when it has returned; one that was given up on had done so up to then, and to the end if nothing given up on runs again. |
| SafePoint.AStalledRoutineThatComesBackUncoversTheNext | BasiliskII/toolbox_window.cpp:2170-2256 | That does happen, shown by a run from the start: a routine found inside by 600 visits is given up on, comes back, and its return clears the busy byte of its successor; the next visit rewrites the code that one is in the middle of and enters a third. |
| FilterStub.StubEntersOnceAndChains | BasiliskII/toolbox_window.cpp:1749-1798 | The 68k filter stub, run word by word: with the flag up it lowers it, runs the routine under the busy byte and lowers that; with the flag down it does neither; both ways every register is restored and control goes to the previous filter, or back to the caller with its return address popped. |
| FilterHook.Hook.WindowSafePoint | BasiliskII/toolbox_window.cpp:2137-2256 | The visit changes flag, busy byte, queue, scratch and stall counter as the protocol's visit step does; guest memory changes as the screen change arranges (Display Manager words, or what a plain switch leaves, with the cursor let go), and beyond that only in the shared bytes and scratch area. |
| FilterHook.Hook.AssembleAndFlag | BasiliskII/toolbox_window.cpp:2228-2256 | The flag goes up exactly when something was assembled, over the routine for what fits. |
| FilterHook.Hook.ClearBytes | BasiliskII/toolbox_window.cpp:2137-2256 | Giving up on a stalled routine lowers the two bytes and touches nothing else. |
| FilterHook.Hook.Prepare | BasiliskII/toolbox_window.cpp:2137-2256 | A screen change already applied is not announced again; with the Display Manager its state and depth words are set and every notice gets the mode; without it the cursor is held back over the switch, the notices go, and the size counts as applied only if the switch worked. Flag, busy byte and routine stay. |
| FilterHook.Hook.SetDisplayWords | BasiliskII/toolbox_window.cpp:2211-2222 | The state and depth words are written and the block's stub, bytes and routine stay. |
| FilterHook.Hook.Switch | BasiliskII/toolbox_window.cpp:2236-2250 | Memory is what the switch leaves, with the cursor let go, and the routine waiting or running stays. |
| FilterHook.Hook.WithoutResizes | BasiliskII/toolbox_window.cpp:2137-2256 | The other requests stay, in order, and no resize notice does. |
| FilterHook.Hook.LastGeometry | BasiliskII/toolbox_window.cpp:2137-2256 | Finds the geometry of the newest resize notice. |
| FilterHook.Hook.WithMode | BasiliskII/toolbox_window.cpp:2137-2256 | Every resize notice carries the display mode found for it; the other requests are untouched. |
| FilterHook.Hook.QueueWindowOp | BasiliskII/toolbox_window.cpp:2040-2069 | In place: a request is queued only for a plausible window while the subsystem is on, replacing its predecessor. |
| FilterHook.Hook.NotifyScreenResized | BasiliskII/toolbox_window.cpp:2106-2127 | In place: the newest geometry replaces every earlier notice. |
| FilterHook.Hook.EnsureGuestCode | BasiliskII/toolbox_window.cpp:1749-1798 | The first call leaves the stub, a lone return in the scratch area and clear bytes inside the code area and writes nothing outside; later calls change nothing. |
| FilterHook.Hook.Reset | BasiliskII/toolbox_window.cpp:2424-2451 | A machine reset leaves nothing queued, nothing installed and no byte set. |
| Arena.LiveBlocksAreDisjoint | BasiliskII/toolbox_window.cpp:294-352 | After any allocations of up to 0xfffffff0 bytes, frees and resets, live blocks are 16-aligned, inside the 64 MB, pairwise disjoint and disjoint from every free block. |
| Arena.StepKeepsInv | BasiliskII/toolbox_window.cpp:294-352 | Each single step keeps that, for a request whose rounding does not wrap. |
| Arena.GrantsStayInsideUnlessTheyWrap | BasiliskII/toolbox_window.cpp:294-324 | From every state the allocator can be in, what is granted lies inside the arena if and only if the size asked for is at most 0xfffffff0: the rounding not wrapping is exactly what it takes. |
| Arena.WrappingIsNeverRefused | BasiliskII/toolbox_window.cpp:294-324 | A larger request, whose rounding wraps to 0, is never refused: it is recorded at its full size at some address of the arena. |
| Arena.AWrappingSizeOverlaps | BasiliskII/toolbox_window.cpp:294-324 | Concrete failure: a size whose rounding wraps is granted no bytes, and the next block gets the same address. |
| Arena.Allocator.Allocate | BasiliskII/toolbox_window.cpp:294-324 | In place: first fit takes the first free block that is large enough whole; else the cursor moves, or nothing changes and the answer is 0. |
| Arena.Allocator.Release | BasiliskII/toolbox_window.cpp:344-352 | In place: the block leaves the live set and its rounded size joins the free list. |
| Arena.Allocator.Clear | BasiliskII/toolbox_window.cpp:2424-2451 | In place: a reset starts the arena over. |
| Redirect.PixelsLandInTheirOwnBlock | BasiliskII/toolbox_window.cpp:1004-1069 | With QuickDraw's address formula taken modulo 2^32, every pixel of a redirected port lands at its row and column of the window's own block, whatever the PixMap's bounds are. |
| Redirect.WideRowsLandElsewhere | BasiliskII/toolbox_window.cpp:1004-1069 | With a stride over 14 bits and bounds starting one row up, the first pixel falls outside the block. |
| Redirect.PixelsLandExactlyWhenRowsFit | BasiliskII/toolbox_window.cpp:1004-1069 | Whatever memory holds once the port is pointed at its block, every pixel lands in the block if and only if the row stride fits the 14 bits of the PixMap field. |
| Redirect.PixelsOfDifferentWindowsDiffer | BasiliskII/toolbox_window.cpp:1004-1069 | Windows whose blocks are apart never share a pixel address. |
| Redirect.WindowsNeverDrawOverEachOther | BasiliskII/toolbox_window.cpp:1013-1147 | Any two redirected windows backed by live arena blocks never share a pixel: allocator and address arithmetic together. |
| Redirect.BackedAreApart | BasiliskII/toolbox_window.cpp:1013-1147 | Different records never lie over each other, since each is backed by a live block of its own. |
| Redirect.PointAsserts | BasiliskII/toolbox_window.cpp:1013-1147 | After a redirection baseAddr and rowBytes are what the address formula needs for that block. |
| Redirect.UnpointRestores | BasiliskII/toolbox_window.cpp:1159-1182 | Round trip: giving the port back, after whatever the guest did, leaves base, rowBytes and bounds as they were when it was taken. |
| Redirect.PassPutsPortsBack | BasiliskII/toolbox_window.cpp:1232-1269 | From memory before the pass alone: when windows, handles, PixMaps and regions are heap blocks that do not overlap, one pass puts every port that still uses its PixMap back on its buffer and opens every visible region over the whole port; nothing one record's turn does is undone by another's. |
| Redirect.PassTouchesNothingElse | BasiliskII/toolbox_window.cpp:1232-1269 | The pass is safe: a PixMap to which the window's handle no longer leads, and every byte but the base and row field of those it still leads to and the visible regions of the windows in the pass, are as before. |
| Redirect.FillFills | BasiliskII/toolbox_window.cpp:1013-1147 | Blanking a buffer sets each of its bytes and no other byte of guest memory. |
| Redirect.Mirror.RedirectWindow | BasiliskII/toolbox_window.cpp:1013-1147 | In place: memory, records, arena and queued repaints all change as redirecting says, and are all left alone when the window already is redirected, its port does not qualify or the arena refuses; the answer tells which. |
| Redirect.RedirectedRecords | BasiliskII/toolbox_window.cpp:1013-1147 | Redirecting adds one record, the window's own, and queues its repaint, exactly when the window has none, its port qualifies and the arena grants the buffer. |
| Redirect.Mirror.Take | BasiliskII/toolbox_window.cpp:1013-1147 | In place: asks for a buffer of stride times height bytes and, if there is one, records a block that stays backed by the arena. |
| Redirect.Mirror.PointAt | BasiliskII/toolbox_window.cpp:1013-1147 | In place: blank buffer, then PixMap, then the two regions, with the old PixMap fields saved in the record first. |
| Redirect.Mirror.RestoreWindow | BasiliskII/toolbox_window.cpp:1159-1182 | In place: the window's record goes, its very block is freed, and the port gets its saved fields back only while it exists; nothing else of memory, records or arena changes. |
| Redirect.Mirror.ReassertVisRgns | BasiliskII/toolbox_window.cpp:1232-1269 | In place: the pass over the records does to memory what the per-record steps do in order. |
| Redirect.Mirror.SetInUpdate | BasiliskII/toolbox_window.cpp:2530-2546 | In place: the one record of the window changes its mark, no other record changes. |
| Redirect.Mirror.FindRecord | BasiliskII/toolbox_window.cpp:955-962 | Finds a record of the window if and only if there is one. |
| Redirect.Mirror.Forget | BasiliskII/toolbox_window.cpp:2424-2451 | In place: after a machine reset no record and no block is left. |
| WindowSync.WalkDoes | BasiliskII/toolbox_window.cpp:1373-1426 | For any one window and any duplicate-free walk: when it is added, when removed, when kept, and what its missing count becomes, each as an if-and-only-if. |
| WindowSync.HostKnowsTheSnapshot | BasiliskII/toolbox_window.cpp:1310-1533 | After every run of walks, teardowns and resets, windows added minus windows removed equals the kept snapshot. |
| WindowSync.HostKnowsTheWindowsInView | BasiliskII/toolbox_window.cpp:1373-1426 | For every run: the host has been told of a window if and only if it was seen since its last teardown or reset, not missing from 600 walks in a row since, and the walks it is missing from now and the count it took over do not reach 600 together. |
| WindowSync.PromptTeardownsLeaveNoCount | BasiliskII/toolbox_window.cpp:2501-2518 | A window only ever torn down while it is being seen takes over no count, whatever happens to other windows, so the host is told of it exactly while it is in view. |
| WindowSync.CountsAreRight | BasiliskII/toolbox_window.cpp:1373-1426 | Whatever is torn down when: from the history alone, what the snapshot holds of any window and what its missing count is, stale counts included. |
| WindowSync.AShortAbsenceGoesUnnoticed | BasiliskII/toolbox_window.cpp:1373-1426 | A window gone for up to 599 walks that returns is neither removed nor added, and its count is gone. |
| WindowSync.AStaleCountRetiresTheNextWindow | BasiliskII/toolbox_window.cpp:2501-2518 | Why addresses must not be reused while counted, as a run from the start: torn down after n missed walks and reused, an address is retired as soon as it has missed 600 - n, for every n. |
| WindowSync.WindowSync.ProcessWalk | BasiliskII/toolbox_window.cpp:1310-1533 | In place: nothing while the guest is busy in a routine of ours; else snapshot, counts and host events change as the step the theorems are about, and guest memory, records and arena as the walk means: ports re-asserted, lost windows given back with their ports untouched, new and resized ones redirected; no pixel buffer outlives its window. |
| WindowSync.EachTurnDecides | BasiliskII/toolbox_window.cpp:1399-1426 | Which windows end a walk redirected: each if and only if its own turn makes or leaves it so, given what the turns before it left of memory and arena; no turn changes that of another window. |
| WindowSync.WindowSync.Retire | BasiliskII/toolbox_window.cpp:1373-1397 | In place: the first loop counts, keeps or retires each window the walk missed, in snapshot order, and the buffers of the retired, and only theirs, are given back without touching their ports. |
| WindowSync.WindowSync.RetireWindow | BasiliskII/toolbox_window.cpp:1373-1397 | In place: the turn of one window in that loop. |
| WindowSync.WindowSync.Adopt | BasiliskII/toolbox_window.cpp:1399-1426 | In place: the second loop reports new and changed windows, in walk order, against the old snapshot, and memory, records and arena change turn by turn as redirecting new ones and re-redirecting resized ones does. |
| WindowSync.WindowSync.AdoptOne | BasiliskII/toolbox_window.cpp:1399-1426 | In place: the turn of one window in that loop. |
| WindowSync.WindowSync.Resize | BasiliskII/toolbox_window.cpp:1403-1424 | In place: a changed window whose port still has the size of its buffer keeps it, memory and records untouched; otherwise its port is put back and it is redirected from scratch. |
| WindowSync.WindowSync.HandleTeardown | BasiliskII/toolbox_window.cpp:2501-2518 | In place: for a plausible window, its port is put back and its buffer freed, it is reported gone and leaves the snapshot, and its missing count stays; for any other pointer nothing happens. |
| WindowSync.WindowSync.ResetWindows | BasiliskII/toolbox_window.cpp:2424-2451 | In place: every known window is reported gone and nothing is kept, neither window nor buffer; guest memory is not written. |
| LocalTalk.StreamSplitsAtFrameBoundaries | BasiliskII/scc.cpp:393-426 | Any concatenation of well-formed LLAP frames written byte by byte from an empty buffer is handed on frame by frame: RTS answered locally, CTS dropped, every other frame sent unchanged after the stamp, buffer empty at the end. |
| LocalTalk.WriteFrame | BasiliskII/scc.cpp:899-907 | One well-formed frame written byte by byte is handed on exactly once, at its last byte. |
| LocalTalk.TransmitHandsOn | BasiliskII/scc.cpp:527-575 | What handing a frame on does to the link: what goes out, what is answered, whose RTS is remembered, and the node address learnt. |
| LocalTalk.AdvanceTakesOne | BasiliskII/scc.cpp:475-505 | Advancing drops the first of the bytes still to be read, never a byte beyond, and keeps the receiver's invariant. |
| LocalTalk.ReceiveHears | BasiliskII/scc.cpp:440-452 | Looking for a frame takes datagrams in arrival order and hears at most one, changing nothing else of the link. |
| LocalTalk.TickSteps | BasiliskII/scc.cpp:507-525 | A tick either leaves the frame being read alone or starts a new one; with a byte available it changes nothing. |
| LocalTalk.AccessSteps | BasiliskII/scc.cpp:979-1016 | Every register access keeps the receiver's invariant, and one that accepts a frame leaves the frame and two zero bytes to be read. |
| LocalTalk.OthersLeaveTheFrame | BasiliskII/scc.cpp:750-977 | Any access but a data read, Rx disable, WR0 command 4, a channel reset or an outgoing RTS leaves every byte still to be read. |
| LocalTalk.DataReadSteps | BasiliskII/scc.cpp:696-709 | A data read returns the next byte and takes it, and touches nothing of the link. |
| LocalTalk.FlagsTellWhatIsLeft | BasiliskII/scc.cpp:634-647 | The available flag is up if and only if bytes are left, RR0 says so, and end-of-frame goes up only when the last CRC byte is the one left. |
| LocalTalk.RunKeepsRxOk | BasiliskII/scc.cpp:507-1016 | No run of register accesses, ticks from outside and machine resets, in any order, leads the receiver out of its invariant. |
| LocalTalk.EventSteps | BasiliskII/scc.cpp:507-525 | An access, a tick or a reset keeps that invariant, and one that accepts a frame leaves the frame and two zero bytes to be read. |
| LocalTalk.OtherEventsLeaveTheFrame | BasiliskII/scc.cpp:507-525 | A tick from outside leaves every byte still to be read, as do the accesses above; a machine reset does not. |
| LocalTalk.ResetIsRxOk | BasiliskII/scc.cpp:619-632 | A chip reset establishes the receiver's invariant, with nothing to read. |
| LocalTalk.ReadsAreUnread | BasiliskII/scc.cpp:475-525 | Over any run of accesses and ticks without an excluded write or a reset the data reads return, in order, a prefix of what was left, or all of it first. |
| LocalTalk.AcceptedFrameIsReadOut | BasiliskII/scc.cpp:463-525 | Once a frame of n bytes is accepted, at an access or at a tick from outside, the next n+2 data reads return the frame and two zero bytes, whatever other accesses and ticks come between. |
| LocalTalk.LastReadEndsTheFrame | BasiliskII/scc.cpp:475-505 | The read of the last CRC byte lowers the available flag, raises end-of-frame and frees the receiver. |
| LocalTalkNetwork.EveryFrameIsAccountedFor | BasiliskII/scc.cpp:221-296 | For any number of nodes on a multicast that loses, duplicates, reorders and truncates, each node accessed by its guest, ticked from outside or reset at any moment: every frame a receiver is given was transmitted by a different node (given to its socket behind its stamp, so neither RTS nor CTS), or is the CTS for this node's latest RTS with source and destination swapped; one accepted in address-search mode with a nonzero address is for that address or 0xFF. |
| LocalTalkNetwork.RunKeepsNetOk | BasiliskII/scc.cpp:221-296 | In every run of accesses, ticks and resets of any nodes each datagram on the wire was transmitted by some node, under its stamp and out of a frame it put out, and each node's history of heard frames is justified. |
| LocalTalkNetwork.AccessKeeps | BasiliskII/scc.cpp:979-1016 | Whatever register a node's program accesses, its history grows only by justified frames. |
| LocalTalkNetwork.EventKeeps | BasiliskII/scc.cpp:507-525 | The same at a tick from outside and at a reset. |
| LocalTalkNetwork.StampsDiffer | BasiliskII/scc.cpp:221-238 | Different stamps differ in their four bytes, so a datagram names one sender. |
| LocalTalkNetwork.ADatagramTakenIsHeard | BasiliskII/scc.cpp:277-296 | Delivery: with the receiver idle and no CTS waiting, another node's datagram for this node is the frame offered, byte for byte. |
| Scc.Chip.CheckInterrupt | BasiliskII/scc.cpp:338-389 | In place over the record, receive buffer and Tx buffer, and no other field: the interrupt line and pending vector follow the two channels' enables and flags. |
| Scc.Chip.RxComplete | BasiliskII/scc.cpp:463-473 | In place over the record, receive buffer and Tx buffer, and no other field: the frame is dropped and the receive flags and offset start over. |
| Scc.Chip.RxBuffAdvance | BasiliskII/scc.cpp:475-505 | In place over the record, receive buffer and Tx buffer, and no other field: the next byte of frame or CRC is put up, or the frame completed. |
| Scc.Chip.GetCtsPacket | BasiliskII/scc.cpp:428-438 | In place over the record, receive buffer and Tx buffer, and no other field: the pending CTS becomes the frame, in the answer buffer, source and destination swapped. |
| Scc.Chip.GetNextPacket | BasiliskII/scc.cpp:267-275 | In place over the record, receive buffer and Tx buffer, and no other field: one datagram moves into the receive buffer, cut to the buffer's size, the rest of the buffer kept. |
| Scc.Chip.PacketIsMine | BasiliskII/scc.cpp:229-238 | In place over the record, receive buffer and Tx buffer, and no other field: true exactly for this node's own stamp. |
| Scc.Chip.ReceivePacket | BasiliskII/scc.cpp:277-296 | In place over the record, receive buffer and Tx buffer, and no other field: own datagrams are skipped; the first other one is offered past its stamp. |
| Scc.Chip.GetNextPacketForMe | BasiliskII/scc.cpp:440-461 | In place over the record, receive buffer and Tx buffer, and no other field: the address filter is applied until a frame passes or none is left; the stale datagram is never offered again. |
| Scc.Chip.LocalTalkTick | BasiliskII/scc.cpp:507-525 | In place over the record, receive buffer and Tx buffer, and no other field: the tick of the model. |
| Scc.Chip.TransmitPacket | BasiliskII/scc.cpp:246-265 | In place over the record, receive buffer and Tx buffer, and no other field: one datagram, stamp first, when the network is up. |
| Scc.Chip.TransmitPacket1 | BasiliskII/scc.cpp:527-575 | In place over the record, receive buffer and Tx buffer, and no other field: RTS, CTS and data each take their branch and the buffer is emptied. |
| Scc.Chip.TryExtractTxPackets | BasiliskII/scc.cpp:393-417 | In place over the record, receive buffer and Tx buffer, and no other field: a frame goes exactly when its length says it is finished. |
| Scc.Chip.TxBuffPut | BasiliskII/scc.cpp:419-426 | In place over the record, receive buffer and Tx buffer, and no other field: the byte joins the buffer and may finish a frame. |
| Scc.Chip.ResetChannel | BasiliskII/scc.cpp:594-617 | In place over the record, receive buffer and Tx buffer, and no other field: only this channel starts over, and channel B's frame and pending CTS go. |
| Scc.Chip.Reset | BasiliskII/scc.cpp:619-632 | In place over the record, receive buffer and Tx buffer, and no other field: both channels and the interrupt state start over. |
| Scc.Chip.GetRR0 | BasiliskII/scc.cpp:634-647 | In place over the record, receive buffer and Tx buffer, and no other field: status after a tick. |
| Scc.Chip.GetRR2 | BasiliskII/scc.cpp:658-679 | In place over the record, receive buffer and Tx buffer, and no other field: vector, modified by status on channel B. |
| Scc.Chip.GetRR8 | BasiliskII/scc.cpp:696-709 | In place over the record, receive buffer and Tx buffer, and no other field: the data byte, and on channel B the next one is put up. |
| Scc.Chip.PutWR0 | BasiliskII/scc.cpp:750-817 | In place over the record, receive buffer and Tx buffer, and no other field: register pointer and the commands of WR0. |
| Scc.Chip.PutWR1 | BasiliskII/scc.cpp:819-829 | In place over the record, receive buffer and Tx buffer, and no other field: interrupt enables of one channel. |
| Scc.Chip.PutWR3 | BasiliskII/scc.cpp:837-864 | In place over the record, receive buffer and Tx buffer, and no other field: enabling, disabling, hunting and address search. |
| Scc.Chip.PutWR5 | BasiliskII/scc.cpp:872-882 | In place over the record, receive buffer and Tx buffer, and no other field: losing Tx enable on channel B hands on what is buffered, if it is at least 3 bytes. |
| Scc.Chip.PutWR8 | BasiliskII/scc.cpp:899-907 | In place over the record, receive buffer and Tx buffer, and no other field: data on channel B goes to the framer. |
| Scc.Chip.PutWR9 | BasiliskII/scc.cpp:909-920 | In place over the record, receive buffer and Tx buffer, and no other field: resets of either channel or both, and the interrupt enable. |
| Scc.Chip.StoreOther | BasiliskII/scc.cpp:831-953 | In place over the record, receive buffer and Tx buffer, and no other field: WR2, WR4, WR6 (the node address, in SDLC mode on channel B), WR12, WR13 and WR15 are remembered, the others have no effect. |
| Scc.Chip.PutReg | BasiliskII/scc.cpp:955-977 | In place over the record, receive buffer and Tx buffer, and no other field: each register write reaches its handler. |
| Scc.Chip.GetReg | BasiliskII/scc.cpp:731-748 | In place over the record, receive buffer and Tx buffer, and no other field: each register read reaches its handler. |
| Scc.Chip.Access | BasiliskII/scc.cpp:979-1016 | In place over the record, receive buffer and Tx buffer, and no other field: address decoding, the register pointer falling back to 0 after one use, then the handler: exactly the step the protocol theorems quantify over. |
| Scsi.AddAppendsBytes | BasiliskII/scsi.cpp:161-186 | Adding a run to the merged table appends its bytes to what the table lists if and only if the merged length does not wrap at 2^32; the total is off by exactly 2^32 otherwise. |
| Scsi.MergedTableListsTheBytes | BasiliskII/scsi.cpp:161-219 | For any list of runs: the merged table lists the bytes of all of them in order if and only if no merge wrapped; the totals agree modulo 2^32. |
| Scsi.SmallTransfersDoNotOverflow | BasiliskII/scsi.cpp:161-219 | A transfer of less than 4 GB in all never wraps. |
| Scsi.StepsKeepConsistent | BasiliskII/scsi.cpp:161-219 | Any number of interpreter steps keeps the table the merge of everything that was added, and the running total the sum modulo 2^32. |
| Scsi.HistoryIsWhatWasNamed | BasiliskII/scsi.cpp:161-219 | The runs added are those the executed scInc/scNoInc instructions named in memory at the moment they ran, in execution order. |
| Scsi.BlockBuildsItsTable | BasiliskII/scsi.cpp:161-219 | One TIB block from an empty table: flattened table and total equal those of the runs named, below 4 GB. |
| Scsi.LoopRunsItsBodyCountTimes | BasiliskII/scsi.cpp:188-208 | scLoop with counter n >= 1 behind a straight-line body whose writes miss the loop begins the body exactly n times, leaves the counter word 0 and goes on behind it; or the table fills up and the block ends with that error. |
| Scsi.PassesAreCounted | BasiliskII/scsi.cpp:188-208 | The same for any body at all, loops inside it included, each of whose passes comes back to the scLoop as it was left. |
| Scsi.StraightBodyPasses | BasiliskII/scsi.cpp:161-208 | A straight-line body whose writes miss the loop comes back to it intact every time, scInc advancing its own operand included. |
| Scsi.CounterZeroWraps | BasiliskII/scsi.cpp:188-208 | A counter that is already 0 wraps to 0xffffffff and loops on. |
| Scsi.IncLoopYieldsOneRun | BasiliskII/scsi.cpp:173-208 | scInc(p,L); scLoop(-10,n); scStop on an empty table ends with the one run [p, p+nL) and p+nL in the operand. |
| Scsi.TransactionsHandOverTheirOwnRuns | BasiliskII/scsi.cpp:226-398 | Over any sequence of calls the table holds only runs since the last SCSIGet, and every hand-over to the device is consistent with them. |
| Scsi.DeviceGetsExactlyTheBytesMoved | BasiliskII/scsi.cpp:242-398 | From a free bus, each table given to the device lists the bytes of the runs since the last SCSIGet if and only if no merge wrapped, below 4 GB always, and the total is their number. |
| Scsi.ScsiManager.AddRun | BasiliskII/scsi.cpp:161-186 | In place over phase, table arrays and guest memory: a run joins or extends the table, or is refused when full, leaving table and total; result code and new state are those of the step the transaction theorems run over. |
| Scsi.ScsiManager.Interpret1 | BasiliskII/scsi.cpp:161-219 | In place over phase, table arrays and guest memory: one instruction: memory, table, total, next address and result code; result code and new state are those of the step the transaction theorems run over. |
| Scsi.ScsiManager.ExecTib | BasiliskII/scsi.cpp:161-219 | In place over phase, table arrays and guest memory: the loop does what the step machine does and answers its outcome; result code and new state are those of the step the transaction theorems run over. |
| Scsi.ScsiManager.Reset | BasiliskII/scsi.cpp:226-235 | In place over phase, table arrays and guest memory: the bus is freed from every phase and the table emptied; result code and new state are those of the step the transaction theorems run over. |
| Scsi.ScsiManager.Get | BasiliskII/scsi.cpp:242-254 | In place over phase, table arrays and guest memory: only a free bus can be taken, and the table and total start over; result code and new state are those of the step the transaction theorems run over. |
| Scsi.ScsiManager.Select | BasiliskII/scsi.cpp:261-286 | In place over phase, table arrays and guest memory: selection only after arbitration, and failure frees the bus; result code and new state are those of the step the transaction theorems run over. |
| Scsi.ScsiManager.Cmd | BasiliskII/scsi.cpp:293-330 | In place over phase, table arrays and guest memory: a command only after selection, of 6, 10 or 12 bytes, and a refusing unit frees the bus; result code and new state are those of the step the transaction theorems run over. |
| Scsi.ScsiManager.Read | BasiliskII/scsi.cpp:337-350 | In place over phase, table arrays and guest memory: in the transfer phase the block is interpreted into the table, and the direction is remembered; result code and new state are those of the step the transaction theorems run over. |
| Scsi.ScsiManager.Write | BasiliskII/scsi.cpp:357-370 | In place over phase, table arrays and guest memory: likewise, for the other direction; result code and new state are those of the step the transaction theorems run over. |
| Scsi.ScsiManager.Complete | BasiliskII/scsi.cpp:377-398 | In place over phase, table arrays and guest memory: in the transfer phase the merged table goes to the device, its status is written and the bus is freed; in any other phase the answer is a phase error; result code and new state are those of the step the transaction theorems run over. |
| Bitfield.LoadedFieldIsItsBits | BasiliskII/Musashi/m68kcpu.h:2219-2249 | Bit i of a loaded field is bit offset+i of memory seen as one big-endian bit string, for each bit of the width. |
| Bitfield.LoadedByte | BasiliskII/Musashi/m68kcpu.h:2219-2249 | A load reads each byte the field touches, up to the fifth, into its place of the window. |
| Bitfield.FieldBit | BasiliskII/Musashi/m68kcpu.h:2211-2217 | Bit i of the aligned field is bit offset+i of the five-byte window, for every offset 0..7. |
| Bitfield.MergedBit | BasiliskII/Musashi/m68kcpu.h:2265-2303 | Putting a field back into the window replaces exactly its 32 bits and keeps the others. |
| Bitfield.StoredBit | BasiliskII/Musashi/m68kcpu.h:2265-2303 | After a store each bit of memory is the new field's bit inside the field, and the old bit everywhere else. |
| Bitfield.StoringTheFieldBackChangesNothing | BasiliskII/Musashi/m68kcpu.h:2219-2303 | Storing the unmodified field changes no bit of memory. |
| Bitfield.PatchingNamesTheSameBits | BasiliskII/Musashi/m68kcpu.h:2257-2263 | Patching address and offset names the same bits, for every signed offset (modulo the 4 GB of address space). |
| Bitfield.InsertingReplacesExactlyTheField | BasiliskII/Musashi/m68kcpu.h:2211-2303 | Patch, load, replace and store together: for every signed offset and width, memory as one bit string has exactly the width bits from that offset on replaced by the top bits of the value. |
| Bitfield.BitfieldUnit.Insert | BasiliskII/Musashi/m68kcpu.h:2211-2303 | In place: the four steps have that effect on memory. |
| Bitfield.BitfieldUnit.Store | BasiliskII/Musashi/m68kcpu.h:2265-2303 | In place: exactly the field's bits are replaced. |
| Bitfield.BitfieldUnit.WriteBack | BasiliskII/Musashi/m68kcpu.h:2265-2303 | In place: the window's bytes are written, as many as the field touches, and no others. |
| Traps.RunKeepsInv | BasiliskII/toolbox_traps.cpp:114-443 | Any sequence of register, unregister, install and reset, whatever the resets leave in memory and table, keeps the registry in order: distinct traps, distinct slots, originals outside the pool, and within a boot table entries and trampolines matching. |
| Traps.InstalledTrapsOwnDistinctSlots | BasiliskII/toolbox_traps.cpp:226-261 | Installed traps own 12-byte slots inside the used part of the pool, no two overlapping. |
| Traps.AnyPcInASlotFindsIt | BasiliskII/toolbox_traps.cpp:468-480 | From any PC inside a slot the slot's own start is found. |
| Traps.DispatchFromASlot | BasiliskII/toolbox_traps.cpp:487-527 | Dispatching from a slot runs the handler of the trap the slot was written for, if it is registered, with the original written into that slot; a passthrough leaves A0 and A1 as the trampoline needs them. |
| Traps.InstalledTrapRunsItsOwnHandler | BasiliskII/toolbox_traps.cpp:487-527 | For an installed trap that handler is its own, with its own saved original. |
| Traps.UnregisteredSlotPassesThrough | BasiliskII/toolbox_traps.cpp:487-527 | A slot whose trap was unregistered leaves A0 the saved original, A1 = A7 and every other register. |
| Traps.OriginalsAreNotOurStubs | BasiliskII/toolbox_traps.cpp:360-443 | No saved original is one of our live stubs, or inside the pool at all: a passthrough leaves the registry in one step. |
| Traps.InstalledIsRecognised | BasiliskII/toolbox_traps.cpp:292-311 | While a trap is installed in this boot and one table entry still goes through its stub, the table is recognised as still ours, whatever the guest has put into the others. |
| Traps.InstallingAgainChangesNothing | BasiliskII/toolbox_traps.cpp:360-443 | Installing any number of times in one boot, with one table entry still going through its stub, leaves table, originals, pool and memory as they are, even over the guest's own patches. |
| Traps.InstallingAgainHooksExactlyWhen | BasiliskII/toolbox_traps.cpp:292-443 | Whatever the guest has put into its table in between, installing again in the same boot hooks every trap anew, over the guest's entries, if and only if no entry goes through a stub of ours any more. |
| Traps.ResetThenInstallHooksEverything | BasiliskII/toolbox_traps.cpp:292-443 | After any reset, one install hooks every registered trap, in its own slot of the new pool and over the rebuilt table's entry, if and only if no hooked trap's new entry is the address of its old stub with the dispatch word and the trap's number still there. |
| Traps.UnregisterPutsTheEntryBack | BasiliskII/toolbox_traps.cpp:166-188 | Unregistering puts back the entry found when hooking and touches no other; between a reset and the next install it leaves the rebuilt table alone if and only if the trap was not hooked or the reset brought the very same routine back. |
| Traps.LateUnregisterBringsBackTheLastBoot | BasiliskII/toolbox_traps.cpp:166-188 | The failing half is reached from the start: registered, hooked, reset and then unregistered, a trap's entry in the new boot's table is the first boot's routine, whatever the rebuilt table held. |
| Traps.TrampolineHolds | BasiliskII/toolbox_traps.cpp:226-243 | The 12 bytes written are the dispatch opcode, trap number and original, and no other byte changes. |
| TrapRegistry.Registry.RegisterTrap | BasiliskII/toolbox_traps.cpp:114-154 | In place over the 128-entry table: adds or updates the trap's entry; refused exactly when off, without a handler, not an A-line trap, or full. |
| TrapRegistry.Registry.UnregisterTrap | BasiliskII/toolbox_traps.cpp:166-188 | In place over the 128-entry table: answers whether the trap was registered; its table entry is put back and the later entries move down. |
| TrapRegistry.Registry.ShiftDown | BasiliskII/toolbox_traps.cpp:166-188 | In place over the 128-entry table: the loop removes one entry and keeps the order of the rest. |
| TrapRegistry.Registry.TableStillOurs | BasiliskII/toolbox_traps.cpp:292-311 | In place over the 128-entry table: says whether some table entry leads to a trampoline of ours. |
| TrapRegistry.Registry.ForgetPrevious | BasiliskII/toolbox_traps.cpp:321-330 | In place over the 128-entry table: drops pool, slots and installed marks and keeps registrations. |
| TrapRegistry.Registry.AllocSlot | BasiliskII/toolbox_traps.cpp:253-261 | In place over the 128-entry table: the next 12 bytes of the pool, or 0 with nothing changed. |
| TrapRegistry.Registry.HookOne | BasiliskII/toolbox_traps.cpp:360-443 | In place over the 128-entry table: saves the table entry, writes the trampoline, points the table at it. |
| TrapRegistry.Registry.HookAll | BasiliskII/toolbox_traps.cpp:360-443 | In place over the 128-entry table: from any pool, partly handed out or not, hooks those not yet hooked, stopping when it is full. |
| TrapRegistry.Registry.InstallTraps | BasiliskII/toolbox_traps.cpp:360-443 | In place over the 128-entry table: the whole install, including a reset noticed late. |
| TrapRegistry.Registry.StubFromPc | BasiliskII/toolbox_traps.cpp:468-480 | In place over the 128-entry table: the slot a PC lies in. |
| TrapRegistry.Registry.DispatchTrap | BasiliskII/toolbox_traps.cpp:487-527 | In place over the 128-entry table: registers after the handler. |
| Interrupts.SetThenGetSr | BasiliskII/Musashi/m68kcpu.h:1561-1572 | Setting SR and reading it back gives the value masked by what the CPU implements, and none of USP, ISP and MSP as reported changes. |
| Interrupts.SwitchKeepsReportedPointers | BasiliskII/Musashi/m68kcpu.h:1517-1539 | Changing S and M banks A7 so that none of the three reported pointers ever changes. |
| Interrupts.InterruptThenPopRestores | BasiliskII/Musashi/m68kcpu.h:2111-2180 | Taking an interrupt and popping the frame, or both frames in the master state with the stacks far enough apart, restores SR, PC, USP, ISP and MSP, on every CPU kind and for every acknowledgement. |
| Interrupts.InterruptEntersHandler | BasiliskII/Musashi/m68kcpu.h:2111-2180 | The handler runs in supervisor state, trace off, M clear, mask at the level, at the vector's address (or the uninitialised vector's), with the condition codes kept. |
| Interrupts.OverlappingStacksLoseTheMode | BasiliskII/Musashi/m68kcpu.h:2111-2180 | With MSP equal to ISP the throwaway frame is written over the first one and the mode is lost. |
| Interrupts.StacksMustBeFarApart | BasiliskII/Musashi/m68kcpu.h:2111-2180 | Exactly how far: for a distance of MSP above ISP, every master-state interrupt is undone by popping if and only if the distance is at least 8 and not one of the 5 just below a full turn (the throwaway frame may overlap the other one's format word, no more). |
| Interrupts.CheckTakesWhatIsAboveTheMask | BasiliskII/Musashi/m68kcpu.c:1063-1088 | After any sequence of changes of the virtual lines, from any state: an interrupt is taken if and only if line 7 has newly risen on the way (or one was pending), at level 7, or else the highest line up is above the mask, at that level. |
| Interrupts.DrivenByTheLines | BasiliskII/Musashi/m68kcpu.c:1063-1088 | After any sequence of changes the requested level is the highest line up, and the non-maskable request is set exactly when line 7 has newly risen. |
| Interrupts.PushedFrame | BasiliskII/Musashi/m68kcpu.h:1625-1646 | A pushed frame reads back as format, PC and SR below the old stack pointer, across wrap-around. |
| Interrupts.PopTakes | BasiliskII/Musashi/m68kcpu.h:1422-1444 | Popping a frame gives back the SR and PC it holds and the stack pointer from before it. |
| Interrupts.SrIsMasked | BasiliskII/Musashi/m68kcpu.h:867-879 | The packed SR is 16 bits, has no bit the CPU lacks, and forcing S sets just that bit. |
| M68kCpu.Core.Push16 | BasiliskII/Musashi/m68kcpu.h:1422-1444 | In place over registers, bank array and memory: a word goes below A7, modulo 2^32. |
| M68kCpu.Core.Push32 | BasiliskII/Musashi/m68kcpu.h:1422-1444 | In place over registers, bank array and memory: a long word goes below A7. |
| M68kCpu.Core.Pull16 | BasiliskII/Musashi/m68kcpu.h:1422-1444 | In place over registers, bank array and memory: the word at A7 comes off. |
| M68kCpu.Core.Pull32 | BasiliskII/Musashi/m68kcpu.h:1422-1444 | In place over registers, bank array and memory: the long word at A7 comes off. |
| M68kCpu.Core.SetSmFlag | BasiliskII/Musashi/m68kcpu.h:1530-1539 | In place over registers, bank array and memory: A7 is banked by the old mode and loaded by the new. |
| M68kCpu.Core.SetSrNoint | BasiliskII/Musashi/m68kcpu.h:1561-1572 | In place over registers, bank array and memory: every flag and the stack pointer follow the masked value. |
| M68kCpu.Core.InitException | BasiliskII/Musashi/m68kcpu.h:1601-1613 | In place over registers, bank array and memory: answers the SR from before and enters supervisor state without trace. |
| M68kCpu.Core.StackFrame0 | BasiliskII/Musashi/m68kcpu.h:1625-1636 | In place over registers, bank array and memory: format 0, or three words on the 68000. |
| M68kCpu.Core.StackFrame1 | BasiliskII/Musashi/m68kcpu.h:1641-1646 | In place over registers, bank array and memory: the throwaway frame. |
| M68kCpu.Core.StackAll | BasiliskII/Musashi/m68kcpu.h:2111-2180 | In place over registers, bank array and memory: one frame, or two with the change of stack between. |
| M68kCpu.Core.ExceptionInterrupt | BasiliskII/Musashi/m68kcpu.h:2111-2180 | In place over registers, bank array and memory: acknowledge, stack, mask and jump, nothing when halted. |
| M68kCpu.Core.CheckForInterrupts | BasiliskII/Musashi/m68kcpu.h:2184-2193 | In place over registers, bank array and memory: non-maskable first, then level against mask. |
| M68kCpu.Core.SetIrqLevel | BasiliskII/Musashi/m68kcpu.c:1063-1072 | In place over registers, bank array and memory: only the change to level 7 sets the non-maskable request. |
| M68kCpu.Core.SetVirq | BasiliskII/Musashi/m68kcpu.c:1074-1088 | In place over registers, bank array and memory: the line changes and the highest line up becomes the level. |
| Timer.AddAdds | BasiliskII/Unix/timer_unix.cpp:88-105 | Host time addition carries correctly: normalised, and the sum in nanoseconds. |
| Timer.SubSubtracts | BasiliskII/Unix/timer_unix.cpp:112-129 | Likewise for subtraction. |
| Timer.CompareCompares | BasiliskII/Unix/timer_unix.cpp:136-149 | Comparison agrees with the order of nanoseconds. |
| Timer.FromMacIsTheDelay | BasiliskII/Unix/timer_unix.cpp:156-178 | A Mac delay, milliseconds or negated microseconds, becomes that many nanoseconds, for every 32-bit value but the least. |
| Timer.ToMacHoldsLeft | BasiliskII/Unix/timer_unix.cpp:185-202 | Converting a host time to a Mac time gives 0 for a time gone by, negated microseconds below 2^31 of them and milliseconds above, never more than the time and less than one unit short of it. |
| Timer.EmulatedAdvanceIs | BasiliskII/timer.cpp:75-87 | The wall clock is advanced by the emulated time spent in whole microseconds, by at least one for any time at all. |
| Timer.RemovedTaskHoldsWhatIsLeft | BasiliskII/timer.cpp:223-256 | Removing a task leaves in its record the time it had left, in its unit, if it was active, and 0 otherwise; its descriptor is free and the rest of record and table as before. |
| Timer.PrimedThenRemovedLeavesTheRest | BasiliskII/timer.cpp:223-322 | Primed and removed some time later, a plain task is left with its delay less the wall-clock time gone and the emulated time spent. |
| Timer.RunKeepsDistinct | BasiliskII/timer.cpp:97-322 | In every run of calls, interrupts and machine resets no two descriptors in use name the same TMTask. |
| Timer.InterruptKeepsDistinct | BasiliskII/timer.cpp:329-354 | Nor do they while an interrupt's routines insert, remove and prime tasks, its own included. |
| Timer.InterruptCallsEachSlotAtMostOnce | BasiliskII/timer.cpp:329-354 | One interrupt makes at most 64 calls, in slot order, at most one a slot; a slot is called if and only if its task is in use, active, expired and has a routine when the loop comes to it; the call is of that task, with its record as it stood but marked inactive. |
| Timer.QuietInterruptCallsEveryDueTask | BasiliskII/timer.cpp:329-354 | With routines that leave the Time Manager alone every due task is called and none is due afterwards. |
| Timer.ExtendedTasksDoNotDrift | BasiliskII/timer.cpp:263-322 | Over any run of calls and interrupts an extended task re-primed with nonzero delays has its wakeup moved by exactly their sum, however late interrupts ran. |
| TimeManager.Manager.FindTask | BasiliskII/timer.cpp:124-130 | In place over the 64 descriptors and the task records: the slot in use for a task, or the table's length. |
| TimeManager.Manager.AllocDesc | BasiliskII/timer.cpp:97-107 | In place over the 64 descriptors and the task records: takes the first free slot. |
| TimeManager.Manager.ResetTimers | BasiliskII/timer.cpp:191-196 | In place over the 64 descriptors and the task records: frees every slot and leaves the rest of each descriptor. |
| TimeManager.Manager.InsertTask | BasiliskII/timer.cpp:203-216 | In place over the 64 descriptors and the task records: a free slot is taken unless the task has one, and the record is marked inactive. |
| TimeManager.Manager.RemoveTask | BasiliskII/timer.cpp:223-256 | In place over the 64 descriptors and the task records: the time left goes into the record and the slot is freed. |
| TimeManager.Manager.PrimeTask | BasiliskII/timer.cpp:263-322 | In place over the 64 descriptors and the task records: wakeup from now, or from the last wakeup for an extended task, and the record marked active. |
| TimeManager.Manager.Execute | BasiliskII/timer.cpp:329-354 | In place over the 64 descriptors and the task records: a routine's own calls, in order. |
| TimeManager.Manager.TimerInterrupt | BasiliskII/timer.cpp:329-354 | In place over the 64 descriptors and the task records: the loop over the table, with routines changing it as it goes. |
| MemoryRanges.NoteAdds | BasiliskII/memory.cpp:252-268 | Noting a range adds exactly its bytes, merged, appended or overlapping, while it fits. |
| MemoryRanges.RangesAreTheCommittedPages | BasiliskII/memory.cpp:315-347 | After any sequence of commits that fits, the union of recorded ranges is the union of the committed pages. |
| MemoryRanges.EndBytesDecide | BasiliskII/memory.cpp:360-375 | Over page-aligned ranges, testing the two end bytes of an access that touches at most two pages, or reaches the top page, is testing every byte. |
| MemoryRanges.AccessIsMappedIffCommitted | BasiliskII/memory.cpp:315-375 | Together: for such an access the answer is yes if and only if every byte of it lies in a committed page. |
| MemoryRanges.LongerAccessesCanHideAHole | BasiliskII/memory.cpp:360-375 | For every other access: with just its two end pages committed the answer is yes, and a page in the middle is not committed. |
| MemoryRanges.EndBytesAreEnoughExactlyWhen | BasiliskII/memory.cpp:360-375 | So the end-byte test is right about an access after every sequence of commits that fits if and only if it touches at most two pages or reaches the top page. |
| MemoryRanges.ShortAccessesSpanTwoPages | BasiliskII/memory.cpp:360-375 | Every access of up to a page and a byte is one of those. |
| MemoryRanges.TheTopByteIsNeverMapped | BasiliskII/memory.cpp:360-375 | No access that ends at or past 4 GB is ever mapped, whatever was recorded. |
| MemoryRanges.ACommitToTheTopIsLost | BasiliskII/memory.cpp:315-347 | A commit whose rounded end is 4 GB is recorded with end 0 and adds no byte. |
| MemoryRanges.ACommitIsLostExactlyWhen | BasiliskII/memory.cpp:252-347 | A granted commit is lost if and only if its rounded end is 4 GB, or the table is full and no recorded range overlaps or adjoins it; and then no byte of it is recorded. |
| MemoryRanges.RangeTable.NoteRange | BasiliskII/memory.cpp:252-268 | In place over the 16-entry array: the first touching entry grows, or a new one is added, or the full table stays. |
| MemoryRanges.RangeTable.CommitRange | BasiliskII/memory.cpp:315-347 | In place over the 16-entry array: rounds out to pages, then notes. |
| MemoryRanges.RangeTable.TestMapped | BasiliskII/memory.cpp:360-375 | In place over the 16-entry array: the read-only loops over both end bytes. |
| SlotRom.EverythingPrintedReadsBack | BasiliskII/slot_rom.cpp:63-191 | Any program of lists, resources and data reads back from the bytes, by sign-extended 24-bit offsets up to the end mark, as exactly the tree that was printed, from any of its parts. |
| SlotRom.FinishedRomReadsBack | BasiliskII/slot_rom.cpp:475-496 | The finished ROM reads back from its directory offset as the printed tree, its length field is its size, and its CRC is right. |
| SlotRom.ChecksumSeals | BasiliskII/slot_rom.cpp:196-215 | Sealing stores the CRC that recomputing over the image finds, and changes only the CRC field. |
| SlotRom.PatchesChangeOnlyTheirWords | BasiliskII/slot_rom.cpp:225-243 | After any sequence of mode patches only the patched words and the CRC differ, and the CRC is right. |
| SlotRom.PatchIsThere | BasiliskII/slot_rom.cpp:225-243 | A patch leaves its row bytes, height and width in the parameter block. |
| SlotRom.ReprintingChangesOneLiteral | BasiliskII/slot_rom.cpp:63-100 | Replacing one literal by another of its length moves nothing: every offset and every other byte of the print is the same. |
| SlotRom.PatchingIsPrintingAgain | BasiliskII/slot_rom.cpp:225-243 | Patching the finished ROM gives, byte for byte and CRC included, the ROM that would have been printed with the new parameters. |
| DeclarationRom.SlotProgramIsOk | BasiliskII/slot_rom.cpp:245-496 | The video card's own program names only parts already printed, so the theorems apply to it. |
| DeclarationRom.InstallSlotRom | BasiliskII/slot_rom.cpp:245-496 | Printing the card's program and the format block and copying them to the end of the Mac ROM leaves there exactly the finished ROM the theorems are about. |
| DeclarationRom.PatchedRomIsTheRomForTheNewSize | BasiliskII/slot_rom.cpp:225-496 | For each of the six depths, patching its mode gives the ROM that would have been installed for the new size. |
| DeclarationRom.Builder.Offs | BasiliskII/slot_rom.cpp:63-70 | In place over the buffer, extending what was printed and keeping it: a tag and the distance back to what it names. |
| DeclarationRom.Builder.Rsrc | BasiliskII/slot_rom.cpp:72-78 | In place over the buffer, extending what was printed and keeping it: a tag and an immediate value. |
| DeclarationRom.Builder.EndOfList | BasiliskII/slot_rom.cpp:80-86 | In place over the buffer, extending what was printed and keeping it: the end mark. |
| DeclarationRom.Builder.PutLong | BasiliskII/slot_rom.cpp:88-94 | In place over the buffer, extending what was printed and keeping it: four bytes, high first. |
| DeclarationRom.Builder.PutWord | BasiliskII/slot_rom.cpp:96-100 | In place over the buffer, extending what was printed and keeping it: two bytes, high first. |
| DeclarationRom.Builder.List | BasiliskII/slot_rom.cpp:183-191 | In place over the buffer, extending what was printed and keeping it: the items of one list and its end. |
| DeclarationRom.Builder.Print | BasiliskII/slot_rom.cpp:245-474 | In place over the buffer, extending what was printed and keeping it: a whole program, with the places of its parts. |
| DeclarationRom.Builder.PrintHeader | BasiliskII/slot_rom.cpp:475-490 | In place over the buffer, extending what was printed and keeping it: the format block, pointing back at the directory and giving the length. |
| DeclarationRom.MacRom.Checksum | BasiliskII/slot_rom.cpp:196-215 | In place at the end of the Mac ROM: the image is sealed and no byte before it changes. |
| DeclarationRom.MacRom.ComputeCrc | BasiliskII/slot_rom.cpp:196-215 | The rotate-and-add loop over the image computes the CRC, with the CRC field read as zero. |
| DeclarationRom.MacRom.PatchVideoMode | BasiliskII/slot_rom.cpp:225-243 | In place: the image becomes the patched one and no byte before it changes. |

## Left out

What a theorem assumes beyond the source:

- Redirect.PixelsLandInTheirOwnBlock: ports whose portRect starts at (0,0) and whose row stride fits 14 bits; `PixelsLandExactlyWhenRowsFit` shows the second condition is needed.
- Redirect.PassPutsPortsBack: windows, handles, PixMaps and regions are heap blocks that do not overlap before the pass, and lie in RAM; the Memory Manager, which guarantees it, is not modelled.
- Arena.LiveBlocksAreDisjoint: the base is 16-aligned with 64 MB above it below 4 GB, and sizes are up to 0xfffffff0 (`AWrappingSizeOverlaps` shows why); whether pages could be mapped is a parameter.
- SafePoint.ActivationsRunTheirOwnRoutine: runs in which nothing the watchdog gave up on returns while another activation is inside, which `RoutinesStayCoveredExactlyWhen` shows is needed; applications switch only inside Toolbox calls, so the stub's own instructions are atomic between calls.
- LocalTalk.AcceptedFrameIsReadOut: not across Rx disable, WR0 command 4, a channel or machine reset or an outgoing RTS, each of which drops the frame.
- LocalTalkNetwork.EveryFrameIsAccountedFor: sockets are a bag of datagrams any of which may arrive any number of times; a node drops what carries its own stamp, so nodes sharing a stamp never hear each other.
- FilterHook.Hook.WindowSafePoint: what the driver's plain switch, the geometry copy and _AllocCursor leave of guest memory is a parameter that spares our block; the menu client called first and the completion report are not part of the visit.
- FilterHook.Hook.EnsureGuestCode: the block it is given lies above low memory, as the arena does.
- Scsi.ScsiManager.ExecTib: takes a bound on the number of instructions; a block that has not stopped by then answers None. The step theorems hold for every bound.
- Bitfield.PatchingNamesTheSameBits: offsets from INT_MIN + 8 up; below, the rounding the code does overflows a C int.
- Interrupts.InterruptThenPopRestores: the frames are in RAM and, in the master state, far enough apart; `StacksMustBeFarApart` shows that distance is exact.
- Traps.RunKeepsInv: what NewPtr returns is RAM below the last bytes of the address space that no table entry leads into; what the guest itself puts into the table in between is a parameter only of `InstalledIsRecognised`, `InstallingAgainChangesNothing` and `InstallingAgainHooksExactlyWhen`.
- Timer.ExtendedTasksDoNotDrift: the machine is not reset; the task is not removed, not inserted again, not primed with 0, and its record is written only by the Time Manager.
- Timer.RemovedTaskHoldsWhatIsLeft: emulated time spent of less than 2^31 microseconds, since the code puts it through the 32-bit Mac format.
- MemoryRanges.AccessIsMappedIffCommitted: commits that fit the 16 entries and end below 4 GB (`ACommitIsLostExactlyWhen` shows both are needed); strict-hole mode only.
- DeclarationRom.Builder.Print: the print fits the 4096-byte buffer, which the source does not check either.

What the model does not have:

- Memory-mapped I/O; an access partly in ROM is decided by its first byte; only bit fields wrap at 4 GB inside an access.
- What Toolbox routines do: they are an oracle over the calls so far. The guest is taken not to overwrite trampolines, stub or scratch area.
- Reading the window list from guest memory: a walk is a parameter, and is duplicate-free. Host UI callbacks, queued clicks and keys, and dialog auto-dismiss.
- The search for a display mode: what it finds is a parameter of the visit.
- A link tick that overtakes a register access: a tick is a step of its own, while SDL/main_sdl.cpp:393 makes one on the timer thread without a lock.
- SCC registers WR7, WR10, WR11 and WR14, which the source only logs; link and external-status timing.
- The trap table's aliasing of trap numbers: it is keyed by the whole number.
- Overlapping TMTask records, nested timer interrupts, and the delay INT_MIN; timer routines are lists of the calls they make.
- Musashi's opcode handlers, cycle counts, FPU and PMMU, address and bus errors, and frames of formats 2, 8, A and B. SR is packed as a sum of disjoint bits.
- The declaration ROM's driver code, names and gamma table: they are parameters.
- Sockets, files, preferences, logging, sound, disks and the rest of the drivers.
