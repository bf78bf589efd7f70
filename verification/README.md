# mdio-tools: the MDIO byte code machine, its compilers and the mvls tables

`mdio` talks to devices on an MDIO bus by sending small programs to a kernel module.
The kernel validates a program, runs it on a machine with eight 16-bit registers, and
sends back what it emits. This project models both sides and proves what the manual
promises of them, and it models two pieces of the companion tool `mvls`.

| file | what it models |
|---|---|
| `words.dfy`, `isa.dfy` | fixed-width words, bitwise AND and OR, the instruction encoding |
| `machine.dfy`, `kernel.dfy` | the machine as a step function and as the loop over a register array |
| `reference.dfy` | the instruction set and whole runs a second time, as relations in plain numbers, and that the machine does just that |
| `validator.dfy` | the static validator, that every generated program passes it, and which requests fit their buffer |
| `transfer.dfy` | packing EMITs into bounded netlink messages, closing with error and end marker, what of it always arrives |
| `fragment.dfy` | relocatable fragments, sequencing, loops, completed runs |
| `program.dfy`, `drivers.dfy`, `operations.dfy` | the instruction buffer, the drivers, and raw, bench and dump |
| `binding.dfy`, `meaning.dfy` | what it means for a driver to drive a device, and what the generic operations then mean |
| `devices.dfy`, `paged.dfy`, `paged_dump.dfy`, `mmd_window.dfy`, `multichip.dfy`, `xrs.dfy` | the devices behind the drivers |
| `deadlines.dfy` | what a deadline can do to the page register of a paged PHY |
| `status.dfy`, `counters.dfy`, `tables.dfy` | the status, counter and LAG programs |
| `guarantees.dfy` | masked writes device by device, and one read followed through all layers |
| `devsort.dfy`, `devlist.dfy` | the device sort of `mvls`, as a function and on the linked list |
| `region.dfy`, `vtu.dfy` | region reassembly, VTU and STU unpacking |

## How runs are stated

`Run` is total: its budget is the number of instructions that the deadline allows, so a
run ends by finishing, by timing out, by a bus error or, never for validated programs,
by getting stuck. `Leads(f, bus, c, d)` says that fragment `f` started in `c` finishes
in `d` given enough time. `LeadsMeaning` turns that into a statement about every budget
and `LeadsUnique` makes `d` the only possible result. A bus is any pair of functions on
any state, so a theorem for all buses covers every pattern of answers.

`Reference` says the same without the step function: a run is a path of states, each
related to the next by what the opcode does to registers, device and output, that ends
outside of the program, with the budget spent, or at the first bus call that fails.
There is exactly one such conclusion, and `Eval` and `CmdXfer` promise it.

A `Binding` names a driver, a bus with a device on it, and the abstract register
operation its fragments must amount to. `Implements` is the contract; the generic
operations are proved once from it and every driver is proved to meet it.

## Where the code does less than it seems to

- The sort of `mvls` is one pass. `SortedIffNoPattern` says for which lists that is
  enough, and `OnePassIsNotEnough` gives the smallest list for which it is not.
- Closing a transfer can swallow a pending error: `CloseDeliversIff` gives the exact
  condition in terms of the room left, `ErrorSwallowed` what the receiver sees. The
  emitted words themselves always arrive: `DataConserved`. The return code is 0 in
  some cases of loss: `CloseReturns`.
- Masked writes through the xrs driver store 0 and its `bench DATA` writes 7:
  `MaskedWriteRightIffNoMask`, `BenchDataReports`.
- The FID selection of an ATU flush loses the upper bits of the register it modifies:
  `FidSelectionDropsUpperBits` says when the stored value is the intended one.
- A deadline can leave a paged PHY on the wrong page. `ReadWindow`, `WriteWindow`,
  `WritePageWindow` and `DumpWindow` give the exact budgets; the window of a dump grows
  by two instructions per register.
- A value written to the page register of a paged PHY through its driver survives only
  if the page was already selected or it is the value the register held:
  `WritePageRegister`.
- The generic dump shows every even register of an xrs switch twice: `XrsDump`.
- The length test on a program ignores the rest of the request, so the longest programs
  that pass it do not fit the request buffer: `LengthTestGap`, and `DumpAcceptedIff` for
  dumps, the only generated programs that get that long.

## Model

| member | source | states |
|---|---|---|
| Words.BitwiseMeaning | kernel/mdio-netlink.c:134-144 | the machine's AND and OR act on every bit independently |
| Words.RegisterArithmetic | kernel/mdio-netlink.c:134-150 | AND and OR on 16-bit registers bit by bit, and ADD with its wrap |
| Words.BitsDetermine | kernel/mdio-netlink.c:134-144 | words with equal bits are equal, so the bitwise statements fix the result |
| Words.UpperNibble | src/mdio/mvls.c:411-412 | the intended mask keeps the upper four bits and replaces the others |
| Isa.GotoIsRelative | src/mdio/mdio.h:22 | a jump operand depends on the distance between its positions only |
| Machine.WrappingPcRefinesIdeal | kernel/mdio-netlink.c:85-94 | with the 32-bit wrapping counter and 16-bit jumps every run is the run of an integer machine that halts as soon as the counter leaves the program on either side |
| Machine.GotoReachesTarget | src/mdio/mdio.h:22 | a taken GOTO(from, to) at index from continues at exactly to |
| Machine.ValidatorIsExact | kernel/mdio-netlink.c:188-260 | an instruction is accepted iff no registers and no bus can make it hit BUG or the default arm, plus the rules on unused and untaken operands |
| Machine.ValidatedNeverStuck | kernel/mdio-netlink.c:80-180 | a validated program leaves the loop only by running off the program, by timeout or by a negative bus result |
| Reference.StepGoes | kernel/mdio-netlink.c:100-175 | every move of the machine is one that the reference allows for its opcode, a failing bus call is a failure with registers and output kept, and nothing else happens |
| Reference.GoesOnce | kernel/mdio-netlink.c:100-175 | the reference allows at most one move from any state |
| Reference.ValidatorTable | kernel/mdio-netlink.c:188-260 | which operand modes each of the opcodes 1 to 8 takes |
| Reference.RunConcludes | kernel/mdio-netlink.c:80-180 | every run of a validated program, for every bus and budget, is a path of the reference that ends outside of the program with 0, with the budget spent with -110, or at a failing bus call with its answer |
| Reference.ConcludesOnce | kernel/mdio-netlink.c:80-180 | path, return code, device and output of a run are unique |
| Reference.FirstFailureEnds | kernel/mdio-netlink.c:102-132 | the first bus call that answers e below 0 ends the run with e, with the registers and output of before it and the device as the bus left it |
| Validator.ValidateInsn | kernel/mdio-netlink.c:231-260 | the check of one instruction against the prototypes |
| Validator.ValidateProg | kernel/mdio-netlink.c:262-283 | success iff the attribute is a whole number of instructions and all are valid |
| Kernel.Execute | kernel/mdio-netlink.c:100-175 | one pass through the switch on the register array does what the step function and the reference say, with the emitted words in the transfer |
| Kernel.Eval | kernel/mdio-netlink.c:80-180 | return code, device state and emitted words are those of Run and of the one path of the reference, for every budget, bus and validated program |
| Kernel.CmdXfer | kernel/mdio-netlink.c:377-412 | for the run that the reference knows: every emitted word arrives once and in order, with a swallowed error after them at most; the run's error and the end marker arrive iff the closing words fit; the code returned is 0 iff they fit or some message can hold an end marker, else -90 |
| Transfer.Xfer.constructor | kernel/mdio-netlink.c:298-328 | a fresh transfer has an open message and has emitted nothing |
| Transfer.Xfer.Open | kernel/mdio-netlink.c:298-328 | allocates headers and the DATA nest, or refuses if they do not fit |
| Transfer.Xfer.Emit | kernel/mdio-netlink.c:40-52 | appends exactly the datum to what was emitted, through a flush if the message is full, whenever one datum fits a message |
| Transfer.Xfer.Flush | kernel/mdio-netlink.c:29-38 | sends the open message with nest and header ended and opens an empty one |
| Transfer.Xfer.CloseMsg | kernel/mdio-netlink.c:330-375 | sends the messages and returns the code of Close in all its branches |
| Transfer.Xfer.LastFillIs | kernel/mdio-netlink.c:40-52 | all earlier messages are full, so the fill of the open one is determined by the number of words emitted |
| Transfer.CloseDeliversIff | kernel/mdio-netlink.c:330-375 | data in order, error exactly once in the last data message and end marker after it, iff the end marker fits (no error), or attribute and marker fit together or neither fits (error) |
| Transfer.ErrorSwallowed | kernel/mdio-netlink.c:350-366 | if only the attribute fits, the receiver sees the error as two more data words, no error and no end marker |
| Transfer.DataConserved | kernel/mdio-netlink.c:330-375 | for every capacity, trace and error the data of all messages is the trace, followed by the two words of the error attribute iff it is swallowed |
| Transfer.CloseReturns | kernel/mdio-netlink.c:330-375 | the final close returns 0 iff everything was delivered or an end marker fits an empty message |
| Fragment.RunEmbedded | kernel/mdio-netlink.c:92-162 | a closed fragment runs the same wherever it is embedded, including its timeouts and bus errors |
| Fragment.Relocate | src/mdio/mdio.c:179-183 | prefix + fragment + suffix from the fragment's start is the fragment alone and then the suffix |
| Fragment.LeadsMeaning | kernel/mdio-netlink.c:92-98 | a completed run has a threshold: from that budget on it finishes in the same state, below it it times out |
| Fragment.LeadsUnique | kernel/mdio-netlink.c:92-176 | completed runs are deterministic |
| Fragment.LeadsSeq | src/mdio/mdio.c:179-183 | fragments pushed one after the other run one after the other |
| Fragment.LoopExit | src/mdio/mdio.h:22 | a backward jump not taken ends the loop around a fragment |
| Fragment.LoopAgain | src/mdio/mdio.h:22 | a backward jump taken runs the fragment again from its start |
| Program.Prog.Push | src/mdio/mdio.c:179-183 | appends one instruction |
| Drivers.PhyRead | src/mdio/phy.c:14-20 | appends the read fragment |
| Drivers.PhyWrite | src/mdio/phy.c:22-29 | appends the write fragment |
| Drivers.MmdC22Read | src/mdio/phy.c:237-255 | appends address cycle and data read over registers 13 and 14 |
| Drivers.MmdC22Write | src/mdio/phy.c:257-275 | appends address cycle and data write over registers 13 and 14 |
| Drivers.PagedRead | src/mdio/paged-phy.c:22-41 | appends save, switch, read, restore |
| Drivers.PagedWrite | src/mdio/paged-phy.c:43-63 | appends save, switch, write, restore |
| Drivers.PagedDump | src/mdio/paged-phy.c:126-151 | appends one switch, the registers of the range in order, one restore; the page is masked away from the start of the range |
| Drivers.MvlsWaitCmd | src/mdio/mvls.c:42-51 | appends the polling loop, the same at every offset |
| Drivers.MvlsReadTo | src/mdio/mvls.c:53-73 | appends a direct or a command read |
| Drivers.MvlsWrite | src/mdio/mvls.c:82-103 | appends a direct or a command write |
| Drivers.MvlsWait | src/mdio/mvls.c:105-114 | appends the wait on bit 15 of a switch register |
| Drivers.XrsRead | src/mdio/xrs.c:17-26 | appends address setup and data read |
| Drivers.XrsWrite | src/mdio/xrs.c:28-38 | appends data and address setup, with the value wrapped as an immediate once more |
| Operations.RawExec | src/mdio/mdio.c:374-392 | builds the read, the plain write or the read/mask/write program |
| Operations.BenchExec | src/mdio/mdio.c:455-489 | builds reference, counter and loop |
| Operations.DumpExec | src/mdio/mdio.c:527-541 | builds the driver's own dump or the unrolled one, and leaves the start of the range that the callback gets, without the page on paged PHYs |
| Operations.DumpTakenIff | src/mdio/mdio.c:502-514 | the callback takes one word per register of a range iff the range does not end before the register in front of its start |
| Operations.CallbackCounts | src/mdio/mdio.c:502-514 | the callback passes the outcome on for exactly END - START + 1 words and returns 1 for any other number |
| Operations.MaskingMatters | src/mdio/paged-phy.c:133-134 | with the page left in the start the callback would refuse the words of every page but 0 |
| Bindings.ReadCodeClosed | src/mdio/mdio.h:146-151 | every driver's read is closed and at most six instructions, so it may be pushed anywhere |
| Bindings.WriteCodeClosed | src/mdio/mdio.h:146-151 | every driver's write is closed and at most six instructions |
| Meaning.RawReadMeaning | src/mdio/mdio.c:387-392 | raw REG emits exactly the abstract load |
| Meaning.RawWriteMeaning | src/mdio/mdio.c:374-386 | raw REG DATA/MASK stores a value whose bit i is bit i of DATA or of both load and MASK, raw REG DATA stores DATA, nothing is emitted, for every driver meeting the contract |
| Meaning.RawWriteOnStorage | src/mdio/mdio.c:374-386 | on storing registers bit i of the target ends as bit i of DATA or of both old value and MASK in both forms, and nothing else changes |
| Meaning.DumpMeaning | src/mdio/mdio.c:532-541 | the unrolled dump emits the registers of the range in order |
| Meaning.DumpWords | src/mdio/mdio.c:532-541 | the program of dump START-END on storing registers emits END - START + 1 words, word i being register START + i |
| Meaning.BenchLoopMeaning | src/mdio/mdio.c:478-489 | the loop runs once per count still missing from R6 and emits in order the loads that differ from R7 |
| Meaning.BenchMeaning | src/mdio/mdio.c:455-489 | exactly 1000 loads after the reference, reporting in order exactly the differing ones |
| Meaning.BenchOnStorage | src/mdio/mdio.c:455-489 | on storing registers nothing is reported and only the optional write changes the device |
| Meaning.SessionMeaning | src/mdio/mdio.h:146-151 | any sequence of driver reads (each emitted) and writes amounts to the sequence of abstract operations |
| Meaning.SessionsRefine | src/mdio/mdio.h:146-151 | drivers with the same abstract operation are interchangeable in any sequence of accesses |
| Devices.PhyImplements | src/mdio/phy.c:14-29 | the phy driver is one direct access on any device, for Clause 22 and Clause 45 ids |
| PagedPhy.ReadMeaning | src/mdio/paged-phy.c:22-41 | the complete final state of a paged read |
| PagedPhy.WriteMeaning | src/mdio/paged-phy.c:43-63 | the complete final state of a paged write, whose operand is taken before R1 and the page matter |
| PagedPhy.ReadRestoresPage | src/mdio/paged-phy.c:22-41 | all 16 bits of the page register are restored, it is written not at all or exactly twice, and only the requested register of the requested page is touched in between |
| PagedPhy.WriteRestoresPage | src/mdio/paged-phy.c:43-63 | the same for writes, which change the one requested register of the one requested page |
| PagedPhy.WritePageRegister | src/mdio/paged-phy.c:43-63 | afterwards the page register holds the written value if the page was already selected, else its old value; so the value survives iff the page was selected or the value was what it held |
| PagedPhy.PagedImplements | src/mdio/paged-phy.c:22-63 | the paged driver meets the contract, page register included in what is preserved, for any way of decoding the page |
| PagedDumps.DumpRun | src/mdio/paged-phy.c:126-151 | the dump restores the page and does all its reads, in order, between at most one switch and one restore |
| PagedDumps.DumpRefinesUnrolled | src/mdio/paged-phy.c:126-151 | the dump emits the same words and leaves the same device state as one paged read and EMIT per register |
| PagedDumps.DumpWords | src/mdio/paged-phy.c:126-151 | the paged dump emits one word per register, word i being register FIRST + i of the page, and the page register ends as it began |
| Deadlines.ReadWindow | src/mdio/paged-phy.c:22-41 | a read cut off after n instructions leaves the page as it was iff no switch was needed or n is outside 3 to 5 |
| Deadlines.WriteWindow | src/mdio/paged-phy.c:43-63 | the same window for a write of another register than the page register |
| Deadlines.WritePageWindow | src/mdio/paged-phy.c:43-63 | for a write of the page register itself: the exact budgets and values for which it ends as it was |
| Deadlines.DumpWindow | src/mdio/paged-phy.c:126-151 | a dump of m registers cut off after n instructions leaves the page as it was iff no switch was needed or n is outside 3 to 2m + 4 |
| MmdWindow.WindowReads | src/mdio/phy.c:237-255 | one read over registers 13 and 14, which end as set for data without post increment, still pointing at the register |
| MmdWindow.WindowWrites | src/mdio/phy.c:257-275 | the same for one write |
| MmdWindow.WindowImplements | src/mdio/phy.c:237-275 | the mmd-c22 driver meets the contract from any state of registers 13 and 14 |
| MmdWindow.WindowRefinesClause45 | src/mdio/phy.c:237-275 | any sequence of accesses over registers 13 and 14 gives the same words and MMD contents as Clause 45 frames |
| MultiChip.MultiCmdFields | src/mdio/mvls.c:36-40 | the command word decodes to operation, port and register |
| MultiChip.WaitMeaning | src/mdio/mvls.c:42-51 | the wait ends after finitely many polls with the command completed and R0 clear |
| MultiChip.MultiReadTo | src/mdio/mvls.c:53-73 | from an idle front end one load reaches the switch, its value reaches the register, the front end is idle again |
| MultiChip.MultiWrite | src/mdio/mvls.c:82-103 | from an idle front end one store of the operand's initial value reaches the switch, the front end is idle again |
| MultiChip.SingleImplements | src/mdio/mvls.c:62-96 | single-chip addressing meets the contract on any switch |
| MultiChip.MultiImplements | src/mdio/mvls.c:53-103 | multi-chip addressing meets the same contract on any switch and for any finite busy times |
| MultiChip.BothModesServe | src/mdio/mvls.c:53-103 | any switch is served by both addressing modes, so what is proved for served switches holds in both |
| MultiChip.MultiChipRefinesSingleChip | src/mdio/mvls.c:53-103 | any sequence of accesses gives the same words and the same switch state in both addressing modes |
| XrsSwitch.XrsImplements | src/mdio/xrs.c:17-38 | reads and immediate writes of the xrs driver meet the contract |
| XrsSwitch.MaskedWriteStoresZero | src/mdio/xrs.c:34-34 | a masked raw write on xrs stores 0 |
| XrsSwitch.MaskedWriteRightIffNoMask | src/mdio/xrs.c:28-38 | raw REG DATA/MASK does what it should on every device state iff MASK is 0 |
| XrsSwitch.BenchDataReports | src/mdio/xrs.c:28-38 | bench REG DATA writes 7 and reports all 1000 reads unless DATA is 7 |
| XrsSwitch.XrsDump | src/mdio/mdio.c:532-541 | word i of an xrs dump is register first + i rounded down to even, so every even register in the range comes twice |
| Status.ProbeMeaning | src/mdio/bus.c:28-42 | the probe ends having emitted 96 words, word i being register i % 3 + 1 of address i / 3, whatever the devices answer |
| Status.RowsIndex | src/mdio/bus.c:12-23 | word 3 * address + j is register j + 1, the stride of the callback |
| Status.MmdStatusMeaning | src/mdio/phy.c:162-171 | the MMD status emits 16 words, word r being register r |
| Status.ListMeaning | src/mdio/phy.c:61-73 | the unrolled status programs emit the listed registers in order |
| Status.PhyStatusMeaning | src/mdio/phy.c:59-73 | emits registers 0, 1, 2, 3 and 15 in order |
| Status.MvaStatusMeaning | src/mdio/paged-phy.c:181-197 | emits registers 0 to 3 and the page register in order |
| Counters.CounterReadOne | src/mdio/mvls.c:285-296 | appends operation, wait and the two halves |
| Counters.CounterExec | src/mdio/mvls.c:332-352 | builds the counter program for either port numbering |
| Counters.StatsWait | src/mdio/mvls.c:105-114 | the wait on the statistics unit ends with its operation performed, in either addressing mode |
| Counters.ReadOneMeaning | src/mdio/mvls.c:285-296 | emits upper and lower half of the counter at the last capture |
| Counters.PortLoopMeaning | src/mdio/mvls.c:336-352 | one capture and twelve words per port still to do, without 16-bit wrap |
| Counters.CounterMeaning | src/mdio/mvls.c:319-352 | on any binding that serves the switch, whatever the busy times: 11 captures and 132 words, from which the callback makes for port i counters 0x04, 0x06, 0x07, 0x10, 0x13 and 0x12 of its capture, in this order |
| Counters.CounterInBothModes | src/mdio/mvls.c:319-352 | so for a switch directly on the bus and for one behind the command registers at any address |
| Counters.TableIndex | src/mdio/mvls.c:265-278 | which two of the 132 words hold which counter of which port, by number |
| Counters.CounterCtx.Update | src/mdio/mvls.c:256-283 | a table of other than 132 words is refused with 1 and without effect, any other replaces the reference by its recombined counters |
| Counters.CallbackRecoversCounters | src/mdio/mvls.c:268-270 | on the words of the program cell n of port i is the 32-bit counter that belongs into column n |
| Counters.CombineWords | src/mdio/mvls.c:268-270 | two 16-bit halves recombine to upper * 65536 + lower |
| Tables.LagExec | src/mdio/mvls.c:221-238 | builds the LAG program |
| Tables.LagMeaning | src/mdio/mvls.c:221-238 | on any binding that serves the switch, emits 24 words, 16 map entries with their index at bit 11 and 8 masks with their index at bit 12, and leaves tables and HashTrunk bit unchanged |
| Tables.LagInBothModes | src/mdio/mvls.c:221-238 | so in both addressing modes |
| Tables.FidSelectionDropsUpperBits | src/mdio/mvls.c:409-413 | register 1 of global 1 ends as the FID alone, which is the intended old / 4096 * 4096 + FID iff the upper four bits were 0 |
| Validator.RawAccepted | src/mdio/mdio.c:374-392 | every raw program is valid and its request fits beside any bus name |
| Validator.BenchAccepted | src/mdio/mdio.c:455-489 | every bench program is valid and its request fits |
| Validator.DumpAcceptedIff | src/mdio/mdio.c:623-634 | a dump is accepted iff its length, a function of driver and range, is at most 512 instructions; its request fits the buffer iff it is at most Longest(name) |
| Validator.LengthTestGap | src/mdio/mdio.c:623-634 | for every bus name the programs that pass the length test and do not fit are exactly those of more than Longest(name) up to 512 instructions, and there are some |
| Validator.StatusAccepted | src/mdio/bus.c:30-42 | the probe and MMD status programs are valid and their requests fit |
| Validator.ListAccepted | src/mdio/phy.c:61-72 | the unrolled status programs are valid, two instructions per register |
| Validator.StatusListsAccepted | src/mdio/phy.c:61-73 | both unrolled status programs are valid and their requests fit |
| Validator.CounterAccepted | src/mdio/mvls.c:332-352 | the counter program is valid and its request fits |
| Validator.LagAccepted | src/mdio/mvls.c:221-238 | the LAG program is valid and its request fits |
| Guarantees.PhyMaskedWrite | src/mdio/phy.c:14-29 | masked write on a Clause 22 or 45 register: bit i of the target ends as bit i of DATA or of both old value and MASK, no other register changes |
| Guarantees.MmdC22MaskedWrite | src/mdio/phy.c:237-275 | the same bit by bit for MMD registers over Clause 22 |
| Guarantees.PagedMaskedWrite | src/mdio/paged-phy.c:22-63 | the same bit by bit for paged registers, with the page register restored |
| Guarantees.MvlsMaskedWrite | src/mdio/mvls.c:53-103 | the same bit by bit for switch registers in multi-chip mode, with the front end idle again |
| Guarantees.RawReadTransfer | src/mdio/mdio.c:387-402 | built, validated, run and closed, raw REG either misses the deadline or delivers exactly the value of the register |
| DevList.Head.InsertTail | src/mvls/queue.h:487-492 | appends, with all links right |
| DevList.Head.InsertBefore | src/mvls/queue.h:504-509 | inserts before the given element, with all links right |
| DevList.Head.Remove | src/mvls/queue.h:511-521 | unlinks the given element, with all links right |
| DevList.Head.Sort | src/mvls/mvls.c:459-484 | terminates with a well-formed list that holds what the pass makes of the old order |
| SortPass.BubbleProgress | src/mvls/mvls.c:473-481 | each move lowers the number of devices smaller than the one at the cursor, with the same devices left |
| SortPass.PassPermutes | src/mvls/mvls.c:459-484 | the pass permutes the devices |
| SortPass.MaximumLast | src/mvls/mvls.c:459-484 | a device with the largest index ends up last |
| SortPass.UnchangedIffSorted | src/mvls/mvls.c:459-484 | the order is unchanged iff it was sorted |
| SortPass.SortedIffNoPattern | src/mvls/mvls.c:459-484 | the result is sorted iff no device is followed by one not below it and later by one below both |
| SortPass.OnePassIsNotEnough | src/mvls/mvls.c:463-464 | indices 2, 3, 1 become 2, 1, 3 |
| Regions.Region.Grow | src/mvls/devlink.c:156-168 | growing keeps the earlier bytes |
| Regions.Region.Copy | src/mvls/devlink.c:170-170 | copying a chunk changes exactly the bytes it covers |
| Regions.Region.Put | src/mvls/devlink.c:157-170 | one chunk: the region grows to its end if needed, its bytes are stored, all others are kept |
| Regions.Region.AddChunks | src/mvls/devlink.c:138-173 | the size is the largest end, each covered byte is its latest writer's, the rest is kept; the first chunk that ends beyond what can be allocated drops the region |
| Regions.HoldsSize | src/mvls/devlink.c:150-168 | every chunk is inside of the region, which is as large as it was or ends with some chunk |
| Regions.MessagesCompose | src/mvls/devlink.c:122-174 | how a dump is split into messages does not matter |
| Regions.SnapshotRebuilt | src/mvls/devlink.c:122-174 | chunks cut from a snapshot and covering it rebuild it in any order |
| Regions.Rebuild | src/mvls/devlink.c:122-174 | a fresh region fed with such chunks holds the snapshot |
| Vtu.VtuParse | src/mvls/mvls.c:12-37 | which entries are refused, which bits every field comes from, and that no priority override is set |
| Vtu.StuParse | src/mvls/mvls.c:53-71 | the same for spanning tree entries, two bits above the memberships in the 4-bit layout |
| Vtu.FieldIs | src/mvls/mvls.c:27-29 | word and bit position of every field of both layouts and tables, by number |
| Vtu.PlacesDiffer | src/mvls/mvls.c:27-29 | in both layouts and both tables two fields share register and position only if they are the same |
| Vtu.SetFieldIsolated | src/mvls/mvls.c:27-29 | changing one port's field changes no other field of either table |
| Vtu.UnpackPack | src/mvls/mvls.c:53-71 | unpacking inverts packing for every vector and leaves the other table's fields alone |
| Vtu.PackAndParse | src/mvls/mvls.c:12-37 | the parser recovers the packed members |
| Vtu.PackBothAndParse | src/mvls/mvls.c:12-71 | with memberships and states in the same registers, written in either order, each parser recovers its own |

## Left out

- Netlink, generic netlink and libmnl plumbing, sockets, family and bus lookup: a message is its capacity, its data, its length fields, the error attribute and the end marker.
- Failing allocation and failing unicast inside a transfer: they are taken to succeed.
- Mutexes, jiffies and real time: a deadline is the number of instructions it allows.
- Command-line parsing and `cmds.ld`: parsed values are inputs.
- DumpExec: takes a range end below UINT32_MAX, without which the source's loop does not end.
- PagedDump: the same; the theorems about it take a range end of at most 31, the register limit its driver's parser enforces.
- linux/mdio.h is not part of the repository: the Clause 45 id test and fields are those of its `mdio_phy_id_is_c45`, `mdio_phy_id_prtad` and `mdio_phy_id_devad`.
- Printing: print-phy.c, mvls-show.c, mvls-json.c, the output of the callbacks and the usage texts.
- The two reserved bits and the byte order of an encoded instruction: nothing reads them.
- `realloc` and aliasing of the instruction buffer: `Prog` holds a sequence that `Push` reassigns.
- The ATU flush after the FID selection, whose programs are a read/mask/write and two waits of kinds proved here.
- Register side effects such as clear-on-read bits, except in the statements over arbitrary devices, which allow them.
- Commands of a multi-chip front end that never end: the polling loops then run into the deadline.
- linux/phy.h is not part of the repository: bus names are taken to be at most 60 characters, its `MII_BUS_ID_SIZE` less the NUL, where requests are said to fit.
- A region chunk without data or address, and one whose address attribute is not last in its nest: the iteration in the source then continues from another attribute.
- AddChunks: does not model the 64-bit wrap of a chunk's end, because the copy after it would leave the buffer.
- The bytes that growing a region leaves uncovered are arbitrary.
- The other VTU, ATU and PVT accessors of mvls.c and the unused macros of queue.h: easy or unused.
