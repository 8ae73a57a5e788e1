# Verified model of the ZirconSim host

ZirconSim simulates a RISC-V core: Verilator runs the RTL, Spike runs beside it as a
reference, and a host program written in C++ answers the core's bus, checks every retired
instruction and saves and restores checkpoints. This project is a Dafny model of that host
program, with proofs. Verilated RTL and Spike are foreign code: the core is an arbitrary
bus master (or any deterministic machine with the bus ports), the reference is a source of
commits with registers and memory.

## What is modelled

| files | part of the host |
|---|---|
| `Words.dfy` | fixed-width words, bytes of a word, bits of a word |
| `Checkpoint.dfy` | the byte stream of a checkpoint: fields, strings, capped counts, hash maps |
| `SparseMemory.dfy` | the word-packed memory with its aligned and byte-wise paths |
| `PlatformDevices.dfy` | timer and UART, in the byte view of the reference and the lane view of the bus |
| `ElfImage.dfy`, `ElfLayout.dfy`, `ElfSymbols.dfy`, `ElfMemory.dfy` | loading raw and ELF images, structure layouts, symbols, and what is accepted and loaded in terms of the bytes of the file |
| `ExitMonitor.dfy`, `AxiExit.dfy` | the tohost monitor, and when it shows what memory holds |
| `DeterministicRng.dfy` | the xorshift generator behind the backpressure |
| `AxiSlave.dfy`, `AXIMemory.dfy` | the AXI4 slave: as a transition function, and as the object that carries it out |
| `AxiScoreboard.dfy`, `AxiRefinement.dfy` | what a plain byte memory behind correct AXI4 channels may show, and that every run of the slave shows just that |
| `AxiTraces.dfy`, `AxiBursts.dfy`, `AxiBeats.dfy` | what follows for channel traces: stability, conservation, where beats come from and go to, when signals are up, which bursts are accepted |
| `AxiResponses.dfy` | the response to every access, by its address, size and length |
| `AxiAddresses.dfy`, `AxiDevices.dfy` | beat addresses against those of the protocol, and device writes against the whole bus window |
| `AxiRestored.dfy` | the slave after a restore from a stream that no save has written |
| `AxiCheckpoint.dfy`, `HostCheckpoint.dfy`, `HostStream.dfy`, `HostObjects.dfy` | the sections of a checkpoint and its stream, on values and on the objects |
| `CheckpointLayout.dfy` | the bytes of each section, field by field |
| `Truncation.dfy`, `Fingerprint.dfy`, `HostResume.dfy`, `HostTimer.dfy` | truncated streams, the fingerprint of the core's file, resumed runs, and the interrupt and the time that a run shows |
| `VectorStores.dfy`, `VectorEncoding.dfy`, `VectorCommit.dfy` | the differential checker of vector instructions |
| `VectorMemory.dfy` | what the collected store bytes do to memory |
| `VectorElements.dfy` | the element classes of the vector standard, by instruction, against those of the checker |
| `VectorLockstep.dfy`, `Lockstep.dfy` | what acceptance means for the vector and scalar registers over whole traces |
| `Accounting.dfy` | instruction classes, branch profile, ring of recent commits |

Each stateful class of the source is a class here, with the source's fields. Its methods
are proved against functions on values, and the theorems are about those functions, so
they speak of every run of the methods.

## Main results

- **The AXI slave refines a byte memory.** `AxiRefinement.EveryRunIsAccepted`: for any image,
  with or without the platform, against any master and any pattern of backpressure, every
  run is accepted by a scoreboard that sees only the five channels. The scoreboard keeps a
  log of strobed bytes, the devices and the AXI4 channel rules (AMBA AXI, IHI 0022, sections
  A3.2.1 and A3.3). It shares with the slave the address of a beat, the decoder, the narrow
  word of a device beat and the device operations. Each has theorems of its own: `AxiAddresses`
  compares the addresses with section A3.4.1, `AxiBursts` says which bursts are accepted,
  `AxiDevices` what a device beat stores. `AxiTraces` draws the conclusions on the channel
  activity alone: every beat, until it is taken, carries what memory held when it was first
  presented (`EveryBeatWasFresh`), valid payloads are stable (`ChannelsAreStable`), bursts have
  ARLEN + 1 beats at ARADDR + k * 2^ARSIZE with RLAST on the last one (`EveryBurstIsWhole`),
  W beats go to AWADDR + k * 2^AWSIZE (`AxiBeats.EveryWriteBeatLands`), and transactions are
  conserved (`EveryRunConservesTransactions`). `AxiBeats.EverySignal` says exactly when each
  ready and valid signal is up, `AxiResponses` what each access is answered.
- **A resumed run cannot be told from one that was never stopped**, with one exception below.
  `HostResume.ResumedRunIsUninterrupted`: stop any run of a core and this host where a
  checkpoint can be taken, write the two files with the hash maps in any order, restore them
  into a process set up alike, and go on. The restore succeeds exactly when the state is
  within the caps, and then every later output, exit report, interrupt and state is the one
  of the run that was never stopped. Cut anywhere or followed by anything, a host file is
  refused (`Truncation.EveryCutIsRefused`, `HostStream.HostRoundTrip`); so is one beside a core's
  file with a changed byte (`HostResume.ChangedRtlIsRefused`).
- **The timer interrupt.** `HostTimer.InterruptTellsTimer`: in every pass of every run the core
  sees the interrupt exactly if the time has reached the compare register when the pass begins;
  in a run that does not write to the devices that is so exactly from pass
  10 * (mtimecmp - mtime) - subcycle on (`InterruptOfQuietRun`).
- **The vector checker, and how far it is the standard's.** `VectorCommit.CompareVectorCommit`
  accepts exactly when flags and configuration agree (`StateAgreesIff`), the store bytes and the
  final memory agree (`StoreCheckIsExact`; `VectorMemory` says what the bytes do to memory), and all 256 bits of every register of the reported group are the
  reference's, or ones in the elements that the code takes for agnostic. `VectorElements` has
  the tables of RISC-V V 1.0 for Zve32f, with the element classes of each instruction
  (prestart, active, inactive, tail, unchanged), and proves for every instruction, vtype, mask
  and element that the code's elements are the agnostic ones of the standard if and only if
  the element is not of two kinds (`AgnosticIff`), and that the comparison is the standard's for
  all register contents if and only if no element is (`ComparisonIsStandardIff`). The exceptions
  are below.
- **Vector lockstep.** `VectorLockstep.LockstepThroughoutIff`: over every trace of accepted
  commits the vector registers, configuration and flags of core and reference agree after each,
  and each step of the core is the reference's step from the same state, if and only if the
  core reports everything that the reference's steps change.
- **Scalar lockstep.** `Lockstep.LockstepThroughoutIff`: over every trace that is not
  rejected, tracked and reference registers agree after every commit, with one exception
  below; the core retires the instructions of the reference at the same addresses in the same
  order (`SameControlFlow`), and `RejectedIff` says exactly what is rejected.
- **Images.** `ElfMemory.ElfAcceptedIff` and `ElfImageLands`: from the bytes of a file alone,
  whether it is accepted and what every byte of memory is then.
- **Memory, devices, generator, accounting**: see the table.

## Promises the code does not keep

Each comes with the exact condition under which the promise holds, and an input that breaks
it.

- A write burst inside the write-combine aperture is not always accepted: the test is made
  again on every beat with the length of the whole burst, so the room for the whole burst is
  needed again behind the last beat (`AxiBursts.WriteCombineBurstAcceptedIff`,
  `LastBurstOfApertureIsRefused`).
- A commit that is synchronised and writes a new value to f0 breaks lockstep: the reference
  is synchronised before the tracked f0 is updated (`Lockstep.RetireKeepsLockstepIff`,
  `LockstepLossExample`). A core that names integer destinations for its CSR instructions
  never does this.
- The tohost monitor can miss what memory holds. It is given only the narrow word of a beat
  that stores a whole bus window, and shifts data that already sits on its lanes. It keeps up
  with memory, for all data, exactly if every beat that touches tohost has it as its narrow
  word and is not shifted (`AxiExit.BeatMirrorsIff`, `RunMirrorsIff`, `AnnouncementIsMissed`,
  `ExitMonitor.ByteStoreIsShiftedTwice`).
- A device write is answered OKAY although strobed bytes outside its narrow word vanish
  (`AxiDevices.AcceptedBeatStoresAllIff`, `UpperHalfVanishes`).
- An unaligned burst at the end of a region is refused although its bytes lie inside
  (`AxiAddresses.BurstDecodesAlikeIff`, `UnalignedBeatAtEndOfRam`).
- A run that stalls in the pass of a checkpoint ends, and goes on when resumed from it
  (`HostResume.ResumedRunIsUninterrupted`, `StallIsForgotten`).
- The history of recent commits is short just after its 64-bit count has wrapped
  (`Accounting.HistoryIsRecentIff`, `WrappedHistoryIsEmpty`).
- Restore does not check the registers of the slave. A restored slave indexes its two read
  contexts within range, in every cycle of every run, exactly if no beat waits or its id is 0
  or 1; an id of 2 is accepted, harmless without a waiting beat and out of range in the first
  cycle with one. Exactly which streams give beats and responses that are not due, and bursts
  that are too long, is known too (`AxiRestored.RestoredRunsIff`, `SelectedTwoIsAccepted`,
  `ReadBurstIsWholeIff`, `WriteBurstIsWholeIff`).
- The vector checker, documented to take ones in agnostic elements that the standard permits
  (README.md:89), wants ones in two kinds of masked-off elements that are not agnostic, under
  vma: element 0 of a reduction, which the standard always writes (section 14), and elements
  below the offset of a vslideup, which it never changes (section 16.3.1). There a correct core
  is refused and ones pass (`VectorElements.AgnosticIff`, `MaskedSumIsRefused`,
  `UnchangedElementIsRefused`). For agnostic elements, where the standard allows the old value
  or ones, the checker takes ones only.
- The vector checker compares only the registers that the core itself reports. A result that the
  core does not report, or reports as another register, is not compared, nor is vl after a load
  that trims it; lockstep is then lost unnoticed (`VectorLockstep.RetireKeepsLockstepIff`,
  `UnreportedResultIsAccepted`, `LockstepLossExample`).
- A checkpoint can be written that cannot be read back: memory above the size of RAM in
  words, UART buffers, branch profile, CSR list and build identity above their caps
  (`HostStream.HostRoundTrip`, `HostResume.BacklogIsRefused`).
- The byte view of the devices is not all-or-nothing: an unaligned write that runs off a
  timer register has changed it when it is refused (`Platform.StoresAtomicallyIff`,
  `UnalignedStoreCanBePartial`). The lane view of the bus is.

## Assumptions

- The master makes incrementing bursts: FIXED and WRAP do not exist for the slave. Transfer
  sizes above the width of the bus, which the protocol forbids, are answered as the code
  answers them, and only the theorems of `AxiAddresses` exclude them.
- Bus width 8 or 32 bytes; the read id seen by `drive` is the one seen by `update`; the
  master's data and strobes have the width of the bus (`Master.Fits`).
- Addresses and sizes of 64 bits are unbounded integers in the slave; its invariant keeps
  them below 2^33, so the additions of the source cannot wrap.
- `VectorCommit.Supported`: vl within 256, element width 1, 8, 16 or 32, one destination
  register for one-bit elements; the store element width code is at most 5. The source
  relies on these without checking them.
- The reference reports no write to x0 (`Commit.Sound`), as its extraction loop ensures, and
  always has a next commit.
- The reference writes all CSRs that its build has, among them mstatus and both halves of both
  counters (`ReferenceFits`).
- What the reference reports as written is what its step has changed (`VectorCommit.Commit.written`).
- A bool of a checkpoint is written as 0 or 1 and read as true if not 0. Plain structures are
  written as their fields, with padding as fields of its own.
- The two reads in one argument list at src/SpikeReference.cc:511 happen in the order in which
  they are written, address before value. C++ does not promise this order.
- Verilator's state file gives the core's state back (`HostResume.CoreKept`).

## Model

| member | source | states |
|---|---|---|
| `AxiRefinement.EveryRunIsAccepted` | src/AXIMemory.cc:23-156 | From reset, for any image, master and backpressure, everything the slave shows on its channels is what a byte memory and devices behind correct AXI4 channels would show |
| `AxiRefinement.StepTracks` | src/AXIMemory.cc:23-156 | One drive/update cycle keeps the relation between slave and scoreboard and shows only what the scoreboard allows |
| `AxiRefinement.DriveIsCorrect` | src/AXIMemory.cc:23-70 | The outputs of one drive are allowed by the scoreboard, and the read side effect of a device beat happens exactly when the beat is first presented |
| `AxiRefinement.UpdateTracks` | src/AXIMemory.cc:72-156 | The handshakes of one update leave the slave where the scoreboard, which only saw the channels, expects it |
| `AxiRefinement.LatchIsFresh` | src/AXIMemory.cc:26-49 | A newly latched beat has, on every byte lane of its window, the last strobed byte accepted on W, else the image byte; a device beat has the register bytes on their lanes |
| `AxiRefinement.StoreTracks` | src/AXIMemory.cc:116-132 | After a W beat every byte of memory is the last strobed byte in the log of accepted beats; unstrobed bytes are unchanged |
| `AxiRefinement.BeatVerdict` | src/AXIMemory.cc:122-132 | A W beat is answered by what its address, length and narrow strobes call for, and a refused beat leaves memory and devices as they were (what an accepted device beat drops is in the AxiDevices rows) |
| `AxiRefinement.WTracks` | src/AXIMemory.cc:103-150 | The accumulated write response is the summary of the verdicts of the beats, and B becomes due on WLAST or on the last beat |
| `AxiDevices.AcceptedBeatStoresAllIff` | src/AXIMemory.cc:113-127 | A device beat answered OKAY has stored every strobed byte of its window, for all registers and data, if and only if no strobe outside the narrow word is at a byte that can be written |
| `AxiDevices.UpperHalfVanishes` | src/AXIMemory.cc:113-127 | Eight strobed bytes at mtimecmp are answered OKAY, the lower four are stored and the upper four are not, while the read of that size is refused |
| `AxiRefinement.ExitNeverDropsB` | src/AXIMemory.cc:139-156 | No cycle both takes a W beat and completes B, so the early return on a test exit loses no handshake |
| `AxiScoreboard.OkayIffEveryBeatAccepted` | src/AXIMemory.cc:100-132 | B is OKAY if and only if every beat of the burst was accepted |
| `AxiTraces.EveryBeatWasFresh` | src/AXIMemory.cc:26-62 | In every run each valid R beat was new in some cycle, with nothing waiting on R, has not been taken since, and carries what memory and devices held in that cycle |
| `AxiTraces.EveryBurstIsWhole` | src/AXIMemory.cc:82-91 | In every run RLAST comes exactly on beat ARLEN + 1 of a burst and a new beat k answers for ARADDR + k * 2^ARSIZE, even when beats of the other id are interleaved |
| `AxiTraces.JobOfBurst` | src/AXIMemory.cc:73-91 | An accepted burst that is not finished stands at the beat number that its taken beats lead to, never above ARLEN |
| `AxiTraces.UnfinishedBurst` | src/AXIMemory.cc:82-91 | While a burst is open its taken beats are counted exactly and stay within its length, so the beat counter cannot overflow |
| `AxiTraces.BurstDeliversLengthPlusOne` | src/AXIMemory.cc:63-91 | Started from any scoreboard state, a burst ends with the beat that makes ARLEN + 1 |
| `AxiTraces.JobStep` | src/AXIMemory.cc:73-91 | The outstanding burst of a read id changes by the handshakes of that id alone |
| `AxiTraces.ReadsConserved` | src/AXIMemory.cc:52-91 | Per id, accepted ARs minus delivered last beats is one while a burst is outstanding and zero otherwise |
| `AxiTraces.WritesConserved` | src/AXIMemory.cc:65-154 | Accepted AWs minus delivered Bs is the one burst or response in flight, never more than one |
| `AxiTraces.EveryRunConservesTransactions` | src/AXIMemory.cc:52-154 | After every run the conservation laws hold of the slave registers themselves; an active write and a valid response exclude each other |
| `AxiTraces.ChannelsAreStable` | src/AXIMemory.cc:52-69 | Once valid, R and B keep id, data, response and last through any number of cycles until the handshake |
| `AxiTraces.BeatOrigin` | src/AXIMemory.cc:26-30 | For every valid R beat of an accepted trace, the cycle in which it was new: nothing waited before it, no R handshake has come since, the payload is the same |
| `AxiBursts.DemandBurstStreams` | src/AXIMemory.cc:24-26 | After its first beat a demand burst with RREADY held delivers one beat per cycle to the end, whatever the backpressure and the prefetcher do |
| `AxiBursts.StreamStep` | src/AXIMemory.cc:24-31 | A streaming demand burst needs no random grant: the next beat is on R in the same cycle |
| `AxiBursts.WriteCombineBurstAcceptedIff` | src/AXIMemory.cc:122 | All beats of a write burst go to the write-combine aperture if and only if it lies inside and has room for its whole length again behind its last beat |
| `AxiBursts.LastBurstOfApertureIsRefused` | src/AXIMemory.cc:122-129 | Two eight-byte beats in the last sixteen bytes of the aperture: OKAY, then DECERR |
| `AxiBursts.RamBurstAcceptedIff` | src/AXIMemory.cc:128-132 | With the platform, all beats of a burst go to memory if and only if the burst lies inside RAM |
| `AxiBeats.EveryWriteBeatLands` | src/AXIMemory.cc:93-145 | In every run W beat k of an accepted burst goes to AWADDR + k * 2^AWSIZE: its strobed bytes to the bus window of that address if it is decoded as memory, no byte of memory otherwise; k is at most AWLEN |
| `AxiBeats.BurstMoves` | src/AXIMemory.cc:93-145 | Until the next AW a write burst moves by its W handshakes alone |
| `AxiBeats.EverySignal` | src/AXIMemory.cc:23-69 | In every cycle of every run each ready and valid signal is up exactly if it should be: a free place and a grant, a waiting or granted beat of the demand reader before the prefetcher, a W beat of the burst under way, a response that is due |
| `AxiSlave.BeatBytesIsPower` | src/AXIMemory.cc:78-97 | A size code stands for 2^code bytes |
| `AxiResponses.ReadResponse` | src/AXIMemory.cc:30-50 | The response to a read beat by address, size and length: 0, 2 or 3 |
| `AxiResponses.WriteResponse` | src/AXIMemory.cc:121-132 | The verdict on a write beat by address, size, length and strobes: 0, 2 or 3 |
| `AxiResponses.ReadEffect` | src/AXIMemory.cc:30-37 | A read beat takes an input byte out of the UART exactly if it is a single beat at the data register; no other read changes a device |
| `AxiAddresses.SameWindow` | src/AXIMemory.cc:44-47 | Every beat of an incrementing burst of at most bus-sized transfers uses the bus window of its IHI 0022 A3.4.1 address, aligned or not |
| `AxiAddresses.AddressesAgreeIff` | src/AXIMemory.cc:82-91 | All beats have the A3.4.1 address itself if and only if the start is aligned to the size or there is one beat |
| `AxiAddresses.BurstDecodesAlikeIff` | src/AXIMemory.cc:33-43 | All beats are decoded as the bytes of the A3.4.1 beats lie if and only if the start is aligned or no beat is in the last block of a region |
| `AxiAddresses.WritesDecodeLikeReads` | src/AXIMemory.cc:122-132 | Outside the write-combine aperture a write beat is decoded as a read beat is |
| `AxiAddresses.UnalignedBeatAtEndOfRam` | src/AXIMemory.cc:41-43 | Eight bytes at the last four of RAM: the protocol touches RAM only, the slave answers DECERR |
| `AxiSlave.LatchKeepsInv` | src/AXIMemory.cc:26-49 | Presenting a beat keeps the slave invariant: bounded addresses, beat within length, a valid beat has an active context |
| `AxiSlave.DriveAgrees` | src/AXIMemory.cc:51-69 | The ready and valid signals of drive agree with the state in which update consumes them |
| `AxiSlave.Update` | src/AXIMemory.cc:72-156 | Update keeps the slave invariant and the bus width |
| `AxiSlave.Step` | src/AXIMemory.cc:23-166 | A whole cycle, with UART input before and the timer tick after it, keeps the slave invariant |
| `AxiSlave.NewSlave` | include/AXIMemory.h:38-68 | The constructed slave satisfies the invariant |
| `AxiSlave.PeekStoreWindow` | src/AXIMemory.cc:116-121 | A window store changes exactly the strobed bytes of the window |
| `AxiSlave.ByteOfReadWindow` | src/AXIMemory.cc:44-47 | The lanes of a window read are the bytes of the window in memory |
| `AXIMemoryObject.AXIMemory.constructor` | src/AXIMemory.cc:11-17 | The new object is the initial slave on the given memory, devices and seed |
| `AXIMemoryObject.AXIMemory.Drive` | src/AXIMemory.cc:23-70 | The object drives as the transition function does with coins drawn from its generator, only where the short-circuit conditions call for one |
| `AXIMemoryObject.AXIMemory.LatchIfGranted` | src/AXIMemory.cc:24-49 | randomValid is called exactly when a first beat waits, and the beat is latched if it is granted or not the first |
| `AXIMemoryObject.AXIMemory.FetchBeat` | src/AXIMemory.cc:32-48 | Data, response and side effect of a read beat are those of the specification for device, aperture, RAM and unmapped addresses |
| `AXIMemoryObject.AXIMemory.ReadRam` | src/AXIMemory.cc:44-47 | The word loop reads the aligned bus window |
| `AXIMemoryObject.AXIMemory.PresentOutputs` | src/AXIMemory.cc:51-69 | The ports show the specified outputs, and the generator has moved once per condition that needed a grant |
| `AXIMemoryObject.AXIMemory.Update` | src/AXIMemory.cc:72-156 | The object updates as the transition function does and returns its exit report; the generator is not touched |
| `AXIMemoryObject.AXIMemory.TakeAddressesAndReads` | src/AXIMemory.cc:73-101 | After the AR, R and AW handshakes, in this order, the object is in the specified state and still valid |
| `AXIMemoryObject.AXIMemory.TakeWriteBeat` | src/AXIMemory.cc:103-149 | Store, response, exit monitor and burst counters move together as specified, and the exit code is the one of the value after the store |
| `AXIMemoryObject.AXIMemory.StoreWriteBeat` | src/AXIMemory.cc:122-132 | Memory, devices and verdict after a W beat for each of the four kinds of target |
| `AXIMemoryObject.AXIMemory.WriteRam` | src/AXIMemory.cc:116-121 | The word loop stores the strobed bytes of the bus window |
| `AXIMemoryObject.AXIMemory.AdvanceWrite` | src/AXIMemory.cc:139-145 | The burst ends with WLAST or its last beat, whichever comes first |
| `AXIMemoryObject.AXIMemory.Cycle` | src/main.cc:1247-1264 | One pass of the main loop over the bus is one step of the transition function |
| `AXIMemoryObject.AXIMemory.TickTimer` | src/AXIMemory.cc:162-166 | Only the devices tick |
| `AXIMemoryObject.AXIMemory.AppendUartInput` | src/AXIMemory.cc:168-172 | Text is queued if there are devices |
| `AXIMemoryObject.AXIMemory.Save` | src/AXIMemory.cc:178-201 | Whatever follows, the stream continues with exactly the AXI section |
| `AXIMemoryObject.AXIMemory.Restore` | src/AXIMemory.cc:203-232 | Reads what the AXI decoder reads, with its errors, and installs it |
| `AXIMemoryObject.DrawsStayNonzero` | src/AXIMemory.cc:19-66 | However many coins a cycle draws, the generator state stays non-zero |
| `AXIMemoryObject.DrawsAreInOrder` | src/AXIMemory.cc:19-66 | A cycle steps the generator once for each of R beat, AR, AW and W whose conditions call for a grant, in this order, and each is granted by its own step |
| `AXIMemoryObject.WantsCoinIff` | src/AXIMemory.cc:24-26 | A grant for a read beat is asked for exactly when nothing is on R and the burst to be served has not begun |
| `AXIMemoryObject.GrantedIff` | src/AXIMemory.cc:19-21 | A grant is refused exactly when the low four bits of the upper half of the output are zero |
| `AxiCheckpoint.AxiRoundTrip` | src/AXIMemory.cc:178-232 | Every reachable AXI state is restored exactly into any slave wired alike, and the rest of the stream is left |
| `AxiRestored.RestoredRunsIff` | src/AXIMemory.cc:203-232 | Of every accepted stream: the restored slave indexes its contexts within range in all cycles of all runs if and only if no beat waits with an id above 1, and shows only beats and responses that are due if and only if a waiting beat belongs to an active context and no response is valid during a write burst |
| `AxiRestored.StaysInRangeIff` | src/AXIMemory.cc:63-83 | The same of every setting of the registers: an id out of range does no harm while no beat waits, because it is overwritten before it is used |
| `AxiRestored.StaysProperIff` | src/AXIMemory.cc:51-68 | In every cycle of every run the beat on R belongs to a burst that was asked for and B does not come before the end of its burst, exactly under that condition |
| `AxiRestored.ReadBurstIsWholeIff` | src/AXIMemory.cc:82-91 | A read burst under way ends with beat ARLEN + 1 in every run that ends it if and only if its counter was within its length; otherwise it is 256 beats too long |
| `AxiRestored.WriteBurstIsWholeIff` | src/AXIMemory.cc:139-145 | A write burst under way is ended by the slave itself with beat AWLEN + 1 if and only if its counter was within its length |
| `AxiRestored.BeatsLeftInEveryRun` | src/AXIMemory.cc:82-91 | However a run goes, the last beat is taken when the 8-bit counter meets the length |
| `AxiRestored.StepIsNext` | src/AXIMemory.cc:23-156 | From every state with the invariant of the slave, its cycles are the cycles that these theorems speak of |
| `AxiRestored.SelectedTwoIsAccepted` | src/AXIMemory.cc:209-216 | A saved state with 2 written over its selected id is accepted; with a beat waiting the first cycle indexes out of range, without one every run is as it should be |
| `AxiCheckpoint.ExitRoundTrip` | src/AXIMemory.cc:179-212 | Exit value and generator state come back, and a checkpoint with the other tohost setting is refused |
| `AxiCheckpoint.PutReadSide` | src/AXIMemory.cc:182-223 | The read registers and both contexts come back from what was written |
| `AxiCheckpoint.PutWriteSide` | src/AXIMemory.cc:193-231 | The write registers come back from what was written |
| `Memory.PeekPoke` | src/ElfImage.cc:136-141 | A byte write changes its own byte and no other |
| `Memory.PeekPokeLanes` | src/ElfImage.cc:154-167 | A byte-wise strobed write of up to eight lanes changes exactly the strobed bytes, also across the end of the address space |
| `Memory.PeekPokeWord` | src/ElfImage.cc:143-159 | The aligned and the byte-wise path of write32 have the same effect on every byte, for every strobe and address |
| `Memory.ByteOfMerge` | src/ElfImage.cc:146-151 | The in-word merge takes the strobed bytes from the value and the others from the word |
| `Memory.StrobelessStoreIsInvisible` | src/ElfImage.cc:143-159 | A write without strobes is invisible to every read, although it can leave a zero word in the map |
| `Memory.PeekPokeAll` | src/ElfImage.cc:169-173 | After a load of any length each byte is the last byte that landed on it, going round the address space |
| `Memory.WordIsWindow` | src/ElfImage.cc:113-122 | The aligned fast path of read32 equals the join of four byte reads |
| `Memory.DoubleWord` | src/ElfImage.cc:125-133 | The aligned fast path of read64 equals the join of eight byte reads, for every wrapping address |
| `Memory.WordsRoundTrip` | src/ElfImage.cc:175-192 | A memory saved in any order is restored exactly if it has at most 2^24 words and refused otherwise |
| `Memory.SparseMemory.Read8` | src/ElfImage.cc:108-111 | The byte of the address |
| `Memory.SparseMemory.Read32` | src/ElfImage.cc:113-123 | The four bytes from the address on, little-endian, on both paths |
| `Memory.SparseMemory.Read64` | src/ElfImage.cc:125-134 | The eight bytes from the address on, little-endian, on both paths |
| `Memory.SparseMemory.Write8` | src/ElfImage.cc:136-141 | One byte is replaced |
| `Memory.SparseMemory.Write32` | src/ElfImage.cc:143-159 | Every byte of memory afterwards, for every strobe and address |
| `Memory.SparseMemory.Write64` | src/ElfImage.cc:161-167 | Every byte of memory afterwards, for every strobe and address |
| `Memory.SparseMemory.Load` | src/ElfImage.cc:169-173 | Memory after the block, byte by byte, wrapping at the end of the address space |
| `Memory.SparseMemory.Save` | src/ElfImage.cc:175-181 | The count and then every entry once, in the order the map iterates |
| `Memory.SparseMemory.Restore` | src/ElfImage.cc:183-192 | Reads what the decoder reads, with its errors, and replaces the contents |
| `Platform.RegionsAreDisjoint` | src/PlatformDevices.cc:11-31 | No access lies in two regions |
| `Platform.MemoryMap` | src/PlatformDevices.cc:11-31 | The memory map: 64 MB of RAM, 64 KB for the timer, 4 KB for the UART, 16 MB for write-combining, each access inside one region |
| `Platform.BusStoreAllOrNothing` | src/PlatformDevices.cc:173-186 | A strobed word write is accepted exactly on a register word with a strobe, and a refused one changes nothing although lanes are written one by one |
| `Platform.RefusedLoadChangesNothing` | src/PlatformDevices.cc:133-171 | A refused read has no side effect in either view |
| `Platform.ReadViewsAgree` | src/PlatformDevices.cc:133-171 | On aligned accesses of 1, 2 or 4 bytes both read views give the same verdict, bytes and devices |
| `Platform.WriteViewsAgree` | src/PlatformDevices.cc:145-186 | On aligned accesses of 1, 2 or 4 bytes both write views give the same verdict and devices |
| `Platform.UnalignedStoreCanBePartial` | src/PlatformDevices.cc:145-155 | A refused word write at mtimecmp + 6 has changed two bytes |
| `Platform.StoresAtomicallyIff` | src/PlatformDevices.cc:145-155 | A byte-view write of a size at an address is all-or-nothing for all devices and bytes if and only if its first byte is undecoded or all its bytes are decoded |
| `Platform.AlignedStoreAllOrNothing` | src/PlatformDevices.cc:145-155 | Aligned byte-view writes of 1, 2, 4 or 8 bytes are accepted exactly on decoded addresses and otherwise change nothing |
| `Platform.TwoWordWritesSetCompare` | src/PlatformDevices.cc:82-96 | Two word writes set mtimecmp to any 64-bit value and change nothing else |
| `Platform.CompareReadsBack` | src/PlatformDevices.cc:33-39 | Two word reads give back both halves of mtimecmp |
| `Platform.UartRegistersReadBack` | src/PlatformDevices.cc:50-131 | Control registers read back what was written; divisor latch and data share addresses without disturbing each other |
| `Platform.LineStatusTellsInput` | src/PlatformDevices.cc:73-75 | Line status reads 0x60, and data-ready on top exactly while input is queued |
| `Platform.OtherRegistersAreConstant` | src/PlatformDevices.cc:65-78 | Interrupt identification reads 1 and the registers from modem status on read 0, whatever is written |
| `Platform.DataRegister` | src/PlatformDevices.cc:48-120 | The data register takes the oldest input byte out of the queue, and puts written bytes behind the output |
| `Platform.TimeReadsBack` | src/PlatformDevices.cc:30-46 | The two words at 0xa000bff8 read the time |
| `Platform.TicksClosedForm` | src/PlatformDevices.cc:194-202 | n ticks are a division by ten saturating at 2^64 - 1 |
| `Platform.InterruptRises` | src/PlatformDevices.cc:188-202 | Without writes the interrupt is up from tick 10 * (mtimecmp - mtime) - subcycle on and stays up |
| `Platform.UartInputConserved` | src/PlatformDevices.cc:50-60 | Over any run of reads, writes, ticks and arrivals, the input received followed by the input queued is the input that arrived, in order |
| `Platform.UartOutputConserved` | src/PlatformDevices.cc:101-112 | The output is exactly the bytes written to the transmit register, in order |
| `Platform.DevicesRoundTrip` | src/PlatformDevices.cc:216-250 | Saved devices are restored exactly if both UART buffers are within their caps and refused otherwise |
| `Platform.PlatformDevices.ReadByte` | src/PlatformDevices.cc:33-80 | Value, acceptance and side effect of a register byte read |
| `Platform.PlatformDevices.WriteByte` | src/PlatformDevices.cc:82-131 | Acceptance and effect of a register byte write |
| `Platform.PlatformDevices.Read` | src/PlatformDevices.cc:133-143 | The bytes of the byte view, stopping at the first refusal |
| `Platform.PlatformDevices.WriteBytes` | src/PlatformDevices.cc:145-155 | The byte view write, stopping at the first refusal |
| `Platform.PlatformDevices.ReadBus` | src/PlatformDevices.cc:157-171 | The word with the bytes read on their own lanes |
| `Platform.PlatformDevices.WriteBus` | src/PlatformDevices.cc:173-186 | The strobed lanes are written and success needs a strobe |
| `Platform.PlatformDevices.TickTimer` | src/PlatformDevices.cc:194-202 | One tick of the divided saturating timer |
| `Platform.PlatformDevices.AppendUartInput` | src/PlatformDevices.cc:204-208 | The text is queued behind what is already queued |
| `Platform.PlatformDevices.Save` | src/PlatformDevices.cc:216-230 | Whatever follows, the stream continues with exactly the device section |
| `Platform.PlatformDevices.Restore` | src/PlatformDevices.cc:232-250 | Reads what the decoder reads, with its errors, and installs it |
| `ElfLayout.HeaderDecodes` | src/ElfImage.cc:24-219 | A packed ELF header is decoded to its own fields, wherever the checks on class, machine and entry sizes let it pass |
| `ElfLayout.ProgramDecodes` | src/ElfImage.cc:42-51 | A packed program header anywhere in a file is decoded to its own fields |
| `ElfLayout.SectionDecodes` | src/ElfImage.cc:53-64 | A packed section header anywhere in a file is decoded to its own fields |
| `ElfLayout.SymbolDecodes` | src/ElfImage.cc:66-73 | Name and value are the first two words of a packed symbol |
| `ElfLayout.FieldOfPacked` | src/ElfImage.cc:24-84 | Field k of a structure packed by any layout is found at the sum of the widths before it |
| `Elf.LoadedMemory` | src/ElfImage.cc:224-237 | Each byte of memory is the file byte or BSS zero of the last PT_LOAD segment covering it, and zero if none does |
| `Elf.SegmentLoaded` | src/ElfImage.cc:231-236 | One segment decides exactly the bytes it covers, from its physical address if that is not zero |
| `Elf.ImageMemory` | src/ElfImage.cc:205-237 | Every byte of memory after a successful load, for ELF and for raw images |
| `Elf.SegmentsUpTo` | src/ElfImage.cc:224-231 | Every collected segment is a PT_LOAD segment whose file range lies in the file |
| `Elf.FindZero` | src/ElfImage.cc:97-103 | The string ends at the first zero byte before the limit, or there is none |
| `Elf.StringIsInside` | src/ElfImage.cc:92-104 | An accepted string and its terminator lie inside its table and the table inside the file |
| `Elf.SymbolNamesInside` | src/ElfImage.cc:247-265 | Every symbol name is such a string of some section of the file |
| `Elf.EntriesFit` | src/ElfImage.cc:255-258 | An entry of a range-checked symbol table is never truncated |
| `ElfSymbols.KnownSymbol` | src/ElfImage.cc:247-273 | A name is known exactly if some symbol-table entry bears it, and its value is that of the last entry that does |
| `ElfSymbols.LastIsUnique` | src/ElfImage.cc:247-265 | There is only one last entry of a name, so the value is determined |
| `ElfSymbols.ImageSymbol` | src/ElfImage.cc:194-273 | The same of the symbols of a loaded image, among which tohost is looked up |
| `Elf.ElfImage.Load` | src/ElfImage.cc:194-268 | Loading returns the image of the specification or its first error |
| `Elf.ElfImage.LoadPrograms` | src/ElfImage.cc:224-237 | The header loop loads the PT_LOAD segments in file order and stops at the first error |
| `Elf.ElfImage.LoadSegment` | src/ElfImage.cc:232-236 | File bytes and then zeros up to the memory size |
| `Elf.ElfImage.ReadSections` | src/ElfImage.cc:239-245 | The section headers in order, or the first that does not fit the file |
| `Elf.ElfImage.ReadSymbols` | src/ElfImage.cc:247-265 | The symbols of all tables or the first error |
| `Elf.ElfImage.ReadTable` | src/ElfImage.cc:255-264 | The symbols of one table added to those known |
| `ElfMemory.MagicIff` | src/ElfImage.cc:198 | A file is taken for ELF exactly if it begins with 0x7f ELF |
| `ElfMemory.ElfAcceptedIff` | src/ElfImage.cc:197-266 | Exactly which ELF files are accepted, from their bytes: header, program headers and their ranges, section headers, symbol tables, links and names |
| `ElfMemory.ElfImageLands` | src/ElfImage.cc:218-237 | After loading, each address holds the byte of the last PT_LOAD entry that puts one there, from the file or zero, at the physical address or else the virtual one; others are zero; the entry point |
| `ElfMemory.RawImageLands` | src/ElfImage.cc:193-203 | Any other file that is not empty is loaded as it is at the base, wrapping around |
| `ExitMonitor.FollowsMemoryIff` | src/ElfImage.cc:281-287 | In the one word it is given, the monitor does what a strobed memory word does, for all words and data, if and only if the address is word-aligned or nothing is strobed |
| `ExitMonitor.ByteStoreIsShiftedTwice` | src/ElfImage.cc:281-287 | A byte stored at tohost + 1 reaches byte 1 of memory and byte 2 of the monitor |
| `ExitMonitor.MirrorsTohost` | src/ElfImage.cc:275-287 | A word-aligned write of a single word keeps the monitor value equal to the memory word at tohost (a whole bus beat: AxiExit.BeatMirrorsIff) |
| `AxiExit.BeatMirrorsIff` | src/AXIMemory.cc:113-137 | With the monitor equal to memory before, a W beat keeps it so for all data if and only if it is one the monitor sees: tohost is untouched, or is the narrow word of an unshifted beat; for a beat that leaves memory alone, it strobes nothing into the word |
| `AxiExit.AnnouncementIsMissed` | src/AXIMemory.cc:113-149 | A word-aligned eight-byte beat that writes an odd value at tohost in its upper word is stored and not reported |
| `AxiExit.ReportTellsMemory` | src/ElfImage.cc:275-292 | On a beat that is seen the reported exit code is the one memory announces at tohost, and a beat elsewhere leaves the announcement unchanged |
| `AxiExit.RunMirrorsIff` | src/AXIMemory.cc:72-156 | Exactly the runs in which no choice of write data can part the monitor from memory: every W beat is seen |
| `AxiExit.NewSlaveMirrorsIff` | src/AXIMemory.cc:11-17 | A new monitor equals memory exactly if the image is zero at tohost |
| `ExitMonitor.ByteOfShifted` | src/ElfImage.cc:282-287 | Byte k of the data lands on byte k + offset and what is shifted out is dropped |
| `ExitMonitor.TestExitMonitor.ObserveWrite` | src/ElfImage.cc:275-292 | The value follows the write and the exit code is reported when it is odd |
| `Rng.StirInvertible` | include/DeterministicRng.h:18-22 | The state step has an inverse, so no two histories merge |
| `Rng.ReachableStatesAreNonzero` | include/DeterministicRng.h:11-34 | A state reached from a seed is zero if and only if the seed is, so a saved state is never refused |
| `Rng.OutputInjective` | include/DeterministicRng.h:23 | Distinct states give distinct outputs: the odd multiplier is invertible modulo 2^64 |
| `Rng.KnownOutputs` | include/DeterministicRng.h:17-24 | The states and outputs of xorshift64* from seed 1 |
| `Rng.ReloadState` | include/DeterministicRng.h:28-34 | A saved state is the state that is set again |
| `Rng.DeterministicRng.Create` | include/DeterministicRng.h:11-15 | A zero seed is refused and any other accepted |
| `Rng.DeterministicRng.Next64` | include/DeterministicRng.h:17-24 | The successive assignments are one step, the output is its product, and the state stays non-zero |
| `Rng.DeterministicRng.Next32` | include/DeterministicRng.h:26 | The upper half of the output of one step |
| `Rng.DeterministicRng.SetState` | include/DeterministicRng.h:29-34 | Zero is refused and leaves the state as it was |
| `Checkpoint.Put` | include/Checkpoint.h:18-44 | A field of any width reads back as written and leaves exactly the bytes behind it |
| `Checkpoint.PutString` | src/Checkpoint.cc:19-52 | A string reads back under every cap it fits and is refused under every smaller one |
| `Checkpoint.GetCount` | src/Checkpoint.cc:54-60 | An accepted count is at most its cap |
| `Checkpoint.PutU32s` | include/Checkpoint.h:18-44 | An array of words reads back as written |
| `Checkpoint.PutU64s` | include/Checkpoint.h:18-44 | An array of doublewords reads back as written |
| `Checkpoint.PutPairs` | src/ElfImage.cc:177-191 | Address and value pairs read back as written |
| `Checkpoint.CollectEnumerated` | src/ElfImage.cc:187-191 | Inserting the entries of a map in any iteration order rebuilds the map |
| `Checkpoint.FirstIsLast` | src/main.cc:1062-1068 | With distinct keys emplace builds the same map as assignment |
| `Checkpoint.CheckpointWriter.Write` | include/Checkpoint.h:18-22 | The stream continues with the field |
| `Checkpoint.CheckpointWriter.WriteBytes` | src/Checkpoint.cc:14-17 | The stream continues with the bytes |
| `Checkpoint.CheckpointWriter.WriteString` | src/Checkpoint.cc:19-22 | The stream continues with the length and the bytes |
| `Checkpoint.CheckpointReader.Read` | include/Checkpoint.h:38-44 | A field is consumed, or the stream is too short |
| `Checkpoint.CheckpointReader.ReadBytes` | src/Checkpoint.cc:42-45 | The bytes are consumed, or the stream is too short |
| `Checkpoint.CheckpointReader.ReadString` | src/Checkpoint.cc:47-52 | A string within its cap is consumed |
| `Checkpoint.CheckpointReader.ReadCount` | src/Checkpoint.cc:54-60 | A count within its cap is consumed |
| `HostCheckpoint.HeaderIsExact` | src/main.cc:953-1045 | A header is accepted if and only if the loading run has exactly the configuration of the saving run |
| `HostCheckpoint.HeaderBegins` | src/main.cc:953-954 | Every checkpoint begins with its magic number and version 5, little-endian |
| `HostCheckpoint.HeaderRoundTrip` | src/main.cc:953-1045 | A header is read back, unless the build identity is above its cap |
| `HostCheckpoint.PutProgress` | src/main.cc:962-1061 | Counters, registers and measurement read back as written |
| `HostCheckpoint.ProfileRoundTrip` | src/main.cc:976-1068 | A branch profile saved in any order is restored exactly if it has at most 2^24 entries and refused otherwise |
| `HostCheckpoint.PutHistory` | src/main.cc:981-1078 | Pending branch, ring of commits, markers and statistics read back as written |
| `HostCheckpoint.ProcessorRoundTrip` | src/SpikeReference.cc:452-514 | The processor section of the reference, with the vector block of a performance build or without, reads back unless it has more than 4096 CSRs |
| `HostCheckpoint.PutOptionalVector` | src/SpikeReference.cc:463-506 | Vector configuration, registers and count read back in a build that has them, and nothing is read in one that has not |
| `HostCheckpoint.OptionalDevicesRoundTrip` | src/main.cc:992-1087 | Devices or their absence read back, within their caps |
| `HostCheckpoint.ReferenceRoundTrip` | src/SpikeReference.cc:452-523 | The section of the reference reads back exactly within the caps |
| `HostStream.MachineRoundTrip` | src/main.cc:990-1094 | Memory, bus, devices and reference are rebuilt together exactly within the caps |
| `HostStream.HostRoundTrip` | src/main.cc:953-1095 | A saved host is accepted exactly if it is within the caps and nothing follows it, and is then rebuilt in full; otherwise it is refused for its size or for the trailing bytes |
| `HostStream.CapsInNumbers` | src/main.cc:1018-1095 | The caps of a checkpoint in numbers |
| `CheckpointLayout.HeaderLayout` | src/main.cc:953-961 | The bytes of the header: magic, version, identity, image, core, platform, difftest, seed |
| `CheckpointLayout.ProgressLayout` | src/main.cc:962-975 | The bytes of counters, registers and measurement, in the order of the source |
| `CheckpointLayout.HistoryLayout` | src/main.cc:981-989 | The bytes of pending branch, ring, markers and statistics |
| `CheckpointLayout.AxiLayout` | src/AXIMemory.cc:178-207 | The bytes of the AXI section, field by field |
| `CheckpointLayout.DevicesLayout` | src/PlatformDevices.cc:215-229 | The bytes of the device section |
| `CheckpointLayout.ProcessorLayout` | src/SpikeReference.cc:452-486 | The bytes of the processor of the reference |
| `CheckpointLayout.VectorLayout` | src/SpikeReference.cc:463-467 | The bytes of its vector unit |
| `CheckpointLayout.EntryLayout` | src/main.cc:976-986 | The bytes of a profile entry, a recent commit and a CSR |
| `HostStream.OrdersExist` | src/main.cc:976-999 | Every host can be saved in some iteration order of its maps |
| `Truncation.HostOfPrefix` | src/main.cc:1018-1095 | What restore makes of the beginning of a stream it makes of the whole: an error other than truncation stays, and an acceptance becomes trailing data |
| `Truncation.EveryCutIsRefused` | src/Checkpoint.cc:42-74 | A saved checkpoint cut anywhere before its last byte is refused as truncated |
| `HostResume.ResumedRunIsUninterrupted` | src/main.cc:928-1627 | From any state in which a checkpoint can be taken, for every deterministic core and bookkeeping, the two files are restored exactly within the caps, and then the run goes on as the one that was never stopped if and only if that one did not stall in the very pass of the checkpoint |
| `HostResume.FilesRoundTrip` | src/main.cc:943-1104 | The core file and the host file with its fingerprint give back core and host exactly within the caps |
| `HostResume.ChangedRtlIsRefused` | src/main.cc:1033-1036 | With one byte of the core file changed the pair is refused |
| `HostResume.StallIsForgotten` | src/main.cc:1501-1556 | A run that stalls in its first pass ends; resumed from the checkpoint of that pass it makes another |
| `HostResume.TraceSplits` | src/main.cc:1247-1627 | A run that reaches a checkpoint is its first part followed by the run from there, or by nothing if it stalled there |
| `HostResume.Advance` | src/main.cc:1247-1264 | A pass of the loop keeps the host invariant, the wiring and the presence of the reference |
| `HostResume.StepKeepsWiring` | src/AXIMemory.cc:23-166 | No cycle changes bus width, tohost address or presence of devices, so a resumed process can be set up alike |
| `HostResume.GoesOnIff` | src/main.cc:1484-1560 | A run goes on after a pass exactly if no exit was reported, no pass marker was shown, no commit was rejected and the stall window has not run out |
| `HostTimer.InterruptTellsTimer` | src/main.cc:1257 | In every pass of every run the interrupt is shown to the core exactly if there are devices and mtime >= mtimecmp when the pass begins |
| `HostTimer.TimeIsBeforeTick` | src/main.cc:1264-1269 | The time shown to the reference is that of the devices which the tick of the pass then moves on, and 0 without devices |
| `HostTimer.InterruptOfQuietRun` | src/main.cc:1247-1269 | Without writes to the devices: from which pass on the interrupt is shown, and the saturating time, from mtime, mtimecmp and subcycle at the start |
| `HostTimer.CycleTicks` | src/PlatformDevices.cc:195-206 | A cycle without a write to a device moves the timer by one tick, whatever is read |
| `HostTimer.PassAt` | src/main.cc:1247-1264 | What is seen in pass n is seen from the system that the passes before it have led to |
| `HostResume.BacklogIsRefused` | src/PlatformDevices.cc:225-244 | With one more typed byte than the cap, in one cycle of an idle core, a state is reached whose checkpoint is refused |
| `HostStream.EntriesCountable` | src/main.cc:976 | A map keyed by 32-bit words fits its 64-bit count |
| `Fingerprint.FileFingerprint` | src/Checkpoint.cc:76-95 | The chunked hash of a file is its one-pass hash, whatever the length |
| `Fingerprint.OneByteChangeIsSeen` | src/Checkpoint.cc:81-90 | Two files that differ in one byte have different fingerprints |
| `Fingerprint.KnownFingerprints` | src/Checkpoint.cc:81-90 | The FNV-1a hashes of the empty file and of a |
| `HostObjects.Simulation.Save` | src/main.cc:953-1000 | Whatever follows, the stream continues with exactly the host checkpoint, for the iteration orders taken |
| `HostObjects.Simulation.Restore` | src/main.cc:1018-1095 | The restored simulation is the decoded host, and every error is the one the decoder gives |
| `HostObjects.Simulation.SaveMachine` | src/main.cc:990-999 | Memory, bus, devices and reference are written so that together they decode to what they are |
| `HostObjects.Simulation.RestoreMachine` | src/main.cc:1079-1094 | All objects hold what the sections decode to; a section that is missing or not expected is refused |
| `HostObjects.SpikeReference.Save` | src/SpikeReference.cc:452-486 | Whatever is written next, the stream decodes to the same processor, memory and devices of the reference |
| `HostObjects.SpikeReference.Restore` | src/SpikeReference.cc:488-562 | The reference holds what the section decodes to; devices missing or not expected are refused, and so is a list of CSRs that cannot be applied |
| `HostCheckpoint.CsrsApplyIff` | src/SpikeReference.cc:524-562 | A restored list of CSRs is applied without error if and only if it holds mstatus and both halves of both counters, and nothing that this build has not |
| `HostObjects.CheckCsrs` | src/SpikeReference.cc:524-562 | The first error of applying restored CSRs: mstatus missing, a CSR absent from this build, a counter half missing |
| `HostObjects.WriteHeader` | src/main.cc:953-961 | Whatever is written next, the stream decodes as a header of this configuration followed by it |
| `HostObjects.ReadHeader` | src/main.cc:1018-1045 | The header is checked field by field, first difference first |
| `HostObjects.WriteProfile` | src/main.cc:976-980 | Every branch is written once, so the stream decodes to the same map however the hash map iterates |
| `HostObjects.ReadProfile` | src/main.cc:1062-1068 | The map rebuilt entry by entry with emplace is the decoded one, and a count above the cap or a short stream is refused |
| `HostObjects.WriteProgress` | src/main.cc:962-975 | Whatever is written next, the stream decodes to the same counters, registers and measurement followed by it |
| `HostObjects.ReadProgress` | src/main.cc:1047-1061 | Counters, registers and an optional measurement are consumed, or the stream is too short |
| `HostObjects.WriteHistory` | src/main.cc:981-989 | Whatever is written next, the stream decodes to the same pending branch, ring, markers and statistics followed by it |
| `HostObjects.ReadHistory` | src/main.cc:1069-1078 | Pending branch, ring, markers and statistics are consumed, or the stream is too short |
| `VectorStores.EverySlotVisitedOnce` | src/main.cc:169-176 | Both traversals visit every (group, byte) slot of the store exactly once and no other slot |
| `VectorStores.ScatteredVisitsLinearSlots` | src/main.cc:169-176 | The register, element, field loops visit the same slots as the linear loop |
| `VectorStores.VisitsInside` | src/main.cc:156-168 | Every row index stays below 8, so every data word index below 64 |
| `VectorStores.CollectStores` | src/main.cc:169-176 | The loops collect the masked bytes of the visited slots in visiting order |
| `VectorStores.CollectRegister` | src/main.cc:171-173 | One register of every field has been collected |
| `VectorStores.CollectRow` | src/main.cc:156-168 | The masked bytes of one row between two positions |
| `VectorStores.PeekDrain` | src/main.cc:177-180 | After draining in order each address holds its last byte, others are unchanged |
| `VectorStores.SortSorts` | src/main.cc:191-192 | Sorting gives an ordered permutation |
| `VectorStores.SortedEqualIff` | src/main.cc:191-193 | Sorted sequences are equal if and only if the multisets are |
| `VectorStores.CompareStores` | src/main.cc:179-211 | The comparison passes exactly if the bytes are the reference bytes as a multiset and each last byte is the reference memory byte |
| `VectorStores.StoreCheckIsExact` | src/main.cc:143-211 | The check passes if and only if the multisets are equal and draining the core stores over the memory before gives the reference memory at every address |
| `VectorEncoding.ArithmeticFields` | src/main.cc:213-247 | The shifts and masks find the fields of an encoded vector arithmetic instruction |
| `VectorEncoding.MaskResults` | src/main.cc:223-228 | An encoded arithmetic instruction counts as writing a mask exactly for compares, carry results, mask logic and vmsbf, vmsof, vmsif |
| `VectorEncoding.TransferFields` | src/main.cc:213-240 | Whole-register, mask and indexed accesses are those of the addressing modes of an encoded load or store, fields are nf + 1 |
| `VectorEncoding.DestinationClassesApart` | src/main.cc:223-241 | The destination classes exclude each other but for widening reductions |
| `VectorEncoding.WidthSupportedIff` | src/main.cc:245-246 | Exactly which destinations have an element width the bit slices can have |
| `VectorCommit.SliceBit` | src/main.cc:256-263 | Bit b of an element slice is bit element * width + b of the register |
| `VectorCommit.BitLiesInElement` | src/main.cc:257-261 | Elements of width 1, 8, 16 or 32 tile all 256 bits |
| `VectorCommit.ElementMatchesIff` | src/main.cc:262-272 | An element passes if and only if each of its bits does |
| `VectorCommit.ElementsMatchIffBitsMatch` | src/main.cc:257-278 | The element loop passes if and only if all 256 bits are the reference bits, or ones in the elements in which the code wants them |
| `VectorCommit.IndexBelow256` | src/main.cc:258-264 | The mask index stays below 256 |
| `VectorCommit.TakenOver` | src/main.cc:281 | The group of the reference is the group of the core, every other register is unchanged |
| `VectorCommit.CompareElement` | src/main.cc:258-277 | One element passes exactly as the rule of the code allows |
| `VectorCommit.CompareRegister` | src/main.cc:257-278 | One register passes exactly if all its bits do |
| `VectorCommit.CompareGroup` | src/main.cc:248-282 | The group passes exactly if all registers do, and is then taken over |
| `VectorCommit.CheckStores` | src/main.cc:138-211 | The store half passes exactly if the layout is valid and the stores match |
| `VectorCommit.CompareVectorCommit` | src/main.cc:105-284 | The exact condition of acceptance, in the elements of the code (those of the standard are in the VectorElements rows), the registers of the reference afterwards, and that its memory is not changed |
| `VectorCommit.StateAgreesIff` | src/main.cc:105-120 | Bit by bit: each exception flag after the instruction was up before or is reported, so is saturation, vstart is 0, and configuration is reported by vset instructions alone, as the reference has it |
| `VectorCommit.RefusedOutright` | src/main.cc:121-152 | Groups and stores of impossible shape are never accepted |
| `VectorEncoding.ConfigurationRead` | src/main.cc:105 | vset instructions are those with funct3 7 |
| `VectorEncoding.PhysicalIsPacked` | src/main.cc:250-254 | The physical register looked up for position k of a group is the one whose six-bit number is packed there |
| `VectorMemory.LinearStoreLands` | src/main.cc:154-176 | After a linear store each address holds the byte of the last row that covers it with a masked lane, little-endian from the address of the row; uncovered addresses are unchanged |
| `VectorMemory.ScatteredStoreLands` | src/main.cc:154-176 | After a scattered store an address holds byte j of the data of the last element whose byte j is masked and goes there: j above the address of the element |
| `VectorMemory.ScatteredStoreKeeps` | src/main.cc:154-176 | An address that no element goes to is unchanged |
| `VectorMemory.VisitsInOrder` | src/main.cc:169-176 | Slots are drained by row and byte, or by register, element, field and byte |
| `VectorMemory.LastSlotWins` | src/main.cc:177-180 | Of several slots with one address the last in this order decides |
| `VectorMemory.ByteOfRow` | src/main.cc:162-165 | Byte k of the little-endian value of a row is lane k mod 4 of word k / 4 |
| `VectorElements.AgnosticIff` | src/main.cc:213-271 | For every Zve32f instruction, vtype, mask and element: the code wants ones exactly where the standard allows them, if and only if the element is not element 0 of a masked reduction or below the offset of a masked vslideup, masked off in the body under vma |
| `VectorElements.ComparisonIsStandardIff` | src/main.cc:248-282 | The register comparison accepts what the standard allows, for all contents of the registers of core and reference, if and only if no element of the destination is of those two kinds |
| `VectorElements.MaskedSumIsRefused` | src/main.cc:236-271 | A masked vredsum.vs with element 0 masked off under vma: the element is active, the checker accepts nothing but ones in it, and under vta accepts a register of ones whatever the sum is |
| `VectorElements.UnchangedElementIsRefused` | src/main.cc:265-271 | A masked vslideup.vi under vma leaves element 0 unchanged, the checker accepts nothing but ones in it |
| `VectorElements.OnlyOnesPass` | src/main.cc:262-277 | In every element of those two kinds nothing but ones is accepted |
| `VectorElements.ArithmeticRead` | src/main.cc:219-247 | Every arithmetic instruction with a vector destination is classified, and its element width computed, as in the tables of the standard |
| `VectorElements.LoadRead` | src/main.cc:214-246 | The same of every vector load, with its number of fields |
| `VectorElements.PositionRead` | src/main.cc:258-260 | Elements of every field are numbered as in the standard if the core reports registers of the destination, all of them when there are several fields |
| `VectorElements.TypeFields` | src/main.cc:245-271 | Element width, vta and vma are found in vtype |
| `VectorElements.SelectedIsCounted` | src/main.cc:242-244 | The loop bound of vcompress is the number of selected elements |
| `VectorLockstep.RetireKeepsLockstepIff` | src/main.cc:105-284 | After an accepted commit core and reference agree in registers and configuration, and the step of the core was the computation of the reference, if and only if the reference changed no register outside the reported group and no configuration without a configuration instruction |
| `VectorLockstep.LockstepThroughoutIff` | src/main.cc:1349-1381 | A trace of accepted commits is in lockstep from beginning to end if and only if every commit reports everything that changed, and then every step of the core is that of the reference |
| `VectorLockstep.StepIsAllowed` | src/main.cc:248-282 | If everything is reported and no element is of the two kinds, what the core holds afterwards is what the standard allows after the computation of the reference |
| `VectorLockstep.UnreportedResultIsAccepted` | src/main.cc:248-284 | An arithmetic instruction reported without destination is accepted whatever the core holds, and breaks lockstep exactly if the reference changed something |
| `VectorLockstep.LockstepLossExample` | src/main.cc:248-284 | A vadd.vv reported without destination is accepted and breaks lockstep |
| `Lockstep.SynchronizedInstructions` | src/SpikeReference.cc:717-741 | Of all encoded CSR instructions exactly those on identity and counter CSRs are synchronised |
| `Lockstep.RetireKeepsLockstepIff` | src/main.cc:1366-1437 | After an accepted commit tracked and reference registers agree if and only if it is not a synchronised commit that writes a new value to f0 |
| `Lockstep.LockstepLossExample` | src/main.cc:1417-1437 | A cycle counter read reported with destination f0 is accepted and breaks lockstep |
| `Lockstep.LockstepThroughoutIff` | src/main.cc:1349-1437 | A trace that is not rejected is in lockstep from beginning to end if and only if no commit is of that kind |
| `Lockstep.TraceKeepsLockstep` | src/main.cc:1349-1437 | Any trace that is not rejected ends in lockstep if CSR instructions name integer destinations |
| `Lockstep.X0IsNeverWritten` | src/SpikeReference.cc:347-349 | Neither side ever writes x0 |
| `Lockstep.RejectedIff` | src/main.cc:1369-1383 | A commit is rejected exactly for another pc, another instruction, or another destination or value of an instruction that does not access an identity or counter CSR |
| `Lockstep.SameControlFlow` | src/main.cc:1349-1383 | Over a trace that is not rejected the core retires the instructions of the reference at the same addresses in the same order |
| `Lockstep.TrackedRegisters` | src/main.cc:1420-1437 | After an accepted commit the named register of the named file holds the value and every other register is what it was |
| `Lockstep.ScalarReference.Next` | src/SpikeReference.cc:328-354 | The reference registers after a commit |
| `Lockstep.ScalarReference.Synchronize` | src/SpikeReference.cc:379-391 | All registers but x0 become the tracked ones |
| `Lockstep.RetirementLoop.RetireOne` | src/main.cc:1366-1437 | One lane is accepted exactly as the comparison says, and both register files advance |
| `Lockstep.RetirementLoop.RetireTrace` | src/main.cc:1247-1439 | A trace is accepted exactly if each of its commits is; begun in lockstep and with integer destinations for CSR instructions, it ends in lockstep |
| `Accounting.TenClassesSum` | src/Statistic.cc:45-111 | The ten class counters sum to the observed count, modulo the counter width |
| `Accounting.ClassTable` | src/Statistic.cc:45-111 | Which instructions each class is, by the opcodes and fields of RV32IMF |
| `Accounting.ClassesPartitionTrace` | src/Statistic.cc:45-111 | Every instruction of a trace has exactly one class |
| `Accounting.DirectJumpSubtraction` | src/Statistic.cc:158-159 | The report subtraction gives the number of direct jumps that are not calls, also when counters have wrapped |
| `Accounting.SubtractionDoesNotUnderflow` | src/Statistic.cc:158-159 | Below 2^64 instructions calls, returns and indirect jumps never exceed jumps |
| `Accounting.TallyStep` | src/Statistic.cc:45-111 | One more instruction moves the exact counts by its class |
| `Accounting.Statistic.ObserveInstruction` | src/Statistic.cc:45-111 | After any trace the counters are its exact counts |
| `Accounting.Statistic.CountFields` | src/Statistic.cc:51-110 | The switch increments the counters of the class |
| `Accounting.ProfileBounds` | src/main.cc:1326-1338 | Per pc, taken plus pending is at most executions, and mispredictions are at most executions |
| `Accounting.ExecutedPlaces` | src/main.cc:1331-1334 | The executions of a pc are the places of the trace at which a branch (opcode 0x63) retires there |
| `Accounting.MispredictedPlaces` | src/main.cc:1335 | Its mispredictions are those of them that were mispredicted |
| `Accounting.TakenPlaces` | src/main.cc:1327-1330 | Its taken branches are those of them that are followed by another pc than their own plus 4 |
| `Accounting.EntryBounds` | src/main.cc:346-351 | Below 2^64 retired instructions the bounds hold of the entries of the profile themselves |
| `Accounting.BranchProfile.Retire` | src/main.cc:1326-1338 | After any trace a pc has an entry exactly if a branch was executed there, with its last instruction and its exact counts modulo 2^64 |
| `Accounting.CommitRing.Record` | src/main.cc:1356-1365 | The commit is appended, the last sixteen stay in their slots, and the 64-bit count wraps |
| `Accounting.CommitRing.History` | src/main.cc:412-423 | The last min(n mod 2^64, 16) commits, oldest first |
| `Accounting.WrappedHistoryIsEmpty` | src/main.cc:412-423 | After 2^64 commits nothing is shown, though sixteen are in their slots |
| `Accounting.HistoryIsRecentIff` | src/main.cc:412-423 | The history is the last sixteen commits exactly unless the count has wrapped to less than sixteen |

## Left out

- Verilated RTL and waveforms: the core is a parameter, with the functions that save and load its state.
- Spike itself: instruction execution, address translation, traps and what its CSR objects make of a restored value.
- Files: opening, temporary names and renaming; a checkpoint is a pair of byte sequences. The fingerprint of the image is a given number.
- Console output, the bare-metal UART print and `emitUart`, reports, ratios, progress thread, option parsing and polling of standard input: text arrives as an argument.
- Checkpoint markers and intervals, which decide when a checkpoint is taken; `waveEnabled`, the cycle limit and the reset cycles of the main loop.
- `decodeRetiredStore`, `storeCoversAddress` and the start of a measurement; `instruction_profile`; the case in which the reference has no next commit.
- `parseSpikeCommitLine`, interrupt and trap injection, and `setTime` of the reference.
- `DeterministicRng::chance`, which the host does not call, and any statement about how likely progress is.
- `Simulator`, `Emulator` and `Device`: old files that are not built.
- Commits without a vector part, which the vector checker accepts unseen, and the texts of its error messages.
- AxiRefinement.BeatVerdict: says nothing of the bytes that an accepted device beat drops; AxiDevices.AcceptedBeatStoresAllIff does.
- HostResume.ResumedRunIsUninterrupted: what the main loop writes down and which commits it rejects are arbitrary functions of what it sees, so the theorem holds for the source's and says nothing special about it.
- HostObjects.SpikeReference.Restore: gives the stored values of the CSRs and of the vector unit back as they are; what Spike's objects make of a value that is written to them (masks, the skipped floating CSRs when mstatus.FS is off, the adjusted counters) belongs to Spike.
- VectorElements.AgnosticIff: vill, under which only whole-register loads execute and the checker wants no ones, and the elements behind the trimmed length of a fault-only-first load, which the standard leaves open and the checker compares.
- Flags, saturation and vstart over traces: other instructions change them between vector commits. Each commit compares them (VectorCommit.StateAgrees).
- A restore that fails leaves the objects partly overwritten, as in the source; what they then hold is not stated.
