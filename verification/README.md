# Switchvisor verification

A Dafny 4.11 model of the hypervisor core of Switchvisor and proofs about it. `dafny verify
dfyconfig.toml` checks everything. Each component is modelled twice: as functions on values, about
which the theorems are stated, and, where the program updates state in place, as classes and loops whose
methods are proved to make exactly the steps of those functions. Runs are arbitrary sequences of steps;
whatever the guest, the host, firmware or a controller may do appears as an input chosen freely.

| files | component |
|---|---|
| `Vgic`, `VgicRuns`, `VgicWaits`, `VgicDriver` | moving acknowledged physical interrupts into list registers, with the overflow array and interrupts owned by EL2 |
| `Bakery`, `Psci`, `PsciCalls` | the packed-word Bakery lock and CPU_ON, CPU_OFF, AFFINITY_INFO over shared atomics |
| `Virtqueue`, `Scatter`, `VirtioNet`, `VirtioRuns`, `VirtioRegisters`, `VirtioDriver`, `VirtioDevice` | the virtio network device over memory that the guest changes at any time |
| `Bridge`, `BridgeFates`, `BridgeService`, `Frames`, `Checksum`, `Management`, `ManagementReplies` | the bridge, its rings, the Internet checksum and the management replies |
| `Ncm`, `NcmFormat`, `NcmCodec`, `Transmit` | the NTB16 codec and sending queued frames in one block |
| `Journey`, `NetworkService` | device, bridge and transmit path together: a frame from descriptor chain to block and back, and the service loop |
| `XudcRing`, `XudcReceive`, `XudcDriver` | transfer rings with cycle bits and the two NCM receive buffers |
| `Fdt`, `FdtTokens`, `FdtRanges`, `FdtMemory`, `FdtCopy`, `FdtMeaning`, `FdtNames`, `FdtExclude`, `FdtTheorems`, `FdtOutcome`, `FdtLayout`, `FdtText`, `FdtFaults`, `FdtErrors`, `FdtPlanner`, `FdtWriter` | reading devicetree blobs and taking a region out of their memory |
| `Loader`, `LoaderCodec`, `LoaderWire`, `LoaderRuns`, `LoaderService`, `LoaderUpload` | the bundle upload protocol, both sides |
| `Stage2`, `Stage2Walk`, `Stage2Attributes`, `Stage2Tables` | the stage-2 tables judged by a page walk |
| `Distributor`, `DistributorRegisters`, `DistributorDriver`, `Lic`, `LicRegisters` | the shadowed interrupt distributor and legacy interrupt controller |
| `Payload`, `PayloadLayout`, `Crc`, `Octets` | the payload descriptor, CRC-32, and bytes as bits |

## What turned out conditional

- Stage 2: `Stage2Walk.MapExact` proves the intended map exactly for compatible layouts: with the USB step
  the GIC's block is neither of the two that step replaces, and if it is the memory controller's, every
  trapped page in it lies in a GIC window. `Stage2Walk.AcceptedButExposed` is a layout that passes every
  check of `protect_gic` and leaves the memory controller's page to the guest.
- Transfer rings: queueing a fifteenth descriptor can rewrite the link before the controller has followed
  it. `XudcRing.LinkExact` says exactly when, `XudcRing.LinkOvertaken` reaches such a state from the fresh
  ring, `XudcRing.LinkFollowed` rules it out for at most fourteen outstanding, and
  `XudcReceive.LinkAlwaysFollowed` shows that the receive ring, which keeps at most two, never gets there.
- Upload: a failure report does not mean that nothing was booted. `LoaderUpload.Client.TransferBundle` says
  when the guest runs although the host was told of an error (Boot's reply was lost), when the upload stays
  in progress (the Abort was lost), and when it stays open because no Abort is sent at all (BeginBundle's
  reply was lost); a later upload is then refused until something aborts it.
- Legacy interrupt controller: `write_word` clears the owned bit of a word stored to a plain register. On
  hardware that stores to CPU_IER, as the register file of the unit tests does
  (`crates/switchvisor/src/vdev/lic.rs`, lines 164-186), such a store drops the physical enable.
  `Lic.StaysRouted` says the enable survives exactly as long as there is no such store. When both owned
  sources are the same, the second enable ignores the guest: `Lic.SecondFollows`.
- First-come-first-served: the lock serves in order of (number, CPU), so it holds between a CPU whose
  number is out and one that starts choosing after that, and two that choose together are served in
  either order; `Bakery.FirstComeFirstServed` says this, retries after an overflow included.

## Assumptions

- Atomics are sequentially consistent, one access a step. A CPU calls `power_off` only while it is ON, as
  `crates/switchvisor/src/vm/vcpu.rs` does; firmware's answer is an input.
- The interrupt controller does not acknowledge an (INTID, source) pair that is still active, which
  `crates/switchvisor/src/drivers/interrupt/gicv2.rs` relies on at lines 240-241. Guest accesses to its
  list registers are the acknowledgements and EOIs the virtual CPU interface allows.
- USB completions come in order and none is stale after a ring reset. A completed transfer holds at most
  one block.
- Guest memory may change between any two accesses; a range that the memory contract calls valid can be
  read and written.
- Distributor hardware: a set register ORs, its clear register masks the same bits, any other register
  stores its word; the same for the legacy interrupt controller.

## Model

| member | source | states |
|---|---|---|
| `VgicRuns.RunConserves` | crates/switchvisor/src/drivers/interrupt/gicv2.rs:238-385 | Over every run of acknowledgements, finished tokens, polls, enable switches and guest acknowledges and EOIs, each physically active interrupt is in exactly one list register, overflow slot or unfinished EL2 token and every other one in none; the overflow count and the HCR underflow bit are exact in every state |
| `VgicRuns.RefillSchedules` | crates/switchvisor/src/drivers/interrupt/gicv2.rs:354-385 | A refill loses nothing; afterwards no implemented register is free, or nothing pending is injectable, or the distributor is off; whatever was injected is outranked by nothing injectable that stays; the underflow bit is set exactly when enabled with injectable work left |
| `VgicRuns.BestUpToIsLeast` | crates/switchvisor/src/drivers/interrupt/gicv2.rs:332-352 | The scan finds a candidate exactly when there is one, and it is the least in (priority, id), the lowest slot among equals |
| `VgicRuns.RefillTurn` | crates/switchvisor/src/drivers/interrupt/gicv2.rs:373-385 | One turn of the loop moves one pending interrupt into one free register, touches no other slot, and makes nothing injectable that was not |
| `VgicWaits.AcknowledgedIsKept` | crates/switchvisor/src/drivers/interrupt/gicv2.rs:546-578 | Each acknowledgement has its outcome: the maintenance interrupt is completed at once, an owned one becomes an EL2 token and nothing else changes, any other is in a list register or its own overflow slot with its id, for an SGI its source, and the priority p for which 8p is the running priority less its low three bits, also when the refill moved it on |
| `VgicWaits.FinishedIsKept` | crates/switchvisor/src/drivers/interrupt/gicv2.rs:469-492 | A token given back is inactive at once, or waits for the guest with its own id, source and priority |
| `VgicWaits.WaitsOn` | crates/switchvisor/src/drivers/interrupt/gicv2.rs:238-385 | Until the guest takes it, no other event changes the id, source or priority an interrupt waits with, whichever of slot and register holds it |
| `VgicWaits.NothingStuck` | crates/switchvisor/src/drivers/interrupt/gicv2.rs:354-394 | After every delivery, poll, maintenance interrupt and switch with the distributor on, no list register is free while the overflow holds an interrupt other than an SGI whose number is already in a register |
| `VgicWaits.RunUnderflows` | crates/switchvisor/src/drivers/interrupt/gicv2.rs:362-371 | In every state of every run the virtual interface is on exactly with the distributor, and underflow is asked for exactly when it is on and such an interrupt waits |
| `VgicWaits.PollCollects` | crates/switchvisor/src/drivers/interrupt/gicv2.rs:264-284 | A poll leaves no guest EOI uncollected |
| `VgicRuns.TakeKeeps` | crates/switchvisor/src/drivers/interrupt/gicv2.rs:546-578 | Acknowledging an interrupt that is not already active keeps the whole invariant |
| `VgicRuns.FinishKeeps` | crates/switchvisor/src/drivers/interrupt/gicv2.rs:469-492 | Finishing an owned token, delivered or not, keeps the whole invariant |
| `VgicRuns.PollKeeps` | crates/switchvisor/src/drivers/interrupt/gicv2.rs:535-540 | Draining guest EOIs and refilling conserves, deactivates only what the guest ended, and leaves the control register exact |
| `VgicRuns.DrainUpToKeeps` | crates/switchvisor/src/drivers/interrupt/gicv2.rs:273-284 | Every EOI collected from a software list register deactivates exactly its own physical SGI |
| `VgicRuns.InjectKeeps` | crates/switchvisor/src/drivers/interrupt/gicv2.rs:300-304 | Injecting moves the interrupt from the driver's hands into the chosen free register |
| `VgicRuns.EnqueueKeeps` | crates/switchvisor/src/drivers/interrupt/gicv2.rs:238-247 | Enqueueing moves it into its own slot, which was free: no live entry is overwritten |
| `Vgic.SlotSeparates` | crates/switchvisor/src/drivers/interrupt/gicv2.rs:227-236 | Two interrupts share an overflow slot exactly when they have the same id and, for SGIs, the same source |
| `Vgic.EncodedLr` | crates/switchvisor/src/drivers/interrupt/gicv2.rs:286-298 | The packed list-register word, read back by the hardware's field layout, is the interrupt that was encoded: hardware-linked for PPIs and SPIs, EOI-notifying with its source for SGIs |
| `VgicDriver.GicV2.TakeInterrupt` | crates/switchvisor/src/drivers/interrupt/gicv2.rs:546-578 | The method over fields and registers makes exactly the specified step, whose outcome and priority `VgicWaits.AcknowledgedIsKept` states; each interrupt it acknowledges has its priority dropped once, before any deactivation |
| `VgicDriver.GicV2.FinishOwnedInterrupt` | crates/switchvisor/src/drivers/interrupt/gicv2.rs:469-492 | The same for an owned interrupt given back; a delivered one is set pending again, one that is not delivered is deactivated and nothing is set pending |
| `VgicDriver.GicV2.RefillRegisters` | crates/switchvisor/src/drivers/interrupt/gicv2.rs:373-385 | The refill loop over ELRSR computes the specified refill |
| `VgicDriver.GicV2.PopHighest` | crates/switchvisor/src/drivers/interrupt/gicv2.rs:332-352 | The scan loop removes and returns the entry the specification chooses, or changes nothing |
| `VgicDriver.GicV2.DrainSgiEois` | crates/switchvisor/src/drivers/interrupt/gicv2.rs:264-284 | The loop over EISR computes the specified drain |
| `VgicDriver.GicV2.TryInject` | crates/switchvisor/src/drivers/interrupt/gicv2.rs:320-330 | Injects into the lowest free register exactly when one is free and the id is not listed |
| `VgicDriver.GicV2.EnqueuePending` | crates/switchvisor/src/drivers/interrupt/gicv2.rs:238-247 | The slot write and the count make the specified state |
| `VgicDriver.GicV2.SetDistributorEnabled` | crates/switchvisor/src/drivers/interrupt/gicv2.rs:388-394 | Switching makes the specified state, refill included |
| `VgicDriver.GicV2.PollInterrupts` | crates/switchvisor/src/drivers/interrupt/gicv2.rs:535-540 | The specified poll |
| `Bakery.MutualExclusion` | crates/switchvisor/src/psci.rs:68-112 | At most one CPU is in the critical section in every state of every interleaving of single loads and stores, number overflow with withdrawal and retry included |
| `Bakery.FirstComeFirstServed` | crates/switchvisor/src/arch/aarch64/sync.rs:25-73 | A CPU that starts choosing after another has published its number never enters before that one has left, withdrawals and retries included |
| `Bakery.WordsFit` | crates/switchvisor/src/psci.rs:68-105 | The packed word never overflows 64 bits, and a withdrawn CPU shows an idle slot |
| `Bakery.LeastAdvances` | crates/switchvisor/src/psci.rs:86-103 | With nobody choosing, the waiting CPU least in (number, CPU) order is not held up, and choosing or retrying always advances |
| `Bakery.SomeoneMoves` | crates/switchvisor/src/psci.rs:68-112 | No deadlock: in every state of every run in which some CPU is engaged with the lock, some engaged CPU's next access changes where it stands |
| `Bakery.LeastEnters` | crates/switchvisor/src/psci.rs:86-103 | With nobody choosing and nobody inside, the waiting CPU least in (number, CPU) order enters within eight accesses of its own |
| `Bakery.LeastEntersAmong` | crates/switchvisor/src/psci.rs:86-103 | The same among the others, over every run: from a state with nobody choosing or inside, the least waiting CPU has entered by the time it has looked eight times at a CPU that is not choosing, whatever the others do meanwhile, new attempts and withdrawals included; until then nobody else is inside |
| `Bakery.StepInv` | crates/switchvisor/src/psci.rs:68-112 | Every single load or store keeps the lock's invariant |
| `Psci.Linearizes` | crates/switchvisor/src/psci.rs:164-232 | In every run each CPU's log of claims, boots, announcements, consumptions and power-offs, with every refusal of CPU_ON (ALREADY_ON or ON_PENDING), every answer of AFFINITY_INFO and every empty `take_launch`, replays legally on the one-CPU machine, which ends in the phase the state byte shows |
| `Psci.TakenIsClaimed` | crates/switchvisor/src/psci.rs:174-225 | In a legal log each launch consumed is exactly the entry and context of the last claim before it, announced once in between, with nothing else between but one boot at most and answers |
| `Psci.BootsOnceInRuns` | crates/switchvisor/src/psci.rs:174-209 | `boot_physical` succeeds at most once for each CPU, and never for the boot CPU, over all off and on cycles and failed attempts |
| `Psci.VisibleLaunch` | crates/switchvisor/src/psci.rs:193-225 | Whenever the state is PENDING the launch is complete, is the claimant's, and firmware has accepted the CPU |
| `Psci.NextInv` | crates/switchvisor/src/psci.rs:164-232 | Every atomic access of every participant keeps the invariant, and the claim is stored only while holding the lock |
| `Psci.BootsOnce` | crates/switchvisor/src/psci.rs:193-206 | The successful boots in a legal log are counted exactly by the started flag at its ends |
| `Psci.ClaimOf` | crates/switchvisor/src/psci.rs:174-209 | A CPU that is claimed or pending has exactly the claim that opened this off period, and if pending its one announcement |
| `PsciCalls.RequestExact` | crates/switchvisor/src/psci.rs:174-189 | CPU_ON goes on to the lock exactly for a target below 4 and an aligned entry in [0x80000000, 0x1000000000) outside [0xfec00000, 0xffc00000); any other is answered -2 and changes nothing |
| `PsciCalls.EntriesStartable` | crates/switchvisor/src/psci.rs:174-244 | In every run each launch claimed or consumed has its entry in that range, aligned and outside EL2's memory |
| `PsciCalls.AnswersExact` | crates/switchvisor/src/psci.rs:174-209 | A call that reached the lock answers 0 exactly as its launch is announced, firmware's nonzero status as the claim is given back, and otherwise the -4 or -5 that was logged for that caller when the CPU was seen |
| `PsciCalls.AskExact` | crates/switchvisor/src/psci.rs:164-169 | AFFINITY_INFO answers -2 for no CPU, else what the history of that CPU records |
| `PsciCalls.FirmwareDecides` | crates/switchvisor/src/psci.rs:195-205 | A claim is given back exactly when firmware answers nonzero, with that status |
| `Ncm.DecodeExact` | crates/switchvisor/src/drivers/usb/ncm.rs:55-139 | The decoder accepts exactly the well-formed blocks (linked pointer tables, aligned entries, no overlap, at most sixteen of each), with exactly their datagrams |
| `NcmFormat.AcceptedExact` | crates/switchvisor/src/drivers/usb/ncm.rs:55-139 | The same with every signature, length, alignment and limit of the format written out: a block is accepted with exactly the datagrams its tables list, in order |
| `Ncm.DecodeSafe` | crates/switchvisor/src/drivers/usb/ncm.rs:55-139 | On any bytes at all, every datagram returned lies inside the block past its header, aligned, apart from the others |
| `Ncm.DecodeBatch` | crates/switchvisor/src/drivers/usb/ncm.rs:172-233 | Decoding a finished batch yields one datagram per pushed frame, in order |
| `Ncm.DecodedFrame` | crates/switchvisor/src/drivers/usb/ncm.rs:172-233 | Datagram i of a finished batch is byte for byte frame i |
| `Ncm.DecodeSingle` | crates/switchvisor/src/drivers/usb/ncm.rs:141-158 | A block encoded for one frame decodes to that frame alone |
| `NcmFormat.BatchLayout` | crates/switchvisor/src/drivers/usb/ncm.rs:203-235 | A finished block byte by byte: header with its sequence number, and one table of all frames at the first aligned place behind the last |
| `NcmFormat.TableExact` | crates/switchvisor/src/drivers/usb/ncm.rs:179-201 | Each frame starts at the first place behind the one before it at which its payload is aligned |
| `NcmFormat.SingleLayout` | crates/switchvisor/src/drivers/usb/ncm.rs:141-163 | A single-frame block byte by byte |
| `NcmCodec.DecodeBlock` | crates/switchvisor/src/drivers/usb/ncm.rs:55-139 | The decoding loops over bounded tables compute the specified decoder |
| `NcmCodec.EncodeSingle` | crates/switchvisor/src/drivers/usb/ncm.rs:141-158 | The in-place encoder writes exactly the specified block and nothing after it; a refusal changes no byte |
| `NcmCodec.Encoder.Push` | crates/switchvisor/src/drivers/usb/ncm.rs:179-201 | A push succeeds exactly when the frame and the table it makes necessary still fit; a failed push changes no field and no byte |
| `NcmCodec.Encoder.Finish` | crates/switchvisor/src/drivers/usb/ncm.rs:203-233 | Whatever was pushed can be finished in the same output: header, body, zeroed gap and table in place, nothing after them |
| `Transmit.SendFrames` | crates/switchvisor/src/drivers/usb/tegra210.rs:1264-1310 | The loops over the ring consume the specified prefix and make the specified block: frames the filter keeps back are dropped, one frame alone goes in a block of its own, otherwise the longest prefix that fits; the block decodes to exactly the accepted frames of that prefix, in order; progress whenever there is room for one full frame |
| `Transmit.SentCarries` | crates/switchvisor/src/drivers/usb/tegra210.rs:1264-1310 | Whatever queue, filter and answers of the hardware, a receiver that decodes the block gets exactly the accepted frames of the prefix consumed |
| `Transmit.SentProgress` | crates/switchvisor/src/drivers/usb/tegra210.rs:1264-1310 | Something leaves whenever the link is up and the hardware takes a block with room for one full frame |
| `Transmit.SentMaximal` | crates/switchvisor/src/drivers/usb/tegra210.rs:1263-1310 | As much leaves as can: what stays behind starts with an accepted frame that the block has no room for |
| `Transmit.SentNothing` | crates/switchvisor/src/drivers/usb/tegra210.rs:1232-1310 | Without a link nothing leaves; without a transfer only frames the filter keeps back, up to the first accepted one |
| `Transmit.SentNumbered` | crates/switchvisor/src/drivers/usb/tegra210.rs:1232-1310 | Each block carries its sequence number |
| `Transmit.FilterExact` | crates/switchvisor/src/drivers/usb/tegra210.rs:1313-1318 | The packet filter bit by bit: everything to a promiscuous host, else broadcasts with the broadcast or multicast bit, other group addresses with multicast, the host's own address with directed |
| `Transmit.SendBatch` | crates/switchvisor/src/drivers/usb/tegra210.rs:1264-1310 | Encodes the longest prefix that fits and pops it, but only when submitted |
| `Transmit.SendOne` | crates/switchvisor/src/drivers/usb/tegra210.rs:1232-1262 | One frame in a block of its own, popped only when submitted |
| `Transmit.BatchDelivers` | crates/switchvisor/src/drivers/usb/tegra210.rs:1264-1310 | A receiver of the batch gets exactly those frames in order |
| `FrameRing.Ring.Commit` | crates/switchvisor/src/net.rs:62-74 | The tail slot filled in place becomes the last frame exactly when it has a legal length and there is room |
| `FrameRing.Ring.Push` | crates/switchvisor/src/net.rs:76-81 | Appends the frame or changes nothing |
| `FrameRing.Ring.Pop` | crates/switchvisor/src/net.rs:92-97 | Removes the oldest frame, across the wrap of the ring |
| `Virtqueue.WalkExact` | crates/switchvisor/src/vdev/virtio_net.rs:96-133 | Whatever the guest does to the table meanwhile, the walk accepts exactly the chains whose descriptors, as read, are in range, acyclic, usable and of the wanted direction, and returns them in order |
| `Virtqueue.WalkBounded` | crates/switchvisor/src/vdev/virtio_net.rs:96-133 | The walk reads at most one descriptor for each index not yet seen, and stores nothing |
| `Virtqueue.WalkUsable` | crates/switchvisor/src/vdev/virtio_net.rs:96-133 | Every buffer of an accepted chain is a nonempty range of guest RAM of the wanted direction: below 4 GiB it meets neither EL2's memory nor its boot stack nor the framebuffer, above it ends at or before the top of memory |
| `Virtqueue.WalkLinks` | crates/switchvisor/src/vdev/virtio_net.rs:96-133 | Every descriptor of an accepted chain but the last, and only those, has the NEXT flag |
| `Virtqueue.DescriptorLayout` | crates/switchvisor/src/vdev/virtio_net.rs:107-121 | Address, length, flags and next as the guest lays them out, lowest bytes first |
| `VirtioRegisters.TakeExact` | crates/switchvisor/src/vdev/virtio_net.rs:66-95 | Taking a chain depends on how many entries the driver is ahead: with none the queue is not looked at again until kicked, with more than fit it is an error, else the next entry is followed |
| `VirtioRegisters.HeadExact` | crates/switchvisor/src/vdev/virtio_net.rs:87-133 | A chain is taken exactly when a well-formed one starts at the head read, and then it is that one |
| `VirtioRegisters.QueueValidExact` | crates/switchvisor/src/vdev/virtio_net.rs:55-64 | The queues the device will use, in plain addresses |
| `VirtioRegisters.TransmitExact` | crates/switchvisor/src/vdev/virtio_net.rs:321-345 | A chain is carried exactly when its header asks for nothing and it holds a frame of legal length; else the device asks for a reset; the driver is told unless bit 0 of the available flags forbids it |
| `VirtioRegisters.ReceiveExact` | crates/switchvisor/src/vdev/virtio_net.rs:359-383 | A frame is taken exactly when the chain has room for it behind the header, with the same consequences |
| `VirtioRegisters.StatusExact` | crates/switchvisor/src/vdev/virtio_net.rs:459-483 | A status written bit by bit: negotiation, running and NEEDS_RESET |
| `VirtioRegisters.AddressesExact` | crates/switchvisor/src/vdev/virtio_net.rs:484-517 | Two halves of a queue address in either order give that address and change nothing else |
| `Scatter.GatherFinds` | crates/switchvisor/src/vdev/virtio_net.rs:186-213 | Byte j gathered is byte offset + j of the concatenated segments, as the guest had it at some access of the call |
| `Scatter.SpreadLands` | crates/switchvisor/src/vdev/virtio_net.rs:215-243 | Over disjoint segments byte j stored is at position offset + j of the chain |
| `Scatter.SpreadSpares` | crates/switchvisor/src/vdev/virtio_net.rs:215-243 | No address outside those positions changes |
| `VirtioRuns.RunInv` | crates/switchvisor/src/vdev/virtio_net.rs:66-152 | In every run, while the device is not broken both queues have equal used and available indices across 16-bit wrap and queue switching, the used ring, read as two little-endian words an entry, lists exactly the heads read from the available ring, in order and once each, and nothing was stored except while serving a packet |
| `VirtioRuns.BrokenUntilReset` | crates/switchvisor/src/vdev/virtio_net.rs:299-382 | After NEEDS_RESET no guest memory is accessed and the device stays broken until status is written 0 |
| `VirtioRuns.TransmitStep` | crates/switchvisor/src/vdev/virtio_net.rs:305-345 | A transmission either breaks the device without one store or publishes exactly the taken head with length zero |
| `VirtioRuns.ReceiveStep` | crates/switchvisor/src/vdev/virtio_net.rs:347-383 | A reception either is refused without one store or publishes exactly the taken head with header plus frame length |
| `VirtioRuns.CompletePublishes` | crates/switchvisor/src/vdev/virtio_net.rs:134-152 | A completion stores the used entry, head and then length as little-endian words, then the index that publishes it, and reads once |
| `VirtioRuns.TransmittedFrame` | crates/switchvisor/src/vdev/virtio_net.rs:321-345 | The frame is the chain from byte 12 on, each byte as the guest had it during the call |
| `VirtioRuns.ReceivedFrame` | crates/switchvisor/src/vdev/virtio_net.rs:359-383 | Over disjoint buffers the chain then holds the header, of which only byte 10 is set, to one, and the frame |
| `VirtioRuns.ReceivedSlack` | crates/switchvisor/src/vdev/virtio_net.rs:359-383 | An accepted frame changes no other address: slack keeps what it held |
| `VirtioRuns.WordKeeps` | crates/switchvisor/src/vdev/virtio_net.rs:459-517 | Short of a reset no register write moves a ring index or mends a broken device |
| `VirtioDriver.Chain.Follow` | crates/switchvisor/src/vdev/virtio_net.rs:96-133 | The loop with its seen bits computes the specified walk |
| `VirtioDriver.Chain.Read` | crates/switchvisor/src/vdev/virtio_net.rs:186-213 | The loop over segments computes the specified gather |
| `VirtioDriver.Chain.Write` | crates/switchvisor/src/vdev/virtio_net.rs:215-243 | The loop over segments makes the specified stores |
| `VirtioDevice.QueueDevice.Next` | crates/switchvisor/src/vdev/virtio_net.rs:66-133 | The method makes the specified accesses and takes the specified chain |
| `VirtioDevice.QueueDevice.Finish` | crates/switchvisor/src/vdev/virtio_net.rs:134-152 | The method makes the specified completion |
| `VirtioDevice.NetDevice.Transmit` | crates/switchvisor/src/vdev/virtio_net.rs:305-345 | The method over fields and guest memory makes the specified transmission |
| `VirtioDevice.NetDevice.Receive` | crates/switchvisor/src/vdev/virtio_net.rs:347-383 | The method makes the specified reception |
| `VirtioDevice.NetDevice.WriteStatus` | crates/switchvisor/src/vdev/virtio_net.rs:459-483 | The status machine: reset, negotiation and the rest, as specified |
| `VirtioDevice.NetDevice.Write` | crates/switchvisor/src/vdev/virtio_net.rs:439-517 | Every register store by the guest makes the specified device, or is the access-size error and changes nothing |
| `Bridge.RunInv` | crates/switchvisor/src/net.rs:124-222 | In every run the guest gets an in-order subsequence of what was offered to it, direct deliveries included, and what leaves for the host is exactly what was queued for it, in order |
| `Bridge.GuestFrameKept` | crates/switchvisor/src/net.rs:203-221 | A completed guest frame is rejected by its own addresses or length, or is local, or is appended to the host's egress: never dropped for lack of space |
| `Bridge.HostFrameLost` | crates/switchvisor/src/net.rs:189-201 | A forwarded host frame is lost exactly when eight frames already wait for the guest |
| `Bridge.TakenInOrder` | crates/switchvisor/src/net.rs:244-289 | Handing the oldest frame to the device keeps the guest's order |
| `BridgeFates.HostExact` | crates/switchvisor/src/net.rs:162-202 | One host frame queue by queue and counter by counter: its reply, its delivery or place in the queue, or its loss |
| `BridgeFates.GuestExact` | crates/switchvisor/src/net.rs:162-222 | The same for a guest frame |
| `BridgeFates.CountersFit` | crates/switchvisor/src/net.rs:162-222 | In every run the counters start at zero and stop at the largest 64-bit value |
| `BridgeService.Bridge.Route` | crates/switchvisor/src/net.rs:162-187 | Classification, in-place reply and counters as specified |
| `BridgeService.Bridge.ReceiveHost` | crates/switchvisor/src/net.rs:189-201 | The method over in-place rings makes the specified step, bypass included |
| `BridgeService.Bridge.ReceiveGuest` | crates/switchvisor/src/net.rs:203-221 | The same for a frame the device hands over |
| `NetworkService.Network.Service` | crates/switchvisor/src/net.rs:244-289 | At most sixteen rounds, fewer once nothing moves, over the device, the bridge and guest memory themselves: the link set on the device, queues cleared as it and the device went, then in each round a block encoded and sent, the oldest frame offered to the guest, a datagram received with its bypass and a guest frame taken. The world afterwards is exactly the specified fold; only the datagrams that arrive and the transmit hardware's answers are inputs |
| `NetworkService.ServiceRuns` | crates/switchvisor/src/net.rs:244-289 | What a call does to a world that some run ends in is more of that run: link and device events, then rounds of the four steps in the loop's order, at most sixteen, up to the first without progress; so every theorem about runs holds on across calls |
| `NetworkService.FollowedExact` | crates/switchvisor/src/net.rs:244-262 | Before the rounds both queues are cleared if the link changed, the host's if it is down, the guest's if the device does not run |
| `Journey.BlockHolds` | crates/switchvisor/src/net.rs:244-289 | Device, bridge and transmit path together, over every run: every datagram a host decodes from a block that the transmit path encoded is a management reply, or a frame each byte of which was in guest memory at its place in the descriptor chain while the device read it |
| `Journey.FrameLeaves` | crates/switchvisor/src/net.rs:244-289 | No frame queued for the host is lost: it still waits, or left in a batch whose filter stops it, or is a datagram of the block that batch was encoded into |
| `Journey.LeavesInOrder` | crates/switchvisor/src/net.rs:244-289 | The frames taken into blocks, in order, followed by the queue, are all that was queued since the queue was last cleared |
| `Journey.GuestHolds` | crates/switchvisor/src/net.rs:244-289 | Towards the guest: every frame the device took lies, header first, over the chain it found, byte for byte if its buffers are disjoint; the frames taken are datagrams of blocks from the host and management replies in the order in which those came, each at most once |
| `Journey.RunInv` | crates/switchvisor/src/net.rs:124-289 | Every step of device, bridge or codec keeps where each frame is from and where it went |
| `Checksum.InsertVerifies` | crates/switchvisor/src/net.rs:292-301 | Storing the checksum in a word that was zero makes the bytes verify to zero |
| `Checksum.SplitTestExact` | crates/switchvisor/src/net.rs:361-373 | Adding the complements of two checksums and the length accepts exactly when pseudo-header and payload together verify to zero |
| `Checksum.FoldIs` | crates/switchvisor/src/net.rs:297-300 | End-around carry keeps the residue modulo 65535 and tells zero from a nonzero multiple |
| `Checksum.Compute` | crates/switchvisor/src/net.rs:292-301 | The summing and folding loops compute the specified checksum |
| `Management.IpReplyVerifies` | crates/switchvisor/src/net.rs:388-403 | The IPv4 header of every reply verifies to zero, names its length, and goes from the management address back to the source |
| `Management.EchoVerifies` | crates/switchvisor/src/net.rs:346-353 | Every echo request is answered with its identifier, number and data, and the ICMP reply verifies to zero |
| `Management.CommandVerified` | crates/switchvisor/src/net.rs:354-373 | A UDP command that carries a checksum is answered only if pseudo-header and payload verify to zero |
| `Management.ReplyAddressed` | crates/switchvisor/src/net.rs:308-403 | Every reply goes back to the asker's hardware address with the request's type |
| `ManagementReplies.ArpExact` | crates/switchvisor/src/net.rs:309-326 | Which ARP requests are answered, and every byte of the answer |
| `ManagementReplies.IpExact` | crates/switchvisor/src/net.rs:327-378 | Which IPv4 datagrams are answered, byte by byte: address, length, fragmentation, lifetime, checksums, echo or command |
| `ManagementReplies.CommandAnswered` | crates/switchvisor/src/net.rs:354-403 | The reply to a command: ports, length, absent checksum, text, and its IPv4 and Ethernet headers |
| `ManagementReplies.EchoAnswered` | crates/switchvisor/src/net.rs:346-353 | The reply to an echo request, headers included |
| `Checksum.SumByWords` | crates/switchvisor/src/net.rs:292-301 | The checksum sums 16-bit words, high byte first |
| `Checksum.SumPads` | crates/switchvisor/src/net.rs:292-301 | An odd last byte counts as if a zero followed it |
| `Management.Manage` | crates/switchvisor/src/net.rs:308-403 | The in-place construction over whatever the slot held writes exactly the specified reply, padded to sixty bytes |
| `XudcRing.QueueAppends` | crates/switchvisor/src/drivers/usb/tegra210.rs:423-453 | Queueing appends to the outstanding list, hands back the slot of its entry and rewrites no outstanding descriptor, across cycle flips |
| `XudcRing.FullExact` | crates/switchvisor/src/drivers/usb/tegra210.rs:423-431 | The ring refuses exactly when fifteen descriptors are outstanding |
| `XudcRing.CompleteOldest` | crates/switchvisor/src/drivers/usb/tegra210.rs:455-466 | The event for the oldest outstanding descriptor frees exactly its slot |
| `XudcRing.CompleteStranger` | crates/switchvisor/src/drivers/usb/tegra210.rs:455-466 | An event for anything not outstanding is ignored |
| `XudcRing.SeesNext` | crates/switchvisor/src/drivers/usb/tegra210.rs:423-453 | The controller's cycle test finds a descriptor exactly when one is queued that it has not fetched, and it is that one |
| `XudcRing.LinkExact` | crates/switchvisor/src/drivers/usb/tegra210.rs:436-442 | The link back to slot 0 can be followed exactly unless a whole further lap was queued before the controller reached it |
| `XudcRing.LinkOvertaken` | crates/switchvisor/src/drivers/usb/tegra210.rs:436-442 | A run from the fresh ring after which it cannot: fifteen queued, fetched and completed in order, then fifteen more queued, with the controller waiting at a link it does not see |
| `XudcRing.LinkFollowed` | crates/switchvisor/src/drivers/usb/tegra210.rs:436-442 | With at most fourteen outstanding the link never stops the controller |
| `XudcRing.Endpoint.Queue` | crates/switchvisor/src/drivers/usb/tegra210.rs:423-453 | The method writes the descriptor and makes the specified ring |
| `XudcRing.Endpoint.Complete` | crates/switchvisor/src/drivers/usb/tegra210.rs:455-466 | The method frees the specified slot |
| `XudcReceive.ArrivalOrder` | crates/switchvisor/src/drivers/usb/tegra210.rs:1192-1230 | In every run, error completions, stray events, restarts and port resets included: what was delivered since the last restart starts with the datagrams of the blocks read, in order, once each; unless an error stopped the function it is exactly that up to the read position, the slots from the read index are completed, then armed, then free, and the outstanding descriptors are exactly the armed slots', oldest first |
| `XudcReceive.LinkAlwaysFollowed` | crates/switchvisor/src/drivers/usb/tegra210.rs:436-442 | In every run, whenever the controller waits at the link of the receive ring, the function up and not failed, it can follow it |
| `XudcReceive.FailedIsStill` | crates/switchvisor/src/drivers/usb/tegra210.rs:774-777 | After an error nothing is queued, released or delivered until a port reset or a restart |
| `XudcReceive.ReadsOwnBuffer` | crates/switchvisor/src/drivers/usb/tegra210.rs:1192-1230 | A datagram is read only from a buffer that no outstanding descriptor names |
| `XudcReceive.ReadKeeps` | crates/switchvisor/src/drivers/usb/tegra210.rs:1170-1230 | A read keeps the invariant and hands on at most the next datagram |
| `XudcReceive.ReadProgress` | crates/switchvisor/src/drivers/usb/tegra210.rs:1192-1230 | A read hands on the next datagram of the completed block at the read index, gives the slot back exactly after its last one, and does nothing while none is completed |
| `XudcReceive.ArmExact` | crates/switchvisor/src/drivers/usb/tegra210.rs:774-822 | Arming leaves no slot free unless the endpoint is halted, and touches none that is not free |
| `XudcReceive.DescriptorExact` | crates/switchvisor/src/drivers/usb/tegra210.rs:805-818 | A receive descriptor word by word |
| `XudcReceive.ArmKeeps` | crates/switchvisor/src/drivers/usb/tegra210.rs:774-822 | Arming both slots in consumption order keeps the invariant |
| `XudcReceive.ArriveKeeps` | crates/switchvisor/src/drivers/usb/tegra210.rs:680-700 | An in-order completion keeps the invariant |
| `XudcReceive.NextKeeps` | crates/switchvisor/src/drivers/usb/tegra210.rs:1170-1230 | So does every event, a controller fetch and a restart included |
| `XudcDriver.Receiver.ReceiveFrame` | crates/switchvisor/src/drivers/usb/tegra210.rs:1192-1230 | The method over slots and buffers makes the specified read |
| `XudcDriver.Receiver.Arm` | crates/switchvisor/src/drivers/usb/tegra210.rs:774-822 | The method arms what the specification arms |
| `XudcDriver.Receiver.Complete` | crates/switchvisor/src/drivers/usb/tegra210.rs:626-700 | The event handler completes the slot the specification completes; a completion code that is an error, or a length over a block, marks the function failed; an event for nothing outstanding changes nothing |
| `XudcDriver.Receiver.Restart` | crates/switchvisor/src/drivers/usb/tegra210.rs:248-266 | Selecting alternate setting 1 makes the specified fresh state with a fresh ring, setting 0 frees the slots and keeps the ring as it was |
| `XudcDriver.Receiver.ResetPort` | crates/switchvisor/src/drivers/usb/tegra210.rs:762-771 | A port reset stops the function and forgives an error |
| `FdtTheorems.ExcludePreserves` | crates/switchvisor/src/fdt_memory.rs:130-321 | On success the result parses; every property but the resident one keeps its path, name and data in order, except that a memory node's `reg` is subtracted; the resident property stands once under /chosen and holds, in sixteen bytes, the region's start and then its length as big-endian numbers; the reservation list is the old one, plus the region if it was not in it |
| `FdtOutcome.SucceedsExact` | crates/switchvisor/src/fdt_memory.rs:130-321 | A planned exclusion succeeds exactly when /chosen stands at most once, what is left of each memory `reg` can be written in its cells, and the result is shorter than 4 GiB |
| `FdtOutcome.PlannedExact` | crates/switchvisor/src/fdt_memory.rs:133-199 | It is planned exactly when the cell counts are given soundly, there are at most sixteen sound memory nodes, every reservation is empty, apart from the region or the region itself, and the strings block is terminated |
| `FdtOutcome.ExcludeNodes` | crates/switchvisor/src/fdt_memory.rs:214-297 | The nodes of the result are those of the input in their order, with /chosen at the end if there was none |
| `FdtOutcome.CellsExact` | crates/switchvisor/src/fdt_memory.rs:24-34 | Two address cells and one size cell unless the root says otherwise, once, in one word, one or two |
| `FdtOutcome.MemoryExact` | crates/switchvisor/src/fdt_memory.rs:138-160 | Memory nodes are exactly the root and its children whose `device_type` is `memory` |
| `FdtOutcome.RestExact` | crates/switchvisor/src/fdt_memory.rs:44-74 | A bank is cut into at most two pieces that could not be longer, the lower first |
| `FdtLayout.BlocksExact` | crates/switchvisor/src/fdt.rs:56-112 | Which headers are accepted, by big-endian words at their offsets, and where the blocks then lie |
| `FdtLayout.NameExact` | crates/switchvisor/src/fdt.rs:186-197 | The name at an offset is the text that stands there up to the next zero |
| `FdtText.Utf8Exact` | crates/switchvisor/src/fdt.rs:186-197 | A name is accepted as text exactly when it is the encoding of code points of RFC 3629 |
| `FdtLayout.TokenLayout` | crates/switchvisor/src/fdt_memory.rs:82-128 | Each token as it is written, byte by byte |
| `FdtLayout.BankExact` | crates/switchvisor/src/fdt_memory.rs:36-74 | Bank i of a property is read from its i-th piece, start and then size, one or two big-endian words each |
| `FdtTheorems.MemoryLoses` | crates/switchvisor/src/fdt_memory.rs:44-74 | The addresses of each memory node afterwards are its addresses before minus the region |
| `FdtTheorems.NeverRefused` | crates/switchvisor/src/fdt_memory.rs:319-320 | The final re-parse never rejects what was written |
| `FdtTheorems.Idempotent` | crates/switchvisor/src/fdt_memory.rs:130-321 | Excluding the region again gives the same bytes |
| `FdtTheorems.Reparsed` | crates/switchvisor/src/fdt_memory.rs:298-320 | The blob written parses to exactly the copied tokens and the revised visits |
| `FdtMeaning.CarriesMeaning` | crates/switchvisor/src/fdt.rs:118-131 | What `find_property` can see: the same memory nodes, and the same data at every path and name except memory `reg` and the resident property |
| `FdtMeaning.CopyTwice` | crates/switchvisor/src/fdt_memory.rs:214-297 | Every token stream the copy writes is well formed, and copying it again writes it again |
| `FdtCopy.CopyWalks` | crates/switchvisor/src/fdt_memory.rs:214-297 | A copied structure is accepted by the walk and visits the original's properties, revised |
| `FdtRanges.SubtractsExactly` | crates/switchvisor/src/fdt_memory.rs:44-74 | The banks left cover exactly the addresses the banks covered minus the region |
| `FdtRanges.SubtractSettles` | crates/switchvisor/src/fdt_memory.rs:44-74 | Subtracting again from the rewritten data changes nothing |
| `FdtRanges.BanksRoundTrip` | crates/switchvisor/src/fdt_memory.rs:36-111 | Address and size cells written are read back |
| `FdtExclude.ReservedOnce` | crates/switchvisor/src/fdt_memory.rs:162-212 | The region is reserved once afterwards: as before if it was, added at the end if not |
| `FdtExclude.BlocksRendered` | crates/switchvisor/src/fdt_memory.rs:200-319 | The blocks rendered in canonical order are found again by the header checks |
| `FdtNames.NamedTwice` | crates/switchvisor/src/fdt_memory.rs:186-199 | The property name found or appended in the strings block is found again, and nothing is appended twice |
| `FdtTokens.DecodeEncode` | crates/switchvisor/src/fdt.rs:133-226 | Tokens written are read back |
| `FdtTokens.EncodeDecode` | crates/switchvisor/src/fdt.rs:133-226 | Tokens read are what was there |
| `FdtWriter.Exclude` | crates/switchvisor/src/fdt_memory.rs:130-321 | The program over the output buffer, planning loops and writer, succeeds exactly when the specification does and the result fits, and then the buffer starts with exactly those bytes, of which `FdtTheorems.ExcludePreserves` says what they mean; otherwise it reports the error that `FdtFaults.Fault` names for the input, the region and the room |
| `FdtPlanner.MakePlan` | crates/switchvisor/src/fdt_memory.rs:133-199 | The loops before the first write compute the specified plan: cell counts, memory nodes, reservations, the property name's offset; or report which of them failed first and how |
| `FdtPlanner.FindMemory` | crates/switchvisor/src/fdt_memory.rs:138-160 | The walk over properties finds the memory nodes and accepts them exactly when there are at most sixteen, each with one `reg` of whole banks that do not wrap and one `device_type`; of several errors the last one is reported |
| `FdtPlanner.ReadReserved` | crates/switchvisor/src/fdt_memory.rs:162-182 | The reservation loop refuses the first entry that wraps or meets the region without being it, each with its own error, and notes whether the region is there |
| `FdtWriter.Walk` | crates/switchvisor/src/fdt.rs:133-226 | The cursor loop computes the specified walk, or the error at the token where it stops |
| `FdtFaults.WalkFaultExact` | crates/switchvisor/src/fdt.rs:133-226 | The walk has an error, as found token by token in the program's order of checks, exactly when the structure is not accepted |
| `FdtFaults.ReservedFaultExact` | crates/switchvisor/src/fdt_memory.rs:162-182 | The reservations have one exactly when some entry wraps or meets the region without being it |
| `FdtErrors.BlocksFaultExact` | crates/switchvisor/src/fdt.rs:56-112 | Which error a header is refused with, by its words |
| `FdtErrors.TokenFaultExact` | crates/switchvisor/src/fdt.rs:133-226 | Which error a token is refused with, by its bytes and place |
| `FdtErrors.MemoryFaultExact` | crates/switchvisor/src/fdt_memory.rs:138-161 | Of several faults in the memory nodes the last one is reported, each judged by the nodes taken before it; without any there is no error |
| `FdtErrors.NodeFaultExact` | crates/switchvisor/src/fdt_memory.rs:146-156 | What is wrong with one memory node |
| `FdtErrors.ReservedFaultFirst` | crates/switchvisor/src/fdt_memory.rs:162-182 | Of several reservations that may not stay the first is reported, a wrapping one apart from a conflicting one |
| `FdtWriter.Ranges` | crates/switchvisor/src/fdt_memory.rs:44-74 | The bank loop computes the specified subtraction |
| `FdtWriter.CopyStructure` | crates/switchvisor/src/fdt_memory.rs:214-297 | The token loop writes the specified copy, or runs out of room exactly when it is too long; a copy that stops reports its error, or that there was no room for what comes before it |
| `FdtWriter.Writer.Bytes` | crates/switchvisor/src/fdt_memory.rs:82-93 | Appends exactly when it fits |
| `LoaderRuns.BootIsSafe` | crates/switchvisor/src/loader.rs:388-590 | In every run at most one boot is emitted, and then guest memory holds every image's acknowledged bytes with the declared length and checksum and zeros to its runtime size; images are in guest range, clear of the boot stack and the framebuffer, and pairwise disjoint; one holds the aligned entry |
| `LoaderRuns.BootedMemory` | crates/switchvisor/src/loader.rs:573-590 | What that means address by address, without the loader's terms: where an image lies, that EL2's boot stack, the framebuffer and the rest of memory are not among it, what is there, and that no other image meets it |
| `LoaderRuns.BootedEntry` | crates/switchvisor/src/loader.rs:545-590 | A booted bundle has as many images as it announced, at most sixteen, and its entry is a whole aligned word of one image's file |
| `LoaderRuns.RunSpares` | crates/switchvisor/src/loader.rs:255-275 | No run changes a byte outside guest RAM, of EL2's boot stack or of the framebuffer, failing storage included |
| `LoaderRuns.ImageExact` | crates/switchvisor/src/loader.rs:211-216 | The image descriptors that are valid, in plain addresses |
| `LoaderRuns.BundleExact` | crates/switchvisor/src/loader.rs:164-171 | The bundle descriptors that are valid, in plain addresses |
| `LoaderWire.AnswersExact` | crates/switchvisor/src/loader.rs:388-590 | Each request is answered with its own opcode and number, the number of the first fault that applies or 0, and the phase reached or, for a chunk stored, how far the image has come |
| `LoaderWire.HeaderExact` | crates/switchvisor/src/loader.rs:124-150 | Which messages are read, field by field, and which fault the others have |
| `LoaderWire.HeaderLayout` | crates/switchvisor/src/loader.rs:114-123 | Where the fields of a message lie |
| `LoaderWire.BundleLayout` | crates/switchvisor/src/loader.rs:173-180 | Where the fields of a bundle descriptor lie |
| `LoaderWire.ImageLayout` | crates/switchvisor/src/loader.rs:231-237 | Where the fields of an image descriptor lie |
| `LoaderWire.HelloLayout` | crates/switchvisor/src/loader.rs:402-414 | What Hello states, number by number |
| `LoaderWire.StatusLayout` | crates/switchvisor/src/loader.rs:415-434 | What Status states, number by number |
| `LoaderRuns.DisabledForever` | crates/switchvisor/src/loader.rs:370-383 | Once disabled, nothing changes any more: no memory, no boot |
| `LoaderRuns.RejectedIsUnchanged` | crates/switchvisor/src/loader.rs:388-590 | A rejected request changes no loader state, and memory only if storage itself failed |
| `LoaderRuns.RunInv` | crates/switchvisor/src/loader.rs:374-590 | The ledger of acknowledged bytes agrees with memory and state after every run of messages and disables |
| `LoaderCodec.HeaderRoundTrip` | crates/switchvisor/src/loader.rs:103-150 | A header and its body written are read back |
| `LoaderCodec.HeaderIsEncoded` | crates/switchvisor/src/loader.rs:124-150 | No message is accepted except an encoded header followed by the length it announces |
| `LoaderCodec.BundleRoundTrip` | crates/switchvisor/src/loader.rs:164-200 | A bundle descriptor is read back exactly when it is valid |
| `LoaderCodec.ImageRoundTrip` | crates/switchvisor/src/loader.rs:211-253 | An image descriptor is read back exactly when it is valid |
| `LoaderService.Loader.Handle` | crates/switchvisor/src/loader.rs:388-590 | The method over fields, image array and storage answers every message as specified; a malformed one changes nothing |
| `LoaderService.Loader.Chunk` | crates/switchvisor/src/loader.rs:483-514 | One Data request: the specified store, running checksum and reply |
| `LoaderService.Loader.EndImage` | crates/switchvisor/src/loader.rs:515-544 | One EndImage request: zero fill, length and checksum as specified |
| `LoaderUpload.FromManifest` | crates/switchvisorctl/src/bundle.rs:123-191 | A manifest is accepted exactly when the bundle it stands for is one the loader has no reason to refuse |
| `LoaderUpload.MeantExact` | crates/switchvisorctl/src/bundle.rs:98-121 | Which registers and flags a manifest asks for, and when it contradicts itself |
| `LoaderUpload.Prepare` | crates/switchvisorctl/src/bundle.rs:72-96 | One image is accepted exactly when its descriptor is valid and overlaps none before it |
| `LoaderUpload.Client.TransferBundle` | crates/switchvisorctl/src/main.rs:312-370 | For every fate of every exchange, the request lost, the reply lost or both through: from Idle with working storage and unchanged files it succeeds exactly if the replies to BeginBundle and to a wanted Boot come through, and guest memory then holds the bundle's images; however it fails, the guest was started exactly if Boot reached the loader and its reply was lost; otherwise the loader is as it was, idle after the Abort, still in progress if the Abort is lost too, or open with no Abort sent if only the reply to BeginBundle was lost; seen from the inputs, the guest has been started exactly if Boot was wanted, BeginBundle's reply came through and Boot reached the loader; anywhere but in Idle it fails and changes nothing |
| `LoaderUpload.FailedBoot` | crates/switchvisorctl/src/main.rs:354-363 | After a failed upload a launch has happened if and only if Boot was requested and its reply lost |
| `LoaderUpload.BootedUnheard` | crates/switchvisorctl/src/main.rs:354-363 | Such a run from power-on: a one-image bundle is uploaded and booted, and the host is told of a failure |
| `LoaderUpload.UploadedIsPlaced` | crates/switchvisorctl/src/main.rs:312-370 | After a delivered upload guest memory holds exactly the bundle's images, and a launch was bootable |
| `LoaderUpload.Client.SendImage` | crates/switchvisorctl/src/main.rs:330-352 | One image in chunks of any size the loader takes arrives whole |
| `LoaderUpload.Client.Request` | crates/switchvisorctl/src/main.rs:232-292 | One exchange over encoded bytes: with the link through, accepted exactly when the loader said OK; a lost request changes nothing, a lost reply hides what the loader did |
| `LoaderUpload.ChunkAccepted` | crates/switchvisor/src/loader.rs:483-514 | A chunk at the running offset is accepted and advances it |
| `LoaderUpload.CommitAccepted` | crates/switchvisor/src/loader.rs:545-565 | A complete bundle commits with its entry inside one image |
| `LoaderUpload.CapabilitiesRoundTrip` | crates/switchvisorctl/src/main.rs:151-182 | The client reads the capabilities the loader states |
| `LoaderUpload.SuitableExact` | crates/switchvisorctl/src/main.rs:294-310 | The loaders the client goes on with |
| `LoaderUpload.Received` | crates/switchvisorctl/src/main.rs:232-292 | The client's reading of a response: malformed, mismatched, rejected or accepted |
| `Stage2Walk.MapExact` | crates/switchvisor/src/stage2.rs:54-231 | For every accepted layout the tables give exactly the intended map over the 36-bit space if and only if the layout is compatible: with the USB step, the GIC's 2 MiB block is neither of the two that step replaces; and if it is the memory controller's, every trapped page in it lies in a GIC window |
| `Stage2Walk.IntendedIsSafe` | crates/switchvisor/src/stage2.rs:54-231 | The intended map reaches no EL2 memory, no GICD, GICH or physical GICC and no trapped page |
| `Stage2Walk.IntendedInjective` | crates/switchvisor/src/stage2.rs:54-231 | No two guest addresses share a physical one |
| `Stage2Attributes.IntendedExact` | crates/switchvisor/src/stage2.rs:54-231 | The intended map in plain addresses |
| `Stage2Attributes.AttributesExact` | crates/switchvisor/src/stage2.rs:23-28 | Whatever the tables of an accepted layout translate is readable, writable, inner shareable and accessed; cacheable normal memory from 2 GiB on, device memory that is never fetched from below and in the GIC's gibibyte |
| `Stage2Attributes.AcceptedExact` | crates/switchvisor/src/stage2.rs:131-190 | The accepted GIC layouts: four disjoint page-aligned windows of one 2 MiB block outside the fourth gibibyte |
| `Stage2Attributes.NeverKept` | crates/switchvisor/src/stage2.rs:54-231 | No translation of a compatible layout leads into EL2's memory or out of the 36-bit space |
| `Stage2Walk.AcceptedButExposed` | crates/switchvisor/src/stage2.rs:143-231 | A layout in the memory controller's block passes every check, and the guest then owns the trapped page |
| `Stage2Walk.IncompatibleMap` | crates/switchvisor/src/stage2.rs:100-231 | Every incompatible layout has an address that goes wrong |
| `Stage2Walk.KnownLayouts` | crates/switchvisor/src/stage2.rs:143-231 | The Tegra210 and QEMU layouts are accepted and compatible |
| `Stage2Tables.Build` | crates/switchvisor/src/stage2.rs:54-98 | The loops fill the four tables with the specified entries; refused placements change no table |
| `Stage2Tables.ProtectGic` | crates/switchvisor/src/stage2.rs:143-231 | The GIC page table, and the split of its gibibyte, as specified; refused layouts change no table |
| `Stage2Tables.ProtectUsb` | crates/switchvisor/src/stage2.rs:100-129 | The USB, CAR and PMC pages are unmapped and nothing else; a refused placement changes no table |
| `Stage2Tables.Prepare` | crates/switchvisor/src/arch/aarch64/stage2.rs:16-58 | The three steps together succeed exactly when every placement and the layout pass the source's checks, with the first error otherwise, and then the tables in memory are those the map theorem is about |
| `Distributor.RunRefines` | crates/switchvisor/src/vdev/gicv2.rs:207-261 | Over every sequence of guest accesses of any size the physical bits of the maintenance interrupt and of both owned ones stay as they were, and every other bit is that of the same sequence made directly on the hardware |
| `Distributor.RunShadows` | crates/switchvisor/src/vdev/gicv2.rs:219-242 | The guest's enables and five-bit priorities of owned interrupts are the fold of its own writes, byte by byte |
| `Distributor.RunStaysEnabled` | crates/switchvisor/src/vdev/gicv2.rs:244-246 | The physical group stays enabled whatever the guest writes |
| `Distributor.WriteExact` | crates/switchvisor/src/vdev/gicv2.rs:214-261 | One write of any legal size: shielded bits unchanged, all others as the direct access |
| `Distributor.ControlExact` | crates/switchvisor/src/vdev/gicv2.rs:244-246 | The control word: hardware enabled, the guest's own bit kept aside |
| `Distributor.ReadExact` | crates/switchvisor/src/vdev/gicv2.rs:170-212 | A read of any legal size shows an owned interrupt's own enable and priority and nothing pending, active or grouped of it, nothing of the maintenance interrupt's enable, pending or active bits, and the hardware elsewhere |
| `Distributor.ProtectedExact` | crates/switchvisor/src/vdev/gicv2.rs:94-152 | The packed masks guard exactly the fields of the maintenance interrupt and the owned ones, whichever register shows them |
| `Distributor.NotedExact` | crates/switchvisor/src/vdev/gicv2.rs:219-242 | One write's effect on the shadow enables and priorities, bit by bit |
| `Distributor.DirectIsWritten` | crates/switchvisor/src/vdev/gicv2.rs:244-258 | An aligned word accessed directly is the word written to the hardware |
| `DistributorRegisters.FieldExact` | crates/switchvisor/src/vdev/gicv2.rs:94-152 | Where each field of an interrupt lies in the register file, in numbers |
| `DistributorRegisters.SeenOwned` | crates/switchvisor/src/vdev/gicv2.rs:170-212 | What the guest sees of an owned interrupt, register by register |
| `DistributorRegisters.SeenOther` | crates/switchvisor/src/vdev/gicv2.rs:170-212 | What it sees of every other interrupt: of the maintenance interrupt its group alone, else the hardware |
| `DistributorDriver.Device.Write` | crates/switchvisor/src/vdev/gicv2.rs:214-261 | The loop over owned interrupts and the masked register write make the specified state |
| `DistributorDriver.Device.ReadBack` | crates/switchvisor/src/vdev/gicv2.rs:170-212 | The read loops compute the specified value |
| `DistributorDriver.Device.Initialize` | crates/switchvisor/src/vdev/gicv2.rs:64-72 | The guest is shown the hardware's own setting, then the physical group is on |
| `Lic.RunExact` | crates/switchvisor/src/vdev/lic.rs:103-129 | Over every run of guest writes a bit of an owned source survives exactly when no write went to that plain register itself, its class bit always; every other bit is that of the same run made directly |
| `Lic.StaysRouted` | crates/switchvisor/src/vdev/lic.rs:55-68 | Once taken over, an owned source stays an interrupt whatever the guest writes, and stays enabled exactly as long as no write goes to its bank's enable register itself |
| `Lic.WriteExact` | crates/switchvisor/src/vdev/lic.rs:103-129 | One write, bit by bit |
| `Lic.ReadExact` | crates/switchvisor/src/vdev/lic.rs:74-101 | Of an owned source the guest sees only its own enable |
| `Lic.RunShadows` | crates/switchvisor/src/vdev/lic.rs:103-129 | The guest's enables are the fold of its own set and clear writes; the second never moves if both sources are the same |
| `Lic.SecondFollows` | crates/switchvisor/src/vdev/lic.rs:103-129 | The second enable follows the guest's writes if and only if the two sources differ |
| `LicRegisters.WriteSpelled` | crates/switchvisor/src/vdev/lic.rs:103-129 | One write by register address |
| `LicRegisters.ReadSpelled` | crates/switchvisor/src/vdev/lic.rs:74-101 | One read by register address |
| `LicRegisters.EnableSpelled` | crates/switchvisor/src/vdev/lic.rs:103-112 | The guest's enable of a source follows its bit in the words stored to the set and clear registers of its bank |
| `Lic.Device.WriteWord` | crates/switchvisor/src/vdev/lic.rs:103-129 | The loop over sources makes the specified state |
| `Lic.Device.ReadWord` | crates/switchvisor/src/vdev/lic.rs:74-101 | The loop over sources computes the specified value |
| `Payload.RoundTrip` | crates/switchvisor/src/payload.rs:178-255 | Every valid descriptor encoded is decoded as it was |
| `Payload.ReadIsEncoded` | crates/switchvisor/src/payload.rs:214-255 | A descriptor is decoded from bytes exactly when they are its encoding |
| `Payload.DamageRefused` | crates/switchvisor/src/payload.rs:214-255 | An encoded descriptor with any one byte changed, checksum field included, is refused |
| `Payload.PackageDamage` | crates/switchvisor/src/payload.rs:164-176 | One changed byte of the payload is always refused; one before it changes nothing |
| `PayloadLayout.FaultExact` | crates/switchvisor/src/payload.rs:131-162 | Which descriptors are valid, in numbers, and the first fault of the others |
| `PayloadLayout.LayoutExact` | crates/switchvisor/src/payload.rs:178-212 | Where an encoded descriptor keeps each field |
| `PayloadLayout.SourceExact` | crates/switchvisor/src/payload.rs:164-176 | Which packages serve |
| `Payload.Write` | crates/switchvisor/src/payload.rs:178-212 | Filling the buffer in place gives the specified encoding |
| `Crc.FoldAppend` | crates/switchvisor/src/payload.rs:55-62 | Feeding data in pieces is feeding it whole |
| `Crc.OneByteDetected` | crates/switchvisor/src/payload.rs:55-66 | Changing exactly one byte always changes the checksum |
| `Crc.CheckValue` | crates/switchvisor/src/payload.rs:35-66 | The checksum of the digits 1 to 9 is 0xcbf43926, the check value of CRC-32 |
| `Crc.Update` | crates/switchvisor/src/payload.rs:55-62 | The bit loops compute the specified accumulator |

## Left out

- NetworkService.Network.Service: the datagrams that arrive are an input; the receive buffers they come from are the subject of the XUDC files.
- Psci.Linearizes: weak memory ordering and barriers are not modelled; the spin loops appear as steps that may repeat, and how long a CPU may go on choosing is not bounded, for an overflow sends it back to choose again.
- VgicRuns.RunConserves: events for the maintenance interrupt carry no cause; the priority drop is kept apart in `VgicDriver` only.
- XudcReceive.ArrivalOrder: notification and control rings and endpoint halts in the middle of a transfer are not modelled; a halt only stops arming.
- Transmit.SendFrames: the block's sequence number, the free capacity and whether the hardware takes the block are inputs; completion of the transfer is not modelled.
- VirtioDevice.NetDevice.Write: register reads and the interrupt line are not modelled.
- FdtWriter.Exclude: a memory node's `reg` is remembered by its path instead of its data offset (a path with two is refused), the walk's path buffer is a list of names, and what a failed call leaves in the output is not stated.
- LoaderUpload.Client.TransferBundle: a request that is lost is one the loader never acts on, so a message cut short in the middle counts as lost; a file that cannot be opened or read, claiming the device and progress output are left out.
- Distributor.RunRefines: bits 0 to 31, the control word, are the subject of `Distributor.ControlExact`; registers with side effects of their own (SGIR) are stored words, and banking between CPUs is not modelled.
- Stage2Tables.Prepare: cache and TLB maintenance and the registers that switch translation on are not modelled.
- `Payload.entry` only adds the load address and is not modelled.
- vGIC set-up of the maintenance and owned interrupts, and the distributor probing in `initialize`: register scripts.
- XUDC PHY, clocks and power, EP0 control transfers and USB descriptors: register scripts and tables.
- Framebuffer, UART, memory controller, EL2 page tables, MMIO decoding and USB register ownership: each would add only easy members.
- JSON, files, serial and USB transports of the command-line tool, packaging and boot image patching: input and output.
- Inline assembly, cache maintenance and volatile copies.
