# StratoVirt: verified models of its address spaces, live migration and firmware tables

StratoVirt is a virtual machine monitor. This project models, in Dafny, the parts of it
whose correctness is hardest to see from the code, and proves what they are for.

- **Address spaces.** A tree of containers, aliases and terminating regions is rendered into
  a sorted flat view, through which all guest memory is read, written and translated
  (`Addresses`, `Regions`, `Containers`, `FlatViews`, `FlatAccess`). The reference is a
  recursive resolution of an address in the tree that knows nothing of flat ranges.
- **Topology updates.** When the tree changes, the difference of two flat views is sent to a
  listener that keeps a bounded pool of KVM memory slots, and ioeventfd lists are merged
  (`KvmSlots`, `Topology`, `IoEventFds`).
- **Live migration.** Dirty bitmaps and their conversion to memory blocks (`DirtyBlocks`,
  `DirtyLog`), pre-copy as a transition system with interleaved guest and VMM writes
  (`PreCopy`), and the protocol of the two sides with both wires, statuses and virtual
  machines (`Protocol`), and what the two sides say to each other in every run
  (`Transcripts`).
- **Saved state.** Conversion of device state between versions and the save and restore of
  a whole machine (`DeviceState`, `Snapshot`).
- **Firmware tables.** The encoder of the ACPI Machine Language against a parser of sections
  20.2.2 to 20.2.5 of the ACPI Specification 6.4 (`AmlPkgLength`, `AmlNames`, `AmlTerms`,
  `AmlLimits`), the SMBIOS table against a reader that walks it by sections 6.1.2 and 6.1.3 of
  DMTF DSP0134 and takes every field from the offset given in section 7 (`SmbiosStructures`,
  `SmbiosTables`, `SmbiosBuilder`, `SmbiosProperties`, `SmbiosReader`), and the numbering of
  virtual processors (`CpuTopology`).

`Arithmetic`, `Bytes` and `CStrings` hold what several modules need. `dafny verify dfyconfig.toml`
checks everything.

## Modelling choices

- Regions are values. `id` stands for the identity of the shared region object; mutable parts
  of the source (views, subregion lists, slot pools, bitmaps, builders, tables, machine
  state) are classes whose methods change fields in place.
- Addresses are `nat`; each unchecked addition and subtraction carries the duty that its
  documentation puts on the caller. Narrowing casts are written out as remainders, and
  64-bit bitmap words are 64 booleans.
- Host memory is one sequence of bytes, and the host addresses of RAM are positions in it.
- KVM is a slot pool and an atomic fetch-and-clear dirty log. Map iteration order, the answers
  of the environment (does the configuration fit, does the VM start, stop, resume and let
  itself be destroyed), sizes and interleavings are parameters, quantified over.
- In `PreCopy` a send step may pick any queued byte, so every order of sending is covered. A
  guest write is one step; a VMM write is a beginning that records its page or does not, any
  number of byte copies, and an end, so that the log can be fetched in between. VMM writes go
  on after the pause, since it stops virtual processors only, and guest writes too if the
  pause fails, since the source does not look at its result. The memory compared is that of
  the memory slots, which is all that is sent.
- In the SMBIOS builder the repeated "if the string is configured, record its index and append
  it" blocks of each structure type are one loop over the list of string places of that type,
  and numeric fields are given when the structure is created.

## Where the code does not do what it promises

Each of these is stated as a lemma with the failing family shut out by an exact condition, or
with a run that shows the failure.

- `sync_dirty_bitmap` skips a clean word without closing the open block; dirty pages on both
  sides of it are sent as neighbours. All dirty pages are sent if and only if no word that
  ends dirty is followed by clean words and then by a word that starts dirty
  (`AllSentIffNoSkew`, `SkewedFetchDropsPage`).
- A VMM write is marked before it is copied. It is lost if the log is fetched in between, if
  it began before the log started or after its last fetch, if a cancel after the status
  check stops the marking, or if its device does not mark; a guest write is lost after the
  last fetch, if the pause did not stop the guest (`TornWriteIsLost`, `WriteOverStartIsLost`,
  `LateWriteIsLost`, `LateCancelLosesWrite`, `UnrecordedWriteIsLost`, `RunningGuestLosesWrite`).
  A run that does none of these and has no skew hands over equal memory, and none of the
  seven conditions can be left out (`RulesExact`).
- A write to a flat range that is not made of whole pages is recorded in no bitmap if it crosses
  the edge of the aligned slot (`SlotRecordsExactly`).
- A source that gives up waiting for the last acknowledgements resumes although the
  destination may run already, and one whose VM does not obey the pause hands over all the
  same (`BothCanRun`, `BothRunExactly`).
- A read that comes to a ROM in read mode takes all that is left from the ROM, also where the
  view no longer shows it (`RomReadHidden`).
- A freed slot keeps its base and can refuse a range that no live slot overlaps
  (`StaleBaseRefuses`, `BlocksExact`).
- A region cache taken from a range without host memory answers with addresses counted from
  zero (`CacheAgrees`).
- `get_dirty_log` drops KVM's pages of a slot for which the VMM has no bitmap
  (`GetDirtyLog`).
- `check_version` never looks at the compatible version, although its comment speaks of
  versions that fit; the model follows the code.
- A name whose first piece holds only prefix characters is written with those characters twice
  (`NameBytesExact`); a package or field unit of 2^28 or more gets a truncated length
  (`RoundTripExact`).
- An empty SMBIOS string cuts off the strings behind it (`TableWalks`); very large memories give
  colliding handles, truncated device counts and capacities (`HandlesDistinct`, `SizesSum`,
  `CapacityExact`).

## Model

| member | source | states |
|---|---|---|
| `Addresses.FindIntersectionExact` | address_space/src/address.rs:168-184 | an intersection exists exactly if the ranges are not disjoint, and covers exactly the common addresses; of two non-empty ranges it is non-empty, while an empty range strictly inside another still intersects it |
| `Containers.PriorityDecides` | address_space/src/region.rs:733-767 | in a list kept by falling priority, newest first, an address belongs to the covering sibling of highest priority, the newest of several; to nobody exactly if no sibling covers it |
| `Containers.ContainerRegion.AddSubregionNotUpdate` | address_space/src/region.rs:733-767 | refuses exactly a child that reaches beyond the container; otherwise inserts it in one place, the list stays in order of priority and age, and is unchanged on refusal |
| `Containers.ContainerRegion.DeleteSubregion` | address_space/src/region.rs:808-845 | removes exactly the first entry that is the given region, fails exactly if there is none, and keeps the order |
| `FlatViews.FlatView.RenderTerminateRegion` | address_space/src/region.rs:922-993 | lays a leaf under the view in place: every address the view already showed shows the same, every other address of the clipped leaf shows the leaf at the right offset, nothing else changes; the view stays sorted, disjoint and free of empty ranges; fails exactly if leaf and window are disjoint |
| `FlatViews.FlatView.RenderRegionPass` | address_space/src/region.rs:856-915 | the same for any tree of containers, aliases and leaves, against the recursive resolution of the tree; never fails |
| `FlatViews.GenerateFlatView` | address_space/src/region.rs:1002-1023 | every address of the range shows exactly the leaf and offset the tree resolves it to, and nothing is shown outside; fails exactly for a root that is not a container |
| `FlatViews.FindFlatRangeExact` | address_space/src/address_space.rs:35-41 | binary search finds exactly the range that shows the address, in every sorted disjoint view |
| `FlatViews.LookupIsResolve` | address_space/src/address_space.rs:35-41 | looking an address up in a rendered view is resolving it in the tree: same leaf, same offset, or nothing on both sides |
| `FlatAccess.Read` | address_space/src/address_space.rs:43-74 | a read over any number of adjacent RAM ranges returns the pointwise translated bytes; one that comes to a ROM in read mode takes all the rest from the ROM, if the ROM has that much; it succeeds exactly in these cases, and otherwise has read everything before the address it stopped at and tells whether that is a hole, a device, or a ROM that is too short |
| `FlatAccess.RomReadShown` | address_space/src/region.rs:583-596 | what a read takes from a ROM is what the view shows, as far as the ROM's flat range reaches |
| `FlatAccess.RomReadHidden` | address_space/src/address_space.rs:55-60 | beyond it the read goes on in the ROM, although the view may show something else there |
| `FlatAccess.GuestMemory.WriteRegion` | address_space/src/region.rs:654-681 | a write to RAM beyond the region is refused without effect; any other replaces exactly its bytes and marks exactly the touched pages in every bitmap that holds the host range |
| `FlatAccess.GuestMemory.Write` | address_space/src/address_space.rs:76-108 | a write over any number of ranges is the byte-wise store through the translation, as far as it got; while migration is active every bitmap gains exactly the pages of those parts of the write (one part per flat range) that its slot holds as a whole; succeeds exactly if every address shows RAM, and otherwise has stored everything before the first address that does not, and tells whether that is a hole or a device |
| `FlatAccess.SlotRecordsExactly` | migration/src/migration.rs:721-732 | a written address of a slot has its page marked if the write's part in its flat range stays inside the slot, and, for a clean page of memory shown only there, only then: a part that crosses the edge of a slot cut by alignment is recorded nowhere |
| `FlatAccess.SlotOfRange` | address_space/src/listener.rs:233-258 | the slot made for a flat range lies in it, and for a range of whole pages it holds every part of a write, so that every written byte is recorded |
| `FlatAccess.StoredElsewhere` | address_space/src/address_space.rs:76-108 | a store changes no host byte that no written address translates to |
| `FlatAccess.StoredAt` | address_space/src/address_space.rs:76-108 | after a store, a host byte holds the data of the last written address that translates to it |
| `FlatAccess.ReadAfterWrite` | address_space/src/address_space.rs:43-108 | reading back a write gives the data if and only if addresses that share a host byte were given the same data; in particular whenever the translation is injective there |
| `FlatAccess.HostAddressExact` | address_space/src/address_space.rs:440-451 | the host address of a guest address is that of the byte which the view shows there, for every kind of region but IO; for RAM and device RAM it is where reads and writes go |
| `FlatAccess.CacheCovers` | address_space/src/address_space.rs:459-473 | the cached pair of an address exists exactly if the address is host-backed, and describes every following address up to the end of its range |
| `FlatAccess.CacheAgrees` | address_space/src/address_space.rs:517-566 | a region cache describes the whole flat range it was taken from, and answers every address as the uncached lookup does, if and only if that range is not one of IO |
| `FlatAccess.GetAddressMap` | address_space/src/address_space.rs:486-511 | the buffers name exactly the host addresses of the interval, in order and of total length `count`; fails exactly if an address has none |
| `FlatAccess.BuffersAreRead` | address_space/src/address_space.rs:486-511 | the host bytes that the buffers of an interval of RAM name are the bytes that reading the interval returns |
| `FlatAccess.SlotsTranslate` | address_space/src/listener.rs:213-284 | where the slots mirror a view, the guest reaches through them exactly the addresses whose whole page lies in a range of RAM, device RAM or readable ROM, and at each of them the host byte that the view shows there |
| `KvmSlots.BlocksExact` | address_space/src/listener.rs:123-136 | when a slot refuses a range: a live slot that shares an address with it, or a freed slot whose stale base lies strictly inside it |
| `KvmSlots.KvmMemoryListener.GetFreeSlot` | address_space/src/listener.rs:120-149 | refuses as overlapping exactly if some slot blocks the range, as full exactly if nothing blocks and no slot is free; otherwise fills the first free slot and no other |
| `KvmSlots.KvmMemoryListener.DeleteSlot` | address_space/src/listener.rs:162-172 | frees exactly the first slot that maps the range, keeping its stale base, and returns that slot; fails exactly if none maps it |
| `KvmSlots.KvmMemoryListener.AddRegion` | address_space/src/listener.rs:213-284 | the slots after adding a flat range, for every kind of region, and unchanged after a failure |
| `KvmSlots.KvmMemoryListener.DeleteRegion` | address_space/src/listener.rs:291-340 | the slots after deleting a flat range; a missing slot is no error |
| `KvmSlots.AddRefusedExactly` | address_space/src/listener.rs:213-284 | an addition is refused exactly if the range is one of RAM, device RAM or readable ROM and has no whole page, or a slot blocks its whole pages, or no slot is free |
| `KvmSlots.DeleteRefusedExactly` | address_space/src/listener.rs:291-302 | a deletion is refused exactly if the range is one of memory without a whole page |
| `KvmSlots.AlignKeepsWholePages` | address_space/src/listener.rs:185-202 | alignment keeps a page exactly if the range holds the whole page, and fails exactly if it holds none |
| `KvmSlots.RunKeepsValid` | address_space/src/listener.rs:120-172 | through every run of allocations and deletions live slots stay pairwise disjoint and in their own place |
| `KvmSlots.AllocateSucceeds` | address_space/src/listener.rs:120-149 | where nothing blocks and a slot is free, allocation succeeds and takes one that was not live, so no index is shared |
| `KvmSlots.AllocateMaps` | address_space/src/listener.rs:138-146 | after an allocation exactly the old mappings and the new one are mapped |
| `KvmSlots.DeallocateMaps` | address_space/src/listener.rs:162-172 | after a deletion exactly the mappings of other ranges remain |
| `KvmSlots.StaleBaseRefuses` | address_space/src/listener.rs:125-136 | a pool with no live slot can refuse a range because of a freed slot's stale base |
| `KvmSlots.AddRegionMirrors` | address_space/src/listener.rs:213-284 | adding a range keeps the slots in step with the enlarged set of ranges |
| `KvmSlots.DeleteRegionMirrors` | address_space/src/listener.rs:291-340 | deleting a range keeps the slots in step with the remaining ones |
| `Topology.MissingExact` | address_space/src/address_space.rs:296-357 | the requests of a pass are exactly the ranges one view has and the other lacks |
| `Topology.AddressSpace.UpdateTopologyPass` | address_space/src/address_space.rs:296-357 | the merge of the two sorted views sends exactly the deletions, or the additions, in address order, up to the first refusal, and succeeds exactly if the listener accepts all |
| `Topology.PassesMirror` | address_space/src/address_space.rs:713-731 | slots that mirror the old view mirror the new one after both passes |
| `Topology.EveryStepSeparate` | address_space/src/address_space.rs:296-357 | after every single request the ranges held are pairwise disjoint, and both passes together turn the old set of ranges into the new |
| `Topology.AddsSucceed` | address_space/src/listener.rs:120-149 | the additions, of whatever kind, all go through when each range that wants a slot holds a whole page, the pool has room for them, and neither live slots nor stale bases are in the way |
| `Topology.AddressSpace.UpdateTopology` | address_space/src/address_space.rs:713-731 | from tree to slots: succeeds exactly if the root is a container and the listener takes all deletions and then all additions that lead to the rendered view; then that view is stored and the slots mirror it; after a refusal the old view stays and the slots mirror it with some of the deletions made, or with all of them and some of the additions |
| `IoEventFds.UpdateIoeventfdsPass` | address_space/src/address_space.rs:364-405 | for all lists with positive sizes the merge ends and old + added = new + deleted as multisets; for sorted disjoint lists it deletes exactly old without new and adds exactly new without old |
| `DirtyLog.DirtyBitmap.constructor` | migration/src/migration.rs:598-617 | a fresh bitmap has a bit for every page of its slot and none set |
| `DirtyLog.DirtyBitmap.MarkBitmap` | migration/src/migration.rs:624-641 | marks exactly the pages the range touches, within bounds |
| `DirtyLog.DirtyBitmap.GetAndClearDirty` | migration/src/migration.rs:643-650 | returns the bitmap and leaves it clear |
| `DirtyLog.VmmDirtyLog.MarkDirtyLog` | migration/src/migration.rs:721-732 | while active, marks exactly the touched pages in every bitmap whose slot holds the whole range; otherwise nothing |
| `DirtyLog.VmmDirtyLog.GetDirtyLog` | migration/src/migration.rs:688-713 | clears the slot's bitmaps and no others, and returns the page-wise union of KVM's log with the slot's; without a bitmap of the slot the result is empty and KVM's pages are lost |
| `DirtyLog.MergeIsMerge` | migration/src/migration.rs:702-709 | a page is dirty in the merge exactly if it is dirty in one of the two and both have its word |
| `DirtyBlocks.SyncDirtyBitmap` | migration/src/migration.rs:740-774 | the blocks are those of the scan of the bitmap, for which: they total as many pages as are dirty; they are the ascending maximal runs of dirty pages if the bitmap has no skew (a word ending dirty, clean words, a word starting dirty), and cover a clean page if it has one |
| `DirtyBlocks.AllSentIffNoSkew` | migration/src/migration.rs:740-774 | the blocks of the scan cover every dirty page if and only if the bitmap has no skew |
| `DirtyBlocks.SkewExample` | migration/src/migration.rs:746-748 | with exactly pages 63 and 128 dirty the scan covers exactly pages 63 and 64 |
| `DirtyBlocks.SkewedRuns` | migration/src/migration.rs:740-774 | the scan turns that bitmap into one block of two pages at page 63 |
| `DirtyBlocks.BlocksHold` | migration/src/migration.rs:740-774 | the blocks hold exactly the guest addresses of the pages that the scan covers; of the dirty pages, if the bitmap has no skew |
| `PreCopy.StepKeepsInvariant` | migration/src/migration.rs:284-430 | every step of sender, guest and VMM keeps each byte of the memory slots equal on both sides, queued for sending, or on a page that a later round fetches, until a skewed conversion or a write that lands when its page is not going to be fetched |
| `PreCopy.RunKeepsInvariant` | migration/src/migration.rs:43-82 | the same through every run with arbitrarily interleaved guest writes, VMM writes and status changes, before and after the pause |
| `PreCopy.RunKeepsMarked` | migration/src/migration.rs:653-732 | in every run that keeps seven rules neither of the two happens: no VMM write is in flight when the log starts, none to a slot when the VMM's log of the slot is fetched; none begins while the status is not Active, without recording its page, or after the last fetch of the VMM's log of its slot; no guest write lands after the last fetch of KVM's log of its slot; and no fetched bitmap has a skew |
| `PreCopy.HandOverIsFaithful` | migration/src/migration.rs:43-82 | every run that keeps the rules and hands over leaves the memory slots of the destination equal to those of the source, whatever is written otherwise |
| `PreCopy.RulesExact` | migration/src/migration.rs:43-82 | a set of rules guarantees equal memory at every hand-over if and only if it holds all seven |
| `PreCopy.PauseStopsGuest` | machine/src/lib.rs:1743-1763 | where every pause stops the guest, the rule on guest writes is kept |
| `PreCopy.CanceledAborts` | migration/src/migration.rs:58-73 | a canceled migration begins no round, and once the status check has seen the cancel nothing is sent or handed over |
| `PreCopy.SkewedFetchDropsPage` | migration/src/migration.rs:688-713 | a fetch whose bitmap has a skew always drops a page: logged before, afterwards neither logged nor queued |
| `PreCopy.SkewLosesPage` | migration/src/migration.rs:740-774 | with guest writes to pages 63 and 128 and every other rule kept, a run hands over different memory |
| `PreCopy.WriteOverStartIsLost` | migration/src/migration.rs:653-671 | a VMM write that began before the log started and ends after all memory was sent lets a run hand over different memory, with every other rule kept |
| `PreCopy.LateCancelLosesWrite` | migration/src/migration.rs:68-75 | a cancel between the status check and the pause stops the VMM's marking and lets a run hand over different memory, with every other rule kept |
| `PreCopy.UnrecordedWriteIsLost` | virtio/src/device/gpu.rs:608-631 | a VMM write that does not record its page, as that of a response of the GPU, lets a run hand over different memory, with every other rule kept |
| `PreCopy.LateWriteIsLost` | virtio/src/device/net.rs:802-812 | a recorded VMM write that begins after the last fetch, while the guest is paused, lets a run hand over different memory, with every other rule kept |
| `PreCopy.RunningGuestLosesWrite` | migration/src/general.rs:251-257 | a pause that does not stop the guest, which the source does not notice, lets a run hand over different memory, with every other rule kept |
| `PreCopy.TornWriteIsLost` | address_space/src/region.rs:671-680 | a log fetch between the mark and the copy of one VMM write lets a run hand over different memory, with every other rule kept |
| `Protocol.StepKeepsInvariant` | migration/src/migration.rs:39-161 | every step of source, destination and environment keeps the two sides, both wires, both statuses and both running flags in agreement |
| `Protocol.RunKeepsInvariant` | migration/src/migration.rs:437-564 | the same through every run |
| `Protocol.NoDeadlock` | migration/src/migration.rs:318-382 | until the source has ended, one side can always take a step of its own |
| `Protocol.FramingIsKept` | migration/src/migration.rs:318-382 | the head of the wire is always the request that the destination expects, which never makes it end the migration, or the payload that was announced, with its length |
| `Protocol.RunsAreSafe` | machine/src/lib.rs:1901-1928 | in every run: while the destination runs, the source runs if and only if its VM did not obey the pause, or obeyed the resume after the source gave up waiting for the acknowledgement of the state or of completion; after the destroy, only if the VM obeyed neither pause nor destroy; the destroy comes only after the destination finished; a migration that stopped leaves the source running and the destination never started; framing holds and nobody is stuck |
| `Protocol.BothRunExactly` | migration/src/migration.rs:437-515 | at the end of a run both VMs run if and only if the destination runs and either the VM that should be destroyed obeyed neither pause nor destroy, or, before that, the VM did not obey the pause or the run has such a late timeout and the VM obeyed the resume |
| `Protocol.BenignRunsComplete` | migration/src/migration.rs:39-161 | without a timeout and with a destination whose steps succeed, every run that cannot go on has destroyed the source, as far as its VM obeys, and left the destination running, or has stopped on both sides with the source running; unless the source's status refuses the first change, when it has given up at once |
| `Protocol.UncanceledRunsComplete` | migration/src/migration.rs:39-161 | from Setup and without a cancel such a run always ends with the destroy of the source and the destination running |
| `Protocol.StepsRunOut` | migration/src/migration.rs:58-82 | every step but a cancel request lowers a measure |
| `Protocol.RunsEnd` | migration/src/migration.rs:58-82 | so no run is longer than the measure of its first state: the migration ends |
| `Protocol.BothCanRun` | migration/src/lib.rs:81-90 | some run leaves both VMs running, by a timeout while waiting for the acknowledgement of the state, unless the source's VM obeys the pause and does not obey the resume |
| `Protocol.TransferExact` | migration/src/protocol.rs:72-111 | which status can be left for which: Setup from none or a failure, Active from any but none and itself, Completed from Active, Failed and Canceled from Setup and Active, and anything from Canceled |
| `Transcripts.SaysWhatItFound` | migration/src/migration.rs:43-93 | in every run the source has sent, without a gap, the beginning of: all memory, one message for each round that found dirty memory, and then the cancel if the check saw one, or else the memory left dirty at the pause, the state and the completion; all of it when it ends; and the destination has read exactly these requests in this order, save those under way |
| `Transcripts.CompletedHasRead` | migration/src/migration.rs:78-91 | a migration that completes has read one request for memory for all of it and one for every round that found dirty memory, the one after the pause among them, before the state and the completion; and the check saw no cancel |
| `Transcripts.CancelIsHeeded` | migration/src/migration.rs:58-73 | a cancel asked for before the check is seen there, and no further round begins; once it is seen the source runs, is not destroyed and says nothing but the cancel, and the destination does not run; no other run stops |
| `Transcripts.BenignRunsHeed` | migration/src/migration.rs:39-161 | where nothing goes wrong, a run that cannot go on has stopped on both sides if the check saw a cancel, and has completed if it did not |
| `Transcripts.StatusesEnd` | migration/src/lib.rs:81-90 | in every run: completion leaves both statuses Completed, a stop leaves both Canceled, and giving up leaves Failed, unless Completed was set before or the status was never set up |
| `DeviceState.AddPadding` | migration/src/protocol.rs:563-585 | succeeds exactly if every shared field is in range and fits; otherwise stops at the first field that is not, with the kind of failure that field has, the fields before it copied; the result holds at each place the byte that the last copy covering it put there, or zero |
| `DeviceState.RearrangedHolds` | migration/src/protocol.rs:563-585 | the conversion that restoring uses is what padding yields wherever it succeeds |
| `DeviceState.PaddingSucceeds` | migration/src/protocol.rs:563-585 | between layouts with unique aliases and disjoint fields in range, without shrinking, padding never fails |
| `DeviceState.PaddingKeepsFields` | migration/src/protocol.rs:563-585 | there it keeps every byte of every shared field, zeroes every other byte, and yields the new size |
| `DeviceState.PaddingComposes` | migration/src/protocol.rs:563-585 | padding by way of a middle version moves every byte as padding directly does, if and only if the middle version has every non-empty field the outer two share |
| `DeviceState.TwoPaddings` | migration/src/protocol.rs:563-585 | then two paddings in a row give the same bytes as one |
| `Snapshot.ReadsInstance` | migration/src/general.rs:157-198 | one saved instance is read back with its id and its state in the current layout, wherever it stands in the stream, and exactly its bytes are consumed |
| `Snapshot.RestoresGroup` | migration/src/snapshot.rs:245-306 | restoring a saved group gives each object its own state, in whatever order the group was saved |
| `Snapshot.Vmm.SaveVmState` | migration/src/snapshot.rs:179-237 | the stream written: transports, devices, CPUs, KVM, each group in its map's iteration order |
| `Snapshot.Vmm.SaveGroup` | migration/src/manager.rs:56-72 | appends id, alias and state of every object of the group, in the given order |
| `Snapshot.Vmm.RestoreVmState` | migration/src/snapshot.rs:245-306 | the new states of all objects; at the first instance that cannot be read, described or converted it fails, and exactly the objects before it have their new state |
| `Snapshot.SaveRestore` | migration/src/snapshot.rs:179-306 | restoring what was saved gives every transport, device and CPU, and KVM, its own saved state in the current layout, for all iteration orders on both sides |
| `Snapshot.VersionDecides` | migration/src/protocol.rs:594-600 | the version numbers alone decide: equal ones restore the very bytes, an older saved one every byte of every shared field and zeros elsewhere, between well-formed layouts without shrinking, and a newer one is refused |
| `Snapshot.RestoredUnlessNewer` | migration/src/snapshot.rs:245-306 | a saved machine of described objects with fitting layouts is restored if and only if no transport, device or CPU, nor KVM, was saved by a newer version, for all iteration orders |
| `Snapshot.RestoredKeepsFields` | migration/src/general.rs:157-198 | in the current layout: the very bytes if the version numbers are equal, and if the saved one is lower every byte of every shared field, zeros elsewhere |
| `Snapshot.SavedFieldsSurvive` | migration/src/snapshot.rs:179-306 | so saving and restoring a machine keeps every shared field of every object |
| `AmlPkgLength.PkgLengthRoundTrip` | acpi/src/aml_compiler.rs:315-360 | decoding a package length inverts encoding it, whatever follows, if and only if the number fits in 28 bits; with `include_self` the number is the payload plus the width |
| `AmlPkgLength.WidthIsLeast` | acpi/src/aml_compiler.rs:323-331 | the encoder takes the narrowest width that holds payload and itself |
| `AmlNames.JoinSplit` | acpi/src/aml_compiler.rs:123-123 | splitting a name at its dots loses nothing |
| `AmlNames.AppendSegs` | acpi/src/aml_compiler.rs:111-119 | each segment is padded with underscores to four bytes; a longer one is refused |
| `AmlNames.BuildNameString` | acpi/src/aml_compiler.rs:122-170 | the bytes the encoder's loop builds, or refusal, for every text |
| `AmlNames.NameBytesExact` | acpi/src/aml_compiler.rs:122-170 | these are the bytes of the path the text stands for, if and only if the first piece is not made of prefix characters alone |
| `AmlNames.PathRoundTrip` | acpi/src/aml_compiler.rs:122-170 | a valid path is read back from its bytes and nothing after them is touched |
| `AmlTerms.IntRoundTrip` | acpi/src/aml_compiler.rs:85-96 | every 64-bit integer is read back from the encoding of its size class |
| `AmlTerms.IntIsShortest` | acpi/src/aml_compiler.rs:85-96 | no bytes that are read as the integer are fewer than those written |
| `AmlTerms.OpenEnclosed` | acpi/src/aml_compiler.rs:614-622 | a package is cut out of the bytes around it if and only if it is below the limit |
| `CStrings.ReadTextBack` | acpi/src/aml_compiler.rs:101-107 | a text without a zero byte is read back and what follows is left alone |
| `AmlTerms.FieldRoundTrip` | acpi/src/aml_compiler.rs:552-594 | a field list is read back with its flags and units if and only if every unit's length fits in 28 bits |
| `AmlTerms.BufferRoundTrip` | acpi/src/aml_compiler.rs:366-375 | a buffer is read back from its size and data |
| `AmlTerms.KindRoundTrip` | acpi/src/aml_compiler.rs:883-1016 | every opcode is read back as the builder that wrote it |
| `AmlTerms.KeepsToGrammar` | acpi/src/aml_compiler.rs:379-1225 | every builder puts between opcode and term list what the grammar of the ACPI Specification wants there, and a package length exactly where it wants one |
| `AmlTerms.TermRoundTrip` | acpi/src/aml_compiler.rs:602-700 | every nested term below the limits is read back, and exactly its bytes are consumed |
| `AmlTerms.AllRoundTrip` | acpi/src/aml_compiler.rs:1018-1104 | a list of children is read back in order |
| `AmlTerms.ScopeBuilder.AppendChild` | acpi/src/aml_compiler.rs:624-627 | appends exactly the child's bytes |
| `AmlTerms.ScopeBuilder.AmlBytes` | acpi/src/aml_compiler.rs:614-622 | the finished scope is the encoding of its head and the appended children in order, and reads back as such |
| `AmlLimits.TermExact` | acpi/src/aml_compiler.rs:315-360 | from a prefix of its bytes and whatever follows a term is read only whole, and only if all its packages are below the limit |
| `AmlLimits.RoundTripExact` | acpi/src/aml_compiler.rs:315-404 | a term is read back, with exactly its bytes consumed, if and only if every package and every field unit in it is below 2^28 |
| `SmbiosStructures.WalkOneBack` | smbios/src/smbios_table.rs:104-116 | a reader finds a structure with its strings up to the first empty one, and the next structure behind it if none is empty |
| `SmbiosStructures.WalkBack` | smbios/src/smbios_table.rs:984-1023 | walking a table finds its structures in order if and only if no string is empty |
| `SmbiosTables.StructureTable.SetStr` | smbios/src/smbios_table.rs:104-108 | appends the string and counts it |
| `SmbiosTables.StructureTable.Finish` | smbios/src/smbios_table.rs:110-116 | closes the string set, also the empty one |
| `SmbiosTables.FilledNames` | smbios/src/smbios_table.rs:656-677 | whatever strings are configured, each string field names its own string, and is left as it was without one |
| `SmbiosBuilder.SmbiosTable.Append` | smbios/src/smbios_table.rs:656-677 | fills in one structure string by string and appends its bytes |
| `SmbiosBuilder.SmbiosTable.BuildTables` | smbios/src/smbios_table.rs:984-1023 | the bytes of exactly the machine's structures, in order |
| `SmbiosReader.TableTells` | smbios/src/smbios_table.rs:984-1023 | where no used string is empty, a reader that takes every field from the offset DSP0134 gives it learns from the bytes exactly the configuration: each string in its own field, defaulted or absent as configured, each number, a processor for every full set of cores and threads, the memory array, its devices and its ranges, in order and with their handles |
| `SmbiosReader.SystemTells` | smbios/src/smbios_table.rs:679-727 | the system structure tells each configured string in its own field, the defaults of the first three, and the UUID |
| `SmbiosReader.ProcessorTells` | smbios/src/smbios_table.rs:815-878 | each processor tells its strings, its speeds as far as 16 bits keep them, and the cores and threads of the machine in both widths |
| `SmbiosReader.ArrayTells` | smbios/src/smbios_table.rs:880-895 | the memory array tells the kilobytes of the machine, cut to 32 bits exactly where these do not reach the marker, and the number of devices |
| `SmbiosReader.DeviceTells` | smbios/src/smbios_table.rs:897-941 | each memory device tells its strings, its place, its size and its speed |
| `SmbiosReader.DigitsBack` | smbios/src/smbios_table.rs:818-823 | the digits in a text are those of the number, without leading zeros |
| `SmbiosReader.Hex2Back` | smbios/src/smbios_table.rs:818-823 | the number of a socket is written in two characters at least, a blank before a single digit |
| `SmbiosProperties.TableWalks` | smbios/src/smbios_table.rs:984-1023 | walking the built table finds exactly the machine's structures, in order and with all strings, if and only if no configured string in use is empty |
| `SmbiosProperties.HandlesDistinct` | smbios/src/smbios_table.rs:1010-1018 | no two structures share a handle, if and only if memory devices and ranges end below the boot structure's handle |
| `SmbiosProperties.SizesSum` | smbios/src/smbios_table.rs:998-1008 | the device sizes a reader finds add up to the machine's memory, if and only if the number of devices fits in 16 bits |
| `SmbiosProperties.CapacityExact` | smbios/src/smbios_table.rs:880-889 | the array's capacity reads as the machine's memory, if and only if the kilobytes fit in 32 bits or their low 32 bits reach the marker |
| `SmbiosProperties.RangeRead` | smbios/src/smbios_table.rs:943-957 | every mapped range is read back to the kilobyte, by its short or its extended fields |
| `CpuTopology.DecomposeCompose` | cpu/src/lib.rs:817-824 | every id below the number of places decomposes into a place within the topology, and composing gives the id again |
| `CpuTopology.ComposeDecompose` | cpu/src/lib.rs:817-824 | every place within the topology has its own id, which decomposes into that place |

## Left out

- KVM ioctls, eventfds, signals, host `mmap` and file backends: system calls; only their effect on slots, bitmaps and memory is modelled.
- IO and ROM-device callbacks: an access that reaches one ends with the outcome `ToDevice`; what the callback does, and the bounds check in front of it, is not modelled.
- The read-only flag of the slot of a ROM: passed to KVM and not kept.
- Several listeners on one address space, and their order by priority: the model has the one KVM memory listener.
- The rollback of a slot when KVM refuses the memory region: needs the ioctl's answer.
- Sharing of one region object between several places of the tree, and changes of a nested region in place: regions are values, so a change is a new tree.
- FlatAccess.GuestMemory.Write: takes the mark and the copy of one chunk as one step; `PreCopy` splits them.
- Topology.AddsSucceed: goes one way only; an earlier addition may reuse the freed slot whose stale base is in the way of a later one, and ranges without host memory need no room.
- PreCopy.RulesExact: is exact for sets of rules; a single run that breaks a rule may still hand over equal memory by chance.
- Memory outside the aligned slots, such as the rim of a RAM range that is not made of whole pages: never sent (migration/src/migration.rs:383-405), so the destination keeps its own; `PreCopy` compares the slots only.
- Memory slots that change during migration: excluded by what the source assumes.
- Writes that the destination's own guest makes once it runs: `PreCopy` compares the source with what was sent.
- Contents of the configuration message and its checks, JSON of headers and descriptors, hashing of device names: library code; ids are given.
- The interrupt controller group of aarch64 in save and restore: the same loop as the other groups.
- Protocol: byte-level I/O errors other than a closed peer and a timeout.
- AML method calls, variable packages, EISA ids, UUIDs and resource descriptors: the first two need knowledge outside the bytes (a variable package's count is written as a bare byte, not as a term), the others are flat records.
- AML names are checked for their length only by the encoder; the round trip is stated for names of the characters that the ACPI Specification allows.
- SMBIOS entry point and the parsing of its configuration: flat records.
- Virtual processor threads, QMP, command line, block and character devices, user interface.
