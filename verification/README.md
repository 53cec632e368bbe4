# Models and proofs of the unikernel

A unikernel boots on a virtual machine, serves HTTP from WebAssembly applications, keeps a key-value store on
a block device and talks to a file server on its host. This project models the parts of it that handle bits,
bytes and shared memory by hand, and proves what each is for.

- **Store** (`Directory`, `Store`, `StoreRefinement`, `StoreRuns`): 64 directory entries of 32 bytes, data
  allocated at the tail, a superblock with a count. The class `KvStore` works on a block device whose writes
  land or fail by an arbitrary schedule and records the disk at every sector-write boundary. On that stand two
  theorems: with all writes landing, every run refines a map; with any writes lost, every other key survives.
- **Virtqueues** (`Virtqueue`, `RxRing`, `TxRing`, `BlkRequest`): rings in memory shared with a device. Driver
  and device are micro-steps that interleave freely, with 16-bit counters that wrap beside unbounded ones.
  `RingMemory`, `RxDriver`, `TxDriver` and `BlkDriver` are the drivers on the bytes of that memory, with the device
  acting between their accesses; every call is a run of the machine. `VirtioNet` and `VsockQueues` put them to use.
- **File protocol** (`VsockFiles`, `FileServer`, `FileProtocol`): requests and answers with length prefixes,
  reassembly at both ends, control packets in between.
- **Web server** (`Http`, `Admin`, `Pages`, `Router`, `Fetch`, `WebServer`): parsing, the upload and page endpoints,
  the router, the background fetch, and the loop that runs them with hot swap.
- **Applications** on linear memory (`LinearMemory`, `Json`, `Utf8`, `Decimal`): the earthquake feed parser
  (`FeedText`, `FeedStrings`, `FeedSlots`, `FeedArray`, `FeedGrammar`, `FeedRecord`, `FeedMembers`), the bulletin board
  (`Bbs`) and the editor (`Editor`).

`dafny verify dfyconfig.toml` checks everything.

## Findings

Where a property one would expect does not hold of the code, the exact condition under which it does is proved.

- A write refused for lack of space may spoil the value it was to replace: the old entry is taken out of the
  allocation before the data is written, but put back only in memory. `RefusedWriteHarmlessIff` gives the condition.
- Names of more than 19 bytes, or with a zero byte, cannot be read back (`WrittenReadsBackIff`).
- An answer of the file server is lost when its first packet has fewer than five bytes (`AnswerUnderstoodIff`).
- A format cut off after the superblock has been written brings the old directory back (`InterruptedFormatIff`,
  `OldDirectoryRevived`).
- After a block request has timed out, every later one takes the completion of an older one (`CompletionsTaken`) and
  reports success unless its own status byte says otherwise by then (`StatusReported`, `LateCompletionMisleads`,
  `LateFailureSeenIff`).
- A transmit buffer still owned by the device is overwritten when the device lags a full round (`OverwriteIff`).
- The used ring of the vsock event queue lies behind the page allocated for that queue (`EventQueueOverruns`).
- Two-character control escapes in the feed stand for their letter (`UnderstoodIff`), surrogate escapes for
  invalid UTF-8 (`ValidIff`).
- A header line of more than sixteen bytes with a character across byte 16 stops the kernel, unless the length came
  before it (`HaltsIff`, `WideLineHalts`).
- A second request behind the first is acted on or lost depending on how the stream is cut
  (`PipelinedDependsOnCut`).
- Of the body of a request on port 80 only what comes with the end of the head reaches the application, 1023 bytes at
  most (`BodiesIff`), so that longer documents are saved in part and reported as saved (`PageSaves`).
- A key that appears earlier inside an object, nested or inside a string, hides the member of that name, and white
  space before a colon its value (`FieldReadIff`, `NestedMasks`, `SpaceBeforeColon`).
- A text field cut to size may end inside a character (`StoredValidIff`), and magnitudes of ten and more come to their
  first two digits (`MagTakenIff`).
- The file listing of the editor is right exactly when it has at most 32768 bytes and no name in it has quotes,
  backslashes or control bytes (`FilesAreNamesIff`, `OneNameReadsAsTwo`, `LongListingMisread`).
- A document of more than a packet stops the kernel exactly when the file server accepts the connection
  (`ExchangeStopsIff`, `SaveStopsIff`), which no request on port 80 brings about.
- A feed cut off after an object produces a blank entry (`CutFeedParsed`).

## Model

| member | source | states |
|---|---|---|
| Store.KvStore.Open | unikernel/src/store.rs:40-58 | with every write landing, a disk whose superblock lacks the magic number becomes an empty store and any other disk is left alone; whichever writes fail, the disk is, at the end and at every sector-write boundary, as before or with an empty superblock in front and each directory sector as before or empty |
| Store.KvStore.ReadDir | unikernel/src/store.rs:186-194 | the 2048 directory bytes are those of sectors 1 to 4 |
| Store.KvStore.WriteDir | unikernel/src/store.rs:196-201 | only sectors 1 to 4 change; at every sector-write boundary, whichever writes land, each is its old or its new content; with all writes landing the directory is the new one |
| Store.KvStore.UpdateSuperblock | unikernel/src/store.rs:203-214 | only the superblock can change, and only its count, which becomes the number of valid named entries |
| Store.KvStore.FindNextFreeSector | unikernel/src/store.rs:217-230 | the end of the furthest valid extent |
| Store.KvStore.RetireAll | unikernel/src/store.rs:94-100 | every valid entry of the name becomes deleted, no other byte of the directory changes, and the result tells whether there was one |
| Store.KvStore.FindSlot | unikernel/src/store.rs:103-111 | the first entry that is deleted or has an empty name |
| Store.InstallEntry | unikernel/src/store.rs:133-140 | the 32 bytes of one entry become name, offset, size and flag as patched, all other entries stay |
| Store.KvStore.PutData | unikernel/src/store.rs:121-130 | sectors of padded data from the free sector on; at every boundary nothing below that sector has changed; it gives up exactly when there is no room or a write of the data is not reported as done |
| Store.KvStore.Read | unikernel/src/store.rs:61-87 | the bytes of the last valid entry with the name, or nothing |
| Store.KvStore.List | unikernel/src/store.rs:152-163 | the names of the valid named entries in slot order |
| Store.KvStore.Write | unikernel/src/store.rs:90-149 | with every write landing it is one step of the write relation; it succeeds exactly when there is a slot, the data fits and no write of the data is reported as lost, and then the data is on the disk; with any schedule of failing writes the disk is, at the end and at every sector-write boundary, old below the free sector and old or new in each directory entry; a full directory touches nothing |
| Store.KvStore.Delete | unikernel/src/store.rs:166-182 | the same for deletion; true exactly when a valid entry has the name |
| Directory.MixedSlots | unikernel/src/store.rs:196-201 | whichever of the four directory sectors were written, every entry is its old or its new self: no entry straddles a sector |
| Directory.EntryPatched | unikernel/src/store.rs:133-140 | rewriting the 32 bytes of an entry changes the decoded directory in that entry only |
| Directory.FlagsPatched | unikernel/src/store.rs:98 | rewriting a flag word changes that flag only |
| Directory.EntryOnDisk | unikernel/src/store.rs:8-13 | entry i is the 32 bytes from byte 32 * (i % 16) of sector 1 + i / 16 on: 20 bytes of name, then offset, size and flags as little-endian words |
| Directory.EmptyStoreText | unikernel/src/store.rs:4-7 | the superblock of an empty store is the text UNIK, version 1 and count 0 |
| StoreRefinement.NameReadsBack | unikernel/src/store.rs:134-137 | a UTF-8 name of at most 19 bytes without a zero byte is read back from its name field |
| StoreRefinement.LongNameStored | unikernel/src/store.rs:134-137 | a longer name is found under its first nineteen bytes, if they are text |
| StoreRefinement.WrittenReadsBackIff | unikernel/src/store.rs:134-137 | a successful write can be read back exactly when its name has at most 19 bytes and no zero byte |
| StoreRefinement.WriteKeepsOthers | unikernel/src/store.rs:90-149 | whatever subset of the sector writes of a write reached the disk, every other legal name reads back its exact old bytes |
| StoreRefinement.DeleteKeepsOthers | unikernel/src/store.rs:166-182 | the same for an interrupted delete |
| StoreRefinement.WriteKeepsTidy | unikernel/src/store.rs:90-149 | extents of valid entries with different names stay disjoint at every sector-write boundary of a write, and names other than the written one stay unique |
| StoreRefinement.DeleteKeepsTidy | unikernel/src/store.rs:166-182 | the same for deletion |
| StoreRefinement.WriteCompletes | unikernel/src/store.rs:90-149 | a completed write updates the map at its name, makes that name unique again and stores the right count |
| StoreRefinement.DeleteCompletes | unikernel/src/store.rs:166-182 | a completed delete removes the name from the map and reports whether it was a key |
| StoreRuns.FormatIsEmpty | unikernel/src/store.rs:40-58 | opening an unformatted disk gives the empty map and the full invariant |
| StoreRuns.ListIsKeySet | unikernel/src/store.rs:152-163 | list gives every key of the map once, and the superblock count is the size of the map |
| StoreRuns.FullIff | unikernel/src/store.rs:103-115 | a write finds the directory full exactly when its name is new and the map has 64 keys |
| StoreRuns.StepRefines | unikernel/src/store.rs:37-231 | every operation on the disk, reads and listings with their results included, is the corresponding operation on the map and keeps the representation invariant |
| StoreRuns.RunRefinesMap | unikernel/src/store.rs:37-231 | every run of open, read, write, list and delete with legal names refines a run on a map, results included |
| StoreRuns.EventKeepsBelief | unikernel/src/store.rs:90-201 | one completed or interrupted operation keeps, for every name it did not leave open, the value it is believed to have, and reads and listings tell that value |
| StoreRuns.InterruptedRunKeepsBelief | unikernel/src/store.rs:90-201 | over any run with operations cut off at any sector-write boundaries, a name whose last operation was not cut off or refused reads back what that operation left, at every read and listing on the way and at the end |
| StoreRuns.BeliefFromFormat | unikernel/src/store.rs:40-58 | such a run may begin with the format itself, cut off or not, provided the next open finds the store empty |
| StoreRuns.Perform | unikernel/src/store.rs:37-231 | the operations of the store are the events of these runs: whichever sector writes are lost, every image on the way is one that cutting the operation off can leave, and with all of them landing it is the completed event with its reply |
| StoreRuns.InterruptedFormatIff | unikernel/src/store.rs:49-58 | after a format cut off anywhere the next open yields an empty store exactly when the superblock is not yet written, or the directory left behind it is sound and has no valid named entry |
| StoreRuns.OldDirectoryRevived | unikernel/src/store.rs:49-58 | a format cut off behind the superblock brings the old entries back, whatever they are |
| StoreRuns.RewriteRecovers | unikernel/src/store.rs:90-149 | after an interrupted write the next completed write of the name restores uniqueness and the whole invariant |
| StoreRuns.RefusedWriteHarmlessIff | unikernel/src/store.rs:94-130 | a write refused for lack of space leaves the map alone, for all data, exactly when the value it was to replace is absent, empty or below the sectors it started to reuse |
| StoreRuns.SpoilingWrite | unikernel/src/store.rs:94-130 | in every other case there is data whose refused write changes the map |
| StoreRuns.RefusedWriteCanSpoil | unikernel/src/store.rs:94-130 | in every store with one key, not empty, and no other entry in use, the old value is exposed to that |
| StoreRuns.SpoilableStore | unikernel/src/store.rs:40-149 | such a store comes about by opening an empty device and one write |
| Virtqueue.LayoutIsSound | unikernel/src/virtio_net.rs:51-64 | for every queue size the descriptor table, the available ring and the used ring do not overlap, the used ring is page aligned, and all fit in the memory allocated |
| Virtqueue.EventQueueOverruns | unikernel/src/vsock.rs:251-333 | for every queue size the used ring starts behind the first page, and with it that of the two-entry event queue behind the one page the queue is given |
| Virtqueue.WrappedSlot | unikernel/src/virtio_net.rs:232-243 | a wrapped 16-bit counter selects the slot its true value would when the queue size divides 2^16 |
| Virtqueue.DistinctSlots | unikernel/src/virtio_net.rs:221-251 | counters less than the queue size apart select different slots |
| RxRing.StepKeepsInv | unikernel/src/virtio_net.rs:221-251 | every micro-step of driver or device, in any interleaving, keeps the receive invariant |
| RxRing.RunKeepsInv | unikernel/src/virtio_net.rs:176-251 | every run from initialisation keeps it, across 16-bit wrap-around |
| RxRing.BufferConservation | unikernel/src/virtio_net.rs:176-251 | in every reachable state each buffer is in exactly one place: offered, with the device, staged, used or in the hand of the driver |
| RxRing.ReceivedInOrder | unikernel/src/virtio_net.rs:221-251 | packets received are an in-order, exactly-once, uncorrupted prefix of those delivered; between calls the counters differ by the buffer count, and an empty poll means nothing is outstanding |
| RxRing.ReachableSound | unikernel/src/virtio_net.rs:221-251 | in every reachable state the buffer in hand is one of the queue and the packet fits it, so the checks of the driver never fail, and what was received is a prefix of what was delivered |
| RingMemory.AvailEntryStored | unikernel/src/virtio_net.rs:79-81 | a ring entry store changes one entry of the decoded ring and nothing else in the queue |
| RingMemory.DescStored | unikernel/src/virtio_net.rs:67-74 | a descriptor store changes one decoded descriptor and nothing else in the queue |
| RingMemory.UsedEntryStored | unikernel/src/virtio_net.rs:232-239 | a used entry the device stores is the one read back, and nothing else in the queue changes |
| RingMemory.BufStored | unikernel/src/virtio_net.rs:261-268 | copying a packet into a buffer changes the front of that buffer only |
| RxDriver.RxQueue.Init | unikernel/src/virtio_net.rs:191-213 | all receive buffers are described, for the device to write, and offered, and the state decoded from memory is reachable |
| RxDriver.RxQueue.Recv | unikernel/src/virtio_net.rs:221-251 | on the bytes of ring memory, with the device acting between any two accesses: the bytes of the packet that was delivered next, or nothing if nothing delivered is outstanding; the descriptors as they were, and a reachable state again |
| TxRing.StepKeepsInv | unikernel/src/virtio_net.rs:254-276 | every micro-step of sender or device keeps the transmit invariant |
| TxRing.ReadsAreFrames | unikernel/src/virtio_net.rs:254-276 | while no send starts with the device a full round behind, every read the device makes is the bytes of the frame it is reading, in order, and frames it owns are intact |
| TxRing.OverwriteIff | unikernel/src/virtio_net.rs:259-268 | the bound is sharp: the next fill spares every owned frame, whatever it contains, exactly when no owned non-empty frame is a full round old |
| TxRing.FullRoundReached | unikernel/src/virtio_net.rs:254-276 | such a state is reached by a full round of sends from initialisation |
| TxRing.ReachableReads | unikernel/src/virtio_net.rs:254-276 | in every state reached with the bound kept, every read the device made is the bytes of the frame it was reading |
| TxDriver.TxQueue.Send | unikernel/src/virtio_net.rs:254-276 | on the bytes of ring memory, with the device acting between any two accesses: queue memory and buffers are those of one call of the transmit machine, and with the lag bound kept the state is reachable again |
| BlkRequest.RunKeepsInv | unikernel/src/blk.rs:144-207 | every run without a timeout keeps the request invariant |
| BlkRequest.CallsAreSerial | unikernel/src/blk.rs:144-207 | without a timeout the two counters agree between calls, and the calls made are a serial execution on the disk, each with its own status and data |
| BlkRequest.RunKeepsTracked | unikernel/src/blk.rs:144-207 | every run with fewer than 65535 timeouts keeps the record of which request each used entry serves |
| BlkRequest.CompletionsTaken | unikernel/src/blk.rs:189-206 | in every such run call c takes, if any, the used entry of request c less the number of earlier calls that gave up; that is its own exactly when no earlier call gave up |
| BlkRequest.StatusReported | unikernel/src/blk.rs:192-203 | in every such run a poll that finds an entry takes the one next in turn, and reports success unless what was last written to the status byte of the call since it began says otherwise; while nothing timed out that is the status of its own entry, and if no two calls share a status byte it is the last status a request from its own chain got |
| BlkRequest.PollsInVain | unikernel/src/blk.rs:189-206 | from every state polls without a completion end in giving up and in nothing else |
| BlkRequest.LateCompletionMisleads | unikernel/src/blk.rs:189-206 | for every queue, disk, poll limit and wherever the buffers are: after a timeout a read reports success, with the buffer as it was, before the device has seen it |
| BlkRequest.LateFailureSeenIff | unikernel/src/blk.rs:145-147 | a late request that fails while the next one waits makes that one report failure exactly when both have their status byte at one address |
| BlkRequest.LastAnswered | unikernel/src/blk.rs:144-207 | the last call of a serial execution either read or wrote its sector on the disk as it was, or reported failure and left the disk alone |
| BlkDriver.VirtioBlkDev.DoIo | unikernel/src/blk.rs:144-207 | on the bytes of queue memory and buffers, whatever the device does between looks: header and descriptors are those of a request of type 0 or 1 for the sector, every call is a run of the request machine with one new log entry, and without a timeout a call of type 0 that succeeds has read the sector into the buffer and left the disk alone, one of type 1 has written it, and one that fails has changed nothing |
| BlkDriver.VirtioBlkDev.ReadSectors | unikernel/src/blk.rs:132-135 | without a timeout the disk stays, and the buffer is the sector if the call succeeds |
| BlkDriver.VirtioBlkDev.WriteSectors | unikernel/src/blk.rs:137-141 | without a timeout the sector is written exactly if the call succeeds |
| BlkDriver.ChainRequests | unikernel/src/blk.rs:144-175 | the chain is a request as section 5.2.6 of VIRTIO 1.1 lays it out, field by field |
| BlkDriver.VirtioBlkDev.FillChain | unikernel/src/blk.rs:147-175 | header, status and three descriptors spell the request, and the rings behind them are untouched |
| BlkDriver.VirtioBlkDev.OfferChain | unikernel/src/blk.rs:178-184 | head 0 in the next ring slot and the index, nothing else |
| BlkDriver.VirtioBlkDev.Look | unikernel/src/blk.rs:192-206 | one poll: a completion is taken note of and its status reported, the last look in vain gives up |
| BlkDriver.ChainFollowed | unikernel/src/blk.rs:150-175 | a device following the descriptors from head 0 finds exactly the request they were filled with, with write access to the buffer for reads only |
| RingMemory.DescReads | unikernel/src/blk.rs:67-73 | a descriptor stored is read back field by field |
| VirtioNet.VirtioNetDev.Init | unikernel/src/virtio_net.rs:158-217 | all sixteen receive buffers are described and offered, the counters start where they should |
| VirtioNet.VirtioNetDev.TryRecv | unikernel/src/virtio_net.rs:221-251 | whatever the device does meanwhile: the packet delivered next without its first ten bytes, so that a frame behind such a header comes back as it is, and nothing of a shorter one; or nothing if nothing delivered is outstanding; that buffer offered again, descriptors kept |
| VirtioNet.VirtioNetDev.SendPacket | unikernel/src/virtio_net.rs:254-276 | whatever the device does meanwhile: the frame goes out behind a zeroed header, and with the lag bound kept every read the device ever made is a frame as sent |
| VsockFiles.HeaderFields | unikernel/src/vsock.rs:144-163 | every field of a packet header stands where section 5.10.6 of VIRTIO 1.1 puts it |
| VsockQueues.SentDecodes | unikernel/src/vsock.rs:144-163 | a packet as sent is received as its operation and payload, whatever is behind it in the buffer |
| VsockQueues.RequestFramed | unikernel/src/vsock.rs:521-533 | the frame of a file request decodes to the request the server is to read |
| VsockQueues.VsockPort.TryRecv | unikernel/src/vsock.rs:386-423 | on the bytes of eight receive buffers, whatever the device does meanwhile: operation and payload of the packet delivered next, counted for flow control, or nothing if nothing delivered is outstanding |
| VsockQueues.VsockPort.SendRaw | unikernel/src/vsock.rs:361-383 | on the bytes of eight transmit buffers, whatever the device does meanwhile: header and payload are one frame, with the lag bound kept every read the device ever made is a frame as sent, and what is more than a buffer stops the kernel |
| VsockFiles.VsockDev.DrainRx | unikernel/src/vsock.rs:497-499 | everything up to the first empty look is dropped |
| VsockFiles.VsockDev.ConnectPort | unikernel/src/vsock.rs:501-519 | drain, reset the counter, request, wait for the answer |
| VsockFiles.VsockDev.SendFileReq | unikernel/src/vsock.rs:521-533 | one packet with operation, lengths, path and data, or a stop if they are more than a packet holds |
| VsockFiles.VsockDev.RecvFileResp | unikernel/src/vsock.rs:535-570 | the reassembly loop computes the specification function Assembled |
| VsockFiles.VsockDev.FileRead | unikernel/src/vsock.rs:590-600 | data of a successful exchange, otherwise nothing, or the stop |
| VsockFiles.VsockDev.FileWrite | unikernel/src/vsock.rs:602-615 | whether the exchange succeeded, or the stop |
| VsockFiles.VsockDev.FileList | unikernel/src/vsock.rs:617-627 | data of a successful exchange, otherwise nothing, or the stop |
| FileProtocol.AssemblesAnswer | unikernel/src/vsock.rs:535-570 | however the answer is cut into packets whose first has at least five bytes, with empty looks, credit updates and other packets but resets between, it is put together exactly |
| FileProtocol.AnswerUnderstoodIff | unikernel/src/vsock.rs:549-555 | a complete answer is understood exactly when its first data packet has at least five bytes |
| FileProtocol.AnswerIsDelivered | unikernel/src/vsock.rs:535-570 | no answer is made up: what is returned is a whole response that was delivered within the looks taken and before any reset, and it counts as success exactly with status 0 |
| FileProtocol.AwaitedIff | unikernel/src/vsock.rs:505-518 | waiting succeeds exactly when a RESPONSE is among the looks, with no reset before it |
| FileProtocol.ExchangeStopsIff | unikernel/src/vsock.rs:361-363 | an exchange stops the kernel exactly when the connection is accepted and path and data have more than 4045 bytes; refused, it only fails |
| FileProtocol.ExchangeSends | unikernel/src/vsock.rs:501-575 | what an exchange sends, whatever the host does: refused, one connection request and nothing else; accepted, if path and data fit, a request, a credit update, exactly one data packet in which the server reads the very request meant, credit updates and one reset, all from port 40001 to port 1235 |
| FileProtocol.DrainsLeftovers | unikernel/src/vsock.rs:497-502 | what an earlier connection left behind does not get into the next |
| FileProtocol.ExchangeYieldsAnswer | unikernel/src/vsock.rs:501-570 | an exchange yields exactly the answer delivered |
| FileProtocol.RequestUnderstood | unikernel/src/vsock.rs:521-533 | the server reads back exactly the request spelled out |
| FileProtocol.WriteThenRead | unikernel/src/vsock.rs:590-615 | with the server answering what was actually sent, writing a file and reading it gives the very bytes and changes no other file, for every fragmentation and interleaving of both exchanges |
| FileProtocol.MissingFileReported | alpine/vsock-file-server.py:62-72 | reading a file that is not there reports failure and changes nothing |
| FileProtocol.FlowControlIsHonest | unikernel/src/vsock.rs:403-406 | every packet of an exchange carries in fwd_cnt the payload bytes taken between the start of the connection and that packet, modulo 2^32 |
| FileServer.Connection.RecvExactly | alpine/vsock-file-server.py:24-31 | exactly n bytes however the stream is cut, or failure exactly when it ends before |
| FileServer.Server.SendResponse | alpine/vsock-file-server.py:34-36 | status, length and data, or the exception text when the length does not fit four bytes |
| FileServer.Server.HandleConnection | alpine/vsock-file-server.py:46-98 | files and answer depend on the request bytes alone, not on how they arrive |
| FileServer.DoneIff | alpine/vsock-file-server.py:46-98 | a request is answered with status 0 exactly when its path resolves and it reads a file that is there, writes one that may be written or lists a directory, and the answer fits; any other changes nothing, and half a request is not answered |
| Http.FindHeaderEnd | unikernel/src/net.rs:120-122 | where the first blank line starts |
| Http.FirstIsFirst | unikernel/src/net.rs:120-122 | the search finds an index exactly when it is the first occurrence |
| Http.HeaderEndStable | unikernel/src/net.rs:398-403 | the end of the headers seen in a prefix of a stream is that of the stream, once the prefix contains it, and none before |
| Http.RequestLineRead | unikernel/src/net.rs:74-87 | verb and path of a request line come back whatever follows it |
| Http.VerbAlone | unikernel/src/net.rs:78-79 | a first line without a space is a verb and asks for the root |
| Http.LengthRead | unikernel/src/net.rs:124-132 | the first line that is a length line or cannot be cut at sixteen bytes decides, whatever lines precede it: the number in it, or a stop; no length exactly when there is no such line |
| Http.StopsIff | unikernel/src/net.rs:126-131 | the search stops the kernel exactly when a line before the first length line has more than sixteen bytes and its byte 16 is inside a character |
| Http.LinesOfText | unikernel/src/net.rs:126 | the lines of a head are the pieces between its line ends, none of which holds another |
| Http.Trimmed | unikernel/src/net.rs:128 | white space of any kind, as Unicode has it, around the number is ignored |
| Http.LengthLineIff | unikernel/src/net.rs:127 | a line gives the length exactly when it has more than sixteen bytes and the first sixteen are the name of the header, each letter in either case, a colon and a space |
| Http.BreaksIff | unikernel/src/net.rs:127 | a line of text cannot be cut at its sixteenth byte exactly when what would be cut off is no text |
| Admin.UploadTurn | unikernel/src/net.rs:389-450 | every turn keeps a request on its way or ends it with the expected answer |
| Admin.UploadRun | unikernel/src/net.rs:389-450 | over any turns a request has no answer until it is over, then the expected one, and no other if nothing behind it holds a blank line |
| Admin.ChunksDoNotMatter | unikernel/src/net.rs:389-450 | for every head, any bytes behind the body, every cut into receives, with any idle turns between: the first answer is the one the request spells, with exactly its body, and the only one if nothing behind it holds a blank line |
| Admin.StoredIffFits | unikernel/src/net.rs:424-443 | a request is accepted exactly when it has a length the limit allows, and then with exactly that many bytes |
| Admin.HeadEnds | unikernel/src/net.rs:120-122 | the head of a request made of non-empty lines ends at its last line |
| Admin.UploadUnderstood | unikernel/src/net.rs:403-412 | a POST with a length header in any case, any other headers, white space of any kind and a plus sign around the number comes to the body it spells, whatever follows it, and to the prefix behind /update in its path, or the root if there is nothing behind it or the path is another; refused if the head is not UTF-8 or the number exceeds 64 bits, stopping the kernel if a line before the length cannot be cut, too large above 524288 bytes |
| Admin.HaltsIff | unikernel/src/net.rs:124-132 | a request stops the kernel exactly when its head is UTF-8 and a line before the first length line cannot be cut at sixteen bytes |
| Admin.WideLineHalts | unikernel/src/net.rs:126-128 | such a request |
| Admin.BothActedOn | unikernel/src/net.rs:389-450 | two requests in one stream, of any size, are both acted on when a receive ends with the first |
| Admin.SecondLost | unikernel/src/net.rs:424-428 | when a receive takes so much of the second with the end of the first that no head ends in the rest, the second is lost, whatever comes later |
| Admin.PipelinedDependsOnCut | unikernel/src/net.rs:389-450 | so the cut decides whether a second request, of any size, is acted on, if its head ends within what one receive takes |
| Admin.ClosedForgets | unikernel/src/net.rs:391-393 | a connection that has closed leaves nothing behind: the next starts from scratch |
| Admin.ShortUpload | unikernel/src/net.rs:389-450 | such requests exist |
| Pages.HandedOverOnce | unikernel/src/net.rs:340-386 | however a request on port 80 is cut into receives it is handed over exactly once, with its own verb and path and at most the first 1023 bytes of its body |
| Pages.BodiesIff | unikernel/src/net.rs:340-386 | the requests that may be handed over for a stream are exactly its own with any front part of the body of at most 1023 bytes; the cut decides which |
| Pages.WholeBodyIff | unikernel/src/net.rs:340-386 | the body may come through whole exactly when it has at most 1023 bytes |
| Pages.PageUnderstood | unikernel/src/net.rs:74-87 | a request as clients write it is its verb, its path and the bytes behind its head |
| Pages.ClosedForgets | unikernel/src/net.rs:343-347 | a connection found closed leaves nothing behind |
| Router.InsertedLookup | unikernel/src/net.rs:147-152 | an insertion updates one prefix and leaves the others |
| Router.RoutedUnique | unikernel/src/net.rs:156-169 | the route chosen is the one longest matching prefix, unique in spite of the comparison that lets ties pass |
| Router.OthersUntouched | unikernel/src/net.rs:147-169 | inserting a prefix that does not match a path leaves the routing of that path alone |
| Router.InsertAllLookup | unikernel/src/net.rs:147-152 | after any insertions prefixes are distinct and each holds what was inserted there last |
| Router.RoutesToLast | unikernel/src/net.rs:147-169 | a path is routed to the application last inserted at its longest registered prefix |
| Router.WasmRouter.Insert | unikernel/src/net.rs:147-152 | the loop replaces the first route of the prefix or appends one |
| Router.WasmRouter.RouteMut | unikernel/src/net.rs:156-169 | the loop finds the length and index of the winning prefix |
| Fetch.TurnKeepsSockets | unikernel/src/net.rs:258-338 | the socket set is the two server sockets, and a third exactly while a fetch is under way |
| Fetch.TurnsRunOut | unikernel/src/net.rs:280-337 | every turn of a fetch uses up free buffer space, or a quiet turn, or ends it |
| Fetch.EveryFetchEnds | unikernel/src/net.rs:280-337 | whatever the network does a fetch returns to waiting within a bounded number of turns |
| Fetch.ResponseHandedOver | unikernel/src/net.rs:301-337 | a response below the size limit ends the fetch when the peer closes and is handed over exactly, in whatever chunks and pauses it arrives |
| Fetch.FeedRead | unikernel/src/net.rs:327-333 | the feed is what follows the first blank line of the response, if that is anything |
| Fetch.NoFeed | unikernel/src/net.rs:327-333 | a response without a blank line has none |
| Fetch.NextDue | unikernel/src/net.rs:259-279 | a fetch that is due connects at once, one that is not waits, and the next is due sixty seconds after the last came to an end, however it did |
| Fetch.WholeFetch | unikernel/src/net.rs:258-337 | a fetch that is due and connects within 200001 turns hands over the feed in what arrives |
| Fetch.DrainStops | unikernel/src/net.rs:306-311 | the buffer never grows by a chunk beyond its limit |
| WebServer.HttpServer.constructor | unikernel/src/net.rs:187-231 | the modules found at start are registered in order, and the invariant holds |
| WebServer.HttpServer.ApplyPending | unikernel/src/net.rs:234-253 | a fetched feed goes to every application, then a pending module that loads is inserted with the last feed |
| WebServer.HttpServer.UpdateFeeds | unikernel/src/net.rs:235-240 | the loop gives every application the feed and changes nothing else |
| WebServer.HttpServer.FetchTurn | unikernel/src/net.rs:258-338 | one turn of the fetch machine |
| WebServer.HttpServer.Drain | unikernel/src/net.rs:306-311 | the receive loop takes what is there until the buffer is full |
| WebServer.HttpServer.PageTurn | unikernel/src/net.rs:340-386 | one turn of the page endpoint: a complete head is answered once |
| WebServer.HttpServer.Answer | unikernel/src/net.rs:356-382 | the first static file with exactly the path, otherwise the application routed to, otherwise the fallback |
| WebServer.HttpServer.AdminTurn | unikernel/src/net.rs:389-450 | one turn of the upload machine, with its store write and pending entry |
| WebServer.HttpServer.Iterate | unikernel/src/net.rs:233-450 | one turn of the loop, on both ports, keeps the invariant |
| WebServer.AppliedKeepsInv | unikernel/src/net.rs:234-253 | once pending work is applied every application has the newest feed and nothing is pending |
| WebServer.AdministeredKeepsInv | unikernel/src/net.rs:417-448 | an upload can only complete when no other is pending, so none is overwritten |
| WebServer.PagedKeepsInv | unikernel/src/net.rs:340-386 | answering a page keeps modules, feeds and prefixes |
| WebServer.AnsweredOnce | unikernel/src/net.rs:371-382 | the application under the longest prefix, and no other, handles one more request, whose path is what is behind the prefix, or the root if that is nothing; its answer is the response, or the fallback if it has none |
| WebServer.NobodyAnswers | unikernel/src/net.rs:379-382 | a path that is no static file and that no application is routed to gets the fallback, and nothing changes |
| WebServer.StaticServed | unikernel/src/net.rs:356-369 | the first file with exactly the path is the response, in a head of four lines that tells its type and length, and no application sees the request |
| WebServer.TurnCalls | unikernel/src/net.rs:340-386 | a turn changes the applications just as answering its request does |
| WebServer.FeedReachesAll | unikernel/src/net.rs:233-338 | a fetch that is due, connects within its patience and receives a response below the size limit gives every application the body of that response in the turn after, whatever else the loop does |
| WebServer.KeyRead | unikernel/src/net.rs:430-435 | a module is stored under the name behind the slash of its prefix with .wasm behind it, or as app.wasm if there is none or it is no text |
| WebServer.UploadPersisted | unikernel/src/net.rs:389-450 | from the bytes a client sends to the store: an upload to /update/<name> is written once as <name>.wasm and installed under /<name>, whatever else the loop does |
| WebServer.RunKeepsInv | unikernel/src/net.rs:233-453 | in every run prefixes stay distinct, feeds equal the last one, sockets are right, and uploads are those taken up and at most one that waits |
| WebServer.RunInstalls | unikernel/src/net.rs:243-253 | in every run the installed modules are those of the start with every accepted module that loads inserted once and in order |
| WebServer.UploadsFollow | unikernel/src/net.rs:389-450 | what is accepted and stored depends on the endpoint alone, not on the rest of the loop |
| WebServer.AnswersFollow | unikernel/src/net.rs:389-450 | the answers given over a run are those of the endpoint by itself |
| WebServer.ShownFollow | unikernel/src/net.rs:340-386 | the responses on port 80 over a run are, one for one and in order, what the applications there were in each turn answer to the requests of the page endpoint by itself |
| WebServer.OnePage | unikernel/src/net.rs:340-386 | one visitor whose request is complete gets exactly one response in the running loop, that of the applications there were in the turn to the request they sent |
| WebServer.OneUpload | unikernel/src/net.rs:424-446 | one request that fits makes exactly one store write and one pending entry in the running loop, one that does not makes neither; either gets exactly one answer, if nothing behind it holds a blank line |
| Decimal.WriteU32Dec | unikernel/wasm/eq_gen.py:313-336 | the decimal digits of the number, with the rest of memory untouched |
| Decimal.Reverse | unikernel/wasm/eq_gen.py:325-334 | the in-place reversal mirrors the digits |
| Decimal.DigitsCanonical | unikernel/wasm/eq_gen.py:313-336 | the digits are a canonical decimal with the value of the number |
| Decimal.CanonicalIsDigits | unikernel/wasm/eq_gen.py:313-336 | there is no other canonical decimal of that value |
| Decimal.U32Digits | unikernel/wasm/eq_gen.py:313-336 | ten places are enough |
| Decimal.ParseSignedTenths | unikernel/wasm/eq_gen.py:555-597 | a word with the signed tenths found, modulo 2^32, and the index after them |
| Decimal.TenthsRead | unikernel/wasm/eq_gen.py:555-597 | sign, digits, point and one digit are inverted, and parsing stops right after them |
| Decimal.ParseCod | unikernel/wasm/eq_gen.py:603-619 | latitude and longitude words, one after the other |
| Decimal.CoordinatesRead | unikernel/wasm/eq_gen.py:603-619 | both coordinates of a quoted pair come back whatever follows them |
| FeedText.FindField | unikernel/wasm/eq_gen.py:380-429 | the index after the first quoted key and its colon, or -1 |
| FeedText.FieldIsFirst | unikernel/wasm/eq_gen.py:380-429 | a field is found exactly where its quoted key first occurs, and not exactly when it never occurs |
| FeedText.ReadStrVal | unikernel/wasm/eq_gen.py:450-550 | as many decoded bytes as fit and their number, nothing else written, and the index after the closing quote or -1 |
| FeedText.EmitCode | unikernel/wasm/eq_gen.py:499-535 | the octets of a code point as far as there is room |
| FeedStrings.StringReads | unikernel/wasm/eq_gen.py:450-550 | every string of ordinary characters, hexadecimal escapes and two-character escapes is decoded up to its closing quote into the UTF-8 of the code points taken |
| FeedStrings.UnderstoodIff | unikernel/wasm/eq_gen.py:458-550 | for every string, decoding agrees with section 7 of RFC 8259 exactly when it has no control escape such as backslash n and no surrogate escape |
| FeedStrings.ValidIff | unikernel/wasm/eq_gen.py:499-535 | the decoded bytes are valid UTF-8 exactly when no escape spells a surrogate |
| FeedStrings.StoredValidIff | unikernel/wasm/eq_gen.py:450-550 | what fits a field is valid UTF-8 exactly when no character before the cut is a surrogate and none is cut |
| FeedStrings.NibIsDigit | unikernel/wasm/eq_gen.py:431-443 | the nibble made of a byte is the value of the digit, in either case, and zero of anything else |
| Json.HexTable | unikernel/wasm/eq_gen.py:431-443 | the sixteen digits in either case have their place in the row as value, and nothing else is a digit |
| Utf8.EncodedDecodes | unikernel/wasm/eq_gen.py:499-535 | octets as section 3 of RFC 3629 spreads them are valid and read back as the code points, surrogates excepted |
| Utf8.DecodedEncodes | unikernel/wasm/eq_gen.py:499-535 | valid UTF-8 is the encoding of the scalar values it decodes to, and of no others |
| FeedSlots.AtStored | unikernel/wasm/eq_gen.py:688-698 | the four-byte length store at offset 25 spoils nothing that stays |
| FeedSlots.NameStored | unikernel/wasm/eq_gen.py:742-752 | neither does the one at offset 58 |
| FeedSlots.SlotReads | unikernel/wasm/eq_gen.py:40-55 | a slot tells every field of its entry at the offset where the page looks |
| FeedSlots.ParseMag | unikernel/wasm/eq_gen.py:699-741 | the two magnitude digits |
| FeedSlots.ParseMaxi | unikernel/wasm/eq_gen.py:763-780 | the intensity byte |
| FeedSlots.ParseEntry | unikernel/wasm/eq_gen.py:684-780 | the 84 bytes of the slot are the layout of the entry the object spells, whatever the object, and nothing else changes |
| FeedArray.MatchBrace | unikernel/wasm/eq_gen.py:656-683 | the index at which the depth reaches zero |
| FeedArray.ParseFeed | unikernel/wasm/eq_gen.py:623-786 | for every feed: the count of objects found, at most twenty, their entries in consecutive slots, nothing else changed |
| FeedArray.FilledSlots | unikernel/wasm/eq_gen.py:684-687 | each slot holds the entry of its own object |
| FeedArray.FilledOutside | unikernel/wasm/eq_gen.py:684-687 | nothing outside the slots changes |
| FeedGrammar.BraceMatched | unikernel/wasm/eq_gen.py:656-683 | the scanner stops at the brace that closes the object, with braces nested and inside strings |
| FeedGrammar.ClosedFeedParsed | unikernel/wasm/eq_gen.py:632-786 | a closed array of n objects gives min(n, 20) entries, entry k from the inside of object k |
| FeedGrammar.CutFeedParsed | unikernel/wasm/eq_gen.py:632-786 | a feed cut off between objects gives one entry too many exactly when anything follows the last object, and that entry is blank |
| FeedRecord.OwnSpanOnly | unikernel/wasm/eq_gen.py:684-780 | an entry depends on the inside of its own object alone |
| FeedRecord.SlotHoldsObject | unikernel/wasm/eq_gen.py:632-786 | slot k of a closed feed holds the entry of object k |
| FeedRecord.StringParsed | unikernel/wasm/eq_gen.py:688-752 | a string value comes to the decoded characters, cut to size |
| FeedRecord.CodParsed | unikernel/wasm/eq_gen.py:753-762 | a pair of coordinates within 32 bits comes back signed |
| FeedRecord.MagParsed | unikernel/wasm/eq_gen.py:699-741 | a magnitude, with or without its quote, letter and fraction, comes to its first digit and the one after it, the point aside |
| FeedRecord.MagTakenIff | unikernel/wasm/eq_gen.py:699-741 | those are the magnitude exactly when it is below ten |
| FeedRecord.MaxiParsed | unikernel/wasm/eq_gen.py:763-780 | an intensity comes to its byte |
| FeedMembers.InsideText | unikernel/wasm/eq_gen.py:656-683 | members written out are the inside of an object as the scanner understands it |
| FeedMembers.FieldReadIff | unikernel/wasm/eq_gen.py:380-429 | a field is found where the member of that name stands at top level, and not found if there is none, exactly when nothing before that, at any depth or inside any string, spells its quoted key, and its colon follows its name at once |
| FeedMembers.ValueStands | unikernel/wasm/eq_gen.py:380-429 | what is found is the text of the value of that member |
| FeedMembers.ColonFound | unikernel/wasm/eq_gen.py:380-429 | a member with white space before its colon is found, and its value read from the colon on |
| FeedMembers.RecordParsed | unikernel/wasm/eq_gen.py:684-780 | an object that says where, when, how strong and how intense, each or not, in whatever order and company and with whatever white space, comes to exactly that entry, but for members with white space before their colon, which come to nothing, or for the intensity to the colon |
| FeedMembers.SlotHoldsRecord | unikernel/wasm/eq_gen.py:632-786 | in a closed feed slot k holds exactly what object k says in that sense |
| FeedMembers.NestedMasks | unikernel/wasm/eq_gen.py:380-429 | a member inside a nested object is taken for the top-level one behind it |
| FeedMembers.SpaceBeforeColon | unikernel/wasm/eq_gen.py:410-424 | an intensity with a space before its colon is read as the colon |
| Bbs.Post | unikernel/wasm/bbs.wat:50-70 | the board after a post, the response, and nothing else changed |
| Bbs.HoldsOne | unikernel/wasm/bbs.wat:57-67 | memory tells its messages |
| Bbs.Shifted | unikernel/wasm/bbs.wat:58-60 | the overlapping copy moves every message but the oldest down one slot and loses none |
| Bbs.WindowOfPosts | unikernel/wasm/bbs.wat:50-70 | after any posts the board is the last twenty non-empty bodies, each cut to 252 bytes, in order |
| Bbs.Msgs | unikernel/wasm/bbs.wat:72-122 | the whole response, at most 10256 bytes, and nothing behind it changed |
| Bbs.ResponseReads | unikernel/wasm/bbs.wat:72-122 | the body reads back by section 7 of RFC 8259 as the messages with bytes below 32 removed |
| Bbs.PageAfterPosts | unikernel/wasm/bbs.wat:50-122 | after any posts the page reads back as the last twenty that count |
| Bbs.PrintingKeepsBoard | unikernel/wasm/bbs.wat:72-122 | printing leaves messages and static data untouched |
| Json.ArrayReads | unikernel/wasm/bbs.wat:80-118 | a printed array of strings is read back exactly, control characters removed |
| Editor.Files | unikernel/wasm/editor.wat:86-172 | the list in its own area, the response of at most 2n + 105 bytes at the front, nothing else changed; it never stops the kernel |
| Editor.ListBound | unikernel/wasm/editor.wat:113-155 | each byte of any list adds two bytes of output at most |
| Editor.ArrayOfNames | unikernel/wasm/editor.wat:113-170 | the newline join of plain names becomes the JSON array of those names |
| Editor.ArrayOfNamesIff | unikernel/wasm/editor.wat:113-170 | for all names a listing can hold and JSON printing does not alter, the body is the JSON array of the names exactly when they are plain, without quotes or backslashes, and the listing has at most 32768 bytes |
| Editor.FilesAreNamesIff | unikernel/wasm/editor.wat:86-172 | for all names a listing can hold, the body reads back as the names exactly when they are plain, without quotes, backslashes or control bytes, and the listing has at most 32768 bytes |
| Editor.OneNameReadsAsTwo | unikernel/wasm/editor.wat:113-170 | a name with quotes in it reads back as two names |
| Editor.ControlBehindCut | unikernel/wasm/editor.wat:97-100 | a control byte behind the cut is neither shown nor printed, so that for such a name the body is the JSON printed but not the name |
| Editor.LongListingMisread | unikernel/wasm/editor.wat:97-100 | 130 plain names of 255 bytes are not listed right |
| Editor.ListingServed | unikernel/wasm/editor.wat:86-172 | from the directory through server, packets and list area: the body shows as much of the listing as fits, and reads as the names exactly in those cases |
| Editor.FilesAreNames | unikernel/wasm/editor.wat:86-172 | the array of plain names reads back as exactly the names |
| Editor.SaveFile | unikernel/wasm/editor.wat:217-280 | the outcome of the request to write the named file with what follows the first newline; a malformed request sends nothing, and an exchange that stops the kernel gives no response |
| Editor.SaveStopsIff | unikernel/wasm/editor.wat:217-280 | a save stops the kernel exactly when the body is well formed with a path that is text, the connection is accepted, and the body has more than 4042 bytes |
| Editor.SaveRejected | unikernel/wasm/editor.wat:229-262 | a body that names no document, or a path that is no text, is answered at once, and nothing is sent |
| Editor.SaveUnreached | unikernel/wasm/editor.wat:268-277 | a save fails if the connection does not come about |
| Editor.SaveRefused | unikernel/wasm/editor.wat:217-280 | a document that the server refuses to write is reported as not saved, and no file changes |
| Editor.PathRead | unikernel/wasm/editor.wat:184-197 | the document read is that of the name, or of the first 240 bytes of a longer one |
| Editor.NoListing | unikernel/wasm/editor.wat:113-170 | without a listing the list is empty |
| Editor.ReadFile | unikernel/wasm/editor.wat:178-212 | header and cut content or the right error; it never stops the kernel |
| Editor.SaveUnderstood | unikernel/wasm/editor.wat:232-266 | a name of 1 to 240 bytes, a newline and the content are split as they were joined |
| Editor.SavedIsRead | unikernel/wasm/editor.wat:178-280 | a saved document is read back exactly up to the size of the content area, and no other file changes, through both exchanges and the server |
| Editor.PageSaves | unikernel/src/net.rs:340-386 | behind the page endpoint no save stops the kernel, and of a document that makes a body of more than 1023 bytes only a part is ever saved under its name |
| Editor.Host.FileList | unikernel/src/wasm_rt.rs:203-233 | as much of the listing as fits, copied to the caller |

## Left out

- WrittenReadsBackIff, RunRefinesMap and the lemmas about runs of the store assume a device of at most 2^23 sectors
  (4 GiB), so that 32-bit sector and size arithmetic never wraps, and at least the five sectors before the data.
- Store.KvStore.Read: block reads succeed, or past the end of the device leave the zeroed buffer alone; a sector write
  lands whole or not at all, and at once: one that is reported as failed may have landed, but not later on.
- Virtqueue.LayoutIsSound: masking off the low bits of an address is modelled as rounding down to a page.
- TxRing.ReadsAreFrames: the lag of the device is counted from the oldest frame it has not finished, which is what the
  code needs; a count of outstanding frames alone would not do when frames finish out of order.
- BlkRequest.CallsAreSerial: requests of one sector each, as the store makes them. The entry the device puts into the
  used ring, which the driver never reads, is left out, and so is what a request served late writes to memory that is
  not that of the last call.
- BlkDriver.VirtioBlkDev.DoIo: a queue of at least three entries, which the chain needs; noting a completion and reading
  the status are one step with the look that finds it.
- VsockFiles.VsockDev.TryRecv: for the file protocol, packets come from a queue of looks and packets sent are a log;
  VsockQueues shows such looks and sends on the bytes of the rings. Setting up the device is not part of the model.
- FileServer.Server.HandleConnection: path resolution, refusals and exception texts of the host file system are
  parameters of the model; which paths are safe is not modelled.
- Admin.ChunksDoNotMatter: the connection stays open while the request is under way.
- Fetch.EveryFetchEnds: the clock is a number per turn, and time does not overflow; the request a fetch sends is a
  constant text, and not part of the model.
- WebServer.HttpServer.Iterate: loading a module is a parameter, and so is what an application answers, as a function of
  its code, its feed and the requests it has handled; an application does not stop the kernel, and responses fit the
  send buffer. Interface polling and the processor halt between turns are left out.
- FeedText.EmitCode: shifts and masks on fields that do not overlap are modelled as division, remainder and addition.
- FeedArray.ParseFeed: keys and constants of the static data are constants of the model, not bytes of memory; the feed
  is at most 32768 bytes, which is what the host function copies.
- Memory fences, notifications, PCI and device configuration: steps are sequentially consistent.
- The vsock secret exchange, the registry client, the clock, boot and interrupt code, page rendering (HTML, SVG), the
  host functions for logging, time and random numbers.
- The generator of the bulletin board, which emits the logic modelled in Bbs.
