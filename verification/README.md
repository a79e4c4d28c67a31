# Verified models of the bare-metal SDK's stateful components

This project models the components of the SDK whose correctness does not rest on register values: the
I2S transmit stream, the two-core spinlock, the ESP-Hosted control and SDIO stack, the NimBLE porting
layer, the FAT32 library and the include audit. Each component is written in the form its source has:
objects that change in place are classes, loops over buffers are methods with invariants, concurrent code
is a machine with one step per memory access. Methods are proved against specification functions, and the
main results are lemmas about those functions or about every run of a machine.

`dafny verify dfyconfig.toml` checks everything.

## Components

- `I2sMachine.dfy`, `I2sShape.dfy`, `I2sStream.dfy`, `I2sSteps.dfy`, `I2sLostWriteBack.dfy`,
  `I2sSpentTail.dfy`, `I2sCalls.dfy`, `I2sDrain.dfy`, `I2sWrite.dfy`, `I2sStart.dfy`, `I2sEnds.dfy` — writer, interrupt
  handler and DMA share a ring of descriptors. Every access to memory the DMA can see is its own step;
  the handler may run between any two steps of the writer outside the interrupt lock, the DMA between any
  two steps. The DMA is modelled by descriptors: it refuses a CPU-owned one, writes back owner = CPU when
  a buffer is sent, then follows `next`. The files are the machine, the shape of the ring in every run,
  the bytes it sends, two runs that go wrong, what a write or a drain reports in every run, and calls,
  starts and interrupts that nothing disturbs.
- `Spinlock.dfy`, `SpinlockCalls.dfy` — the recursive spinlock as a machine of single loads, stores and
  compare-and-sets, and what its calls return. Memory is sequentially consistent, a core is not interrupted
  inside a call.
- `Protobuf.dfy`, `ProtobufIo.dfy` — varints and fields (Protocol Buffers Encoding guide, sections "Base
  128 Varints" and "Message Structure"), the grammar of messages, and the buffer readers and writers.
- `HostedRpc.dfy`, `HostedRequests.dfy`, `HostedWire.dfy` — the RPC parser, the TLV envelope, the request
  builders, and all of it byte by byte on the wire.
- `RxRing.dfy`, `HostedCtrl.dfy`, `HostedRestart.dfy` — the receive ring, the control channel, runs of
  requests with timeouts, late answers and restarts, and responses that complete them. Which packets arrive
  at each poll is a parameter.
- `SdioFrame.dfy`, `SdioTransfer.dfy`, `SdioHost.dfy` — frames and their checksum, chunked CMD53 transfers
  (SDIO Simplified Specification Part E1, section 5.3) to a slave that acts on the argument it gets, wrapping credit and byte counters. Which transfers
  fail is a parameter of the link.
- `NplEvents.dfy`, `NplCallouts.dfy` — event queues threaded through the events, and the callout list
  under a 32-bit clock that wraps.
- `Utf.dfy`, `LongNames.dfy` — UTF-8 and UTF-16 (RFC 3629 section 3, RFC 2781 sections 2.1 and 2.2) and
  long names in directory entries (Microsoft FAT32 specification, "FAT Long Directory Entries").
- `FatTable.dfy`, `FatFiles.dfy` — FAT entries, chains, freeing, reading and writing through one buffer.
- `IncludeAudit.dfy` — the audit's worklist. What the include patterns find in a file, and path
  normalisation, are parameters.
- `Bytes.dfy` — machine integers and byte strings.

## Where the code differs from what it promises

- I2S. Clearing `suc_eof` of the previous descriptor is a load and a store of the word that also holds the
  owner bit (core/hal/include/hal/dma_types.h declares both as bit-fields of one word). When the DMA writes
  the owner bit back between the two, the store undoes it and the buffer is sent again.
  With one buffer the bit is never cleared; with two or more some run loses a write-back, whatever the
  buffer size. `SafeExactlyWithOneBuffer`: every run sends a prefix of the accepted bytes if and only if the
  stream was begun with one buffer. `LostWriteBackResends` is the failing run: it sends 1, 2, 1 for the
  accepted bytes 1, 2. The shape of the ring, in contrast, holds in every run (`RingShape`,
  `NoDanglingDescriptor`), and `StepKeepsInv` shows which single step breaks the stream: exactly the
  write-back under the writer's load.
- I2S drain. A start raises a descriptor error exactly when the descriptor at the tail is not the DMA's, and
  without a lost write-back that is when nothing is queued or the tail is already sent (`StartErrsExactly`).
  A drain can meet this although nothing is wrong: when the DMA sends the last buffer and parks between the
  reclaim and the look at the channel, the drain restarts at the sent tail and returns false with the stream
  in error, for every number and size of buffers (`DrainFailsThoughSent`).
- Spinlock. The assertion after a timed-out acquire compares `owner` with two values. The field is volatile
  only in builds that define CONFIG_SPIRAM_WORKAROUND_NEED_VOLATILE_SPINLOCK
  (core/esp_hw_support/include/spinlock.h:25-29), which nothing in the repository defines: in those builds
  it is read once per comparison, in others this is the compiler's choice. When it is read twice, a lock
  that changes hands in between makes the assertion fail (`DoubleLoadFails`). In every build a nesting depth
  of 0xFF fails the assertion of the other core's timed-out acquire (`DeepNestingFails`).
  `AssertsHoldExactlyWhenSound`: no assertion can fail if and only if the comparison uses one loaded value
  and the nesting stays below 0xFF. Exclusion does not depend on any of this (`MutualExclusion`).
- Long names. A name comes back as its characters before the first that is U+FFFF (written to the entries as
  it is, but the end of an entry for the reader), or passes 255 units, or passes the 511 bytes that the
  buffer of the lookup holds. `LongNameRoundTrip`: the name comes back if and only if it holds no U+FFFF and
  keeps both limits. `LongNameCutShort` is a name of 172 units that fits a sector and comes back one
  character short. The entries of a name are written into one sector, so a name can be written at entry e
  exactly when it has at most 13 * (15 - e) units (`RunFits`), which is fewer than the 255 the writer
  converts.
- File writes. Data that runs past the end of the first cluster is cut there; the write still returns true
  and the size stays the old one (`FileWrite`). An append begins in the cluster that holds the end of the
  file if and only if the file is smaller than a cluster (`AppendCluster`).
- File reads. A read that continues inside a sector takes its bytes from the shared sector buffer, which the
  lookup of a long name has overwritten. `ReadInPieces`: the second piece of a file is right if and only if
  the name is short, or the first piece ends with a sector, or the last sector the lookup has read agrees
  with the file on the bytes taken from it.
- Control channel. A restart begins the uids again at 1 and keeps the receive ring, so a late answer from
  before the restart completes the next request with the same response id (`LateAnswerCompletes`). Since the
  last restart no two requests less than 2^32 - 1 apart share a uid (`ResponseIsOwn`).
- Callouts. A delay of 2^31 ticks or more counts as due at once (`DueAtOnceExactly`).

## Model

| member | source | states |
|---|---|---|
| I2sShape.BeginShape | drivers/i2s_drv/i2s_drv.c:935-960 | the queue after a reset has the ring shape |
| I2sShape.LockedReclaimKeepsShape | drivers/i2s_drv/i2s_drv.c:1042-1072 | every memory step of a reclaim under the interrupt lock keeps the shape: indices, links, EOF bits, no DMA-owned slot outside the queue |
| I2sShape.IsrKeepsShape | drivers/i2s_drv/i2s_drv.c:258-303 | so does every step of the interrupt handler |
| I2sShape.PublishKeepsShape | drivers/i2s_drv/i2s_drv.c:1374-1399 | so does every memory step that publishes a descriptor, whatever owner bit it stores back |
| I2sShape.StartKeepsShape | drivers/i2s_drv/i2s_drv.c:962-1040 | so does every step of try start, resume and start, also when the DMA cannot be initialised |
| I2sShape.CopyKeepsShape | drivers/i2s_drv/i2s_drv.c:1295-1372 | so does filling the buffer at the head |
| I2sShape.CompleteKeepsShape | drivers/i2s_drv/i2s_drv.c:1374-1399 | so does a DMA completion |
| I2sShape.StepKeepsShape | drivers/i2s_drv/i2s_drv.c:935-1459 | so does every step of writer, handler or DMA |
| I2sShape.RunShape | drivers/i2s_drv/i2s_drv.c:935-1459 | the shape holds after every run, with lost write-backs or without |
| I2sShape.RingShape | drivers/i2s_drv/i2s_drv.c:1046-1064 | in every run, whenever the lock is free and the handler is not clearing a descriptor, head = (tail + queued) mod count and the links from the tail visit exactly the queued slots in order, ending in EOF = 1 and NULL |
| I2sShape.NoDanglingDescriptor | drivers/i2s_drv/i2s_drv.c:1374-1399 | in every run, at every single memory step, no DMA-owned descriptor has EOF = 0 with a NULL `next` |
| I2sShape.ReclaimFreesPrefix | drivers/i2s_drv/i2s_drv.c:1042-1072 | a whole reclaim frees exactly the leading queued slots that the CPU owns, clears them, leaves every other slot, and ends the stream when nothing is queued and the channel idle |
| I2sStream.BeginInv | drivers/i2s_drv/i2s_drv.c:935-960 | the queue after a reset satisfies the stream invariant: shape, owners and data |
| I2sStream.LockedReclaimKeepsInv | drivers/i2s_drv/i2s_drv.c:1042-1072 | every memory step of a reclaim under the interrupt lock keeps the stream invariant |
| I2sStream.IsrKeepsInv | drivers/i2s_drv/i2s_drv.c:258-303 | every memory step of the interrupt handler keeps it |
| I2sStream.InterruptKeepsInv | drivers/i2s_drv/i2s_drv.c:258-303 | entering the handler, and its descriptor-error path, keep it |
| I2sStream.StartKeepsInv | drivers/i2s_drv/i2s_drv.c:962-1040 | every step of try start, resume and start keeps it, also when the DMA cannot be initialised |
| I2sStream.CopyKeepsInv | drivers/i2s_drv/i2s_drv.c:1295-1372 | filling the buffer at the head, outside the lock, keeps it |
| I2sStream.PublishKeepsInv | drivers/i2s_drv/i2s_drv.c:1374-1399 | every memory step that publishes a descriptor keeps it |
| I2sStream.MainKeepsInv | drivers/i2s_drv/i2s_drv.c:1295-1459 | every step of a write or a drain keeps it |
| I2sStream.CompleteKeepsInv | drivers/i2s_drv/i2s_drv.c:1374-1399 | a DMA completion keeps all of it but the owner bit the writer holds in a register |
| I2sStream.CompleteKeepsRegister | drivers/i2s_drv/i2s_drv.c:1374-1399 | that bit still agrees with memory if and only if the completion is not that of the descriptor it was loaded from |
| I2sStream.FollowFinds | drivers/i2s_drv/i2s_drv.c:1386-1393 | following `next` reaches the first unsent descriptor or none, never a CPU-owned one |
| I2sStream.FollowKeepsInv | drivers/i2s_drv/i2s_drv.c:1386-1393 | a DMA step along `next` keeps the invariant |
| I2sStream.StaleBitBreaksData | drivers/i2s_drv/i2s_drv.c:1374-1399 | storing an owner bit that disagrees with memory makes the owners disagree with what is unsent |
| I2sStream.StepKeepsInv | drivers/i2s_drv/i2s_drv.c:935-1459 | one step of writer, handler or DMA keeps the invariant if and only if it loses no write-back |
| I2sStream.RunInv | drivers/i2s_drv/i2s_drv.c:935-1459 | the invariant holds after every run that loses no write-back |
| I2sStream.StreamSafety | drivers/i2s_drv/i2s_drv.c:1295-1459 | in every run that loses no write-back, whatever the number of buffers, the bytes sent are a prefix of the bytes accepted, a write accepts exactly the bytes it reports, and a drain that returns true leaves nothing unsent; what the calls report in every run is `WriteReports` and `DrainReports` |
| I2sStream.OneBufferLosesNothing | drivers/i2s_drv/i2s_drv.c:1374-1399 | with one buffer no run loses a write-back |
| I2sLostWriteBack.ByteSentTwice | drivers/i2s_drv/i2s_drv.c:1374-1399 | with any larger number of buffers, of any size, the steps that undo a write-back and send a buffer again |
| I2sLostWriteBack.LostWriteBackResends | drivers/i2s_drv/i2s_drv.c:1374-1399 | for any such ring a run that sends 1, 2, 1 for the accepted bytes 1, 2 |
| I2sLostWriteBack.SafeExactlyWithOneBuffer | drivers/i2s_drv/i2s_drv.c:1208-1459 | for every legal number and size of buffers: all runs send a prefix of what was accepted, and all runs keep all three stream properties, if and only if the number is 1 |
| I2sSpentTail.StartErrsExactly | drivers/i2s_drv/i2s_drv.c:962-992 | a start raises a descriptor error if and only if the tail is not the DMA's; without a lost write-back, if and only if nothing is queued or the tail is sent |
| I2sSpentTail.DrainFailsThoughSent | drivers/i2s_drv/i2s_drv.c:1406-1459 | for every legal number and size of buffers a run in which a drain fails with the stream in error although everything accepted was sent |
| I2sCalls.WriteReports | drivers/i2s_drv/i2s_drv.c:1295-1405 | in every run, lost write-backs or not: a write accepts exactly the first bytes it reports, all buffers but the last full; it stops short only when the stream is in error or its time is used up, and accepts nothing when called in error |
| I2sCalls.DrainReports | drivers/i2s_drv/i2s_drv.c:1408-1459 | in every run: a drain that returns false found the stream in error or its time used up at the head of its loop; one that returns true has nothing queued |
| I2sCalls.NothingPublishedInError | drivers/i2s_drv/i2s_drv.c:1335-1402 | in every run nothing is published while the stream is in error |
| I2sDrain.QuietDrainSucceeds | drivers/i2s_drv/i2s_drv.c:1408-1459 | after every run that ends outside a call, without error and with everything queued sent, an undisturbed drain returns true |
| I2sDrain.DrainSucceeds | drivers/i2s_drv/i2s_drv.c:1408-1459 | for every legal number and size of buffers a run, without time used up, in which a drain returns true with everything accepted sent |
| I2sWrite.QuietWriteAccepts | drivers/i2s_drv/i2s_drv.c:1295-1405 | after every run that ends outside a call and without error, an undisturbed write of bytes for which the ring has room accepts them all |
| I2sStart.StartAlone | drivers/i2s_drv/i2s_drv.c:962-992 | an undisturbed start with something queued leaves the channel running at the tail, or, when the tail is not the DMA's, in a descriptor error |
| I2sStart.ResumeAlone | drivers/i2s_drv/i2s_drv.c:999-1018 | an undisturbed resume starts the channel again exactly when there is no error, something is queued and the channel is parked |
| I2sStart.TryStartAlone | drivers/i2s_drv/i2s_drv.c:1020-1040 | behind a publication that nothing disturbs the channel is started, or found running, exactly when there is no error and two buffers, or all there are, are queued |
| I2sStart.InterruptAlone | drivers/i2s_drv/i2s_drv.c:258-303 | an undisturbed interrupt puts a descriptor error into the stream and stops it; otherwise, while the stream is started, it reclaims all that a whole reclaim does and stops the stream exactly when nothing is left and the channel is parked |
| I2sStart.NoStart | drivers/i2s_drv/i2s_drv.c:962-973 | a start with nothing queued, or whose DMA cannot be initialised, changes nothing |
| I2sStart.FollowsLinks | drivers/i2s_drv/i2s_drv.c:1386-1393 | in every run that loses no write-back a channel that has sent a buffer goes on to the next one exactly when it is linked, parks otherwise, and meets no descriptor error |
| I2sEnds.WriteEndsInError | drivers/i2s_drv/i2s_drv.c:1308-1372 | from every state at the head of its loop with the stream in error an undisturbed write returns and accepts nothing more |
| I2sEnds.DrainEndsInError | drivers/i2s_drv/i2s_drv.c:1416-1443 | an undisturbed drain returns false there |
| I2sEnds.WriteWaits | drivers/i2s_drv/i2s_drv.c:1310-1352 | a write that finds the ring full and nothing sent tries again while it has time, and returns when its time is used up |
| I2sEnds.DrainOutOfTime | drivers/i2s_drv/i2s_drv.c:1415-1459 | a drain whose time is used up returns false |
| Spinlock.AccessKeepsInv | core/esp_hw_support/include/spinlock.h:74-205 | every single shared access of acquire and release keeps both cores' invariant, in every configuration |
| Spinlock.InvPreserved | core/esp_hw_support/include/spinlock.h:74-205 | so does every call and access in an interleaving |
| Spinlock.InvReachable | core/esp_hw_support/include/spinlock.h:51-205 | the invariant holds in every reachable state |
| Spinlock.MutualExclusion | core/esp_hw_support/include/spinlock.h:74-205 | under every interleaving, whether or not the owner is read twice and however deep the nesting, at most one core holds the lock and a free owner word implies count 0 and no holder; where the owner is read once and nesting stays below 0xFF no assertion has failed |
| Spinlock.NestedAcquires | core/esp_hw_support/include/spinlock.h:104-117 | a core that holds the lock reaches every nesting depth up to the limit |
| Spinlock.DeepNestingFails | core/esp_hw_support/include/spinlock.h:140-146 | at depth 0xFF an assertion of the other core fails |
| Spinlock.DoubleLoadFails | core/esp_hw_support/include/spinlock.h:140-146 | where the owner is read twice the timed-out assertion can fail |
| Spinlock.AssertsHoldExactlyWhenSound | core/esp_hw_support/include/spinlock.h:104-197 | no assertion fails in any run if and only if the owner is read once and nesting stays below 0xFF |
| SpinlockCalls.CallReturns | core/esp_hw_support/include/spinlock.h:74-205 | in every run a core that is back from a call holds: after an acquire that waits forever one more than at the call; after any other acquire one more or as many, and as many after a bounded wait only if the time was up; after a release one less |
| SpinlockCalls.AcquireTakes | core/esp_hw_support/include/spinlock.h:119-140 | an undisturbed acquire of a free lock takes it, whatever the timeout |
| SpinlockCalls.AcquireNests | core/esp_hw_support/include/spinlock.h:104-117 | an undisturbed acquire by the holder nests |
| SpinlockCalls.AcquireMisses | core/esp_hw_support/include/spinlock.h:119-155 | an acquire of a lock the other core holds comes back without it when it does not wait or its time is up |
| SpinlockCalls.AcquireWaits | core/esp_hw_support/include/spinlock.h:128-137 | and goes on for any number of turns when it waits forever, or while its time is not up |
| SpinlockCalls.ReleaseLowers | core/esp_hw_support/include/spinlock.h:175-205 | an undisturbed release lowers the nesting and frees the lock at 0 |
| Protobuf.ReadVarint | drivers/esp_hosted/esp_hosted_ctrl.c:346-370 | a successful read ends behind its start and inside the buffer |
| Protobuf.ReadVarintExact | drivers/esp_hosted/esp_hosted_ctrl.c:346-370 | reading succeeds exactly where a complete varint of at most ten bytes stands, with its base-128 value mod 2^64 |
| Protobuf.VarintSum | drivers/esp_hosted/esp_hosted_ctrl.c:411-435 | the bytes written have the value as their base-128 sum |
| Protobuf.VarintShape | drivers/esp_hosted/esp_hosted_ctrl.c:411-435 | exact size of a varint, continuation bits on all bytes but the last |
| Protobuf.VarintMinimal | drivers/esp_hosted/esp_hosted_ctrl.c:411-435 | the writer emits the shortest encoding, of 1 to 10 bytes |
| Protobuf.VarintRoundTrip | drivers/esp_hosted/esp_hosted_ctrl.c:346-435 | every 64-bit value is read back, with its exact end, at any position of any buffer |
| Protobuf.SignedRoundTrip | drivers/esp_hosted/esp_hosted_ctrl.c:477-490 | every signed 32-bit code, sign-extended to 64 bits, comes back unchanged |
| Protobuf.ReadField | drivers/esp_hosted/esp_hosted_ctrl.c:372-409 | a field read ends behind its start, so the offset strictly grows |
| Protobuf.ReadFieldSound | drivers/esp_hosted/esp_hosted_ctrl.c:372-409 | what is read as a field is a field of the grammar |
| Protobuf.ReadFieldComplete | drivers/esp_hosted/esp_hosted_ctrl.c:372-409 | every field of the grammar is read, with its end |
| Protobuf.ReadFieldsExact | drivers/esp_hosted/esp_hosted_ctrl.c:504-566 | a byte string reads as a field list if and only if it splits entirely into those fields of wire types 0, 1, 2 and 5 |
| Protobuf.ReadVarintFieldBytes | drivers/esp_hosted/esp_hosted_ctrl.c:437-451 | a written varint field is read back wherever it stands |
| Protobuf.ReadLenFieldBytes | drivers/esp_hosted/esp_hosted_ctrl.c:437-475 | a written length-delimited field is read back as the span of its payload |
| ProtobufIo.PbReadVarint | drivers/esp_hosted/esp_hosted_ctrl.c:346-370 | the reading loop computes `ReadVarint` |
| ProtobufIo.PbSkipField | drivers/esp_hosted/esp_hosted_ctrl.c:372-409 | skipping succeeds exactly on a complete body and ends behind it |
| ProtobufIo.PbWriteVarint | drivers/esp_hosted/esp_hosted_ctrl.c:411-435 | appends the varint, if and only if it fits the capacity |
| ProtobufIo.PbWriteKey | drivers/esp_hosted/esp_hosted_ctrl.c:437-441 | appends the key varint, if and only if it fits |
| ProtobufIo.PbWriteVarintField | drivers/esp_hosted/esp_hosted_ctrl.c:443-451 | appends key and value, if and only if both fit |
| ProtobufIo.PbWriteBytesField | drivers/esp_hosted/esp_hosted_ctrl.c:453-475 | appends key, length and bytes, if and only if all fit |
| HostedRpc.RpcInExact | drivers/esp_hosted/esp_hosted_ctrl.c:492-566 | a byte string parses as an RPC message if and only if it splits into fields; it means the last varints of fields 1 to 3 and the number and span of the first length-delimited field |
| HostedRpc.ParseRpcField | drivers/esp_hosted/esp_hosted_ctrl.c:504-560 | one turn of the loop takes in exactly the field at the offset |
| HostedRpc.ParseRpc | drivers/esp_hosted/esp_hosted_ctrl.c:492-566 | the parser computes that meaning and terminates |
| HostedRpc.ParseResponseField | drivers/esp_hosted/esp_hosted_ctrl.c:705-733 | one turn of the response loop, for the number of the field with the code |
| HostedRpc.ParseResponse | drivers/esp_hosted/esp_hosted_ctrl.c:568-796 | the loop of the response parsers gives the code of the last varint field with that number (2 for a MAC response, else 1) and whether there is one, and fails exactly on malformed payloads |
| HostedRpc.UnwrappedExact | drivers/esp_hosted/esp_hosted_ctrl.c:296-344 | unwrapping succeeds exactly on an envelope of either endpoint followed by anything, and spans its data |
| HostedRpc.TlvUnwraps | drivers/esp_hosted/esp_hosted_ctrl.c:256-344 | what is wrapped is unwrapped |
| HostedRpc.WrapTlv | drivers/esp_hosted/esp_hosted_ctrl.c:256-294 | writes the envelope, if and only if it fits the buffer and the 16-bit length |
| HostedRpc.UnwrapTlv | drivers/esp_hosted/esp_hosted_ctrl.c:296-344 | computes the span of the data |
| HostedRequests.EncodeReads | drivers/esp_hosted/esp_hosted_ctrl.c:372-475 | an encoded list of items, anywhere at the end of a buffer, reads back as its fields in order |
| HostedRequests.MessageRoundTrip | drivers/esp_hosted/esp_hosted_ctrl.c:372-475 | so does an encoded message on its own |
| HostedRequests.MessageParses | drivers/esp_hosted/esp_hosted_ctrl.c:492-566 | parsing a message of any type recovers type, message id, uid, payload field and payload bytes |
| HostedRequests.MessageComesBack | drivers/esp_hosted/esp_hosted_ctrl.c:256-344 | so does wrapping it for either endpoint, unwrapping and parsing it, whatever follows the envelope |
| HostedRequests.RequestRoundTrip | drivers/esp_hosted/esp_hosted_ctrl.c:256-344 | so it is for a request |
| HostedRequests.RequestSize | drivers/esp_hosted/esp_hosted_ctrl.c:1128-1396 | size of a request by the size of its payload |
| HostedRequests.EncodeHead | drivers/esp_hosted/esp_hosted_ctrl.c:1157-1159 | writes type, id and uid, if and only if they fit |
| HostedRequests.EncodeRequest | drivers/esp_hosted/esp_hosted_ctrl.c:1157-1166 | writes a whole request, if and only if it fits |
| HostedRequests.EncodeFeatureRequest | drivers/esp_hosted/esp_hosted_ctrl.c:1128-1167 | for every uid, feature, command and option value the request fits its buffers |
| HostedRequests.EncodeFwVersionRequest | drivers/esp_hosted/esp_hosted_ctrl.c:1169-1190 | for every uid the version request fits its buffer |
| HostedRequests.EncodeWifiInitRequest | drivers/esp_hosted/esp_hosted_ctrl.c:1192-1240 | the default set-up fits its buffers and the 256-byte TLV buffer |
| HostedRequests.EncodeValueRequest | drivers/esp_hosted/esp_hosted_ctrl.c:1242-1396 | the set-mode and get-MAC requests fit their buffers for every enumerated value |
| HostedRequests.EncodeEmptyRequest | drivers/esp_hosted/esp_hosted_ctrl.c:1344-1368 | start, connect and disconnect carry an empty payload field and fit their buffer |
| HostedRequests.EncodeSetStaConfigRequest | drivers/esp_hosted/esp_hosted_ctrl.c:1274-1342 | succeeds exactly for an SSID of 1 to 32 bytes and a password of up to 64, and then fits its buffers and the TLV buffer |
| HostedWire.EnvelopeIsTlv | drivers/esp_hosted/esp_hosted_ctrl.c:256-294 | the envelope byte by byte: tag 1, "RPCRsp", tag 2, the data, with little-endian lengths |
| HostedWire.RequestOnWire | drivers/esp_hosted/esp_hosted_ctrl.c:1157-1163 | a request byte by byte: 08 01, 10 and the message id, 18 and the uid, then the payload field numbered by the id |
| HostedWire.ResponseOnWire | drivers/esp_hosted/esp_hosted_ctrl.c:492-566 | a response byte by byte: the same with 08 02 |
| HostedWire.ReadsBack | drivers/esp_hosted/esp_hosted_ctrl.c:372-475 | in an encoded record a reader finds, under every field number, the last item with that number |
| HostedWire.CodeOfRecord | drivers/esp_hosted/esp_hosted_ctrl.c:568-796 | the code read from a record is that of the last item with its number, and 0 when there is none |
| HostedWire.FeatureReadsBack | drivers/esp_hosted/esp_hosted_ctrl.c:1146-1155 | feature, command and option are read from fields 1, 2 and 3, the option only when there is one |
| HostedWire.WifiInitOnWire | drivers/esp_hosted/esp_hosted_ctrl.c:1209-1224 | the default set-up, all 35 bytes |
| HostedWire.SetConfigReadsBack | drivers/esp_hosted/esp_hosted_ctrl.c:1300-1332 | a reader of the nested records of a station set-up finds interface, SSID, password, least authentication and the frame protection settings |
| RxRing.Ring.constructor | drivers/esp_hosted/esp_hosted.c:54-65 | an empty ring |
| RxRing.Ring.Push | drivers/esp_hosted/esp_hosted.c:67-89 | appends, or counts a drop, by the number queued |
| RxRing.Ring.Pop | drivers/esp_hosted/esp_hosted.c:91-102 | removes the oldest packet |
| RxRing.Ring.Submit | drivers/esp_hosted/esp_hosted.c:248-256 | accepts payloads up to the buffer size |
| RxRing.SubmittedKeepsOrder | drivers/esp_hosted/esp_hosted.c:67-102 | over every run of submissions: what was queued stays in front, and what is added is a subsequence of the arrivals, in order |
| HostedCtrl.UidSequence | drivers/esp_hosted/esp_hosted_ctrl.c:1118-1126 | the n-th uid, starting at 1 and never 0 |
| HostedCtrl.UidsDiffer | drivers/esp_hosted/esp_hosted_ctrl.c:1118-1126 | no uid repeats within 2^32 - 1 requests |
| HostedCtrl.Control.TakeUid | drivers/esp_hosted/esp_hosted_ctrl.c:1118-1126 | hands out a nonzero uid and moves to the next |
| HostedCtrl.Control.Restart | drivers/esp_hosted/esp_hosted_ctrl.c:1615-1637 | deinitialising and initialising starts the control state anew and keeps the receive ring |
| HostedCtrl.ReadMessage | drivers/esp_hosted/esp_hosted_ctrl.c:1426-1439 | the message in a serial payload and the bytes of its payload field, or none |
| HostedCtrl.ReadCode | drivers/esp_hosted/esp_hosted_ctrl.c:1501-1556 | the code of a response by the kind of its request, or the protocol error for a malformed one; `HostedRestart.CodeReadBack` says where on the wire it stands |
| HostedCtrl.Control.Receive | drivers/esp_hosted/esp_hosted_ctrl.c:1407-1557 | the receive callback completes the wait with that code exactly when its message is the awaited response |
| HostedCtrl.Control.DispatchRx | drivers/esp_hosted/esp_hosted.c:308-321 | hands every queued packet on, in order, and leaves the ring empty |
| HostedCtrl.Control.Poll | drivers/esp_hosted/esp_hosted.c:238-246 | a poll submits what arrived |
| HostedCtrl.Control.ResetWait | drivers/esp_hosted/esp_hosted_ctrl.c:1100-1104 | ends a wait |
| HostedCtrl.Control.Request | drivers/esp_hosted/esp_hosted_ctrl.c:1559-1613 | a request, with its failure to initialise, to fit the envelope and to be sent, timeout, bad response code and success |
| HostedCtrl.RunInv | drivers/esp_hosted/esp_hosted_ctrl.c:1118-1126 | after every run the next uid is that of the number of requests made since the last restart, and nobody waits |
| HostedCtrl.DispatchCompletesExactly | drivers/esp_hosted/esp_hosted_ctrl.c:1488-1499 | a dispatch completes the wait if and only if one of the queued packets is the awaited response |
| HostedCtrl.WaitedAnswered | drivers/esp_hosted/esp_hosted_ctrl.c:1582-1612 | a wait that completes was answered by a packet that was queued or arrived during it, and the code is the one in its payload |
| HostedCtrl.ResponseIsOwn | drivers/esp_hosted/esp_hosted_ctrl.c:1488-1612 | after every run of requests, timeouts, arrivals and restarts a completed request was answered by a response with its own uid and response id, and of the requests since the last restart no other less than 2^32 - 1 away has that uid |
| HostedRestart.CodeReadBack | drivers/esp_hosted/esp_hosted_ctrl.c:568-796 | every signed code is read from where it stands on the wire: behind six address bytes in field 2 of a MAC response, in field 1 of every other response |
| HostedRestart.ResponseCompletes | drivers/esp_hosted/esp_hosted_ctrl.c:1488-1612 | after every run that leaves room in the ring, a request is completed by its response, given byte by byte as it stands on the wire, with the signed code it carries, whatever else is queued |
| HostedRestart.ResponseCompletesLater | drivers/esp_hosted/esp_hosted_ctrl.c:1582-1612 | so it is when the response arrives after any number of turns, unless a queued packet is the awaited response |
| HostedRestart.LateAnswerCompletes | drivers/esp_hosted/esp_hosted_ctrl.c:1615-1637 | an answer that arrives after its request timed out does not complete the next request, but does after a restart |
| SdioFrame.FrameLayout | drivers/esp_hosted/esp_hosted_sdio.c:1450-1479 | the twelve header bytes of a frame, one by one |
| SdioFrame.EmptyChecksum | drivers/esp_hosted/esp_hosted_sdio.c:188-204 | the checksum of a frame without payload is the sum of its other header bytes |
| SdioFrame.ChecksumVerifies | drivers/esp_hosted/esp_hosted_sdio.c:188-204 | the checksum field of a frame is the byte sum mod 2^16 of the frame with that field zeroed |
| SdioFrame.ComputeChecksum | drivers/esp_hosted/esp_hosted_sdio.c:188-204 | the loop computes the byte sum mod 2^16 |
| SdioFrame.BuildFrame | drivers/esp_hosted/esp_hosted_sdio.c:1450-1479 | the transmit buffer holds the frame |
| SdioFrame.PadToBlocks | drivers/esp_hosted/esp_hosted_sdio.c:937-958 | fills the last block of a frame of any length that fits with zeros and changes nothing else |
| SdioFrame.IsZeroPadding | drivers/esp_hosted/esp_hosted_sdio.c:1317-1329 | true exactly when all remaining bytes are zero |
| SdioFrame.ReadRxFrame | drivers/esp_hosted/esp_hosted_sdio.c:1390-1421 | a packet exactly where a complete frame stands: no padding, the fixed offset, inside the data, payload up to 1600 |
| SdioFrame.DecodePacket | drivers/esp_hosted/esp_hosted_sdio.c:1331-1362 | the packet's fields come from its header, its payload from behind it |
| SdioFrame.ParseRxFrames | drivers/esp_hosted/esp_hosted_sdio.c:1386-1424 | submits all frames up to padding, the end or the first bad frame, in order, to the ring |
| SdioFrame.FramesRoundTrip | drivers/esp_hosted/esp_hosted_sdio.c:1386-1479 | any sequence of legal frames followed by any zero padding is submitted, all of them and in order, with type, number, flags, sequence, throttle and payload (packet type only for HCI) |
| SdioTransfer.ArgumentDecodes | drivers/esp_hosted/esp_hosted_sdio.c:809-847 | a card that takes a CMD53 argument apart finds direction, function, address, incrementing addresses and the size |
| SdioTransfer.ChunkSize | drivers/esp_hosted/esp_hosted_sdio.c:851-881 | size of the next transfer: up to eight whole blocks, then the rest |
| SdioTransfer.CommandsTile | drivers/esp_hosted/esp_hosted_sdio.c:849-935 | the transfers go on over incrementing addresses and tile the range exactly, in order, without overlap: up to eight blocks of 512 each, then at most one of 1 to 511 bytes |
| SdioTransfer.DrainCommandsTile | drivers/esp_hosted/esp_hosted_sdio.c:1364-1384 | so do those of a drain, in stretches of up to one frame buffer |
| SdioTransfer.Link.Cmd53Read | drivers/esp_hosted/esp_hosted_sdio.c:809-847 | a successful read logs its command and copies what a card sends for the issued argument, byte by byte at the addresses it names; a failed one a first part of it |
| SdioTransfer.Link.Cmd53Write | drivers/esp_hosted/esp_hosted_sdio.c:809-847 | a successful write logs its command and stores what a card stores for the issued argument, and changes exactly the addressed bytes; a failed one stores a first part |
| SdioTransfer.ReadBytes | drivers/esp_hosted/esp_hosted_sdio.c:849-891 | a read succeeds exactly when no transfer failed; then it has issued exactly those transfers and returns the range |
| SdioTransfer.WriteBytes | drivers/esp_hosted/esp_hosted_sdio.c:893-935 | a write succeeds exactly when no transfer failed; then it has issued exactly those transfers and changed exactly the range; otherwise it has stored a first part of the data and nothing else |
| SdioTransfer.DrainRxBytes | drivers/esp_hosted/esp_hosted_sdio.c:1364-1384 | a drain succeeds exactly when no transfer failed, and then has issued exactly those transfers |
| SdioHost.DifferencesAreTrue | drivers/esp_hosted/esp_hosted_sdio.c:1062-1112 | both wrapped differences equal the true ones |
| SdioHost.BuffersCover | drivers/esp_hosted/esp_hosted_sdio.c:1494 | the buffers counted for a frame are the least number of 1536-byte buffers that hold it |
| SdioHost.CountersAreTrue | drivers/esp_hosted/esp_hosted_sdio.c:1494-1580 | over every run in which the slave keeps its bounds: true differences, never more buffers used than granted, byte count = bytes consumed mod 2^20 |
| SdioHost.WritePaddedBlocks | drivers/esp_hosted/esp_hosted_sdio.c:937-967 | refuses an empty frame and one whose padding does not fit the buffer; otherwise writes the frame padded with zeros to whole blocks in front of the end address, or a first part of it when the transfer fails |
| SdioHost.Host.TransportTx | drivers/esp_hosted/esp_hosted_sdio.c:1426-1511 | sends if and only if attached, in size, not throttled, with enough buffers, and the transfer passes; counts the buffers used |
| SdioHost.Host.SendInSystem | drivers/esp_hosted/esp_hosted_sdio.c:1062-1511 | when the token register shows what the slave has granted, sending changes the counters as the sending step of `CountersAreTrue` does |
| SdioHost.Host.ReceiveTurn | drivers/esp_hosted/esp_hosted_sdio.c:1555-1581 | takes all unread bytes, if any, and submits their frames or drains them, if and only if no transfer fails; counts the bytes taken |
| SdioHost.Host.ReceiveInSystem | drivers/esp_hosted/esp_hosted_sdio.c:1083-1581 | when the length register shows what the slave has produced, a turn changes the counters as the receiving step of `CountersAreTrue` does |
| NplEvents.EventQueue.constructor | drivers/ble_nimble/ble_npl_baremetal.c:94-104 | an empty queue |
| NplEvents.QueuedInExactlyOne | drivers/ble_nimble/ble_npl_baremetal.c:169-201 | an event's flag and queue pointer say exactly which one queue holds it |
| NplEvents.EventQueue.Append | drivers/ble_nimble/ble_npl_baremetal.c:185-198 | the list with the event behind the last, acyclic, tail its last node |
| NplEvents.EventQueue.TakeHead | drivers/ble_nimble/ble_npl_baremetal.c:136-150 | the list without its first event |
| NplEvents.EventQueue.Unlink | drivers/ble_nimble/ble_npl_baremetal.c:219-238 | the list without the event at any position, order kept |
| NplEvents.EventQueue.Find | drivers/ble_nimble/ble_npl_baremetal.c:215-243 | finds the event if and only if the queue holds it, with the one in front |
| NplEvents.Put | drivers/ble_nimble/ble_npl_baremetal.c:169-201 | appends an event that is in no queue, leaves one that is; every queue and event stays consistent |
| NplEvents.Take | drivers/ble_nimble/ble_npl_baremetal.c:136-152 | takes the oldest event |
| NplEvents.Remove | drivers/ble_nimble/ble_npl_baremetal.c:203-245 | removes an event from any position, leaves one this queue does not hold |
| NplCallouts.DeltaIsTrue | drivers/ble_nimble/ble_npl_baremetal.c:39 | within a window of 2^31 ticks the signed difference is the true one |
| NplCallouts.DueAtOnceExactly | drivers/ble_nimble/ble_npl_baremetal.c:519-520 | a delay counts as due at once if and only if it is zero or at least 2^31 |
| NplCallouts.Callout.constructor | drivers/ble_nimble/ble_npl_baremetal.c:492-507 | an inactive callout with an unqueued event |
| NplCallouts.Callouts.FindPlace | drivers/ble_nimble/ble_npl_baremetal.c:35-45 | the place in front of the first later deadline; in a sorted list within a window, of all later ones |
| NplCallouts.Callouts.Insert | drivers/ble_nimble/ble_npl_baremetal.c:33-50 | inserts there, whatever the deadlines, and the list stays acyclic; within a window of 2^31 ticks it stays sorted, ties in insertion order |
| NplCallouts.Callouts.Remove | drivers/ble_nimble/ble_npl_baremetal.c:16-31 | removes a callout from any position, order kept |
| NplCallouts.Callouts.Reset | drivers/ble_nimble/ble_npl_baremetal.c:509-524 | re-arms a callout in front of the first later deadline, whatever the deadlines, the others in their order, and a callout is active exactly when it is in the list; within a window of 2^31 ticks the list stays sorted |
| NplCallouts.Callouts.Stop | drivers/ble_nimble/ble_npl_baremetal.c:526-538 | disarms a callout |
| NplCallouts.Callouts.DueFirst | drivers/ble_nimble/ble_npl_baremetal.c:56-63 | in a sorted list within a window the due callouts are a first part of the list |
| NplCallouts.ProcessCallouts | drivers/ble_nimble/ble_npl_baremetal.c:52-70 | removes exactly the callouts in front of the first one not due, within a window all that are due, and queues their events in list order; events already queued stay where they are |
| NplCallouts.GetNow | drivers/ble_nimble/ble_npl_baremetal.c:118-159 | one turn of getting an event: due callouts first, then the oldest event; what it needs holds again afterwards |
| Utf.DecodesUtf8 | libraries/sdFat32/sdFat32.c:98-155 | the decoder reads back every character |
| Utf.DecodeIsStrict | libraries/sdFat32/sdFat32.c:98-155 | it takes nothing for a character but its one encoding; anything else is one bad byte |
| Utf.Utf8DecodeNext | libraries/sdFat32/sdFat32.c:98-155 | the cursor moves behind the character, and stops at the end |
| Utf.Utf8Encode | libraries/sdFat32/sdFat32.c:157-206 | writes the character if and only if it fits, and nothing else |
| Utf.Utf8ToUtf16 | libraries/sdFat32/sdFat32.c:231-255 | the loop computes the UTF-16 of the string, cut before the first character that does not fit |
| Utf.UnitsOfChars | libraries/sdFat32/sdFat32.c:231-255 | a string of characters converts to their UTF-16, up to the first character that does not fit |
| Utf.EncodeName | libraries/sdFat32/sdFat32.c:560-581 | the loop computes the UTF-8 of the units up to the first zero |
| Utf.CharsReadBack | libraries/sdFat32/sdFat32.c:560-581 | the UTF-16 of characters encodes back to their UTF-8, up to the first character that does not fit |
| LongNames.WriteNameSlot | libraries/sdFat32/sdFat32.c:208-229 | writes the i-th unit of the joined name fields and no other byte of the entry |
| LongNames.WriteEntry | libraries/sdFat32/sdFat32.c:1612-1643 | writes one entry completely and nothing outside it; `EntryLayout` says what that is byte by byte |
| LongNames.EntryLayout | libraries/sdFat32/sdFat32.c:1612-1643 | the 32 bytes of an entry: ordinal, with 0x40 on the last one, fixed bytes, and bytes 1 to 10, 14 to 25 and 28 to 31, joined, are the little-endian units in order, then a zero, then ones |
| LongNames.WriteRun | libraries/sdFat32/sdFat32.c:1589-1646 | writes the entries with descending ordinals, the last one marked, and nothing else |
| LongNames.ReadEntry | libraries/sdFat32/sdFat32.c:536-552 | reads one entry; `EntryPut` says what that puts where |
| LongNames.EntryPut | libraries/sdFat32/sdFat32.c:536-552 | for any 32 bytes: the words of those joined bytes go, in order, to 13 * (ordinal - 1) and on, up to a zero, ones or the end of the name, and nothing else changes |
| LongNames.NextDirSector | libraries/sdFat32/sdFat32.c:480-499 | the next sector of a directory, in the next cluster when this one is used up |
| LongNames.DirNextEntryExists | libraries/sdFat32/sdFat32.c:476-503 | the cursor moves to the next entry of the directory, over sectors and clusters, or finds its end |
| LongNames.ReadRun | libraries/sdFat32/sdFat32.c:534-558 | reads the entries in directory order, over sectors and clusters, up to the end of the directory |
| LongNames.RunRead | libraries/sdFat32/sdFat32.c:534-558 | what reading gives, unit by unit |
| LongNames.RunFits | libraries/sdFat32/sdFat32.c:1607-1615 | a run and its short entry fit behind the e-th entry of a sector if and only if the name has at most 13 * (15 - e) units |
| LongNames.WriteLongName | libraries/sdFat32/sdFat32.c:1587-1648 | the long-name part of creating a file, whenever the run fits the sector |
| LongNames.CreateEntries | libraries/sdFat32/sdFat32.c:1587-1716 | stores the run and the short entry in the directory sector and changes nothing else |
| LongNames.RunInDirectory | libraries/sdFat32/sdFat32.c:534-558 | a run in a sector is what reading the directory from there meets first |
| LongNames.ReadLongName | libraries/sdFat32/sdFat32.c:515-581 | the long-name part of looking up a name, wherever its entries lie in the directory |
| LongNames.LongNameRoundTrip | libraries/sdFat32/sdFat32.c:98-581 | every name comes back from its entries, over any number of sectors, as its characters before the first that is U+FFFF or passes 255 units or 511 bytes, so it comes back if and only if it holds no U+FFFF and keeps both limits |
| LongNames.LongNameCutShort | libraries/sdFat32/sdFat32.c:560-581 | a name of 512 bytes, 172 units and 14 entries without U+FFFF comes back without its last character |
| LongNames.CreateThenLookUp | libraries/sdFat32/sdFat32.c:98-1716 | so does the name of a file that is created on the disk and then looked up |
| FatTable.SlotsDistinct | libraries/sdFat32/sdFat32.c:333-339 | distinct clusters have distinct slots, each inside one sector of the FAT |
| FatTable.EntrySet | libraries/sdFat32/sdFat32.c:367-375 | setting an entry changes that entry and no other |
| FatTable.EntrySetWord | libraries/sdFat32/sdFat32.c:367-375 | and no other word of the disk |
| FatTable.Volume.FatNextCluster | libraries/sdFat32/sdFat32.c:347-355 | reads the entry of a cluster; accepts any 32-bit number |
| FatTable.Volume.FatSetNextClus | libraries/sdFat32/sdFat32.c:367-375 | sets the entry through the sector buffer |
| FatTable.Volume.FreeChain | libraries/sdFat32/sdFat32.c:2019-2027 | terminates, zeroes exactly the entries of the chain and leaves every other word of every sector |
| FatTable.ClearedEntry | libraries/sdFat32/sdFat32.c:2019-2027 | so the entries of the chain are zero and all others are as before |
| FatTable.OtherChainKept | libraries/sdFat32/sdFat32.c:2019-2027 | a chain that shares no cluster with the freed one is untouched |
| FatFiles.SectorOnDisk | libraries/sdFat32/sdFat32.c:387-390 | the sectors of a cluster lie in the data area |
| FatFiles.ClustersCover | libraries/sdFat32/sdFat32.c:387-390 | clusters follow each other from the second on, and the x-th sector of the data area is sector x mod secPerClus of cluster 2 + x / secPerClus |
| FatFiles.ClustersApart | libraries/sdFat32/sdFat32.c:387-390 | sectors of different clusters are different |
| FatFiles.Files.FileRead | libraries/sdFat32/sdFat32.c:1075-1127 | from the start, or from where the last read stopped, returns the next bytes that buffer and chain hold, joined over sectors and clusters, cut at the chain's end, where the position goes back to 0 |
| FatFiles.FollowingKept | libraries/sdFat32/sdFat32.c:1112-1124 | a continued read finds the rest of the file if and only if the buffer still holds the rest of its sector |
| FatFiles.ReadInPieces | libraries/sdFat32/sdFat32.c:1075-1127 | the first piece is the file's, and the second is, if and only if the name is short, or the first ends with a sector, or the last sector the name lookup has read agrees with the file on the bytes taken from it |
| FatFiles.FoundIsRight | libraries/sdFat32/sdFat32.c:1075-1127 | that condition, on the bytes found |
| FatFiles.FillBuffer | libraries/sdFat32/sdFat32.c:1932-1940 | copies data up to the end of the sector or of the data |
| FatFiles.WriteSectors | libraries/sdFat32/sdFat32.c:1924-1971 | the cluster holds what it held in front, then the data or as much of it as fits; nothing outside it changes |
| FatFiles.UpdateEntry | libraries/sdFat32/sdFat32.c:1954-1966 | the directory entry gets the new size, the other entries stay |
| FatFiles.FileWrite | libraries/sdFat32/sdFat32.c:1884-1971 | refuses no mode and both modes; otherwise returns true, and the contents are the old ones, when appending, and the data, with the new size, when these fit the first cluster, and else the data cut there with the old size |
| FatFiles.WalkClusters | libraries/sdFat32/sdFat32.c:1910-1917 | follows the chain for a number of steps, to the cluster there or to the end mark behind the last |
| FatFiles.AppendCluster | libraries/sdFat32/sdFat32.c:1899-1917 | for every file size: an append begins in the cluster that holds the file's end if and only if the file is smaller than a cluster |
| FatFiles.ChainsKept | libraries/sdFat32/sdFat32.c:1884-1971 | a write to data sectors leaves every chain |
| FatFiles.WriteThenRead | libraries/sdFat32/sdFat32.c:1075-1971 | a write, then a read of the whole file, gives old contents plus data when they fit the first cluster; an append gives the file its new size if and only if they do |
| IncludeAudit.ServicesSupported | scripts/audit-idf-files.py:50-55 | every service header is a supported file |
| IncludeAudit.BaseNameIsLast | scripts/audit-idf-files.py:58 | the part of a path behind its last slash |
| IncludeAudit.KeysExact | scripts/audit-idf-files.py:57-63 | a key names a file if and only if it is the last part of its path, or the path is p + marker + key at the first occurrence of the marker |
| IncludeAudit.BuildIndex | scripts/audit-idf-files.py:56-63 | each spelling maps to exactly the supported files it can mean |
| IncludeAudit.PushIncludes | scripts/audit-idf-files.py:72-76 | pushes exactly what the includes of a file can mean |
| IncludeAudit.AllTargetsExact | scripts/audit-idf-files.py:72-76 | which is: the supported files that stand there relative to the including file, or that a spelling it includes names |
| IncludeAudit.Audit | scripts/audit-idf-files.py:65-87 | the worklist terminates with the least set that holds the roots and is closed under includes, and reports the largest set of service headers whose removal leaves the rest closed |
| IncludeAudit.RetainedIsReachable | scripts/audit-idf-files.py:65-76 | a file is retained if and only if a path of includes leads to it from a root, each step stated on the paths themselves |
| IncludeAudit.ReportedExactly | scripts/audit-idf-files.py:49-87 | a file is reported if and only if it is a private or a named service header, is not preserved, and no path of includes leads to it from a root |

## Left out

- Registers, pins, clocks, delays, caches and memory barriers: no visible semantics; I2S and the spinlock are step machines over values because their point is concurrency, so aliasing of descriptors with other memory is not captured.
- I2sStream.StreamSafety: about runs without a lost write-back, because with one it is false; which rings have no such run is `SafeExactlyWithOneBuffer`.
- I2sShape.RingShape: the handler reclaims without the lock, so it is about states in which it is not in the middle of clearing a descriptor.
- `i2s_stream_poll`: it reclaims without the interrupt lock; only write and drain are modelled between a begin and a stop.
- Liveness of the stream: that a call succeeds is proved for calls that nothing disturbs (`QuietDrainSucceeds`, `QuietWriteAccepts`), not under fair schedules.
- SpinlockCalls.AcquireMisses: the accesses of one call; that a spinning core gets the lock in the end is no promise of the source.
- Weak memory order, and acquiring the spinlock with interrupts enabled inside the call.
- HostedCtrl.Control.Receive: events, and the version, feature and MAC fields of responses, are not modelled; of a response the model keeps the code.
- HostedRequests.EncodeHead: the head fields and the payload field, which every builder writes with the same statements, are written by one method each.
- HostedCtrl.Control.Request: callbacks that issue requests of their own are not modelled.
- HostedCtrl.Control.DispatchRx: BLE, network and private packets do not touch the control state, and the model has nothing else of them.
- SdioTransfer.ReadBytes: the two loops of the source, blocks and then bytes, are one loop with the same chunk sizes; the same holds for WriteBytes.
- SdioTransfer.Link.Cmd53Write: a failed transfer is taken to move a first part of its bytes; the bounce buffer, command retries and card start-up are not part of this model.
- SdioHost.Host.ReceiveTurn: one turn that sees a new packet; interrupt status bits and the poll budget are not part of this model.
- SdioHost.WritePaddedBlocks: lengths whose rounding up to blocks wraps 32 bits are excluded.
- Reassembly of fragmented frames, which the source does not do either.
- Initialising or resetting a queued event or an active callout, and deinitialising a nonempty queue.
- NplCallouts.GetNow: one turn of the loop, with the transport's own polling left out; waiting and its timeout are not modelled.
- Semaphores, mutexes and critical-section nesting: only easy members.
- LongNames.WriteLongName: a run that does not fit its sector (`RunFits`) would be stored outside the sector buffer, which has no meaning in the model; the search for free entries and the short name, whose bytes and checksum are parameters, are not modelled.
- FatFiles.Files.FileRead: a continued read is about the file the last read was of; `looked` says which sector the name lookup has read.
- FatFiles.FileWrite: appending to a file of a cluster or more is modelled up to the cluster it begins in (`AppendCluster`), which is the wrong one; the search for free clusters is not modelled. A write of no bytes reads behind the data.
- FatTable.Volume.FreeChain: marking the directory entries as deleted is not modelled; sector I/O always succeeds.
- Directory listing, dates, path splitting, boot sector and partition parsing.
- IncludeAudit.Audit: file discovery, the CMake and Kconfig groups and the report's sizes are not modelled.
- lwIP and NimBLE glue, UART, SPI, I2C, SD card commands and the HAL: thin wrappers over code that is not part of this model.
