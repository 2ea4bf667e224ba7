# Verified model of the recorder's data plane

The recorder takes acceleration samples from sensor nodes on an RS485 bus, stores them durably in Capture
files and later compacts those into Archives. This project models that path in Dafny and proves what it
keeps, from the bytes on the bus to the rows of an Archive, together with the clock fits that date the
samples, the layered configuration, the firmware upload and the FIFO deadline of the node.

`dafny verify dfyconfig.toml` checks everything. The modules, in the order of the data:

| module | what it models |
|---|---|
| `Crc`, `CrcWords` | CRC-16 and CRC-32 as one shift register over bits and what they detect; the program's loops over numbers |
| `Resync`, `StreamDecoder` | a resynchronising decoder over any frame layout, and the receiver that mutates its buffer |
| `FrameCodec` | the RS485 frames and the update packets as two such layouts |
| `BurstProtocol`, `BurstStorage`, `Recordings` | bursts and commits with losses, the recorder's node object; the protocol over the windowed writer; whole recordings with gap rows and restarts |
| `Windows`, `Router`, `RouterRuns`, `RouterFiling`, `RouterLives`, `CaptureWindowing` | routing of samples into UTC windows: the rule, whole sessions, which samples of a batch a call files where, restarts and crashes, the writer object |
| `Capture`, `CaptureRuns`, `BlockRows`, `CaptureReader` | one Capture file: two-phase writes, crashes and recovery, what its block rows say of the samples, the validator and the identity reader |
| `QualityRows`, `ControlPoints` | run-length quality rows, and simplification of timing points |
| `Archive`, `Compaction`, `Compactor`, `ArchiveGaps`, `ArchiveBuild` | the Archive and its validator, what compaction must preserve, and the compactor |
| `SourceRows`, `ArchiveMeaning`, `ArchiveTiming`, `WindowArchives` | what a published Archive says of the samples the recorder stored: quality, gaps, origin, time |
| `AffineFit`, `ClockModels`, `SampleClock`, `NodeHostClock` | weighted least squares over reals and the two clock models |
| `KeyedLists`, `ConfigMerge`, `ConfigLayers`, `ConfigFiles` | merging of configuration layers and the `extends` chain |
| `Options`, `Selections` | values that may be missing; parts of a list in order |
| `Upload`, `FifoPolicy` | the chunk loop of a firmware upload; the fallback read interval in 32-bit arithmetic |

State that the program updates in place is a class whose methods are proved against functions on values
(`WindowedWriter` against `Router`, `RecorderNode` against `BurstProtocol.Step`, `Writer` against `RawPhase`
and `BlockPhase`, `Receiver` against `Resync.Drain`); the laws are then proved of those functions for all
inputs and all runs. What rows, flags and requests mean is stated in terms of the samples themselves, apart from
the functions that compute them: `RowsTell` and `ShareRowIff` for block rows, `SessionKeeps` and `CallFiles` for
window files, `ScanNotes` and `DeliveryTrace` for a burst, `ArchiveQuality`, `ArchiveGapsTold`, `ArchiveSegment`
and `ArchiveTimes` for an Archive.

Results where a law does not hold without more, with the exact condition:

- A window that is opened while three newer ones are open is published again at once, and the call fails;
  a call succeeds exactly if fewer than three open windows are newer than each window it has to open
  (`SurvivesIff`, `CallEffect`).
- An identity is stored twice exactly if a call files it twice, or takes it for new although it is on disk in a
  file the writer does not look into. It looks only into the published file of the window a sample's own time
  points to, so a sample that comes again without a time after a restart is stored a second time
  (`CallOnceIff`, `SessionOnceIff`, `LifeOnceIff`, `UntimedStoredTwice`; for recordings `RecordingOnceIff`, for
  one file `StoredOnceIff`).
- A gap that is noted before any file is open waits in memory. If a burst brings nothing new, no file is opened,
  the commit is sent all the same, and a restart loses the gap. Noted gaps stay in memory exactly if no window
  was resumed and no burst brought anything new (`GapsFiledIff`, `GapOnlyInMemory`, `WaitingGapLost`). Over
  restarts the account holds exactly if none begins behind a number that is neither on disk nor in a gap row
  (`HistorySoundIff`).
- Sequence numbers are accounted for per boot while the node does not reboot. The recorder compares numbers
  across boots, so a reboot keeps the account exactly if the numbers to be accounted for do not begin before
  both the expected number and the first packet of the new boot (`RunSafeInBoot`, `RebootAccountsFromIff`,
  `RebootLosesNumbers`).
- Compaction also fails if a FIFO loss is noted in a source behind the last sample, or any gap where there is
  no sample at all (`GapsInsideIff`, `TrailingLossOutside`).
- A window contains the time of its samples except for times that are rounded up into it: a time is rounded
  to whole microseconds and then cut to a second towards zero, so the last half microsecond before a window is
  filed in it, and before the epoch the whole second but for its first half microsecond
  (`WindowHoldsItsTimeIff`, `JustBeforeWindow`, `JustBeforeEpoch`). Such samples carry the mark
  for uncertain boundaries (`SessionKeeps`).
- A block of routed samples has an incomplete UTC pair exactly if its endpoints lie on both sides of the
  epoch (`RoutedBlockUtc`); in window files after the first this never happens (`LifeFile`).
- Three configuration layers group either way exactly if no middle layer replaces what the outer two could
  merge, unless the last says everything anew (`AssociativeIff`); an overlay with a nameless channel can be
  merged once but not twice, and nameless entries are the only obstacle (`IdempotentIff`,
  `NamelessNotIdempotent`).
- An image arrives intact for every image exactly if the chunk size is a multiple of the flash page; the
  configuration check admits other sizes (`ArrivesIff`).
- The FIFO cannot overflow within the fallback interval exactly if the rate is at most 32 kHz (`DeadlineIff`).
- Adding a clock observation raises exactly if the selected observations share one node midpoint; the
  observation is then kept and the earlier estimate stays (`NodeHostClockModel.Add`).

## Model

| member | source | states |
|---|---|---|
| `CrcWords.Crc16Ccitt` | host/host_lab.py:121-130 | The loop over bytes and bits on a masked number returns the number whose bytes, low byte first, are the checksum of the bit register. |
| `CrcWords.UpdateCrc32` | host/host_bootloader.py:119-131 | The same for the complemented, reflected loop: the CRC-32 of section 8 of RFC 1952; empty data gives zero. |
| `CrcWords.StepForwardAgrees` | host/host_lab.py:126-129 | Test of the top bit, shift, exclusive or and mask on the number are one step of the bit register. |
| `CrcWords.StepReflectedAgrees` | host/host_bootloader.py:126-130 | The same for the reflected step, whose register lists the bits backwards. |
| `Crc.ChecksumDetectsWindow` | host/host_bootloader.py:119-131 | Messages of any length that differ only within as many adjacent bytes as the checksum has never have the same checksum, for CRC-16 and CRC-32 alike. |
| `Crc.FeedBack` | host/host_lab.py:121-130 | Feeding a byte can be undone: from equal registers after it follow equal registers before it for equal bytes, and equal bytes for equal registers. |
| `Resync.ChunkingIrrelevant` | host/host_lab.py:521-533 | For any stream, garbage included, and any way it is cut into reads, the frames drained and the bytes left over are those of draining the whole stream at once. |
| `Resync.SameStreamSameFrames` | host/host_lab.py:521-533 | Two ways of cutting the same stream give the same frames and leftover. |
| `StreamDecoder.HeadStable` | host/host_lab.py:446-488 | A decision the decoder has taken on a buffer does not change when more bytes follow. |
| `StreamDecoder.Receiver.TryDecode` | host/host_lab.py:446-488 | Deleting from the buffer in place, one call delivers at most one frame, keeps what remains to be drained, and leaves the buffer unchanged only if more bytes are needed. |
| `StreamDecoder.Receiver.Receive` | host/host_lab.py:521-533 | A read followed by the drain loop terminates with the frames and leftover of the specification. |
| `StreamDecoder.Receiver.ReceiveEach` | host/host_lab.py:517-533 | One read after another, the frames delivered and the bytes left are those of the whole life of reads, so of the stream. |
| `Resync.ReceiveSnoc` | host/host_lab.py:521-533 | A further read adds exactly the frames it drains itself to those delivered before. |
| `StreamDecoder.SealedFramesReceived` | host/host_lab.py:423-488 | Well-formed bodies, sealed, concatenated and cut in any way, arrive as they were, with an empty buffer. |
| `StreamDecoder.PartialFrameWaits` | host/host_lab.py:446-488 | A proper prefix of a sealed frame is left untouched. |
| `StreamDecoder.DrainedIsSealed` | host/host_lab.py:464-488 | Every frame drained from any stream stands in it with its matching checksum. |
| `StreamDecoder.SkipsToMagic` | host/host_lab.py:446-463 | Bytes at which no magic stands, or one with a refused header, are dropped one by one: draining is the same from the first place on where a header may stand. |
| `StreamDecoder.SkipsAll` | host/host_lab.py:446-463 | Where no header can stand, all is dropped but the last bytes, too few for a magic. |
| `StreamDecoder.FramesBehindGarbage` | host/host_lab.py:446-488 | Frames behind garbage that holds no first byte of the magic are all delivered, in any cut, as if the garbage had not been there. |
| `FrameCodec.ParseFrameBody` | host/host_lab.py:423-444 | Encoding and parsing a frame is the identity for all in-range fields. |
| `FrameCodec.FrameBytes` | host/host_lab.py:423-444 | The bytes of a frame, place by place, little-endian. |
| `FrameCodec.PacketBytes` | host/host_bootloader.py:540-558 | The bytes of an update packet, place by place, little-endian. |
| `FrameCodec.EncodedFrameDeliveredIff` | host/host_lab.py:446-488 | An encoded frame is delivered if and only if its payload is within the limit; otherwise only one byte of it is skipped. |
| `FrameCodec.FramesRoundTrip` | host/host_lab.py:423-488 | Any list of frames survives encoding, concatenation, cutting into reads and draining. |
| `FrameCodec.PacketsRoundTrip` | host/host_bootloader.py:540-603 | The same for update packets. |
| `FrameCodec.FramesBehindNoise` | host/host_lab.py:446-488 | Frames behind noise without 0x55 all arrive. |
| `FrameCodec.DamagedFrameRejected` | host/host_lab.py:473-479 | A frame with up to two adjacent altered payload bytes is consumed whole and not delivered. |
| `FrameCodec.DamagedPacketRejected` | host/host_bootloader.py:593-596 | An update packet with up to four adjacent altered payload bytes is consumed whole and not delivered. |
| `BurstProtocol.ScanAccounts` | host/host_recorder.py:1004-1080 | After any packets, lost, doubled or out of order, every sequence number below the expected one is stored, in the batch or in a recorded gap; if all packets are of one boot, under that boot. |
| `BurstProtocol.ScanNotes` | host/host_recorder.py:1004-1037 | A gap is noted before exactly those packets that do not begin behind the one before them, in order, from the number due to the number received. |
| `BurstProtocol.BatchInOrder` | host/host_recorder.py:1038-1079 | The batch holds the samples of the packets one after the other, each with the number its place in the packet gives. |
| `BurstProtocol.DeliveryTrace` | host/host_recorder.py:1077-1089 | A delivered burst is written, with as many samples as its packets announce, flushed, and then committed up to the last packet's last number. |
| `BurstProtocol.RunCursors` | host/host_recorder.py:1084-1090 | Through a run the recorder's cursor is that of the last reply, the node's that of the last request it has got, and after a reply the recorder expects the next number. |
| `BurstProtocol.RunSafe` | host/host_recorder.py:1004-1094 | In every run, every sequence number since the start up to the recorder's and the node's commit cursor, and up to what any commit request sent has asked for, is stored, under whichever boot, or in a recorded gap, and no commit is sent before its batch is written and flushed. |
| `BurstProtocol.RunSafeInBoot` | host/host_recorder.py:1004-1094 | In every run of one boot the account, commit requests included, holds of that boot: stored under it, or in a gap noted for it. |
| `BurstProtocol.RebootAccounts` | host/host_recorder.py:1005-1013 | Exactly which numbers of a new boot are accounted for after its first packet. |
| `BurstProtocol.RebootAccountsFromIff` | host/host_recorder.py:1005-1013 | A new boot is accounted for from a number on if and only if that is not before both the expected number and the packet. |
| `BurstProtocol.RebootLosesNumbers` | host/host_recorder.py:1005-1013 | One reboot that breaks the account: 100 is expected, the new boot begins at 5, and 1 to 4 are nowhere. |
| `BurstProtocol.NewKeysDistinctIff` | host/host_recorder.py:1004-1082 | The new identities of a burst are distinct if and only if no two of its packets share an identity that is not stored yet. |
| `BurstProtocol.RunStoredOnceIff` | host/host_recorder.py:1082-1094 | In every run of the protocol, redeliveries and storage failures included, each identity is stored once if and only if no delivered burst carries a new identity in two packets and no failing store has kept one twice. |
| `BurstProtocol.DeliveredIsStored` | host/host_recorder.py:1082-1083 | Every sample of a delivered burst is stored, whatever becomes of the commit. |
| `BurstProtocol.WriterStoresNewKeys` | host/recorder/capture_v1.py:354-358 | What the protocol takes a writer to store is what the single-file writer keeps of a batch. |
| `BurstStorage.SiftIsNewKeysIff` | host/recorder/capture_windowing.py:436-452 | The windowed writer takes exactly the identities not on disk for new, in order, if and only if it takes none for new that is on disk. |
| `BurstStorage.FoundIsClean` | host/recorder/capture_windowing.py:440-452 | If every stored identity of a batch is remembered or in the published file of its own window, and none comes twice, nothing is doubled. |
| `BurstStorage.CallAgrees` | host/recorder/capture_windowing.py:431-470 | A call of the windowed writer is a write of the protocol: all new identities are on disk if it succeeds, some of them if it fails. |
| `BurstStorage.CleanIffDistinct` | host/recorder/capture_windowing.py:436-470 | Where every key on disk is remembered, a call doubles something if and only if an identity comes twice among the samples it files. |
| `BurstStorage.OpenAfterIff` | host/recorder/capture_windowing.py:306-362 | After a call a file is open if and only if one was before or the batch holds something new. |
| `Recordings.RecordingSound` | host/host_recorder.py:1004-1094 | In every recording over the windowed writer, failing calls included, the disk holds what the protocol says, the account up to the cursors holds, and the noted gaps are, in order, the gap rows in files and those waiting in memory. |
| `Recordings.GapsFiledIff` | host/recorder/capture_windowing.py:488-507 | All noted gaps are in files if and only if none was noted, a window was resumed at the start or some burst brought something new. |
| `Recordings.CommittedIsOnDisk` | host/host_recorder.py:1082-1094 | Each sequence number since the start, up to either commit cursor, is on disk as a sample or in a gap row, or, only where no file was ever opened, in a gap that waits in memory. |
| `Recordings.GapOnlyInMemory` | host/recorder/capture_windowing.py:497-501 | One burst for which this is so: everything in it is known, and its gap is committed but in no file. |
| `Recordings.RecordingOnceIff` | host/host_recorder.py:1004-1094 | Where every key on disk is remembered at the start, each identity is on disk once after any recording if and only if it was so before, no two packets of a successful burst share an unstored identity, and no failing call files one twice. |
| `Recordings.TurnSoundIff` | host/host_recorder.py:378-408 | A burst, a restart or a crash of the recorder inside a burst keeps the account from its first start on if and only if what lies before the number it begins with is on disk or in a gap row. |
| `Recordings.NoHole` | host/host_recorder.py:396-408 | That is so if no gap was waiting and the new start is no later than after the node's cursor or the expected number. |
| `Recordings.WaitingGapLost` | host/recorder/capture_windowing.py:488-507 | It is not so after the burst above. |
| `Recordings.HistorySoundIff` | host/host_recorder.py:378-408 | Through any number of restarts and crashes the account holds at all times if and only if none of them leaves such a hole. |
| `BurstProtocol.RecorderNode.constructor` | host/host_recorder.py:396-408 | A recording starts at the node's cursor or at the oldest packet, with nothing to account for before it, over whatever is stored. |
| `BurstProtocol.RecorderNode.RecordOneBurst` | host/host_recorder.py:1000-1094 | One burst moves the node object, its counters, the store and the gaps as the protocol step does; the last number written is that of the last packet, the count of samples that of the packets; cursors move only on a commit reply. |
| `Windows.SurvivesIff` | host/recorder/capture_windowing.py:328-329 | Closing the oldest until three are open keeps a window exactly if fewer than three open ones are newer. |
| `Windows.Newcomer` | host/recorder/capture_windowing.py:322-330 | The same for a window just opened; newer windows are not affected by it. |
| `Router.WindowHoldsItsTimeIff` | host/recorder/capture_windowing.py:383-390 | A time lies in its aligned window, except exactly for times rounded up into the second that starts a window: the last half microsecond before it, and before the epoch the whole second but its first half microsecond. |
| `Router.JustBeforeEpoch` | host/recorder/capture_windowing.py:77-80 | One such time before the epoch: the last nanosecond. |
| `Router.JustBeforeWindow` | host/recorder/capture_windowing.py:383-390 | Such a time before every window: 100 nanoseconds. |
| `Router.SecondsIs` | host/recorder/capture_windowing.py:77-80 | Rounding to microseconds, ties to even, and truncation assign a time to its own second or to the next one, and exactly to which. |
| `Router.AnyConversion` | host/recorder/capture_windowing.py:383-390 | Whatever the division by 1e9 loses, as long as it is less than a microsecond in all: only times of the last microsecond before a window are filed outside their window. |
| `RouterRuns.EnsureWindowKeeps` | host/recorder/capture_windowing.py:306-330 | Opening a window changes no file, and leaves it open exactly if there is room. |
| `RouterRuns.CallEffect` | host/recorder/capture_windowing.py:431-470 | A call succeeds if and only if every window it must open has room and every group is acceptable; every file grows by exactly the samples routed to it that are filed, which are all new ones, or, if the call fails, those of the windows before the first one that fails; nothing else changes. |
| `RouterRuns.FourthWindowFails` | host/recorder/capture_windowing.py:328-330 | One call that fails: a sample for a window older than three open ones. |
| `RouterRuns.CallKeepsInvariant` | host/recorder/capture_windowing.py:431-470 | Every call, failed or not, keeps open and closed windows apart, published files unchanged, the remembered keys equal to the stored ones, at most three windows open, and each file, of this session or an older one, to samples that fit it: in a window marked neither late nor without time, among the unresolved ones marked as without time exactly if they have none and as late exactly if they have one. |
| `RouterRuns.SessionKeeps` | host/recorder/capture_windowing.py:431-470 | The same for every sequence of calls; every window file holds only samples aligned to that window, marked at its boundary exactly if their time may lie outside. |
| `RouterRuns.SessionHoldsSubmitted` | host/recorder/capture_windowing.py:431-470 | Every sample submitted in a session of successful calls is in a file. |
| `RouterRuns.CallOnceIff` | host/recorder/capture_windowing.py:436-470 | Counting every file on disk, those of earlier sessions included: after any call, failed or not, nothing is stored twice if and only if nothing was before, and of the samples it files none comes twice and none was on disk. |
| `RouterRuns.SessionOnceIff` | host/recorder/capture_windowing.py:436-470 | The same equivalence for every sequence of calls, failed ones included. |
| `RouterRuns.UntimedStoredTwice` | host/recorder/capture_windowing.py:440-452 | The failing input: a sample of a window published before a restart comes again without a time. |
| `RouterRuns.GroupRouted` | host/recorder/capture_windowing.py:383-405 | Every batch that reaches a file carries flags that tell whether a sample has a time. |
| `RouterFiling.FreshSelects` | host/recorder/capture_v1.py:354-358 | The writer of a file keeps, in order, exactly the samples whose identity it has not seen. |
| `RouterFiling.CallFiles` | host/recorder/capture_windowing.py:431-470 | A successful call appends to each file exactly the samples of the batch that are taken for new and belong there, in their order and changed in their flags only; a call that fails appends to each file these or nothing. |
| `RouterFiling.CallSucceedsIff` | host/recorder/capture_windowing.py:431-470 | A call succeeds if and only if each sample it takes for new is well measured, of its node, and, if its window is not open yet, fewer than three open ones are newer. |
| `RouterFiling.FiledAcceptable` | host/recorder/capture_v1.py:310-324 | Whatever a call files is well measured and of its node. |
| `RouterLives.RecoveredDisk` | host/recorder/capture_windowing.py:244-304 | A restart resumes, publishes or sets aside partial windows and leaves the unresolved file behind; it changes the content of no file. |
| `RouterLives.LifeKeeps` | host/recorder/capture_windowing.py:244-304 | Through any sequence of calls, restarts and crashes inside calls: the invariant, at most three open windows, and every file on disk, of whichever session, holds only samples that fit it, with the flags that belong there, and only well-measured ones if it was so before. |
| `RouterLives.LifeOnceIff` | host/recorder/capture_windowing.py:244-304 | Through any such life nothing is ever on disk twice if and only if nothing was at the start and no call, finished, failed or cut short, files an identity twice or one that is on disk. |
| `RouterLives.LifeHoldsSubmitted` | host/recorder/capture_windowing.py:431-470 | Every sample of a successful call stays on disk through all later calls, restarts and crashes that set no file aside. |
| `RouterLives.LifeFile` | host/recorder/capture_reader.py:85-148 | The Capture file of a window, or of what is unresolved, through any life: raw rows and identities are those of the samples the router filed there, its blocks tile the rows, and in a window after the first no block has incomplete UTC endpoints. |
| `CaptureWindowing.WindowedWriter.constructor` | host/recorder/capture_windowing.py:244-304 | A session starts with the invariant, in the state that the specification of a restart gives for the published, resumed and ended windows. |
| `CaptureWindowing.WindowedWriter.FinalizeWindow` | host/recorder/capture_windowing.py:378-381 | Publishing moves a window's file from the open to the published ones. |
| `CaptureWindowing.WindowedWriter.OpenWindow` | host/recorder/capture_windowing.py:306-330 | The loop that closes the oldest windows computes the eviction of the specification; a closed window is refused. |
| `CaptureWindowing.WindowedWriter.ExistsInFinalizedWindow` | host/recorder/capture_windowing.py:407-424 | The cached key set answers as the published file would. |
| `CaptureWindowing.WindowedWriter.Route` | host/recorder/capture_windowing.py:383-405 | Target window and routing flags of a sample. |
| `CaptureWindowing.WindowedWriter.Classify` | host/recorder/capture_windowing.py:431-460 | One pass drops what is known and groups the rest by target, in order. |
| `CaptureWindowing.WindowedWriter.WriteSamples` | host/recorder/capture_windowing.py:431-470 | The mutating call refines the routing specification, outcome and state. |
| `Capture.Writer.constructor` | host/recorder/capture_v1.py:260-269 | Opening a file cuts the raw rows back to what the blocks cover and reloads exactly the committed keys. |
| `Capture.Writer.WriteSamples` | host/recorder/capture_v1.py:350-414 | What the disk holds after a call: the finished batch, or, after a crash at either flush, the old file or the old file with uncovered raw rows; refused exactly if a sample of another node or an ill-measured one is in the batch. |
| `Capture.FragmentsRestore` | host/recorder/capture_v1.py:362-410 | The fragments of a batch, joined, are the batch. |
| `Capture.FragmentsUniform` | host/recorder/capture_v1.py:326-335 | Within a fragment every sample continues the one before it, and boot, packet, timing segment, timing flags and routing are the same throughout. |
| `Capture.BlocksRestoreKeys` | host/recorder/capture_v1.py:326-335 | The identities read back from the written blocks are exactly those that were stored, in order. |
| `Capture.KeysAfterAppend` | host/recorder/capture_v1.py:337-344 | The keys loaded from the blocks after an append are the earlier ones and those of the batch. |
| `CaptureRuns.RunHoldsCompletedBatches` | host/recorder/capture_v1.py:350-414 | After every interleaving of batches, crashes and reopenings the file holds the new samples of exactly the finished batches, in order, and its blocks tile the raw rows. |
| `BlockRows.RowsTell` | host/recorder/capture_v1.py:362-410 | After every such run the block rows cover all stored samples, and each tells of those it covers their boot, numbers, packet, timing segment, timing flags, routing, first and last time and largest uncertainty. |
| `BlockRows.ShareRowIff` | host/recorder/capture_v1.py:326-335 | Two stored samples share a block row if and only if they came in one batch, the second has the next number, and boot, packet, timing segment, timing flags and routing are the same. |
| `CaptureRuns.InterruptionLeavesNoTrace` | host/recorder/capture_v1.py:260-269 | An interrupted batch leaves no trace after recovery, and replaying it stores it in full. |
| `CaptureRuns.StoredOnceIff` | host/recorder/capture_v1.py:354-358 | Identities in the file are distinct if and only if every batch brought each new identity once. |
| `CaptureRuns.StoredKeys` | host/recorder/capture_v1.py:350-414 | An identity is stored if and only if some finished batch carried it. |
| `CaptureRuns.RunValidIff` | host/recorder/capture_reader.py:85-148 | Exactly when the file of such a run passes validation: samples in stream order and in range, and the times of every fragment of a batch ascending. |
| `CaptureRuns.RoutedBlockUtc` | host/recorder/capture_reader.py:119-122 | In a file of routed batches no block mixes samples with and without UTC; the incomplete-endpoints error fires exactly for blocks across the epoch. |
| `CaptureRuns.EpochBlockIncomplete` | host/recorder/capture_reader.py:119-122 | One such block. |
| `CaptureReader.Validate` | host/recorder/capture_reader.py:85-148 | The one-pass validator reports no error if and only if blocks tile the raw rows, streams are in order and the other checks hold. |
| `CaptureReader.TrackedOrder` | host/recorder/capture_reader.py:94-128 | The last-sequence dictionary decides whether a block comes after all earlier ones of its boot. |
| `CaptureReader.StreamOrderIsSampleOrder` | host/recorder/capture_reader.py:94-128 | Block order per boot is the same as strictly ascending sample sequences per boot. |
| `CaptureReader.ValidCaptureIdentities` | host/recorder/capture_reader.py:85-148 | A valid file has one identity per raw row, all distinct. |
| `CaptureReader.SampleIdentity` | host/recorder/capture_reader.py:68-83 | For any file: fails exactly if a block of several samples runs past the rows; otherwise the arrays hold for every covered row the identity of the last block that covers it. |
| `CaptureReader.ReadBackTiled` | host/recorder/capture_reader.py:68-83 | In a tiled file that is, row by row, the identity the blocks say. |
| `QualityRows.AddQualityTiles` | host/recorder/archive_v1.py:357-364 | Adding a row extends the tiling and the meaning by that row. |
| `QualityRows.AddQualityCanonical` | host/recorder/archive_v1.py:357-364 | Adding a row leaves no mergeable neighbours. |
| `QualityRows.Overlay` | host/recorder/archive_v1.py:63-97 | Overlaying a flag is the pointwise union on the interval; tiling with positive counts and canonical form are kept. |
| `QualityRows.CanonicalUnique` | host/recorder/archive_v1.py:63-97 | A canonical row list is determined by its meaning. |
| `QualityRows.OverlaysCommute` | host/recorder/archive_v1.py:513-516 | Overlays commute as row lists. |
| `QualityRows.OverlayIdempotent` | host/recorder/archive_v1.py:513-516 | Overlaying twice is overlaying once, as row lists. |
| `ControlPoints.WorstPoint` | host/recorder/archive_v1.py:172-179 | The inner loop finds a point of largest error. |
| `ControlPoints.Simplify` | host/recorder/archive_v1.py:158-185 | The stack loop terminates; the result is a subsequence with both ends, every dropped point is within the tolerance of the floored line between its kept neighbours, and every inner kept point was the worst of a line it strayed from too far. |
| `ControlPoints.TimingReconstructed` | host/recorder/archive_v1.py:158-185 | Every original time is recovered from the kept points within the tolerance. |
| `ControlPoints.InterpolateRoundsDown` | host/recorder/archive_v1.py:158-185 | Interpolation is the exact line, rounded down. |
| `Archive.ValidateArchive` | host/recorder/archive_reader.py:91-189 | No error if and only if segments, quality rows, control points, gap rows and provenance are as they should be. |
| `Archive.ValidArchiveIdentities` | host/recorder/archive_reader.py:108-137 | A valid Archive has one identity per raw row, all distinct. |
| `Compaction.JoinedTiles` | host/recorder/archive_v1.py:377-412 | The shifted blocks of the sources, one after the other, tile their joined raw rows and have their identities. |
| `Compaction.QualityOfBlocks` | host/recorder/archive_v1.py:135-156 | The quality rows of the blocks tile, are canonical and give every sample its block's quality; `ArchiveQuality` says what that is in terms of the samples. |
| `Compaction.CandidatesAscend` | host/recorder/archive_v1.py:415-436 | The timing candidates of tiling blocks have strictly ascending offsets and known times. |
| `Compaction.RunsPartition` | host/recorder/archive_v1.py:417-436 | Splitting the candidates into clock runs loses and reorders nothing. |
| `Compaction.RunsShareClock` | host/recorder/archive_v1.py:417-436 | No run mixes two clocks. |
| `Compactor.ChooseConfiguration` | host/recorder/archive_v1.py:396-408 | The configuration chosen for a block is the one in force at its first sample. |
| `Compactor.PlaceAll` | host/recorder/archive_v1.py:366-496 | Segments, raw rows and counts of all sources, and as configurations the first of each distinct settings, in order, or the reason why not; success means distinct identities. |
| `ArchiveBuild.ApplyOverlays` | host/recorder/archive_v1.py:513-516 | The final rows mean the base quality united with every overlay that covers the sample. |
| `ArchiveBuild.SimplifyRuns` | host/recorder/archive_v1.py:498-511 | The kept points are a selection of all candidates from which all of them are recovered. |
| `ArchiveGaps.GapsInsideIff` | host/recorder/archive_v1.py:438-473 | The gap rows lie inside the measurement if and only if no source notes a FIFO loss behind the last sample, and none a gap where there is no sample at all. |
| `ArchiveGaps.TrailingLossOutside` | host/recorder/archive_v1.py:463-473 | A FIFO loss in a last source without samples is outside. |
| `ArchiveBuild.RowsValidIff` | host/recorder/archive_v1.py:535-543 | The rows the compactor writes pass the Archive validator if and only if sequences ascend per boot across the sources, the kept times ascend and the gaps are so placed. |
| `ArchiveBuild.Build` | host/recorder/archive_v1.py:187-246 | A published Archive is valid and says what its sources say, its configurations being the first of each distinct settings, in order; compaction succeeds whenever the sources are valid, configured, in order, their times ascend and their gaps are placed inside, and each failure has its reason. |
| `ArchiveBuild.ArchiveSample` | host/recorder/archive_v1.py:366-496 | Archive sample i has the raw value and identity of sample i of the sources read one after the other. |
| `ArchiveMeaning.ArchiveQuality` | host/recorder/archive_v1.py:135-156 | For sources written in runs of routed batches with times since the epoch: Archive sample i is marked unsynchronised exactly if it has no UTC time, uncertain at the boundary exactly if its routing says so, its measurement invalid exactly if bit 2 of its timing flags is set, its time uncertain exactly if it has none or that bit is set, and each event mark exactly if an event of its source says so of its place. |
| `ArchiveMeaning.ArchiveGapsTold` | host/recorder/archive_v1.py:438-473 | The gap rows are exactly those of the sequence gaps and FIFO losses the sources note, placed by the samples they were noted at. |
| `ArchiveMeaning.ArchiveSegment` | host/recorder/archive_v1.py:377-412 | Each stored sample stands at its place, in a segment that tells its boot, number and timing segment and how its sensor was configured when the segment began. |
| `ArchiveTiming.ControlsStamp` | host/recorder/archive_v1.py:415-436 | Each control point is the time stamp of a stored sample: its place, device time, UTC time, and its row's timing flags. |
| `ArchiveTiming.ArchiveTimes` | host/recorder/archive_v1.py:498-511 | The time of every first and last sample of a block row is found in the Archive's control points within the tolerance. |
| `WindowArchives.ArchiveOfWindows` | host/recorder/archive_v1.py:187-246 | From the router's first call to the Archive of its window files: every Archive sample is one the router has filed under its window; it has a time, is not marked unsynchronised, and is marked uncertain at the boundary exactly if its time may lie outside the window, and invalid exactly if the node said so. |
| `AffineFit.FitLineIsBest` | host/common/clock_models.py:48-78 | Every other line has a strictly larger weighted squared error than the fitted one. |
| `AffineFit.DenominatorSign` | host/common/clock_models.py:64-69 | The denominator is never negative, and zero exactly if all x coincide. |
| `AffineFit.NumeratorPositive` | host/common/clock_models.py:70-75 | Points rising in both coordinates have a positive numerator. |
| `ClockModels.FitExistsIff` | host/common/clock_models.py:36-69 | A fit exists exactly for two or more points of non-negative uncertainty not all at one x. |
| `ClockModels.FitIsBest` | host/common/clock_models.py:36-95 | The estimate is the least-squares line in the points' own coordinates, and the only one: every other line misses them by a larger sum of weighted squares. |
| `ClockModels.MisfitIsMissed` | host/common/clock_models.py:48-78 | What is minimised is the sum of the squares of what the line misses, each over its uncertainty, which counts as at least one. |
| `ClockModels.RisingFit` | host/common/clock_models.py:36-95 | Rising points have a fit, and its slope is positive. |
| `ClockModels.ExactFit` | host/common/clock_models.py:36-95 | Points on a line give that line, with residual zero. |
| `ClockModels.FitBounds` | host/common/clock_models.py:79-94 | Residual and uncertainty of an estimate bound those of every point. |
| `ClockModels.FitAttains` | host/common/clock_models.py:79-94 | The residual is that of some point, and the uncertainty the residual or that of some point: neither is larger than needed. |
| `SampleClock.PredictionsKeepOrder` | host/common/clock_models.py:199-221 | Predicted times of later samples are later before rounding and not earlier after it. |
| `SampleClock.PushKeepsNewest` | host/common/clock_models.py:98-115 | The bounded queue keeps its newest points. |
| `SampleClock.SampleClockModel.constructor` | host/common/clock_models.py:98-115 | An empty clock satisfies the invariant. |
| `SampleClock.SampleClockModel.AddAnchor` | host/common/clock_models.py:132-197 | Through resets and evictions the points rise in both coordinates and the estimate is their least-squares line; an anchor is accepted exactly if it is usable and extends the points or repeats one; which point is added, and the state, in every case. |
| `SampleClock.SampleClockModel.PredictDeviceTime` | host/common/clock_models.py:199-221 | There is a prediction exactly with two points; up to the last anchor it has the clock's state and uncertainty, beyond it the uncertainty grows by the residual with each sample and the state is holdover exactly within the limit. |
| `NodeHostClock.MidpointError` | host/common/clock_models.py:233-249 | For a node without drift and any path delays the midpoint error is half the asymmetry, so at most half the round trip of section 8 of RFC 5905, and equal to it only if one way took no time. |
| `NodeHostClock.SortSorts` | host/common/clock_models.py:292-295 | The observations sorted by round trip: all of them, in order. |
| `NodeHostClock.SortKeepsTies` | host/common/clock_models.py:292-295 | Observations of equal round trip keep their order. |
| `NodeHostClock.CandidatesAreShortest` | host/common/clock_models.py:292-300 | The fit uses as many observations as the rule says, and no other has a shorter round trip. |
| `NodeHostClock.KeepIsLeast` | host/common/clock_models.py:296-300 | How many observations are fitted: the least number that is at least half of them and as many as a lock needs, or all. |
| `NodeHostClock.PointCovers` | host/common/clock_models.py:301-309 | Each fitted point is as uncertain as its midpoints may be wrong, and not more, for any offset for which both delays are possible. |
| `NodeHostClock.FitFailsIff` | host/common/clock_models.py:301-309 | The fit fails exactly if the candidates share one node midpoint. |
| `NodeHostClock.SameMomentFails` | host/common/clock_models.py:301-309 | One such pair of observations. |
| `NodeHostClock.SymmetricPathExact` | host/common/clock_models.py:301-309 | With equal delays both ways the fit finds rate and offset of the node exactly. |
| `NodeHostClock.NodeHostClockModel.Add` | host/common/clock_models.py:270-314 | Which observations are rejected, and that these leave all but the state; observations are always of one boot; the estimate is the fit of the shortest round trips; it raises exactly if these share a midpoint; locked exactly with the minimum count. |
| `ConfigMerge.IdentityKept` | host/common/system_config.py:9-17 | Merging two entries of one identity keeps it, so the index of positions stays right. |
| `ConfigMerge.SameEntryIff` | host/common/system_config.py:9-17 | Two entries are the same exactly if they are known by equal values: the name of a channel, a node that is a number, the id of a node, or its node_id if it has no id. |
| `ConfigMerge.OtherListsReplaced` | host/common/system_config.py:31-52 | Lists of other sections are replaced. |
| `ConfigMerge.MergeConfigData` | host/common/system_config.py:20-52 | The loops over keys and entries, with the index of positions, compute the merge of the specification, errors included. |
| `ConfigMerge.Idempotent` | host/common/system_config.py:20-52 | Merging an overlay of distinct, present identities a second time changes nothing and does not fail, whatever the base. |
| `ConfigMerge.IdempotentIff` | host/common/system_config.py:38-41 | Of the overlays without repeated identities, those that may be merged twice over every base are exactly those whose identities are all present. |
| `ConfigLayers.MergedListShape` | host/common/system_config.py:31-50 | Base entries keep their order, each merged with its counterpart; new ones follow in overlay order. |
| `ConfigLayers.MergeSound` | host/common/system_config.py:20-52 | Documents of distinct, present identities merge without error into such a document. |
| `ConfigLayers.CoversIff` | host/common/system_config.py:20-52 | The overlay alone results exactly if it says anew everything the base says, list entries in order. |
| `ConfigLayers.AssociativeIff` | host/common/system_config.py:20-52 | Three sound layers group either way if and only if they agree in kind where the outer two meet. |
| `ConfigFiles.LoadsIff` | host/common/system_config.py:55-83 | A file loads if and only if a chain of links without repetition ends in a file without one and its layers merge; the result is that merge. |
| `ConfigFiles.CircularIff` | host/common/system_config.py:62-64 | Loading reports a circle if and only if a chain of distinct files leads from the file back to one of them. |
| `ConfigFiles.LoadedHasNoLink` | host/common/system_config.py:70-83 | What is loaded is an object without `extends`. |
| `ConfigFiles.OverIsObject` | host/common/system_config.py:80-82 | Merging an object over an object gives an object, so the final check never fires. |
| `ConfigFiles.LayeredIsStack` | host/common/system_config.py:70-83 | What loading a chain of sound layers merges is their stack from the root up. |
| `ConfigFiles.LoadRegroups` | host/common/system_config.py:70-83 | Loading a chain of any length whose layers agree gives the root merged with the stack of all the others. |
| `ConfigFiles.SandwichBreaksGrouping` | host/common/system_config.py:20-52 | A family of layers of other kinds in the middle for which grouping matters. |
| `ConfigFiles.NamelessNotIdempotent` | host/common/system_config.py:38-41 | An overlay that can be merged once but not twice. |
| `Upload.UploadImage` | host/host_bootloader.py:1025-1053 | The loop terminates with the planned chunks. |
| `Upload.PlanIsContiguous` | host/host_bootloader.py:1025-1053 | Chunks follow each other without gap or overlap, page-aligned and within the packet limit. |
| `Upload.PlanCarriesImage` | host/host_bootloader.py:1029-1034 | They carry every byte of the image once, in order. |
| `Upload.WholePagesArrive` | host/host_bootloader.py:379-382 | With whole pages per chunk the flash holds the image, fill up to the page end, and is otherwise unchanged. |
| `Upload.ArrivesIff` | host/host_bootloader.py:1025-1053 | Every image arrives intact if and only if the chunk size is a multiple of the page. |
| `FifoPolicy.DeadlineIff` | node/acquisition/fifo_service_policy.h:26-54 | For every rate and watermark of 32 bits, wrap-around included, the interval is at least 1 ms, and the FIFO cannot overflow within it if and only if the rate is at most 32 kHz. |
| `FifoPolicy.Slack` | node/acquisition/fifo_service_policy.h:31-54 | Up to 32 kHz nothing wraps around, and more than 1 ms is left whenever the FIFO takes more than 2 ms to fill. |
| `FifoPolicy.IntervalIs` | node/acquisition/fifo_service_policy.h:31-54 | Up to 32 kHz the interval is a quarter more than the milliseconds to the watermark, and one, but no later than two before the FIFO is full; the rate 0 stands for 250 Hz, the watermark is kept within 3 and 96. |
| `FifoPolicy.WatermarkFirst` | node/acquisition/fifo_service_policy.h:31-54 | The read comes after the time to reach the watermark, unless the FIFO is then within two milliseconds of being full or the interval is the shortest one. |

## Left out

- HDF5 datasets, fsync, rename, quarantine sidecars and SHA-256 manifests: a file is what a flush has made durable; publishing a window is one step.
- Partial effects of a storage error inside one file: a crash happens at a flush; a failing call of the windowed writer keeps whole groups, and the protocol's `StorageFailure` any of the new samples.
- How recovery finds partial windows and decides between resuming, publishing and quarantine: each partial window may have any of these fates. The window length is the same in all sessions.
- Temperature and clock-sync rows and the lists the windowed writer keeps for them: they are copied, and nothing modelled depends on them. Which of the open files a gap row goes to, and the order of gap rows in the Archive.
- Block columns that are only copied (timing format, timestamp source, sample period, fit residual).
- The order in which compaction sorts its sources, and its checks of day, sensor identity and board revision: the model takes the sources in their final order.
- Serial port, time-outs, sleeps and wall clock: a time-out is a loss. `wait_for_response` and `collect_burst_packets` drop frames, so bursts are any sequence of packets.
- Grant requests and the counters of failed and empty polls: they do not touch what is stored or committed.
- Floating-point rounding: window starts use exact integers rounded to microseconds (`AnyConversion` bounds what another conversion may do), fits exact reals. NaN and infinite observations do not occur over reals.
- `ConfigMerge.MergeConfigData`: JSON objects are maps, so the order of their keys is not modelled, and NaN is not a value; all errors of a merge are one.
- `ConfigMerge.IdempotentIff`: only for overlays without repeated identities; some with repetitions are idempotent as well, for instance where the entries are equal.
- `ConfigFiles.LoadsIff`: paths are opaque, their resolution is a parameter, and blank means blank in ASCII.
- `BurstProtocol.RunSafe`: assumes that a node never confirms more than the larger of its previous commit and the number in the commit request it was sent.
- `ArchiveMeaning.ArchiveQuality`: for samples whose times are since the epoch; blocks across it are the case of `RoutedBlockUtc`.
- `ArchiveBuild.Build`: times must ascend over all candidates for guaranteed success, while the validator looks at the kept ones only; `RowsValidIff` gives the exact condition on the result.
- `UtcCorrelationModel`, prediction in `NodeHostClockModel`, versioned status and configuration parsers, dashboards, supervisor, console and node firmware other than the FIFO policy.
