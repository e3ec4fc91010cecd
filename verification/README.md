# Data path of Readout

A model, in Dafny, of the path of the data through Readout: pages come from memory pools, are grouped in timeframes (TF), cut
in heartbeat frames (HBF) at the changes of orbit in the packet headers (RDH), formatted by worker threads and sent in order;
other consumers process the pages in parallel or record them, and a player replays recorded files.

| module | component |
|---|---|
| Rdh, Packets, Runs, HeartbeatFrames, Sequences, Options, Arithmetic, DataBlocks | packet headers and bytes, packets, maximal runs, frames |
| HbfFormatter, DDMessage, HbfCompleteness, PackedCopy | formatting of a data set in `ConsumerFMQchannel` |
| StfDecoder, HbfAgreement | the independent split of `ReadoutStfDecoder`, and why both agree |
| FmqLedger | accounts of the pages lent to FMQ |
| WorkerProtocol, TimeframeDispatch, EndToEnd | dispatcher, worker threads, sender, receiver check |
| Slicer, StfBuffer, Aggregator | slices, timeframe building |
| OrderedPipeline | parallel processing of `ConsumerDataProcessor` |
| Recorder, Player, Timeframes | recording, replay, timeframe arithmetic |
| RateRegulation | `RateRegulator` |
| PagesPool, BankManager, PageContainers | memory banks, page pools, page ownership |

Objects whose methods update their fields are classes, whose methods are proved against functions on values; threads are
state machines whose runs are sequences of steps, of any thread, in any order. Fields named `ghost` are histories used to
state what happened over a whole run. FIFOs are bounded sequences; a push whose result the code ignores may fail in the model
as it may in the code.

Where code and documentation differ the code is followed, and where a property fails its exact condition is proved:

- `MemoryPagesPool` documents a base size of zero as "large enough", but the constructor refuses it (MemoryPagesPool.cxx:41-49).
- The range test on orbits is not exact for every period: a timeframe cut by the end of the 32-bit orbit counter, and a period
  of one orbit, let orbits of other timeframes pass. `Timeframes.WhenTestIsExact` gives the exact condition.
- When the alignment of a block loses more than the block, its size wraps around and the check against the size of the bank
  still passes. `BankManager.WhenServedIsSound` gives the exact condition, `BankManager.AlignmentCanLoseTheBlock` an example.
- Releasing a page twice is not detected. `PagesPool.MemoryPagesPool.ReleasePage` says exactly when the pool stays sound.
- The receiver may see a timeframe change without its end, when the last data set could not be formatted:
  `EndToEnd.ReceiverCanWarn` gives such a run, and `EndToEnd.WarningsOfRun` says for all runs exactly when it warns.

## Model

| member | source | states |
|---|---|---|
| `Rdh.FieldsAreRead` | src/RAWDataHeader.h:372-505 | wherever the sixteen words of a header lie in a page, the fields are read back with their widths and places in the words, and the check accepts exactly versions 5 to 7, 64 bytes, links below 32 and offsets to the next packet of 0 or at least 64 |
| `HeartbeatFrames.ChunksConserveBytes` | src/ConsumerFMQchannel.cxx:1175-1213 | for any pages, header by header or not at all readable, the pieces that the second pass cuts are non-empty and their concatenation is the payload of the pages |
| `HeartbeatFrames.FramesConserveBytes` | src/ConsumerFMQchannel.cxx:1175-1213 | frames built from the pieces lose and repeat no byte, and none is empty |
| `HeartbeatFrames.FramesAreMaximalRuns` | src/ConsumerFMQchannel.cxx:1184-1198 | frames are the byte strings of the maximal runs of pieces with one orbit, across pages, whichever way these runs are described |
| `HbfFormatter.HbfFormatter.PendingFramesAppend` | src/ConsumerFMQchannel.cxx:1023-1035 | a piece is queued as a reference into its page, and adds its bytes to the frame being collected |
| `HbfFormatter.HbfFormatter.SendInPlace` | src/ConsumerFMQchannel.cxx:1045-1072 | a frame in one piece is sent from its page without copy, with the bytes of the pending frame |
| `HbfFormatter.HbfFormatter.SendRepacked` | src/ConsumerFMQchannel.cxx:1075-1171 | a frame in several pieces is copied in one block, exactly when there is room for it; the block holds its bytes and the parts sent before keep theirs; on failure nothing is added |
| `HbfFormatter.HbfFormatter.PendingFramesCollect` | src/ConsumerFMQchannel.cxx:1037-1173 | collecting sends the pending frame as one part, or nothing if there is none, and fails exactly when a copy is needed and there is no room for it |
| `HbfFormatter.HbfFormatter.FormatPage` | src/ConsumerFMQchannel.cxx:1175-1210 | after each page the parts sent and the frame pending are the frames of all pages so far |
| `HbfFormatter.HbfFormatter.Format` | src/ConsumerFMQchannel.cxx:1175-1230 | formatting succeeds exactly when there is room to copy, one after the other, the frames which lie in several pages; the parts, read from memory in the end, are then exactly the frames of the pages, no two copies overlap, blocks given before are not written over, and the sizes add up to the payload; packed copies come one behind the other, a new page being taken only for one which does not fit behind the last; on failure no part is left |
| `HbfFormatter.PagesAreEnough` | src/ConsumerFMQchannel.cxx:1084-1126 | there is room for the copies whenever there are as many free pages as frames and each frame, with the header of a block when copies are packed, fits in a page |
| `HbfFormatter.CopiesNeedPlaces` | src/ConsumerFMQchannel.cxx:1094-1126 | there is room for the copies if and only if each has a place: packed copies one behind the other, each behind a block header, in the pages which there are; other copies in a page each |
| `HbfFormatter.OnePageIsEnough` | src/ConsumerFMQchannel.cxx:1094-1114 | one page is enough for packed copies which, with a block header each, add up to no more than a page, and what they leave of it is what is left |
| `HbfFormatter.BlocksAreApart` | src/ConsumerFMQchannel.cxx:1094-1171 | blocks given one after the other are apart, so no copy overlaps another one |
| `HbfFormatter.MessageIsHbfSplit` | src/ConsumerFMQchannel.cxx:1175-1213 | parts of a formatted message concatenate to the payload, none is empty, and they are the maximal runs of one orbit |
| `DDMessage.FirstPass` | src/ConsumerFMQchannel.cxx:885-902 | the header takes its identifiers from the first block, in 32 bits, and the flag of the last message when any block ends the timeframe; payload and memory sizes are the sums over the pages |
| `DDMessage.SecondPass` | src/ConsumerFMQchannel.cxx:1175-1230 | the parts behind the header, when there is room for the copies and only then, with the bytes sent and the size of the pages taken; packed copies leave no page which has room for the next one |
| `DDMessage.DDFormatMessage` | src/ConsumerFMQchannel.cxx:802-1232 | one data set gives one message whose parts are its heartbeat frames, whose announced and actual sizes agree, and whose memory size counts its pages and those taken from the pool; its blocks are apart from each other and from those of all messages before, which keep their bytes, and packed copies are on different pages only if they do not fit on one; each way of failing happens exactly in its case |
| `StfDecoder.StfDecoder.PendingHbfCollect` | src/receiverFMQ.cxx:97-138 | the last part joins the pending frame; at the end of a frame the parts become one frame, copied if there are several |
| `StfDecoder.StfDecoder.DecodePage` | src/receiverFMQ.cxx:152-194 | a page is accepted exactly when all its headers are valid with non-zero offsets, and extends the frames and the open frame by its packets |
| `StfDecoder.StfDecoder.Decode` | src/receiverFMQ.cxx:81-201 | the decoder accepts exactly pages of valid packets and then yields their frames; all its parts lie inside the pages exactly when every page is exactly tiled |
| `HbfAgreement.ChunksArePackets` | src/ConsumerFMQchannel.cxx:1175-1213 | on exactly tiled pages the pieces of the formatter are the packets |
| `HbfAgreement.FramesIgnorePageCuts` | src/ConsumerFMQchannel.cxx:1175-1213 | the frames depend on the bytes only, not on where pages are cut |
| `HbfAgreement.SenderAndReceiverAgree` | src/receiverFMQ.cxx:81-201 | the frames sent by the formatter and the frames decoded from the raw pages, cut in pages in any way, are the same byte strings, and are the maximal runs of packets of one orbit |
| `HbfAgreement.SplitIsStable` | src/receiverFMQ.cxx:81-201 | splitting the frames again gives the same frames |
| `HbfAgreement.RestOfPage` | src/ConsumerFMQchannel.cxx:1175-1210 | behind the packets of a page, what is left is one more piece: of the orbit of its own header when it has one and no offset leads on from it, and else of the orbit before it |
| `HbfCompleteness.HbfChecker.CheckHead` | src/ConsumerFMQchannel.cxx:930-982 | after each header the counters describe the run of one orbit in progress and the count of incomplete runs before it |
| `HbfCompleteness.HbfChecker.CheckLastHB` | src/ConsumerFMQchannel.cxx:859-888 | a run is counted when its counters show a step other than one, a number of stop bits other than one, or no stop bit at the end |
| `HbfCompleteness.HbfChecker.CheckPages` | src/ConsumerFMQchannel.cxx:846-984 | the single pass returns the number of incomplete runs over all pages |
| `HbfCompleteness.IncompleteRuns` | src/ConsumerFMQchannel.cxx:846-984 | this number is the cardinality of the incomplete runs in any cut of the headers in maximal runs of one orbit |
| `HbfCompleteness.WhenComplete` | src/ConsumerFMQchannel.cxx:859-888 | a run is complete if and only if the page counter goes up by one with each packet, and the stop bit is 1 in the last packet and 0 in all others |
| `HbfCompleteness.HeadsArePackets` | src/ConsumerFMQchannel.cxx:930-982 | in a page filled by packets the headers read are those of its packets, in order |
| `PackedCopy.ParentBlock.GetChildBlock` | src/DataBlockContainer.h:76-104 | a child is given exactly when its rounded size fits in what is left, behind all previous children; children stay disjoint and in the payload of the parent |
| `PackedCopy.CopyAllocator.SubAllocate` | src/DataBlockContainer.h:76-104 | a block is given exactly when it fits in what is left of the open page, and its header is written over no other block |
| `PackedCopy.WriteInBlock` | src/ConsumerFMQchannel.cxx:1143-1152 | copying a piece in a block leaves the pieces before it in the block, and all other blocks, as they were |
| `PackedCopy.CopyAllocator.GetCopyBlock` | src/ConsumerFMQchannel.cxx:1094-1126 | the loop of three rounds finds a block exactly when the open page or a new page has room, leaves room as much as is left behind it, keeps one page more at most, whether or not it finds a block, and keeps everything given out disjoint and unwritten; a packed block comes right behind the last one if that page has room for it, and else at the top of another page |
| `PageContainers.Containers.DropReference` | src/MemoryPagesPool.cxx:299-312 | the page goes back to the pool when, and only when, neither a reference nor a child is left |
| `PageContainers.Containers.DropChild` | src/DataBlockContainer.h:97-103 | a child keeps its page: the page goes back with the last child if no reference is left |
| `PageContainers.Containers.NewContainer` | src/MemoryPagesPool.cxx:250-316 | a new container gets a page which no container alive holds |
| `FmqLedger.InitBalanced` | src/ConsumerFMQchannel.cxx:68-81 | setting a page up keeps the accounts balanced exactly when FMQ holds no hint to it |
| `FmqLedger.IncBalanced` | src/ConsumerFMQchannel.cxx:83-114 | lending a block keeps reference counts and totals right |
| `FmqLedger.DecBalanced` | src/ConsumerFMQchannel.cxx:116-147 | an acknowledgement keeps reference counts and totals right |
| `FmqLedger.RunBalanced` | src/ConsumerFMQchannel.cxx:68-147 | in any legal run a page's count is the number of hints held to it and its children, and the three counters are the totals over the pages lent |
| `FmqLedger.CountersRestored` | src/ConsumerFMQchannel.cxx:1215-1227 | when all hints to some pages are given back the counters return to what they were before, also when a message is given up |
| `FmqLedger.NothingPending` | src/ConsumerFMQchannel.cxx:116-147 | with no hint held nothing is pending |
| `FmqLedger.MessagePending` | src/ConsumerFMQchannel.cxx:1001-1163 | sending a message makes exactly the bytes of its parts pending and lends one hint per part |
| `FmqLedger.PageInUse` | src/ConsumerFMQchannel.cxx:68-147 | in any run, from its set-up on and until its last hint is acknowledged, a page is accounted for with the memory size given there, all bytes sent since then and the hints not acknowledged, whatever happens to other pages |
| `FmqLedger.PageIsPending` | src/ConsumerFMQchannel.cxx:83-114 | in that time the page adds to what is pending itself and its memory, from the first hint on and once, and all bytes sent from it |
| `FmqLedger.LastAck` | src/ConsumerFMQchannel.cxx:116-147 | its last acknowledgement takes exactly this away, counts one page released, and closes the page |
| `FmqLedger.FmqAccounts.InitDataBlockStats` | src/ConsumerFMQchannel.cxx:68-81 | a page is set up with nothing lent; a child block is not |
| `FmqLedger.FmqAccounts.IncDataBlockStats` | src/ConsumerFMQchannel.cxx:83-114 | the update of the page and of the counters is the accounting step above |
| `FmqLedger.FmqAccounts.DecDataBlockStats` | src/ConsumerFMQchannel.cxx:116-147 | the update of the page and of the counters is the accounting step above, the page being closed with its last reference |
| `WorkerProtocol.StepKeeps` | src/ConsumerFMQchannel.cxx:634-797 | every step of the dispatcher, of a thread or of the sender keeps the place of each timeframe in the pipeline of its thread |
| `WorkerProtocol.SentInDispatchOrder` | src/ConsumerFMQchannel.cxx:634-797 | in every interleaving the k-th item that the sender takes is the result of the k-th timeframe dispatched: a filler exactly if the timeframe is empty or its thread gave it up, and else the messages of the data sets which could be formatted |
| `WorkerProtocol.MadeAt` | src/ConsumerFMQchannel.cxx:690-707 | these messages are one for each data set formatted, each at its place, and no other |
| `WorkerProtocol.OutcomesAreSteps` | src/ConsumerFMQchannel.cxx:676-707 | what comes of a timeframe is decided once, in a step of the thread which formats it, and it is given up only by a step of giving up |
| `WorkerProtocol.FillersAreGivenUp` | src/ConsumerFMQchannel.cxx:676-707 | in a run without a step of giving up, the item sent of a timeframe is a filler if and only if the timeframe is empty |
| `WorkerProtocol.AllIsSent` | src/ConsumerFMQchannel.cxx:634-797 | when no thread gave up and all data sets were formatted, every timeframe which is not empty is sent complete |
| `WorkerProtocol.PushesNeverFail` | src/ConsumerFMQchannel.cxx:641-720 | a thread owes at most one item, and every push of a thread finds a free slot |
| `WorkerProtocol.WorkNeverGrows` | src/ConsumerFMQchannel.cxx:634-797 | without new timeframes the work left never grows |
| `WorkerProtocol.EveryThreadCanWork` | src/ConsumerFMQchannel.cxx:676-720 | a thread with something to do and room for the result has a step which makes the work left smaller, and one which formats can send all its messages |
| `WorkerProtocol.SomeoneCanWork` | src/ConsumerFMQchannel.cxx:634-797 | while a dispatched timeframe was not sent some step makes the work left smaller: no deadlock |
| `OrderedPipeline.ForwardedInOrder` | src/ConsumerDataProcessor.cxx:246-359 | with page order ensured, in every interleaving what was forwarded are the results of the first accepted pages, in order |
| `OrderedPipeline.TagsAreNeverLost` | src/ConsumerDataProcessor.cxx:274-298 | the tag FIFO holds exactly the accepted pages not forwarded, so the unchecked push of a tag never fails |
| `OrderedPipeline.StepsUseUpWork` | src/ConsumerDataProcessor.cxx:82-115 | each step other than accepting a page uses up work |
| `OrderedPipeline.OldestPageCanMove` | src/ConsumerDataProcessor.cxx:82-115 | if every page gives a result, the oldest page not forwarded is at the head of its thread and can move: no deadlock |
| `OrderedPipeline.CollectNeedsResult` | src/ConsumerDataProcessor.cxx:338-359 | the collector passes the oldest page only if it gave a result |
| `OrderedPipeline.AcceptedWithRoom` | src/ConsumerDataProcessor.cxx:200-263 | in any run where every page gives a result, there are as many tags as pages in the FIFOs of the threads and at work, and a thread takes a page if and only if it has room in its input: the tag FIFO never refuses one |
| `OrderedPipeline.ConsumerDataProcessor.PushData` | src/ConsumerDataProcessor.cxx:246-307 | a page is accepted exactly when a thread has room and less than twice the size of a FIFO for each thread are on their way, and, if all pages give results, exactly when a thread has room; it goes to the first thread with room in turn behind the one which got the last page, and is counted as dropped otherwise |
| `OrderedPipeline.ConsumerDataProcessor.ThreadTake` | src/ConsumerDataProcessor.cxx:82-115 | a thread takes a page exactly when it has one and room for its result |
| `OrderedPipeline.ConsumerDataProcessor.LoopOutput` | src/ConsumerDataProcessor.cxx:310-383 | the collector forwards the result of the oldest tag exactly when it is at the output of some thread |
| `Slicer.DataBlockSlicer.AppendBlock` | src/DataBlockAggregator.cxx:280-319 | a block with a wrong link is refused; another goes in the slice of its source, or opens one, the previous one becoming complete; the size of the slice is returned |
| `Slicer.DataBlockSlicer.GetSlice` | src/DataBlockAggregator.cxx:321-343 | the oldest complete slice; without one, the first slice being built when asked for |
| `Slicer.DataBlockSlicer.CompleteSliceOnTimeout` | src/DataBlockAggregator.cxx:345-359 | exactly the slices not updated since the given time become complete, in the order of sources |
| `Slicer.SourceIsPreserved` | src/DataBlockAggregator.cxx:280-359 | over any calls, delivered, queued and partial slices of a source are its accepted blocks in order, and the maximal runs of one timeframe if none was given up early |
| `Slicer.SliceHasOneTimeframe` | src/DataBlockAggregator.cxx:298-306 | a slice is of one link, one equipment and one timeframe, and a single block if that is undefined |
| `StfBuffer.HoldKeeps` | src/DataBlockAggregator.cxx:188-193 | a slice held keeps the account of every timeframe |
| `StfBuffer.DiscardKeeps` | src/DataBlockAggregator.cxx:184-187 | a slice discarded as late keeps the account of every timeframe |
| `StfBuffer.EmitKeeps` | src/DataBlockAggregator.cxx:217-256 | sending the oldest timeframe keeps the account of every timeframe |
| `StfBuffer.MarkedOnce` | src/DataBlockAggregator.cxx:224-233 | in a timeframe as sent, all blocks are of it, and the flag is on its last block and on no other |
| `StfBuffer.StreamHasBlocks` | src/DataBlockAggregator.cxx:217-233 | sending changes nothing but the end flags: slice by slice, the data sets sent have all blocks of the slices held, in order |
| `Aggregator.DataBlockAggregator.Receive` | src/ReadoutEquipment.cxx:567-567 | a page which comes in joins its input, and the account of blocks and slices holds on |
| `Aggregator.DataBlockAggregator.FillSlicer` | src/DataBlockAggregator.cxx:145-157 | up to 1024 blocks go from an input to its slicer, in order; the round fails exactly when one of them is refused |
| `Aggregator.DataBlockAggregator.KeepSlice` | src/DataBlockAggregator.cxx:178-203 | a slice is held for its timeframe, discarded when a timeframe as late was sent, or sent as it is without timeframe building |
| `Aggregator.DataBlockAggregator.RetrieveSlices` | src/DataBlockAggregator.cxx:165-207 | slices are taken until none is left, 1024 are taken, or the output is full |
| `Aggregator.DataBlockAggregator.ExecuteInput` | src/DataBlockAggregator.cxx:144-207 | an input is served as above, and with a timeout no slice is left in its slicer which was not updated for that time; but on a flush, only such slices are given up before they are complete |
| `Aggregator.DataBlockAggregator.BuildStfs` | src/DataBlockAggregator.cxx:213-261 | the oldest timeframes are sent up to the first not complete; the output gets what it has room for, which is, block by block, the slices held for them, whole and in order |
| `Aggregator.OldTimeframesAreSent` | src/DataBlockAggregator.cxx:188-215 | the timeframes sent are those whose latest slice is as old as the timeout, up to the first whose latest slice is not, or all of them on a flush |
| `Aggregator.DataBlockAggregator.ExecuteCallback` | src/DataBlockAggregator.cxx:92-274 | a round keeps every block in an input or accepted by a slicer, but the first one with a wrong link, which ends it as the only block lost; otherwise it serves all inputs and leaves no complete timeframe at the head; it ends a flush only when nothing is left |
| `Aggregator.TimeframesAreSentInOrder` | src/DataBlockAggregator.cxx:213-261 | timeframes are sent with strictly increasing identifiers, each in a row with one end flag, and all those held are later |
| `Aggregator.SlicesAreSentWhole` | src/DataBlockAggregator.cxx:217-240 | over a run, what the output took is, but for the end flags, the slices of the timeframes sent: no block of them is lost, repeated, changed or moved |
| `Aggregator.SlicesAreAccountedFor` | src/DataBlockAggregator.cxx:179-194 | each slice taken from a slicer is sent, held or discarded, once, in the order of its timeframe |
| `Aggregator.FlushLeavesNothing` | src/DataBlockAggregator.cxx:263-268 | after a flush each accepted block is in a slice which was sent or discarded with its timeframe |
| `TimeframeDispatch.TimeframeDispatcher.PushCurrentTimeframe` | src/ConsumerFMQchannel.cxx:1295-1315 | the buffered timeframe goes to the thread in turn, or stays when its FIFO is full, which is an error |
| `TimeframeDispatch.TimeframeDispatcher.ProcessForDataDistribution` | src/ConsumerFMQchannel.cxx:1266-1361 | the new state of the dispatcher, -1 exactly for a data set of two timeframes or without a buffer to go to, and one error counted for each attempt which found the FIFO full |
| `TimeframeDispatch.WholeTimeframesAreDispatched` | src/ConsumerFMQchannel.cxx:1295-1355 | for a stream of complete timeframes, whatever FIFOs are full, no data set is refused and the timeframes dispatched are whole, each at most once, in order; a timeframe is dispatched if and only if there was room when its last data set came, or when the first one of the next timeframe came |
| `TimeframeDispatch.AllTimeframesAreDispatched` | src/ConsumerFMQchannel.cxx:1295-1355 | if no FIFO is full all timeframes are dispatched |
| `EndToEnd.CheckMessages` | src/receiverFMQ.cxx:387-400 | the receiver counts a warning for each change of timeframe after a message without the end flag |
| `EndToEnd.WarningsAreMissingEnds` | src/receiverFMQ.cxx:387-400 | it warns exactly once for each timeframe sent after one whose last data set was not sent, if their identifiers differ in 32 bits and that of the one before is not the undefined one |
| `EndToEnd.WarningsOfRun` | src/ConsumerFMQchannel.cxx:1263-1361 | in any run from the aggregator through the dispatcher, the threads and the sender, whatever could not be formatted, timeframes are dispatched whole, once and in order, and the number of warnings is the one above |
| `EndToEnd.ReceiverCanWarn` | src/ConsumerFMQchannel.cxx:634-797 | a run in which the last data set of a timeframe is not formatted, another timeframe follows, and the receiver warns once |
| `EndToEnd.NoTimeframeWithoutEnd` | src/ConsumerFMQchannel.cxx:1263-1361 | from the aggregator through the dispatcher, the threads and the sender, with whole timeframes dropped anywhere, the receiver never warns |
| `Recorder.AfterIsFiltered` | src/ConsumerFileRecorder.cxx:590-631 | the look-ahead of one packet computes the recursive filter which removes adjacent pairs of an empty start and an empty stop |
| `Recorder.NothingEssentialIsDropped` | src/ConsumerFileRecorder.cxx:531-543 | no packet with a payload, and none with a trigger bit of the mask, is ever removed by the filter or moved among them |
| `Recorder.FirstEmptyFrame` | src/ConsumerFileRecorder.cxx:531-543 | the first two packets in a row without payload and without such a trigger, of which one has page counter 0 and the next the stop bit, are removed; what is before them is kept and what is behind is filtered on its own |
| `Recorder.NothingIsDropped` | src/ConsumerFileRecorder.cxx:531-543 | without such a pair every packet is kept |
| `Recorder.ConsumerFileRecorder.RecordPacket` | src/ConsumerFileRecorder.cxx:590-631 | a packet is skipped with the one kept aside, kept aside, or written after it; at the end of a page it is kept as a copy |
| `Recorder.ConsumerFileRecorder.PushData` | src/ConsumerFileRecorder.cxx:550-645 | the state of every link is what its pages make of it, no packet kept aside refers to a page, and recorded, dropped, kept and lost packets add up to those seen |
| `Recorder.RecordedIsFiltered` | src/ConsumerFileRecorder.cxx:568-640 | for a link without invalid header, packets written and the one kept aside are the filtered packets of the link |
| `Recorder.InvalidHeaderLosesOne` | src/ConsumerFileRecorder.cxx:576-588 | a page with an invalid header is recorded up to it, but for at most its last packet, which is lost when it opens an empty frame |
| `Recorder.PacketsEnd` | src/ConsumerFileRecorder.cxx:571-588 | the packets recorded of a page are its bytes up to the end or to the first invalid header, cut in valid packets |
| `Recorder.PageCutsDoNotMatter` | src/ConsumerFileRecorder.cxx:568-640 | runs which get the same data of a link, cut differently and mixed differently with other links, record the same |
| `Player.ReadoutEquipmentPlayer.IncrementHbOrbit` | src/RdhUtils.h:53-53 | only the orbit word of the header changes, by the offset modulo 2^32 |
| `Player.ShiftedPacket` | src/RdhUtils.h:53-53 | a moved packet is a packet of the same length, with its orbit moved modulo 2^32 and all other bytes as they were |
| `Player.ReadoutEquipmentPlayer.ScanHeader` | src/ReadoutEquipmentPlayer.cxx:262-289 | a header is updated once, and its timeframe is that of its moved orbit |
| `Player.ReadoutEquipmentPlayer.ScanPage` | src/ReadoutEquipmentPlayer.cxx:256-313 | the page ends before the first packet of another link, equipment or timeframe, or which is not whole; its packets are those of the file, each replayed once |
| `Player.ReadoutEquipmentPlayer.FillPage` | src/ReadoutEquipmentPlayer.cxx:229-332 | a page is the longest run of whole packets of one header from the offset on; there is none exactly after an invalid header or when no packet is whole |
| `Player.ReadoutEquipmentPlayer.GetNextBlock` | src/ReadoutEquipmentPlayer.cxx:199-356 | a call sends the next page, rewinds at the end of the file, or stops the replay |
| `Player.ReadoutEquipmentPlayer.ReplayOnce` | src/ReadoutEquipmentPlayer.cxx:224-344 | a replay of a file of packets which fit in pages ends, and its pages hold the file once, every orbit moved once; a page ends only before a packet of another header, or one which does not fit in it |
| `Player.ReadoutEquipmentPlayer.ReplayFile` | src/ReadoutEquipmentPlayer.cxx:236-250 | of the first n replays, for any n, those configured are made, all of them when the file is replayed without end; the pages of the k-th one hold the file once, with the offset which follows k replays |
| `Player.LoopsFollowEachOther` | src/ReadoutEquipmentPlayer.cxx:248-281 | a packet of the k-th replay has its first timeframe plus k times the timeframe of the last packet, which is the length of the file if no packet has a later timeframe, exactly as long as its orbit does not go round |
| `Player.NoGapBetweenLoops` | src/ReadoutEquipmentPlayer.cxx:248-248 | the first timeframe of a replay is the one after that of the last packet of the replay before |
| `Timeframes.ReadoutEquipment.GetTimeframeFromOrbit` | src/ReadoutEquipment.cxx:679-704 | the first orbit is kept, and timeframes count periods from it modulo 2^32, from one |
| `Timeframes.ReadoutEquipment.GetTimeframeOrbitRange` | src/ReadoutEquipment.cxx:706-716 | the first orbit of the range is in the timeframe, the last one exactly if the end of the counter does not cut the timeframe, and then the orbits of the timeframe are exactly those from the first to the last |
| `Timeframes.ReadoutEquipment.TagDatablock` | src/ReadoutEquipment.cxx:720-778 | the page has the timeframe of its first header and the range of it, without the offset of the page |
| `Timeframes.ReadoutEquipment.CheckPage` | src/ReadoutEquipment.cxx:987-998 | with a period which divides 2^32 a page is checked up to the first header of another timeframe |
| `Timeframes.WhenTestIsExact` | src/ReadoutEquipment.cxx:987-998 | the range test recognizes exactly the orbits of the timeframe if and only if the period is at least two and the timeframe is not cut by the end of the counter |
| `Timeframes.NoCutTimeframe` | src/ReadoutEquipment.cxx:702-715 | no timeframe is cut if and only if the period divides 2^32 |
| `Timeframes.CutTimeframe` | src/ReadoutEquipment.cxx:987-998 | for a cut timeframe the test accepts the first orbit of the run, which is in another timeframe |
| `RateRegulation.RateRegulator.Next` | src/RateRegulator.h:50-63 | an item is accepted exactly from the next time on; surely after as many periods as items before it, and surely not a slack earlier |
| `RateRegulation.RateRegulator.UpdateTimeNext` | src/RateRegulator.h:76-87 | the next time is the full computation, or the one before plus a truncated period |
| `RateRegulation.DriftBound` | src/RateRegulator.h:76-87 | in any run the next time is the time at which the rate allows the n items accepted, or less than max(1, rate) microseconds before it |
| `RateRegulation.RateBound` | src/RateRegulator.h:50-87 | the items accepted up to a time are at most one more than the rate times the time elapsed and max(1, rate) microseconds |
| `PagesPool.PagesAreInBlock` | src/MemoryPagesPool.cxx:52-78 | the pages of a pool lie in its block, behind the offset of the first page |
| `PagesPool.WhenPoolIsMade` | src/MemoryPagesPool.cxx:41-61 | a pool is made if and only if the page size and the number of pages are positive and the first page offset is inside the block, also when not all pages fit |
| `PagesPool.CountIsMost` | src/MemoryPagesPool.cxx:51-61 | a pool has the pages asked for if and only if they fit, and else as many as fit: one more would not |
| `PagesPool.MemoryPagesPool.IsPageValid` | src/MemoryPagesPool.cxx:322-334 | the check accepts exactly the addresses of pages |
| `PagesPool.MemoryPagesPool.GetPageIndexFromPagePtr` | src/MemoryPagesPool.cxx:419-429 | the index of a page from its address, and nothing for another address |
| `PagesPool.MemoryPagesPool.GetPage` | src/MemoryPagesPool.cxx:172-209 | the oldest free page, which nobody has; every page remains free once or handed out |
| `PagesPool.MemoryPagesPool.ReleasePage` | src/MemoryPagesPool.cxx:211-242 | a page handed out becomes free and the push has room; the pool stays sound exactly if the page was handed out, or all were free |
| `BankManager.PagesAreDisjoint` | src/MemoryBankManager.cxx:105-143 | no two pages of the pools of a manager overlap, and each is in its bank |
| `BankManager.BlockIsSound` | src/MemoryBankManager.cxx:105-143 | a new block is aligned, and in the bank behind the others exactly when the alignment does not lose more than the block |
| `BankManager.AlignmentCanLoseTheBlock` | src/MemoryBankManager.cxx:125-132 | an example where the alignment loses more than the block, and the range reserved is not in the bank |
| `BankManager.WhenServedIsSound` | src/MemoryBankManager.cxx:105-212 | a request keeps all pages apart exactly when the alignment does not lose more than the block; the count is the one asked for exactly when alignment loss and first offset fit in one page; a pool is made exactly when the bank has room and the request asks for pages behind the offset, with the largest count up to the one asked for which fits in the range |
| `BankManager.MemoryBankManager.GetPagedPool` | src/MemoryBankManager.cxx:61-231 | the outcome of a request, its pool with the largest count which fits, and the range reserved; the manager stays sound exactly in the case above |

## Left out

- FairMQ, ZMQ, RDMA, TCP, databases, card access, NUMA, logging, monitoring and configuration: FMQ is what takes hints and acknowledges each of them once, files are byte sequences.
- Threads: a loop round up to a change of shared state is one step. In `ConsumerDataProcessor` the push of a page and of its tag (lines 274-298) is one step.
- Restart across runs: one run from an empty state; draining FIFOs at stop is not part of this model.
- OrderedPipeline.OldestPageCanMove: assumes that every page gives a result, as a page without one blocks the collector (`OrderedPipeline.CollectNeedsResult`).
- Aggregator.TimeframesAreSentInOrder: the order of the data sets which the output took is stated when no push was refused; what a push in a full output does is stated by `Aggregator.DataBlockAggregator.BuildStfs`.
- Aggregator with `disableSlicing`: pages pass through one by one, which adds an easy case only.
- Single-threaded formatting (`nwThreads` of 0) and the raw page format: each data set is formatted and sent at once.
- DDMessage.DDFormatMessage: pages which go back to the pool while a message is formatted, and those of a message which was given up, are not put back in the model; `PageContainers` states when a page goes back.
- The heap reference to the header page when incomplete frames are dropped (ConsumerFMQchannel.cxx:822, 991): it is given to no message.
- FmqLedger.RunBalanced: a page set up again while it is lent is excluded; `FmqLedger.InitBalanced` says exactly when this is harmless.
- Recorder.ConsumerFileRecorder.PushData: headers of the page up to the first invalid one have non-zero offsets and packets inside the page; a zero offset would write an empty packet, which the file refuses.
- Recorder: file limits and splitting, write errors, the timeframe passed for splitting, two equipments with one link, and recording without the filter, which writes pages as they are.
- Player.ReadoutEquipmentPlayer.ReplayOnce: for files of valid packets which fit in a page; `Player.ReadoutEquipmentPlayer.FillPage` says what happens with any other file. Preloading and page filling without RDH are not part of this model.
- RateRegulation.RateBound: exact real arithmetic for floating point and unbounded integers for the period in microseconds.
- BankManager.MemoryBankManager.GetPagedPool: soundness is stated for sizes whose sums stay below 2^64; page numbers stay below 2^31.
- Integers: counters are unbounded except orbits (32 bits), timeframe identifiers in message headers (32 bits), header fields, and sizes in `BankManager` (64 bits).
- `exeRawMerger`, `readRaw`, `syncServer`, the CRU emulator and the main program: tools, input and output, or rules too loose for a theorem.
