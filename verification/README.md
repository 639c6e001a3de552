# Industrial gateway: a verified model of its data path

The gateway reads field devices and publishes what it reads. This project models the path from the bytes on a serial line
to the published state, and proves what holds of it for every input and every run.

* **Passive Modbus RTU monitor** (`Words`, `Crc`, `ErrorDetection`, `HammingDistance`, `KnownFrame`, `Frames`, `FrameCodes`, `Scanner`,
  `Chunking`, `NestedFrame`, `Pairing`, `Capture`, `Traffic`, `Monitor`): the CRC-16 of "MODBUS over Serial Line Specification and
  Implementation Guide V1.02" (sections 2.5.1.2 and 6.2.2), the frame grammar of "MODBUS Application Protocol Specification
  V1.1b3" (sections 6.1 to 6.6, 6.11, 6.12 and 7), the scanner that resynchronises in a bounded buffer, the matching of responses
  with requests, and the resolver from pairs to tags.
* **Active Modbus reader** (`Decode`, `DecodeRoundTrip`, `Planner`, `PlanProperties`, `PlanOptimal`, `PlanOverall`, `Reader`,
  `ReaderProperties`): the greedy planner of read blocks, the reading of blocks, and the decoding of registers.
* **Both together** (`Agreement`, `EndToEnd`, `ReadBack`, `Readings`): the monitor and the reader report the same values, and these
  are the ones that the device holds; `Readings` says so in a tag's own fields and the numbers in its registers.
* **Conflating queues** (`Lists`, `Dict`, `Conflation`, `ResultQueue`, `ConfiguredQueue`, `StatusQueue`): queues that keep the
  latest item of each key.
* **Publisher** (`PublisherModel`, `PublisherDevices`, `PublisherRuns`, `PublisherSafety`, `PublisherTheorems`, `PublisherRepeats`,
  `PublisherReports`, `Publisher`): the
  per-device status machine, its cache, its staleness rule and its rate-limited status messages. `PublisherModel` defines the steps,
  `Publisher` proves the object's methods against them, and the other modules prove what runs of steps keep.
* **Subscription worker** (`Lifecycle`, `CallOrder`, `SubscriptionWorker`): acquiring, using and releasing a driver under arbitrary
  failures.
* **Failing inputs** (`Counterexamples`, and `NestedFrame` above): one for each condition below that the code does not meet by itself.

Where the source updates state step by step, the model has methods and classes, each tied by its postcondition to a function;
the theorems are about those functions.

Things that the environment decides are parameters: the chunks a serial port returns, what each call to a device or driver ends
in, the time of every event, and how often a stop event is found unset. One time stands for all the clock readings of a step.
Bytes are bit-vectors, registers are integers below 65536, and Python's integers are unbounded as in the source.

Some facts of the code that the theorems make precise; where a condition decides, with an input that fails it:

* A read response with three data bytes is always taken for a request (`Frames.ThreeByteResponseIsARequest`).
* A frame inside another makes what is captured depend on how the reads cut the stream, and nothing else does
  (`Capture.MonitorCutsMatterExactly`, `NestedFrame.CutsCanMatter`).
* A request never expires. If one stays unanswered and a later one of the same slave and function is lost, the answer to the later
  is taken for that to the earlier, and another register's value is reported as good. What the monitor pairs up are the exchanges
  that took place, exactly if this does not happen (`Traffic.PairsAreExchangesExactly`, `Counterexamples.LostRequestMisleads`,
  `Counterexamples.WrongRegisterIsReported`).
* The monitor takes the first remembered range that holds a tag's first address, even if it cuts the tag or another range was heard
  later (`Agreement.MonitorTellsReported`, `Agreement.MonitorSeesMemoryExactly`, `Counterexamples.FirstRangeCutsTag`,
  `Counterexamples.OlderRangeIsReported`), and never resolves bit tags (`Agreement.BitTagsAreNeverObserved`).
* The grouped read stores results by tag name alone, while the store keeps names unique only within a group; and a block read through
  a gap may touch addresses that the device lacks. Results are right for all tags exactly if no name occurs twice and no block does a
  tag such harm (`ReaderProperties.GroupedReadsAgreeExactly`, `Counterexamples.OneNameInTwoGroups`, `Counterexamples.GapIsHarmful`).
  Without gaps none does (`ReaderProperties.GaplessBlocksAreMapped`).
* The repository's README says that reads are capped. The code keeps a tag that exceeds the limit in one oversized read of its own,
  so the cap holds exactly if every tag fits (`PlanOverall.LimitsHoldExactly`, `Counterexamples.OversizedRead`). The model follows
  the code.
* A conflated queue can lose a tag that the publisher would have cached, exactly if another takes its queue key for good
  (`ResultQueue.CachedTagSurvivesExactly`). For configured tags this can happen exactly if one without node id has the node id of
  another tag of its group for a name (`ConfiguredQueue.ConfiguredTagsSurviveExactly`, `ConfiguredQueue.UnmistakableExactly`,
  `Counterexamples.NodeIdTakenForName`), so neither among Modbus tags nor among tags that all have node ids.
* The publisher's cache key leaves out the group, so that tags of one name and address in two groups overwrite each other and only
  the later one is published (`PublisherTheorems.DeliveredTagsGoOutExactly`, `Counterexamples.OneKeyInTwoGroups`).
* A slow consumer can see a status that a prompt one would not: only whether a good result has timed out may differ
  (`ResultQueue.ConflationKeepsStatusExactly`, `Counterexamples.TimeoutDependsOnConsumer`).
* Splitting a batch into single tags can change the status it gives the device (`ResultQueue.SplitKeepsStatusExactly`,
  `Counterexamples.BatchEndsFaulty`).
* An update that replaces another takes along the fields that it lacks itself (`StatusQueue.BoardMeetsFifoExactly`,
  `Counterexamples.ReplacedUpdateLosesField`). The gateway's own updates of a tag all have the same fields.
* An error with an empty text is no error to the publisher: it reads it as good news (`SubscriptionWorker.FailureDisconnectsExactly`).

`dafny verify dfyconfig.toml` checks the whole project.

## Model

| member | source | states |
|---|---|---|
| Crc.Crc16Modbus | src/industrial_gateway/drivers/modbus_rtu_monitor.py:52-61 | the nested loops compute the checksum function that all theorems below speak of |
| Crc.AbsorbByte | src/industrial_gateway/drivers/modbus_rtu_monitor.py:55-60 | one byte costs eight shifts of the register after it has been xored in |
| Crc.Residue | src/industrial_gateway/drivers/modbus_rtu_monitor.py:64-70 | the trailer check holds if and only if the checksum of the whole frame, trailer included, is zero |
| Crc.SealIsTheOnlyTrailer | src/industrial_gateway/drivers/modbus_rtu_monitor.py:64-70 | of the 65536 trailers of a payload exactly one passes the check |
| Crc.BytesAreSerial | src/industrial_gateway/drivers/modbus_rtu_monitor.py:52-61 | the bytewise loop equals a bit-serial register fed least significant bit first |
| ErrorDetection.UndetectedErrors | src/industrial_gateway/drivers/modbus_rtu_monitor.py:64-70 | whether an error slips through depends on its bit pattern alone, not on the frame |
| ErrorDetection.BurstsAreDetected | src/industrial_gateway/drivers/modbus_rtu_monitor.py:64-70 | two different frames that differ only inside 16 consecutive bits are never both accepted |
| ErrorDetection.OddErrorsAreDetected | src/industrial_gateway/drivers/modbus_rtu_monitor.py:64-70 | two frames that differ in an odd number of bits are never both accepted |
| ErrorDetection.SeventeenBitsCanHide | src/industrial_gateway/drivers/modbus_rtu_monitor.py:52-61 | 16 is the limit: the 17-bit pattern of the polynomial is undetected |
| HammingDistance.AcceptedFramesDifferInFourBits | src/industrial_gateway/drivers/modbus_rtu_monitor.py:64-70 | two different accepted frames of equal length, below 4096 bytes, differ in at least four bits |
| HammingDistance.OneReturnsLate | src/industrial_gateway/drivers/modbus_rtu_monitor.py:52-61 | the shift register does not return to 1 within fewer than 32767 shifts |
| HammingDistance.FourBitsCanHide | src/industrial_gateway/drivers/modbus_rtu_monitor.py:52-61 | four is the limit: a pattern of four bits is undetected |
| HammingDistance.FarBitsCanHide | src/industrial_gateway/drivers/modbus_rtu_monitor.py:52-61 | the length is the limit: two bits 32767 places apart are undetected |
| KnownFrame.KnownChecksum | tests/test_modbus_rtu_monitor.py:15-18 | the checksum of a known payload, which fixes polynomial, start value and bit order |
| KnownFrame.KnownFrameIsRead | tests/test_modbus_rtu_monitor.py:21-31 | a known nine-byte response parses to its two registers |
| Frames.ParseEncode | src/industrial_gateway/drivers/modbus_rtu_monitor.py:64-115 | every well-formed frame, encoded and sealed, parses back to its fields |
| Frames.EncodeParse | src/industrial_gateway/drivers/modbus_rtu_monitor.py:64-115 | whatever is accepted is the encoding of the well-formed frame that is returned |
| Frames.AcceptedExactly | src/industrial_gateway/drivers/modbus_rtu_monitor.py:64-115 | the accepted byte strings are exactly the encodings of well-formed frames |
| Frames.FrameLength | src/industrial_gateway/drivers/modbus_rtu_monitor.py:64-115 | accepted frames have 4 to 260 bytes |
| Frames.ThreeByteResponseIsARequest | src/industrial_gateway/drivers/modbus_rtu_monitor.py:88-101 | a response with three data bytes is always taken for a request, and for which one |
| FrameCodes.AcceptedByCode | src/industrial_gateway/drivers/modbus_rtu_monitor.py:76-115 | which bytes are accepted, by checksum, function code and length: five bytes from 0x80 on; four, eight, or what the byte count says for 1 to 4; eight for 5, 6, 15 and 16; no others |
| FrameCodes.KindByCode | src/industrial_gateway/drivers/modbus_rtu_monitor.py:76-115 | what an accepted frame is taken for, by function code and length: registers for codes 3 and 4 alone, data always for 1 and 2 |
| FrameCodes.FieldsByByte | src/industrial_gateway/drivers/modbus_rtu_monitor.py:72-112 | every field of an accepted frame, from its bytes |
| FrameCodes.RegistersComeBack | src/industrial_gateway/drivers/modbus_rtu_monitor.py:102-103 | any registers that fit, answered with function 3 or 4, are recovered from the response |
| FrameCodes.BitsComeBack | src/industrial_gateway/drivers/modbus_rtu_monitor.py:104-105 | any bytes that fit but three, answered with function 1 or 2, are recovered |
| FrameCodes.RequestsComeBack | src/industrial_gateway/drivers/modbus_rtu_monitor.py:89-96 | read requests of functions 1 to 4 are recovered |
| FrameCodes.ProbeTakesResponses | src/industrial_gateway/drivers/modbus_rtu_monitor.py:387-402 | the probe takes read responses only, by code and length |
| Scanner.FindFirst | src/industrial_gateway/drivers/modbus_rtu_monitor.py:375-384 | the two nested loops return the first span that parses, by start and then by end |
| Scanner.FirstSpanIsFirst | src/industrial_gateway/drivers/modbus_rtu_monitor.py:375-398 | a span is found if and only if one parses, and then the first |
| Scanner.TrimmingLosesNothing | src/industrial_gateway/drivers/modbus_rtu_monitor.py:338-372 | for every list of chunks, the buffer trimmed to 512 bytes emits exactly the frames of an unbounded one |
| Scanner.BufferBound | src/industrial_gateway/drivers/modbus_rtu_monitor.py:338-384 | between drains the buffer holds at most 512 bytes, none of which parse |
| Scanner.PeakBound | src/industrial_gateway/drivers/modbus_rtu_monitor.py:166-219 | with reads of at most n bytes the buffer never holds more than 512 + n |
| Chunking.DrainInTwo | src/industrial_gateway/drivers/modbus_rtu_monitor.py:338-372 | in a stream in which no drained frame has another inside, draining early and then again gives the frames and the rest of draining once |
| Chunking.ChunksDoNotMatter | src/industrial_gateway/drivers/modbus_rtu_monitor.py:161-219 | a stream in which no drained frame has another inside yields the same frames however it is cut |
| Chunking.CutsMatterExactly | src/industrial_gateway/drivers/modbus_rtu_monitor.py:161-219 | all ways of cutting a stream yield the same frames if and only if no drained frame has another inside that ends earlier |
| Capture.MonitorCutsMatterExactly | src/industrial_gateway/drivers/modbus_rtu_monitor.py:161-219 | the same for the monitor's two drains |
| NestedFrame.CutsCanMatter | src/industrial_gateway/drivers/modbus_rtu_monitor.py:161-219 | a nine-byte stream on which the cuts do matter: a response whose data are themselves an accepted frame |
| Chunking.Resynchronises | src/industrial_gateway/drivers/modbus_rtu_monitor.py:161-219 | with any noise before, between and after them, exactly the listed frames come out, in order, if whatever else parses begins with or inside one of them and ends no earlier |
| Chunking.CleanIsListed | src/industrial_gateway/drivers/modbus_rtu_monitor.py:161-219 | every stream in which no drained frame has another inside can be listed like that |
| Pairing.PairingMeetsSpec | src/industrial_gateway/drivers/modbus_rtu_monitor.py:353-372 | the pairs formed are those of the declarative reading: a response goes with the latest earlier read event of its slave and function if that is a request |
| Pairing.PartnerIsAnswered | src/industrial_gateway/drivers/modbus_rtu_monitor.py:364-370 | the partner of a response is the request it answers, and it has one only then |
| FrameCodes.AnswersBySlaveAndFunction | src/industrial_gateway/drivers/modbus_rtu_monitor.py:364-370 | what answering means, in slave, function and kind of the frames |
| Pairing.AnsweredOnce | src/industrial_gateway/drivers/modbus_rtu_monitor.py:364-370 | no request and no response is used twice |
| Capture.TakeFrame | src/industrial_gateway/drivers/modbus_rtu_monitor.py:364-370 | one frame updates table and pairs in place as the matching step says |
| Capture.TrimBuffer | src/industrial_gateway/drivers/modbus_rtu_monitor.py:361-362 | the buffer keeps its last 512 bytes |
| Capture.DrainRequestResponsePairs | src/industrial_gateway/drivers/modbus_rtu_monitor.py:353-372 | the in-place drain leaves the trimmed rest in the buffer and matches all drained frames |
| Capture.DrainResponseFrames | src/industrial_gateway/drivers/modbus_rtu_monitor.py:338-350 | the in-place drain leaves the trimmed rest and the last response of each slave |
| Capture.CaptureRequestResponsePairs | src/industrial_gateway/drivers/modbus_rtu_monitor.py:200-219 | the captured pairs are those of the untrimmed stream's frames; with reads of at most 256 bytes the buffer never holds more than 768 |
| Capture.ProbeResponses | src/industrial_gateway/drivers/modbus_rtu_monitor.py:161-187 | the probe keeps the last response of each slave in the untrimmed stream, in a buffer of at most 768 bytes |
| Capture.LastBySlaveIsLast | src/industrial_gateway/drivers/modbus_rtu_monitor.py:338-350 | the entry of a slave is its last response |
| FrameCodes.LastResponseOfSlave | src/industrial_gateway/drivers/modbus_rtu_monitor.py:338-350 | the probe keeps the last response of each slave |
| Decode.ComputeRegistersToInt | src/industrial_gateway/drivers/modbus.py:296-300 | the loop computes the big-endian number that the round trips speak of |
| Decode.SplitJoin | src/industrial_gateway/drivers/modbus.py:296-300 | splitting a number into words and joining them returns it |
| Decode.JoinSplit | src/industrial_gateway/drivers/modbus.py:296-300 | joining words and splitting the number returns them |
| Decode.ComputeDecodeString | src/industrial_gateway/drivers/modbus.py:303-312 | the loop yields the text before the first NUL of the bytes in the tag's byte order |
| Decode.ComputeDecodeItems | src/industrial_gateway/drivers/modbus.py:248-253 | the loop decodes consecutive groups of registers, up to the first that fails |
| DecodeRoundTrip.TagRoundTrip | src/industrial_gateway/drivers/modbus.py:244-312 | any value of a tag's type, single or list, written into registers under either word and byte order, decodes to itself |
| DecodeRoundTrip.NumbersAreFaithful | src/industrial_gateway/drivers/modbus.py:257-276 | a decoded number lies in its type's range, and encoding it returns the registers |
| ReadBack.ScaledList | src/industrial_gateway/drivers/modbus.py:280-287 | scaling a list scales each item |
| Readings.ItemIsShown | src/industrial_gateway/drivers/modbus.py:256-300 | one item, decoded and scaled: number * scale + offset with the sign and the word order of its type, floats by their bits, flags and texts as they are |
| Readings.RegistersAreReported | src/industrial_gateway/drivers/modbus.py:244-287 | a tag's result is good and shows its registers item by item if they are all there, and bad otherwise |
| Planner.LimitsFrom | src/industrial_gateway/drivers/modbus.py:166-189 | a limit is the smaller of the configured one, if any, and the protocol's; it is refused exactly if a configured one is below one |
| Planner.SortIsSorted | src/industrial_gateway/drivers/modbus.py:140 | the sort is a permutation in order of address |
| Planner.SortIsStable | src/industrial_gateway/drivers/modbus.py:140 | tags of one address keep their order |
| Planner.GroupTags | src/industrial_gateway/drivers/modbus.py:134-136 | the dictionary holds each group's tags in order, keys in the order first met |
| Planner.GroupsInFirstMetOrder | src/industrial_gateway/drivers/modbus.py:134-136 | groups are in the order in which their first tags come |
| Planner.PlanSorted | src/industrial_gateway/drivers/modbus.py:141-162 | the packing loop computes the plan of one group |
| Planner.PlanBlocks | src/industrial_gateway/drivers/modbus.py:122-163 | the whole planner computes the plan |
| PlanProperties.PlanGroupIsPlan | src/industrial_gateway/drivers/modbus.py:141-162 | the blocks hold exactly the group's tags in order, only single tags exceed the limit, and a block closes only because the next tag cannot join |
| PlanProperties.TagsLieInside | src/industrial_gateway/drivers/modbus.py:144-162 | each tag lies wholly inside its block |
| PlanProperties.BlockReadsLittle | src/industrial_gateway/drivers/modbus.py:152-156 | a block of n tags reads at most its tags' items and n-1 gaps |
| Readings.BlocksAskForTheirTags | src/industrial_gateway/drivers/modbus.py:122-189 | every block asks the unit configured for its tags, or else the device's, for their area and all their addresses, within the limit of that area unless one tag alone exceeds it |
| ReaderProperties.PlanIsPartition | src/industrial_gateway/drivers/modbus.py:122-163 | every tag is in the plan exactly as often as it is configured |
| PlanOptimal.FirstTagsIncompatible | src/industrial_gateway/drivers/modbus.py:144-162 | the first tags of two blocks of a group cannot share any read within gap and limit |
| PlanOptimal.PlanIsMinimal | src/industrial_gateway/drivers/modbus.py:138-162 | no cover of a group's tags by readable sets is smaller than its plan |
| PlanOptimal.BlockIsReadable | src/industrial_gateway/drivers/modbus.py:138-162 | each block is itself such a readable set |
| PlanOverall.PlanIsMinimalOverall | src/industrial_gateway/drivers/modbus.py:122-163 | if every tag fits and the gap is not negative, no family of reads that fetches all tags is smaller than the plan |
| PlanOverall.LimitsHoldExactly | src/industrial_gateway/drivers/modbus.py:141-180 | every read stays within the configured limits if and only if every tag fits into a read of its own |
| PlanOverall.PlanAttainsMinimum | src/industrial_gateway/drivers/modbus.py:122-163 | the plan is such a family, so its size is the minimum |
| Reader.ReadBlockTags | src/industrial_gateway/drivers/modbus.py:192-219 | one response gives a result for every tag of its block, by name |
| Reader.ReadTagsGrouped | src/industrial_gateway/drivers/modbus.py:81-119 | the read loop computes the grouped read, whatever each call raises or answers |
| ReaderProperties.OwnBlockDecides | src/industrial_gateway/drivers/modbus.py:81-119 | with distinct names each result is what the response to the tag's own block says: bad, or decoded from its own slice |
| Readings.ReadsReportAnswers | src/industrial_gateway/drivers/modbus.py:81-119 | whatever the calls end in, a tag's result says what the response to its own block shows at its place, in numbers, or gives the error's text |
| Readings.ReadsReportMemory | src/industrial_gateway/drivers/modbus.py:81-119 | against a steady device, a register tag shows what the registers of its own unit and area hold at its address |
| Readings.NothingIsReadUnconnected | src/industrial_gateway/drivers/modbus.py:82-83 | without a client every tag is bad |
| ReaderProperties.FaultsStayInTheirBlock | src/industrial_gateway/drivers/modbus.py:94-119 | another outcome of one call changes no result of other blocks |
| ReaderProperties.GroupedReadsRefineSingleReads | src/industrial_gateway/drivers/modbus.py:81-119 | against an unchanging device, a tag's grouped result is, up to error texts, that of reading it alone, if and only if all addresses of its block exist, or not all of its own do, or its cells do not decode |
| ReaderProperties.GroupedReadsAgreeExactly | src/industrial_gateway/store.py:503-518 | for tags as the store accepts them, all grouped results equal the single ones up to error texts, if and only if no name occurs in two groups and no block reads addresses that do not exist on behalf of a tag that alone is read well |
| ReaderProperties.GaplessBlocksAreMapped | src/industrial_gateway/drivers/modbus.py:152-156 | with a gap of zero, a device that has the addresses of all tags has those of every block |
| ReadBack.WrittenValuesAreRead | src/industrial_gateway/drivers/modbus.py:81-119 | a value held by a tag's registers is what the grouped read reports, scaled, if the tag fits and the addresses of its block exist |
| ReadBack.BitsAreRead | src/industrial_gateway/drivers/modbus.py:206-219 | a bit tag that fits reports the device's bits from its address on, if the addresses of its block exist |
| Monitor.TagResultFromPairs | src/industrial_gateway/drivers/modbus_rtu_monitor.py:445-469 | the loop takes the first remembered range that fits |
| Monitor.RememberPairs | src/industrial_gateway/drivers/modbus_rtu_monitor.py:417-424 | the loop builds the table of ranges |
| Monitor.TagResultsFromPairs | src/industrial_gateway/drivers/modbus_rtu_monitor.py:416-442 | the loops compute the monitor's results |
| Readings.MonitorReportsExchange | src/industrial_gateway/drivers/modbus_rtu_monitor.py:416-469 | a tag's result comes from an exchange with its own unit, by the function of its area, that asked for its first address, and shows the registers answered, in numbers; without one it is not observed |
| Readings.ValuesAreNumbers | src/industrial_gateway/drivers/modbus_rtu_monitor.py:461-463 | the registers of an answer count as the numbers they are, in order |
| Readings.OverheardRegistersAreReported | src/industrial_gateway/drivers/modbus_rtu_monitor.py:445-469 | an overheard read with function 3 or 4 resolves every holding or input register tag inside it |
| Agreement.LatestPairIsRemembered | src/industrial_gateway/drivers/modbus_rtu_monitor.py:417-424 | a range is remembered with the latest pair that covers it |
| Agreement.RangesInFirstSeenOrder | src/industrial_gateway/drivers/modbus_rtu_monitor.py:417-424 | ranges are kept in the order in which they were first observed |
| Agreement.FirstRangeIsFirst | src/industrial_gateway/drivers/modbus_rtu_monitor.py:451-460 | no earlier range holds the tag's first address |
| Agreement.MonitorTellsReported | src/industrial_gateway/drivers/modbus_rtu_monitor.py:416-469 | the monitor's result comes from the latest exchange of that range which, of all whose latest exchange has the tag's first address, was seen first; without one the tag is not observed |
| Agreement.ReportedIsUnique | src/industrial_gateway/drivers/modbus_rtu_monitor.py:417-460 | this is one exchange |
| Agreement.MonitorSeesMemoryExactly | src/industrial_gateway/drivers/modbus_rtu_monitor.py:445-469 | the monitor reports what the cells hold if and only if the exchange reported holds the whole tag |
| Agreement.BitTagsAreNeverObserved | src/industrial_gateway/drivers/modbus_rtu_monitor.py:455-457 | bit tags are never resolved |
| Agreement.MonitorAgreesWithReader | src/industrial_gateway/drivers/modbus_rtu_monitor.py:416-469 | over one unchanging memory, monitor and grouped read agree on a tag up to error texts, if and only if its cells do not decode, or it was heard exactly if its block's addresses exist |
| ReadBack.WrittenValuesAreOverheard | src/industrial_gateway/drivers/modbus_rtu_monitor.py:445-469 | a value held by a tag's registers is what the monitor reports, if the tag was heard and exchanges with its first address hold all of it |
| Traffic.SentIsSeen | src/industrial_gateway/drivers/modbus_rtu_monitor.py:88-115 | what each frame that a device may send is taken for, three-byte responses included |
| Traffic.CleanStreamsCarryTurns | src/industrial_gateway/drivers/modbus_rtu_monitor.py:200-219 | every stream in which no drained frame has another inside carries some turns |
| Traffic.OpenRequestIsLatest | src/industrial_gateway/drivers/modbus_rtu_monitor.py:364-370 | a request is open exactly if no later turn of its key ends with a request or a response |
| Traffic.TrafficPairsUp | src/industrial_gateway/drivers/modbus_rtu_monitor.py:353-372 | the pairs that the monitor forms of any turns: every exchange that it can understand, and every answer that comes by itself while a request of its key is open, with that request |
| Traffic.PairsAreExchangesExactly | src/industrial_gateway/drivers/modbus_rtu_monitor.py:364-370 | under any choice of keys, the pairs formed are the exchanges that took place, if and only if no answer that comes by itself meets an open request of its key |
| Traffic.CaptureRecoversTurns | src/industrial_gateway/drivers/modbus_rtu_monitor.py:200-219 | the same two from a noisy stream of turns, begun anywhere and cut in any way |
| EndToEnd.SeparateTagsAreNotCut | src/industrial_gateway/drivers/modbus.py:144-162 | if tags of a group do not overlap, a block that holds a tag's first address is the tag's own and holds it whole |
| EndToEnd.OverhearingAgrees | src/industrial_gateway/drivers/modbus_rtu_monitor.py:416-469 | from the bytes of any masters' traffic with an unchanging device, begun anywhere, with noise, lost requests and any cuts, monitor and poller agree on a register tag up to error texts, if and only if its cells do not decode, or it was heard exactly if its block's addresses exist; provided that exchanges with its first address hold all of it and no stray answer about its unit and area meets an open request |
| EndToEnd.OverhearingTellsLatestPoll | src/industrial_gateway/drivers/modbus_rtu_monitor.py:416-469 | from the bytes of any number of polls of a changing device, the monitor reports for a register tag what the poller did at the latest poll whose read of the tag's block was understood, and the tag as not observed if there is none |
| EndToEnd.PollsAreWhole | src/industrial_gateway/drivers/modbus.py:144-162 | a poller's exchanges hold the tags that they touch whole, if tags of a group do not overlap |
| EndToEnd.OtherPairsDoNotMatter | src/industrial_gateway/drivers/modbus_rtu_monitor.py:445-460 | a tag's result depends on the pairs of its own unit and area alone |
| Publisher.GroupByOutput | src/industrial_gateway/workers.py:367-369 | the loop groups the cached tags |
| Publisher.MergeTags | src/industrial_gateway/workers.py:416-452 | the loop caches the tags and derives the result's status |
| Publisher.SinkPublisher.PublishOnce | src/industrial_gateway/workers.py:338-355 | the method performs the step of one received result, or none |
| Publisher.SinkPublisher.CacheResult | src/industrial_gateway/workers.py:397-452 | the method performs the step of a result without error |
| Publisher.SinkPublisher.SetDeviceStatus | src/industrial_gateway/workers.py:475-503 | the method performs the status step on caches, messages and history |
| Publisher.SinkPublisher.DeviceStatus | src/industrial_gateway/workers.py:505-506 | the label of a device, if it has one |
| Publisher.SinkPublisher.PublishStatusHeartbeatIfDue | src/industrial_gateway/workers.py:508-519 | the method repeats the status if the interval is over |
| Publisher.SinkPublisher.PublishDeviceStatus | src/industrial_gateway/workers.py:521-542 | the method publishes one report per group and notes the time |
| Publisher.SinkPublisher.RefreshStaleStatuses | src/industrial_gateway/workers.py:454-473 | the loop performs the staleness check of every cached device |
| Publisher.SinkPublisher.PublishCached | src/industrial_gateway/workers.py:357-383 | the method performs the step of a tick and counts the measurements |
| PublisherDevices.DevicesAreIndependent | src/industrial_gateway/workers.py:305-542 | over any run, what is held and sent about a device is what a publisher of that device alone would hold and send |
| PublisherDevices.DevicesDoNotInterfere | src/industrial_gateway/workers.py:305-542 | runs with the same ticks and the same results of a device treat it alike |
| PublisherRuns.StatusOfTags | src/industrial_gateway/workers.py:447-452 | a result is bad if and only if it has tags and none of them is usable |
| PublisherRuns.StatusMeetsHistory | src/industrial_gateway/workers.py:338-503 | after any run, status and cached tags are the stated function of the device's results and the ticks since |
| PublisherReports.StatusAndReasonByResult | src/industrial_gateway/workers.py:338-503 | status and reason of a device after any run, from the error, the tags and the age of its latest result |
| PublisherReports.SameDevice | src/industrial_gateway/workers.py:667-670 | devices are the same by id, or by name if they have none |
| PublisherReports.SameCachePlace | src/industrial_gateway/workers.py:760-763 | tags are the same by node id, or by name and address if they have none |
| PublisherSafety.GroupsAreFilters | src/industrial_gateway/workers.py:367-371 | the group of a key holds exactly the cached tags with that key, in order; keys are distinct |
| PublisherSafety.MeasurementHoldsUsable | src/industrial_gateway/workers.py:371-375 | a measurement carries exactly the usable cached tags of its group |
| PublisherReports.UsableTagsAreReadWell | src/industrial_gateway/workers.py:371-372 | these are the tags of good quality without an error text, in order |
| PublisherSafety.UsableTagsAreSent | src/industrial_gateway/workers.py:363-383 | every usable cached tag of a good device goes out with every tick |
| PublisherSafety.StepPublishes | src/industrial_gateway/workers.py:475-519 | which steps publish a status: every change but a device's first to good, and an unchanged one exactly when prompted and due |
| PublisherSafety.StepReportsEachGroupOnce | src/industrial_gateway/workers.py:521-542 | a step that publishes reports each group of cached tags once, another step none |
| PublisherTheorems.MeasurementsAreFresh | src/industrial_gateway/workers.py:357-383 | over any run, each measurement is of a device whose latest result was good and, with a timeout, younger than it, and carries only the latest usable tags |
| PublisherReports.MeasurementsHoldGoodTags | src/industrial_gateway/workers.py:357-383 | over any run, a measurement's tags have good quality and no error text, its device's latest result is young enough and has nothing to complain of |
| PublisherTheorems.DeliveredTagsGoOutExactly | src/industrial_gateway/workers.py:357-452 | of the usable tags a good device has delivered, a tick sends in their own groups exactly those after which no other has come under the same cache key |
| PublisherTheorems.ReportsAreTruthful | src/industrial_gateway/workers.py:683-709 | over any run, each status message lists exactly its group's tags, each on if and only if device and tag are good right after the event, with the tag's or the device's complaint |
| PublisherReports.ReportsTellResults | src/industrial_gateway/workers.py:521-542 | over any run, each sensor of a status message is on exactly if device and tag are good by the latest result, and shows the tag's error or else the device's: its result's, that no tag could be read, or the timeout |
| PublisherReports.MeasurementsComeWithReports | src/industrial_gateway/workers.py:373-382 | the data messages of a device are pairs of a measurement and the status report of its group |
| PublisherReports.MessagesNameDevice | src/industrial_gateway/workers.py:357-383 | messages name the device as the result at hand, or the latest with data, does |
| PublisherTheorems.PublicationsTellTheStatus | src/industrial_gateway/workers.py:475-519 | over any run, neighbouring publications of a device either differ or are an interval apart, and the latest tells the current status |
| PublisherRepeats.RepeatsAreOnTime | src/industrial_gateway/workers.py:508-519 | over any run, an event that leaves the status as it is publishes it exactly if it prompts the device and comes an interval or more after the latest publication since the last change, or after that change |
| PublisherRepeats.ChangesAreAtOnce | src/industrial_gateway/workers.py:475-503 | a change is published at its event, unless it is a first, good status |
| PublisherRepeats.PublicationsAreSent | src/industrial_gateway/workers.py:521-542 | a publication has the time of its event and the status after it, and sends one report for each group |
| PublisherTheorems.ChangesAreReportedPerGroup | src/industrial_gateway/workers.py:475-542 | at every event, a changed status is reported once per group, an unchanged one only when due |
| Conflation.DrainEndsAlike | src/industrial_gateway/services/runtime_manager.py:389-404 | for every interleaving, a full drain ends with the same last entry of a stable kind as a plain queue |
| Conflation.SparedEndsAlike | src/industrial_gateway/services/runtime_manager.py:389-404 | so it does for any kind of which a replaced put is followed by another put |
| Conflation.InterleavingsAgreeExactly | src/industrial_gateway/services/runtime_manager.py:389-404 | all interleavings of some puts end with the last put of a kind, if and only if every replaced put of the kind is followed by another |
| Conflation.WaitingIsNewest | src/industrial_gateway/services/runtime_manager.py:389-404 | what waits under a key is the newest put of that key |
| Conflation.DrainIsInOrder | src/industrial_gateway/services/runtime_manager.py:389-404 | the consumer sees puts in the order in which they were made, and for every put that very one or a later one of its key, so the last put of each key |
| Conflation.UnrepeatedAreDelivered | src/industrial_gateway/services/runtime_manager.py:432-445 | entries whose key is put once are all delivered, in order |
| ResultQueue.LatestReadResultQueue.Put | src/industrial_gateway/services/runtime_manager.py:389-395 | a put splits the result and replaces what waits under each key |
| ResultQueue.LatestReadResultQueue.Get | src/industrial_gateway/services/runtime_manager.py:397-404 | a get takes the oldest item, or reports emptiness |
| ResultQueue.LatestReadResultQueue.Empty | src/industrial_gateway/services/runtime_manager.py:409-411 | the queue tells whether anything waits |
| ResultQueue.SplitWell | src/industrial_gateway/services/runtime_manager.py:413-423 | the shape and the keys of what splitting yields |
| ResultQueue.SplitParts | src/industrial_gateway/services/runtime_manager.py:413-423 | the parts of a result, field by field |
| ResultQueue.ConflationKeepsCache | src/industrial_gateway/services/runtime_manager.py:384-423 | wherever the publisher ticks, after a full drain it caches under a key what it would cache if handed every split result, if puts of the tag that are replaced are followed by others |
| ResultQueue.ConflationKeepsStatusExactly | src/industrial_gateway/services/runtime_manager.py:384-423 | the status is then the same too, if and only if it is not the case that the last result is good and timed out at a tick of one run alone |
| ResultQueue.ConflationKeepsStatus | src/industrial_gateway/services/runtime_manager.py:384-423 | so without ticks every device has the status it would have if handed every split result |
| ResultQueue.CachedTagSurvivesExactly | src/industrial_gateway/services/runtime_manager.py:413-423 | all interleavings of some puts with gets and ticks keep a cached tag, if and only if every replaced put of it is followed by another |
| ConfiguredQueue.ReadsAreReads | src/industrial_gateway/drivers/modbus.py:81-119 | every entry that a grouped read puts is about a configured tag |
| ConfiguredQueue.ConfiguredPutsAreConsistent | src/industrial_gateway/store.py:503-518 | however often devices are read whose tags cannot be mistaken for each other, one queue key always stands for one tag |
| ConfiguredQueue.UnmistakableExactly | src/industrial_gateway/services/runtime_manager.py:413-423 | tags as the store accepts them can be mistaken for each other if and only if one without node id has another's node id for a name |
| ConfiguredQueue.ModbusIsUnmistakable | src/industrial_gateway/store.py:503-518 | so Modbus tags as the store accepts them cannot |
| ConfiguredQueue.ConfiguredTagsSurviveExactly | src/industrial_gateway/services/runtime_manager.py:413-423 | the queue costs the publisher no cached tag of the configured devices, however puts, gets and ticks interleave, if and only if no two tags of a device can be mistaken for each other |
| ResultQueue.SplitKeepsCache | src/industrial_gateway/services/runtime_manager.py:413-423 | splitting a result leaves the publisher's cache as it would be |
| ResultQueue.SplitKeepsStatusExactly | src/industrial_gateway/services/runtime_manager.py:413-423 | it leaves the status as it would be if and only if it is not the case that some tag is good and the last one faulty |
| StatusQueue.LatestStatusQueue.Put | src/industrial_gateway/services/runtime_manager.py:432-438 | a put replaces the waiting item of its key; plain items get fresh keys |
| StatusQueue.LatestStatusQueue.GetNoWait | src/industrial_gateway/services/runtime_manager.py:440-445 | a get takes the oldest item, or reports emptiness |
| StatusQueue.SameKeyByFields | src/industrial_gateway/services/runtime_manager.py:451-457 | which items share a key, by their fields: updates of one device with the same node id, or tag where there is none |
| StatusQueue.SameRowByFields | src/industrial_gateway/services/runtime_manager.py:225-230 | which updates share a row, by their fields |
| StatusQueue.CellsByLast | src/industrial_gateway/services/runtime_manager.py:225-231 | a cell of the table shows the last update of its row that has the field |
| StatusQueue.ServersByLast | src/industrial_gateway/services/runtime_manager.py:232-234 | a server's entry is its last status |
| StatusQueue.RuntimeManager.RecordStatus | src/industrial_gateway/services/runtime_manager.py:225-235 | an update is merged into its row, a server status replaces the former |
| StatusQueue.RuntimeManager.DrainEvents | src/industrial_gateway/services/runtime_manager.py:193-201 | a drain records the oldest items up to the limit and leaves the rest; over any run of puts and drains, once nothing waits the tables are as if every item put had been recorded, if the updates are complete |
| StatusQueue.BoardMeetsFifo | src/industrial_gateway/services/runtime_manager.py:225-235 | however puts and gets interleave, a full drain leaves both tables as if every item had been recorded, if every field of a replaced update comes again in a later one of its key |
| StatusQueue.BoardMeetsFifoExactly | src/industrial_gateway/services/runtime_manager.py:225-235 | all interleavings do so, whatever the tables held before, only if that is the case, for updates that name device and tag |
| StatusQueue.PlainItemsAreKept | src/industrial_gateway/services/runtime_manager.py:451-457 | plain items are each delivered once, in order |
| SubscriptionWorker.OpcUaSubscriptionWorker.StartOnce | src/industrial_gateway/workers.py:184-189 | the start stops at the first call that raises, and tells what was raised |
| SubscriptionWorker.OpcUaSubscriptionWorker.CheckServerStatus | src/industrial_gateway/workers.py:281-302 | a check puts one report, OK or ERROR with its text, and a failed one raises again |
| SubscriptionWorker.OpcUaSubscriptionWorker.RunSubscription | src/industrial_gateway/workers.py:200-212 | the inner loop ends with a reported failure or a set stop event |
| SubscriptionWorker.OpcUaSubscriptionWorker.CleanupDriver | src/industrial_gateway/workers.py:240-261 | the cleanup releases what was acquired, whatever it raises |
| SubscriptionWorker.OpcUaSubscriptionWorker.RunCycle | src/industrial_gateway/workers.py:195-226 | a cycle from construction to release |
| SubscriptionWorker.OpcUaSubscriptionWorker.Run | src/industrial_gateway/workers.py:194-238 | for all outcomes of all calls the trace is orderly, is what the outcomes make it, uses up the stop checks, and ends at rest; the reports of both outboxes are those of the trace |
| CallOrder.OrderlyByCalls | src/industrial_gateway/workers.py:184-261 | a trace is orderly if and only if every call may follow the ones before, by the last calls and what they raised |
| CallOrder.ConnectsWhatWasBuilt | src/industrial_gateway/workers.py:185-186 | a driver is connected right after it was built |
| CallOrder.SubscribesWhatIsConnected | src/industrial_gateway/workers.py:186-187 | it is subscribed right after it was connected |
| CallOrder.PollsWhatIsSubscribed | src/industrial_gateway/workers.py:200-203 | it is polled only since its subscription and before the end of it, right after the stop event was found unset |
| CallOrder.ChecksWhatWasPolled | src/industrial_gateway/workers.py:203-204 | its server is checked right after a poll that did not fail |
| Lifecycle.AtMostOneLive | src/industrial_gateway/workers.py:194-261 | before every call at most one driver is live |
| Lifecycle.EveryDriverIsReleased | src/industrial_gateway/workers.py:240-261 | every driver built gets exactly one disconnect attempt, every subscription started exactly one stop attempt |
| Lifecycle.DisconnectComesLast | src/industrial_gateway/workers.py:240-261 | at a disconnect the subscription has been stopped if it had started, and nothing is done with that driver later |
| Lifecycle.ReportsMatchFailures | src/industrial_gateway/workers.py:198-226 | the action after a failure is its report, and nothing else is reported |
| Lifecycle.OneFailurePerCycle | src/industrial_gateway/workers.py:195-226 | two failures are in different cycles |
| SubscriptionWorker.ReportsAreFailures | src/industrial_gateway/workers.py:205-218 | the error results are the failures, each once and in order |
| SubscriptionWorker.FailureDisconnectsExactly | src/industrial_gateway/workers.py:344-352 | the publisher marks the device disconnected exactly if the error has a text; without one it reads as good |
| Counterexamples.LostRequestMisleads | src/industrial_gateway/drivers/modbus_rtu_monitor.py:364-370 | a stray answer is paired with an older request that stayed unanswered |
| Counterexamples.WrongRegisterIsReported | src/industrial_gateway/drivers/modbus_rtu_monitor.py:445-469 | the monitor then reports another register's value for the tag, in good quality |
| Counterexamples.FirstRangeCutsTag | src/industrial_gateway/drivers/modbus_rtu_monitor.py:451-468 | a tag is reported bad although one of two ranges heard holds it whole |
| Counterexamples.OlderRangeIsReported | src/industrial_gateway/drivers/modbus_rtu_monitor.py:451-460 | a tag is reported from the range heard first although another was heard later |
| Counterexamples.HoledIsSteady | src/industrial_gateway/drivers/modbus.py:81-119 | a device that lacks one address answers steadily |
| Counterexamples.GapIsHarmful | src/industrial_gateway/drivers/modbus.py:152-156 | a block that reads through that address harms a tag beside it |
| Counterexamples.OneNameInTwoGroups | src/industrial_gateway/drivers/modbus.py:81-119 | two tags of one name get one result |
| Counterexamples.OversizedRead | src/industrial_gateway/drivers/modbus.py:141-162 | a text of 200 registers exceeds the limit |
| Counterexamples.NodeIdTakenForName | src/industrial_gateway/services/runtime_manager.py:413-423 | two tags that the store accepts can be mistaken for each other |
| Counterexamples.BothConsume | src/industrial_gateway/services/runtime_manager.py:389-404 | a prompt and a slow consumer of one put |
| Counterexamples.TimeoutDependsOnConsumer | src/industrial_gateway/workers.py:454-473 | the prompt one holds the device stale, the slow one good |
| Counterexamples.OneKeyInTwoGroups | src/industrial_gateway/workers.py:416-452 | of two tags under one cache key, in two groups, only the later goes out |
| Counterexamples.BatchEndsFaulty | src/industrial_gateway/workers.py:447-452 | a batch makes its device good, its parts bad |
| Counterexamples.ReplacedUpdateLosesField | src/industrial_gateway/services/runtime_manager.py:225-235 | an update with an error alone takes the value before it along |

## Left out

- Serial ports, pymodbus, asyncua, MQTT and database clients: foreign calls. Their outcomes are parameters.
- Threads, locks, sleeps and deadlines: queue operations are atomic steps, the capture loop runs over a list of reads, and the
  publisher's loop over a list of events.
- Rounding: floats keep their bit pattern, and scaling is exact over the reals.
- Presentation: `raw_hex`, function names, `value` shortcuts, probe texts, the scanner's last error text, log lines, topics and timestamps.
- Output routes and system heartbeats: which topic and sink a message goes to, and messages that are not about a device.
- The rule that derives a tag's output group from its node id: grouping is an arbitrary function of the tag.
- The tag updates that the publisher sends to the user interface; the queue that carries them and the tables they end in are modelled.
- The times that the publisher notes beside a status when it was received and never reads again.
- Data results that a subscription driver delivers through its callback.
- DriverPoller: a single connect, read and disconnect without state of its own.
- Store, configuration, CSV import and export, web interface, topic requests and topic responder: mostly field copying and I/O.
- Validation of names and of non-Modbus tags: the model takes only the conditions that reading depends on (`ValidTag`).
- Publisher.SinkPublisher.CacheResult: without the tag updates that it puts into the user interface's queue.
- Publisher.SinkPublisher.SetDeviceStatus: without the tag updates that it puts into the user interface's queue on a change.
- Publisher.SinkPublisher.PublishCached: without the system heartbeats that are sent in the same round.
- StatusQueue.RuntimeManager.DrainEvents: without the log lines that are drained along with the status items. Its run-level statement
  shares the condition of the next line.
- StatusQueue.BoardMeetsFifo: for complete updates only, which is the exact condition (`StatusQueue.BoardMeetsFifoExactly`).
- ResultQueue.ConflationKeepsCache: speaks of cached tags key by key; the order in which the cache first saw its keys may differ.
- ResultQueue.CachedTagSurvivesExactly: for results that give one name and one group to a device of one id. The publisher goes by the
  id alone, so a device renamed between two reads has other queue keys but the same cache.
- EndToEnd.OverhearingAgrees: for streams in which no frame has another inside that ends earlier; otherwise the result can depend on
  where the reads cut the stream (`Chunking.CutsMatterExactly`). Noise that parses counts as a frame. Stray answers that meet an open
  request of the tag's unit and area are excluded; `Traffic.TrafficPairsUp` says which pairs they form.
- EndToEnd.OverhearingTellsLatestPoll: under the same conditions, and for tags of a group that do not overlap.
