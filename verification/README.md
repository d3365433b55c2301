# gem5 tooling, verified

A Dafny model of the algorithms inside gem5's Python tools and configuration scripts, with proofs
over all inputs, all runs and all behaviours of the simulator they talk to.

| files | component |
|---|---|
| `PipeWindow`, `PipeTrace`, `PipeStop`, `Timeline`, `TimelineRow` | the O3 pipeline viewer: a streaming sorter with a bounded queue, skipping to a start and stopping early, and the drawing of one instruction's timeline |
| `UpgradeRounds`, `UpgradeLinks`, `Upgrader` | the checkpoint upgrader: a worklist scheduler over a dependency graph assembled at load time |
| `PortNames`, `PortBinding` | reading a configuration: port names, gathering connections, and the greedy pass that orders port bindings |
| `Framing`, `DepTrace` | trace files: varints, length-prefixed messages, and the text form of instruction-dependency records |
| `SectionNames`, `Aggregator` | merging checkpoints: section renaming and page-by-page relocation of memory |
| `RunControl` | periodic checkpoints and repeated CPU switching against a simulator whose replies are arbitrary |
| `GpuPorts`, `TlbPorts`, `TlbRounding`, `Rounding` | GPU port allocation: index walks over a sequencer list built elsewhere, and TLB port maps with their floating-point arithmetic |
| `MemTestTree`, `CopyrightYears` | a closed-form tester count against a recursive builder, and printing and parsing of year sets |
| `Collections`, `Division`, `Sorting`, `Text` | shared vocabulary: counting, division, stable sorting, decimal numbers and splitting |

Loops and objects that the scripts update in place are methods and classes here. Each is proved
equal to a function of its inputs or of the old state, and the properties are proved about that
function.

## Where the code does not do what it says

Each of these has a lemma with failing inputs and the exact condition under which the promise holds.

- A stop by sequence number loses nothing on the traces that the comments assume if and only if
  `min_threshold` is zero (`PipeStop.GapIsLost`, `PipeStop.GapsAreSafeIff`), and on those whose sequence
  numbers have no gaps if and only if `max_threshold >= 2 * min_threshold - 1`
  (`PipeStop.StragglerIsLost`, `PipeStop.StopBySnIsSafeIff`). A stop by tick loses nothing on traces
  whose fetch ticks fall back by at most a drift if and only if `tick_drift` is at least that
  (`PipeStop.FallBackIsLost`, `PipeStop.StopByTickIsSafeIff`). The queue sorts every trace that is at
  most a bound of places out of order if and only if the bound is at most `min_threshold`
  (`PipeWindow.BeyondTheBound`, `PipeWindow.WindowIsSafeIff`). The comments state only assumptions; the
  shipped thresholds 2000 and 1000 meet the condition for traces without gaps with one to spare.
- The comment in `bind_ports` says that exactly one direction of every link is bindable because the
  connections are sorted. `PortBinding.SortedListCanFail` gives sorted lists for which this fails, and
  `PortBinding.SamePortFails` lists that fail in every order: those with a link between two indices of
  one port. `PortBinding.PassIsComplete` says when the pass succeeds: when one direction of every link
  can be chosen so that, in list order, every port sees its indices as 0, 1, 2, ...
- `scriptCheckpoints` tests a stale exit cause, so a checkpoint requested by the benchmark ends the
  periodic series (`RunControl.BenchmarkCheckpointEndsSeries`, `RunControl.SeriesAlwaysCompleteIff`).
- The guard before `repeatSwitch` compares `maxtick` with the period and not with the current tick
  (`RunControl.GuardIsNotEnough`, `RunControl.SwitchingStaysWithinIff`).
- `decodeMessage` reads an empty message as the end of the file (`Framing.EmptyMessageEndsFile`) and
  reduces sizes modulo 2^32 (`Framing.MessagesRoundTrip` has the exact lengths). A size from 2^63 on
  becomes negative, and `read` then raises a ValueError that is not caught, unless it has become -1,
  which reads everything (`Framing.RaisesIff`).
- The dependency-trace text form has no place for some records that the printer accepts: the address of
  a computation record is read back as its delay (`DepTrace.AddressReadAsDelay`, `DepTrace.LineRoundTrip`).
- A dot in a port name moves into the object name when a port is printed and parsed
  (`PortNames.DottedNameIsSplit`, `PortNames.PrintThenParse`).
- Year ranges outside four digits are not read back (`CopyrightYears.ShortYearsAreLost`,
  `CopyrightYears.YearsRoundTrip`).
- Relocated addresses of a checkpoint that copies anything name the right bytes, whatever the memory holds,
  if and only if no earlier memory file is shorter than its page count (`Aggregator.MarkedIsMisplaced`, `Aggregator.BytesInPlaceIff`).

## Model

| member | source | states |
|---|---|---|
| `PipeWindow.Viewer.QueueInst` | util/o3-pipeview.py:154-159 | after every arrival the queue and the output are those of the window run over all arrivals so far |
| `PipeWindow.Viewer.PrintInsts` | util/o3-pipeview.py:162-184 | sorts the queue, pops it down to the lower threshold, and appends to the output exactly the popped instructions that pass every range filter |
| `PipeWindow.Viewer.PrintItem` | util/o3-pipeview.py:173-184 | one popped instruction is printed if and only if it passes all five range filters |
| `PipeWindow.Viewer.Flush` | util/o3-pipeview.py:132-133 | the final flush empties the queue and completes the output of the run |
| `PipeWindow.RunConserves` | util/o3-pipeview.py:154-167 | over every run, drained and queued instructions together are the arrivals, as a multiset |
| `PipeWindow.RunIsSorted` | util/o3-pipeview.py:45-50 | invariant of every run: what was drained, followed by the sorted queue, is the stable sort of all arrivals |
| `PipeWindow.QueueLength` | util/o3-pipeview.py:45-48 | the queue grows to max_threshold, and one arrival more takes it down to min_threshold |
| `PipeWindow.WindowSorts` | util/o3-pipeview.py:45-50 | if no arrival comes after more than min_threshold larger sequence numbers, the output is the in-range part of the trace in stable sorted order, flush included |
| `PipeWindow.DisplacedImpliesLate` | util/o3-pipeview.py:49-50 | instructions out of order by at most n places are late by at most n larger ones, so the documented assumption suffices |
| `PipeWindow.BeyondTheBound` | util/o3-pipeview.py:49-50 | for every setting, some arrivals one more place than min_threshold out of order, and late by as many, come out of order |
| `PipeWindow.WindowIsSafeIff` | util/o3-pipeview.py:45-50 | the window sorts all arrivals late by at most a bound, and all arrivals at most that many places out of order, if and only if the bound is at most min_threshold |
| `PipeTrace.SkipUntil` | util/o3-pipeview.py:81-105 | a skipping loop stops at the first line that satisfies its test, or at the end |
| `PipeTrace.ReadRegion` | util/o3-pipeview.py:124-149 | the main loop prints what the window prints for one instruction per retire line, up to the stopping fetch |
| `PipeTrace.ProcessTrace` | util/o3-pipeview.py:68-149 | the whole tool prints the output function of the trace |
| `PipeStop.CollectTrace` | src/cpu/o3/dyn_inst.cc:211-243 | from a trace as the simulator writes it, the reader collects exactly the dumped instructions before the first stopping one |
| `PipeStop.DumpIsQueued` | util/o3-pipeview.py:124-143 | field by field, what is queued for the seven lines of a dumped instruction: its ticks, its number and its counters as dumped, the store tick if asked for, and the mark on the disassembly if and only if it did not retire |
| `PipeStop.SkipLosesNothing` | util/o3-pipeview.py:81-105 | skipping to the start lands on a block boundary, and every skipped instruction is one that the range filter would drop |
| `PipeStop.NoStragglers` | util/o3-pipeview.py:130-131 | pigeonhole: after an instruction beyond stop_sn + max_threshold no later one is at or below stop_sn |
| `PipeStop.StopLosesNothing` | util/o3-pipeview.py:129-134 | when the stop fires, by tick or by sequence number, everything from there on is out of range |
| `PipeStop.ViewerPrintsTheRange` | util/o3-pipeview.py:68-184 | main theorem: skipping, stopping early, windowed sorting and filtering together print the sorted in-range instructions of the whole trace |
| `PipeStop.DumpIsPrintedIff` | util/o3-pipeview.py:51-64 | the same theorem from the dumped fields alone: an instruction is printed, as often as it was dumped, if and only if its number and its fetch tick lie within the asked ends and, if only committed ones are asked for, it retired; the output is in number order and holds nothing else |
| `PipeStop.StragglerIsLost` | util/o3-pipeview.py:130-131 | whenever max_threshold < 2 * min_threshold - 1, a gap-free trace within the displacement bound loses an in-range instruction |
| `PipeStop.StopBySnIsSafeIff` | util/o3-pipeview.py:129-134 | stopping by sequence number is lossless on all such traces if and only if max_threshold >= 2 * min_threshold - 1 |
| `PipeStop.GapIsLost` | util/o3-pipeview.py:130-131 | for every positive min_threshold and every max_threshold, two neighbours in the wrong order with a gap between their numbers lose the in-range one |
| `PipeStop.GapsAreSafeIff` | util/o3-pipeview.py:45-50 | on all traces within the displacement bound, gaps or not, stopping by sequence number is lossless if and only if min_threshold is zero |
| `PipeStop.FallBackIsLost` | util/o3-pipeview.py:130 | whenever fetch ticks may fall back by more than tick_drift, some trace loses an in-range instruction |
| `PipeStop.StopByTickIsSafeIff` | util/o3-pipeview.py:129-134 | stopping by tick is lossless on all traces within a drift if and only if tick_drift is at least that drift |
| `Timeline.CompactIffOneLine` | util/o3-pipeview.py:233-238 | the compact form is chosen exactly when one line is drawn |
| `Timeline.DrawnInExactlyOneLine` | util/o3-pipeview.py:246-258 | a stage tick is drawn in line i if and only if it is set, not before the base tick, and i is its line; that line exists |
| `Timeline.SimulatedTicksAreDrawn` | util/o3-pipeview.py:223-258 | with ticks zero or not before a positive fetch tick, every stage is drawn in some line |
| `Timeline.WriteLine` | util/o3-pipeview.py:260-279 | the dot-and-letter loop writes the row in which each column holds the letters of its events, or a dot |
| `Timeline.GatherEvents` | util/o3-pipeview.py:251-259 | collects the stages of one line in written order |
| `Timeline.DrawnMembers` | util/o3-pipeview.py:251-267 | the drawn events of a line are the visible stages whose tick falls into it, and no others |
| `Timeline.CellShows` | util/o3-pipeview.py:246-279 | for every line, column and stage: the column holds the stage's letter f, d, n, p, i, c, r or s if and only if the tick of that name falls into the column's ticks, counted from the tick printed for the line, or one width later when there is one line; dispatch only if it differs from issue |
| `Timeline.CellIsLettersOrDot` | util/o3-pipeview.py:242-279 | a column holds each of its letters once, or one dot, which is = for abandoned instructions |
| `Timeline.DrawnInOrder` | util/o3-pipeview.py:256-259 | letters are written by their place in the line, and at the same place by the stages' names |
| `Timeline.LineStarts` | util/o3-pipeview.py:223-224 | lines start at consecutive multiples of the width in ticks, the first with the fetch in it |
| `Timeline.LineCount` | util/o3-pipeview.py:226-238 | there is one line if and only if all stages are within one width of the fetch, and otherwise as many as the last stage needs |
| `Timeline.LineLength` | util/o3-pipeview.py:260-279 | a line's length is the width plus the drawn events minus the distinct columns they occupy |
| `Timeline.PrintInst` | util/o3-pipeview.py:187-279 | prints one row per line, and fails on an empty event list exactly for instructions without any tick |
| `UpgradeRounds.DependenciesFirst` | util/cpt_upgrader.py:138-142 | a pending tag is applied only after every tag it depends on |
| `UpgradeRounds.PresentIffChainsShort` | util/cpt_upgrader.py:242-254 | a pending tag is present after r rounds if and only if no chain of pending dependencies from it is longer than r |
| `UpgradeRounds.RoundIsLongestChain` | util/cpt_upgrader.py:242-254 | the round that applies a tag is the length of its longest chain of pending dependencies |
| `UpgradeRounds.StuckIffCycle` | util/cpt_upgrader.py:244-248 | the schedule gets stuck if and only if the pending tags contain a dependency cycle |
| `UpgradeRounds.StuckForever` | util/cpt_upgrader.py:244-248 | what a stuck round leaves unapplied would stay so in every later round |
| `UpgradeRounds.NeverPresentIff` | util/cpt_upgrader.py:242-254 | a pending tag is never applied if and only if it depends, through pending tags, on a cycle |
| `UpgradeRounds.NoCycleMeansPresent` | util/cpt_upgrader.py:242-254 | without a cycle every pending tag gets applied in some round |
| `UpgradeLinks.ChainedStep` | util/cpt_upgrader.py:165-169 | chaining one more legacy version keeps every other list as its script declared it |
| `UpgradeLinks.ResolvedIsLinked` | util/cpt_upgrader.py:171-183 | after resolution the graph is own dependencies together with reversed forward dependencies |
| `UpgradeLinks.ResolvedIsClosed` | util/cpt_upgrader.py:171-183 | when every audit passed, every dependency names a known tag, including those appended after a tag was audited |
| `UpgradeLinks.GraphOfFiles` | util/cpt_upgrader.py:159-183 | from the files alone: an upgrader depends on the files that forward-depend on it, and on the version before it if it is a chained legacy upgrader, or else on its own list |
| `UpgradeLinks.LegacyChained` | util/cpt_upgrader.py:165-169 | each chained legacy upgrader depends on the one of the version before |
| `UpgradeLinks.DistinctTagsAreOwn` | util/cpt_upgrader.py:133-136 | when no two files share a tag, every script is found under its own tag |
| `Upgrader.Registry.Load` | util/cpt_upgrader.py:90-136 | one script enters the tag set, the dictionaries and the lists; a later script of the same tag or version replaces the earlier one |
| `Upgrader.Registry.LinkLegacy` | util/cpt_upgrader.py:165-169 | chains versions 3 up to the first missing one, and fails exactly when version 3 has no predecessor |
| `Upgrader.Registry.AddForward` | util/cpt_upgrader.py:172-178 | appends a tag to exactly the lists of the tags it forward-depends on, and fails exactly on an unknown one |
| `Upgrader.Registry.ResolveForward` | util/cpt_upgrader.py:171-183 | in whatever order tags are visited, succeeds if and only if all dependencies are known, and then the graph is closed |
| `Upgrader.Registry.LoadAll` | util/cpt_upgrader.py:159-183 | the dictionaries hold exactly the tags and legacy versions of the files, the last file winning; succeeds exactly on complete registries, and then the graph is the linked one and closed |
| `Upgrader.Registry.IsReady` | util/cpt_upgrader.py:138-142 | ready if and only if all dependencies are among the tags |
| `Upgrader.Registry.ApplyAll` | util/cpt_upgrader.py:242-254 | terminates; gives up if and only if the pending tags have a cycle, and then exactly on the tags that depend on one; otherwise ends with the old tags plus all known ones, and every pending tag is in exactly one round, once, in any order within the round; every dependency comes before, and some dependency in the round just before; applies nothing when nothing is pending |
| `Upgrader.Registry.ProcessFile` | util/cpt_upgrader.py:205-254 | all of this from a legacy version or a tag list, with the missing-version and no-version failures; of a legacy version the upgraders of 2 up to it do not run and all others run once, and of a tag list exactly the upgraders of the other tags run |
| `Upgrader.RoundAdvances` | util/cpt_upgrader.py:242-254 | one pass of the loop takes the tags of round r to those of round r + 1 |
| `Upgrader.AppliedExactlyOnce` | util/cpt_upgrader.py:242-254 | every pending tag that does not depend on a cycle is applied in exactly one round |
| `Upgrader.RoundsInOrder` | util/cpt_upgrader.py:242-254 | in the rounds of a migration every tag comes after all its dependencies and right after one of them |
| `Upgrader.DependencyInEarlierRound` | util/cpt_upgrader.py:138-152 | a pending dependency is applied in a strictly earlier round |
| `Upgrader.LegacyInVersionOrder` | util/cpt_upgrader.py:165-169 | in a registry without shared tags, of two legacy versions whose upgraders and all those between are pending, the smaller runs in an earlier round |
| `Upgrader.LegacyCheckpointInVersionOrder` | util/cpt_upgrader.py:208-216 | on a checkpoint with a legacy version all later legacy upgraders are pending, so they run strictly in version order |
| `PortNames.PrintThenParse` | configs/example/read_config.py:137-149 | printing and parsing a port gives it back if and only if its port name is nonempty and free of dots and opening brackets, and its object name is one line |
| `PortNames.ParseIndexed` | configs/example/read_config.py:139-145 | any text of an object, a dot, a port name and a number in brackets is read as that port with that index, whatever follows |
| `PortNames.ParseUnindexed` | configs/example/read_config.py:139-145 | without a number in brackets after the port name the index is 0 |
| `PortNames.DottedNameIsSplit` | configs/example/read_config.py:139 | the part of a port name before a dot is read back as part of the object name |
| `PortNames.GatherPort` | configs/example/read_config.py:286-289 | one connection per listed peer, at its position, or a failure exactly when some peer name does not match |
| `PortNames.GatherAll` | configs/example/read_config.py:273-291 | the connections are exactly the listed ones, each source port index once with one peer |
| `PortBinding.BoundInIndexOrder` | configs/example/read_config.py:322-332 | on every port the k-th binding is the connection with index k |
| `PortBinding.UsedIffCounted` | configs/example/read_config.py:303-310 | a port index is bound if and only if the port's counter has passed it |
| `PortBinding.NeverBothWays` | configs/example/read_config.py:322-332 | no link is made twice or in both directions |
| `PortBinding.HalfMeansAll` | configs/example/read_config.py:334-337 | at most half of the connections are made, and half if and only if every link is made |
| `PortBinding.PassStaysAhead` | configs/example/read_config.py:321-332 | every link of any bindable choice of directions is made by the greedy pass |
| `PortBinding.FullyMadeIff` | configs/example/read_config.py:322-332 | a list is bound completely if and only if every connection joins two ports and every port's indices come as 0, 1, 2, ... |
| `PortBinding.PassIsComplete` | configs/example/read_config.py:312-337 | the pass makes every link if and only if one direction per link can be chosen so that every port's indices come in order |
| `PortBinding.SamePortNeverMade` | configs/example/read_config.py:325-326 | a link between two indices of one port is never made, in any order |
| `PortBinding.SamePortFails` | configs/example/read_config.py:334-337 | so every list with such a link fails the check |
| `PortBinding.ConnectionsToMake` | configs/example/read_config.py:303-332 | the pass with its counters makes exactly the connections of the specification, and fails exactly when it looks up a port never listed as a source |
| `PortBinding.SymmetricHasNoMissing` | configs/example/read_config.py:293-296 | listing every link in both directions rules that failure out |
| `PortBinding.LoneConnection` | configs/example/read_config.py:325-326 | for a single connection: the other end is looked up, and missed, if and only if the first end is next in line and on another port |
| `PortBinding.BindPorts` | configs/example/read_config.py:293-337 | the result of each of the three outcomes, for the list in any order |
| `PortBinding.BoundMeansAllOnce` | configs/example/read_config.py:334-337 | a binding that passes the check has every link exactly once, in index order on every port |
| `PortBinding.SortedListCanFail` | configs/example/read_config.py:312-314 | a family of well-formed sorted lists fails although the same links can be bound in another order |
| `Framing.OrIsSum` | util/protolib.py:115 | the or of a group shifted past the bits read so far is a sum |
| `Framing.EncodeVarint` | util/protolib.py:143-155 | writes the base-128 digits of the value, low group first, with continuation bits |
| `Framing.VarintIsShortest` | util/protolib.py:143-155 | those bytes are the shortest groups of seven bits that stand for the value, with continuation bits on all but the last |
| `Framing.DecodeVarint` | util/protolib.py:98-126 | reads one varint, leaves the rest of the stream, and reports end of file and overlong input |
| `Framing.DecodeBytes` | util/protolib.py:98-126 | on any bytes: the value of the groups up to the first byte without a continuation bit, if that is among the first ten; otherwise end of file or too many bytes |
| `Framing.ReduceIs` | util/protolib.py:118-123 | the reduction keeps the low 32 bits and is negative exactly from 2^63 on |
| `Framing.DecodeEncoded` | util/protolib.py:98-155 | decoding an encoded value gives its 32-bit reduction and leaves what follows untouched; values of more than 70 bits are refused |
| `Framing.EncodeMessage` | util/protolib.py:157-163 | appends the length and then the bytes |
| `Framing.DecodeMessage` | util/protolib.py:128-141 | returns the next message or False, or lets the ValueError of a size below -1 through, and leaves the stream after the message |
| `Framing.RaisesIff` | util/protolib.py:118-141 | a size makes it raise if and only if it has at least 64 and at most 70 bits and does not end in 32 ones; longer ones read as False |
| `Framing.ReadBehindSize` | util/protolib.py:134-139 | on any bytes behind a size: as many as it says modulo 2^32, fewer at the end of the file, no message for 0, all for -1 |
| `Framing.ReadMessages` | util/decode_inst_dep_trace.py:153-154 | the reading loop returns every message up to the first False or ValueError, and which of the two ended it |
| `Framing.MessagesRoundTrip` | util/protolib.py:128-163 | a written list of messages is read back, without an error, if and only if every length is between 1 and 2^32 - 1 |
| `Framing.EmptyMessageEndsFile` | util/protolib.py:135-136 | of a written list with an empty message, exactly the messages before it are read |
| `DepTrace.PrintRecord` | util/decode_inst_dep_trace.py:157-203 | writing piece by piece appends the record's line |
| `DepTrace.PrintRecords` | util/decode_inst_dep_trace.py:153-203 | the printing loop writes one line per record |
| `DepTrace.LineText` | util/encode_inst_dep_trace.py:76-87 | the text of a line, field by field, with the defaults of the optional ones |
| `DepTrace.DepTextIs` | util/encode_inst_dep_trace.py:78-87 | dependencies are written with a comma before each |
| `DepTrace.ParseRecord` | util/encode_inst_dep_trace.py:148-192 | the line parser, with every conversion failure |
| `DepTrace.LineIsRead` | util/encode_inst_dep_trace.py:147-192 | any line of three parts between two colons, with blanks at its ends and around the second part, is read part by part |
| `DepTrace.InfoIs` | util/encode_inst_dep_trace.py:149-177 | which records are read from which fields, field by field, for all lists of fields |
| `DepTrace.DepsAppend` | util/encode_inst_dep_trace.py:179-192 | dependencies are read in order, empty parts are skipped, and a part that is no number makes the line fail |
| `DepTrace.ParseRecords` | util/encode_inst_dep_trace.py:147-195 | the parsing loop reads every line or fails at a malformed one |
| `DepTrace.LinesAre` | util/encode_inst_dep_trace.py:147 | the lines of a text file, whether or not the last one ends in a newline |
| `DepTrace.LineRoundTrip` | util/encode_inst_dep_trace.py:148-192 | a printed record is parsed back, with the pc and weight defaults made explicit, if and only if it is well-formed: address, size and flags exactly for loads and stores |
| `DepTrace.AddressReadAsDelay` | util/encode_inst_dep_trace.py:175-177 | a computation record printed with an address is accepted, with the address as its delay |
| `DepTrace.FileRoundTrip` | util/encode_inst_dep_trace.py:147-195 | the same for whole files of any length |
| `SectionNames.RemoveInserted` | util/checkpoint_aggregator.py:65-66 | the inserted digits can be removed again: insertion neither creates nor destroys an occurrence of "cpu" |
| `SectionNames.InsertBehindFirst` | util/checkpoint_aggregator.py:66 | the number goes right behind the first "cpu" of a name, and the rest is treated alike |
| `SectionNames.InsertNothing` | util/checkpoint_aggregator.py:65-66 | a name without "cpu" stays as it is |
| `SectionNames.HasCpuIff` | util/checkpoint_aggregator.py:65 | a section is renamed if and only if its name contains "cpu" |
| `SectionNames.ZfillValue` | util/checkpoint_aggregator.py:56 | the padded index has the common width and the value of the index |
| `SectionNames.LastIsNotPadded` | util/checkpoint_aggregator.py:56 | the width is the number of digits of the last checkpoint's number |
| `SectionNames.RenameInjective` | util/checkpoint_aggregator.py:56-67 | renaming is injective over all pairs of checkpoint index and section name |
| `Aggregator.CopyPages` | util/checkpoint_aggregator.py:102-109 | reading page by page copies the promised pages, or all there is |
| `Aggregator.ImageLength` | util/checkpoint_aggregator.py:95-109 | the merged image has the promised length if and only if no memory file is too short |
| `Aggregator.RelocatedByte` | util/checkpoint_aggregator.py:71-72 | the byte at a relocated address is the byte at the original address |
| `Aggregator.RelocationExact` | util/checkpoint_aggregator.py:71-72 | a checkpoint's copy starts where its relocated addresses point if and only if all earlier files are complete |
| `Aggregator.MarkedIsMisplaced` | util/checkpoint_aggregator.py:71-109 | after an incomplete file, for every shape of checkpoints with something to copy, some contents put a byte in the wrong place |
| `Aggregator.BytesInPlaceIff` | util/checkpoint_aggregator.py:71-109 | for given page counts and file lengths, relocated addresses name the right bytes for all contents if and only if all earlier files are complete or nothing is copied |
| `Aggregator.NoAliasing` | util/checkpoint_aggregator.py:71-96 | relocated addresses of different checkpoints never coincide |
| `Aggregator.Pad` | util/checkpoint_aggregator.py:118-126 | pads with pages of '0' to the larger of the image and the requested size |
| `Aggregator.RelocateItems` | util/checkpoint_aggregator.py:69-77 | the items of a renamed section, or a failure exactly on a malformed address |
| `Aggregator.FreshName` | util/checkpoint_aggregator.py:66-67 | a section to be added never collides with one already added |
| `Aggregator.MergeSections` | util/checkpoint_aggregator.py:64-89 | one checkpoint contributes exactly its renamed and, if last, shared sections |
| `Aggregator.SectionsStayDistinct` | util/checkpoint_aggregator.py:58-92 | sections from different checkpoints have different names |
| `Aggregator.MergeAll` | util/checkpoint_aggregator.py:58-112 | the outer loop: all configurations, the concatenated image, the page count and the largest tick |
| `Aggregator.Aggregate` | util/checkpoint_aggregator.py:41-136 | the three outcomes; after padding with '0', the image has length range_size if and only if all files are complete, and range_size is the smallest number of pages that holds the image and the requested size |
| `Aggregator.FinishedKeeps` | util/checkpoint_aggregator.py:114-134 | the sections added for the merged checkpoint replace no cpu section |
| `Aggregator.MergedHeader` | util/checkpoint_aggregator.py:114-134 | the page pointer written is above every relocated address and, with complete files, at the end of the unpadded image; the next process number is the number of checkpoints; the tick is the largest of the checkpoints'; the store's range size is that of the image |
| `Aggregator.RenamedItems` | util/checkpoint_aggregator.py:69-77 | in a renamed section all items but the address are copied, and file descriptor maps get the checkpoint's number as process number |
| `Aggregator.SharedSection` | util/checkpoint_aggregator.py:79-89 | the other sections of the last checkpoint are copied, but for the range size |
| `Aggregator.FdMapIff` | util/checkpoint_aggregator.py:76 | which sections count as file descriptor maps |
| `Aggregator.MergedAddressNamesSameByte` | util/checkpoint_aggregator.py:64-136 | in the configurations and the image that the tool writes, an address names the byte it named in its own checkpoint |
| `RunControl.TakeCheckpoints` | configs/common/Simulation.py:226-261 | against any simulator and for any period: the checkpoints written, the tick limit, and exactly when a negative number of ticks is asked for |
| `RunControl.NextCheckpoint` | configs/common/Simulation.py:252-259 | one period, with benchmark checkpoints skipped and the cause of the first stop kept |
| `RunControl.CheckpointsAtPeriods` | configs/common/Simulation.py:226-261 | checkpoints are at when, when + period, ... without a gap, never beyond maxtick, and at most max(1, max_checkpoints) |
| `RunControl.UndisturbedSeries` | configs/common/Simulation.py:226-261 | undisturbed, the series goes on until there are enough checkpoints, or the next would be after maxtick and the run goes on to maxtick |
| `RunControl.SeriesIsCutShort` | configs/common/Simulation.py:246-259 | the series taken is the intended one cut after the first period with a benchmark checkpoint |
| `RunControl.SeriesCompleteIff` | configs/common/Simulation.py:246-259 | on a given run, the intended series is taken if and only if at most one of its checkpoints comes after the undisturbed periods |
| `RunControl.SeriesAlwaysCompleteIff` | configs/common/Simulation.py:246-259 | the intended series is taken on every run if and only if the settings leave room for at most one more checkpoint |
| `RunControl.BenchmarkCheckpointEndsSeries` | configs/common/Simulation.py:252-256 | a concrete run that loses two checkpoints |
| `RunControl.FirstTargetWithinLimitIff` | configs/common/Simulation.py:231-235 | the run to the first checkpoint stays within maxtick on every run if and only if the checkpoint is asked for no later than maxtick |
| `RunControl.System.SwitchCpus` | src/python/m5/simulate.py:311-327 | exactly the old CPUs become inactive and the new ones active, and the switch is recorded |
| `RunControl.BetweenStep` | configs/common/Simulation.py:416-421 | switching and swapping the list keeps the invariant between switches, so the next switch is allowed again |
| `RunControl.BetweenMeansOneActive` | configs/common/Simulation.py:407-425 | between switches exactly one CPU of each pair is active, and no other CPU changes |
| `RunControl.RepeatSwitch` | configs/common/Simulation.py:407-425 | makes one switch per completed period, with the pairs and the swapped pairs in turn, each meeting the simulator's checks; the end of the run and which CPUs are then active |
| `RunControl.PeriodsBounded` | configs/common/Simulation.py:423-425 | the remaining ticks bound the number of switches whatever the simulator does |
| `RunControl.UndisturbedSwitching` | configs/common/Simulation.py:407-425 | undisturbed, the run ends at maxtick, and after the last switch at most one period is left |
| `RunControl.SwitchingStaysWithinIff` | configs/common/Simulation.py:407-425 | the run stays within maxtick whatever the simulator does if and only if the first period fits |
| `RunControl.GuardIsNotEnough` | configs/common/Simulation.py:724-726 | a concrete run that passes the caller's guard and overshoots |
| `GpuPorts.ConstructAll` | configs/ruby/GPU_VIPER.py:835-918 | the construction loops build the sequencer list in its documented order |
| `GpuPorts.ListShape` | configs/ruby/GPU_VIPER.py:835-918 | what stands at every position of that list, and its length |
| `GpuPorts.SequencerCounts` | configs/ruby/GPU_VIPER.py:835-918 | the list has core pairs for two CPUs each, one TCP per compute unit, and the fewest shared instruction and scalar caches |
| `GpuPorts.ShareWalk` | configs/example/apu_se.py:623-629 | advancing at every multiple gives unit i the (i / per)-th shared sequencer, in bounds, and consumes the ceiling of n / per |
| `GpuPorts.CoalescersOfAll` | configs/example/apu_se.py:607-612 | the coalescers found by type are exactly the TCPs, in order |
| `GpuPorts.AttachPorts` | configs/example/apu_se.py:599-651 | for all counts and sharing factors, each unit and command processor gets its own or its shared sequencer, and the walk ends exactly at the end of the list |
| `TlbPorts.SharedSlot` | configs/common/GPUTLBConfig.py:195-200 | where quotient and truncated remainder by a fraction put a compute unit |
| `TlbPorts.SharedDistinct` | configs/common/GPUTLBConfig.py:195-200 | units that share a TLB get different ports of it |
| `TlbPorts.L1SlotsDistinct` | configs/common/GPUTLBConfig.py:186-200 | in every configuration distinct translation ports get distinct slots, on existing TLBs and with port numbers below the units per TLB |
| `TlbPorts.ConnectL1` | configs/common/GPUTLBConfig.py:186-200 | the connecting loops assign those slots, and divide by zero exactly without a TLB |
| `TlbPorts.ConfigSlots` | configs/common/GPUTLBConfig.py:100-200 | what each configuration means for every compute unit: sixty-four TLBs of its own, the only TLB with the unit's number as port, its own TLB, or one shared with its neighbour, where of an odd number of units the first three share one |
| `TlbPorts.NoTlbIff` | configs/common/GPUTLBConfig.py:100-112 | there is no L1 TLB exactly for one compute unit shared in pairs |
| `TlbPorts.NumberL2` | configs/common/GPUTLBConfig.py:221-228 | the L2 ports are handed out as 0, 1, 2, ... over all L1 TLBs |
| `TlbRounding.FractionOnlyIf` | configs/common/GPUTLBConfig.py:187-200 | the divisor is not whole only for an odd number of units shared in pairs |
| `TlbRounding.RoundingCanFail` | configs/common/GPUTLBConfig.py:199-200 | with k TLBs shared by 2 k + 1 units and 2 (2 k - 1) k > 2^53 + 1, some rounding of divisor and quotient within one part in 2^53 puts the last unit but one on the wrong TLB |
| `TlbRounding.FloatSlotIsExact` | configs/common/GPUTLBConfig.py:195-200 | in every shared configuration, however divisor and quotient are rounded, every compute unit gets its exact slot if and only if the divisor is whole or k TLBs share 2 k + 1 units with 2 (2 k - 1) k <= 2^53 + 1 |
| `MemTestTree.NumTesters` | configs/example/memtest.py:105-116 | the multiplier loop computes the sum of testers times fan-out |
| `MemTestTree.ClosedFormCountsTree` | configs/example/memtest.py:105-116 | that sum is the number of testers in the recursively built tree |
| `MemTestTree.Builder.MakeCacheLevel` | configs/example/memtest.py:225-286 | one recursive call creates its subtree's testers and advances each level's counter by its share; all list accesses are in range |
| `MemTestTree.BelowIsFanout` | configs/example/memtest.py:225-286 | subsystems at a level are the product of the fan-outs above it |
| `MemTestTree.BuildTree` | configs/example/memtest.py:220-289 | the script creates as many testers as counted in advance, and each subsystem has the testers of its level, and each level hands out 0, 1, 2, ... exactly once |
| `CopyrightYears.GatherRanges` | util/find_copyrights.py:186-197 | gathers ascending years into ascending, disjoint, non-adjacent ranges that cover exactly them |
| `CopyrightYears.DateStr` | util/find_copyrights.py:175-199 | prints such ranges of the set, a single year as itself and others as first-last, with commas between, and fails exactly on the empty set |
| `CopyrightYears.FewestRanges` | util/find_copyrights.py:175-199 | no list of ranges that covers the same years is shorter |
| `CopyrightYears.ProcessDates` | util/find_copyrights.py:98-116 | collects exactly the years that some part of the list contributes |
| `CopyrightYears.SpacedListIsRead` | util/find_copyrights.py:100 | blanks around the parts of a list do not matter |
| `CopyrightYears.DashedIsRange` | util/find_copyrights.py:98-108 | two four-digit years with a dash between them, among blanks and before any text, are read as the range between them |
| `CopyrightYears.RangeIsDashed` | util/find_copyrights.py:98-104 | nothing else is read as a range |
| `CopyrightYears.YearsRoundTrip` | util/find_copyrights.py:98-116 | the printed set is parsed back if and only if no two consecutive years lie outside 1000 to 9999 |
| `CopyrightYears.ShortYearsAreLost` | util/find_copyrights.py:97-103 | of a range that starts before the year 1000 nothing is read back |

## Left out

- Checkpoint upgrader: downgraders. The header comment gives a dependency on a downgraded tag a meaning that `ready` does not test, so registries here hold upgraders only.
- Checkpoint upgrader: which section tags are read from and written to, backups, directories, and what an upgrader does to the checkpoint.
- Pipeline viewer: colours, the header, the text after each timeline, timestamps, normalisation of blanks in disassembly, and malformed or missing trace lines.
- PipeStop.ViewerPrintsTheRange: for traces with one contiguous block of lines per instruction, as the simulator writes them.
- Configuration reader: object creation, the final `setattr` of each port, and the sort order itself, which rests on a comparison hook that Python 3 ignores; the pass is proved for every order.
- Integer parsing everywhere: signs, underscores, surrounding blanks and non-ASCII digits that Python's `int` accepts.
- White space: only the ASCII space and the characters from tab to carriage return count as blank.
- Trace files: protobuf serialisation (a message is its bytes), compression, the magic number and the header message, the printed totals, and the fields `v_addr` and `asid`, which the text form does not have.
- Checkpoint aggregator: compression, text written to files opened for bytes, and configuration parsing; the page count and tick arrive as numbers.
- Run control: checkpoints at instruction counts, SimPoint checkpoints and benchmark-only checkpoints.
- RunControl.RepeatSwitch: the pair list names distinct CPUs, and the first switch meets the simulator's checks, which otherwise raise an error; memory modes and handover support are not modelled.
- Run control: a list of replies stands for a finite part of a run, so a benchmark that requests checkpoints forever without advancing time is cut off.
- GPU ports: controllers, networks and topology; only the sequencers and their order matter here. The instruction and scalar TLB maps are plain quotients and remainders.
- TlbRounding.FloatSlotIsExact: for up to 2^53 compute units, which are the numbers that a float holds exactly. It rests on what double precision promises: a quotient is off by at most one part in 2^53 and exact when whole, and the remainder by a float is exact. The condition is exact for that promise; which of the two neighbours IEEE 754 picks is not modelled. The exact maps of `TlbPorts` are what it compares with.
- Memory tester: parameter scaling of the cache prototypes, cache and crossbar wiring, and the command-line checks, which the tree specification assumes.
- Copyright tool: finding comment blocks, owners and authors in source files.
- Ruby protocols, address interleaving, option tables, code generators, disk images and log tools.
