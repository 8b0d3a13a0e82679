# Verification models of the platform's core

This project models, in Dafny 4.11, the parts of the platform whose behaviour is decided by code rather than by a
database or a user interface, and proves what they are relied on for. One module corresponds to one component:

- **Flow graphs.** `FlowGraph`, `KahnSort`, `KahnPriority`, `FlowMeaning`, `FlowAnswers`, `BlockEngine`, `ListedSort`,
  `SortAgreement`, `FlowCanvas`, `CanvasHistory`, `ServiceGraph` and `ServiceSchedule` cover the three Kahn-queue sorts,
  the depth-first sort of the service generator, the execution of a flow, and the canvas edits that produce the graphs.
  Kahn's algorithm is specified without loops or counters (`KahnSort.IsKahnOrder`) and without a queue
  (`KahnPriority.Priority`), the three loops are proved against that specification, and the cached execution is proved
  equal to the recursive meaning of the graph.
- **Wire codec.** `Base128`, `Utf8`, `Wire`, `SensorCodec` and `CommandCodec` cover the Protocol Buffers encoder and
  decoders (Encoding guide, sections "Base 128 Varints", "Message Structure", "Length-Delimited Records", "Last One
  Wins" and "Maps"; RFC 3629 for UTF-8).
- **Channel hub.** `ChannelHub`, `HubMembership`, `BatchBuffer` and `BatchFate` cover the two subscriber indexes, the
  bounded history and the batch buffer shared by coroutines.
- **Scheduler.** `MinuteSearch`, `CronFields`, `Cron` and `CronText` cover cron expressions and the next-run searches of
  backend and frontend, `SchedulerProtocol`, `SchedulerCoverage`, `SchedulerRuns` and `SchedulerExamples` the lock, poll,
  execute and record protocol of replicas.
- **Virtual files.** `FileTree`, `FilePaths` and `Strings` cover the parent-pointer forest, its recursive deletion,
  and paths.
- **Services.** `ServiceSupervisor` covers the reconciliation of flagged pages and running processes.
- **Arithmetic and queries.** `RateLimiter`, `AnomalyDetector`, `AnomalyReach`, `TableQuery`, `FilterMeaning`,
  `TablePaging` and `FilterText`.

Code that updates state is modelled by methods and classes that do the same, each proved against a function of its
inputs or old state; the laws are then lemmas about those functions, over every input or every run, and among them
each operation's effect is told in the caller's terms.

The main results, hardest first:

- A flow's results are its recursive meaning, whatever the order, and each is its handler's answer to the sources that
  did not fail (`BlockEngine.ExecuteFlow`, `FlowAnswers.RunAnswers`, `FlowMeaning.SolutionIsMeaning`,
  `FlowMeaning.ScheduleIndependent`, `ServiceSchedule.GeneratorOrderAlike`).
- Kahn's sort emits the least closed set, in an order the graph determines, and leaves out what cycles or unknown nodes
  hold back (`KahnSort.KahnSetIsLeastClosed`, `KahnPriority.EarlierIffPriority`, `KahnSort.OmittedIff`); the three
  versions agree (`SortAgreement.SortsAgreeIff`, `FlowCanvas.SessionSortsAgree`).
- Deletion removes exactly a subtree; over every run the tree is a forest and the disk holds its files and those of
  rejected uploads (`FileTree.FileStore.DeleteEntry`, `FileTree.RunTidy`).
- At most one replica runs tasks, a poll executes what is due and nothing else (`SchedulerCoverage.PollExact`,
  `SchedulerCoverage.RunsWereDue`), run counts are the recorded histories, and a page can run again in a minute exactly
  when its earliest next poll lies in it (`SchedulerProtocol.RunInvariant`, `SchedulerProtocol.RunCountIsHistoryIff`,
  `SchedulerRuns.SecondRunInMinuteIff`).
- Decoding is merging, and inverts encoding (`SensorCodec.SensorConcatenation`, `SensorCodec.SensorRoundTrip`,
  `CommandCodec.CommandRoundTrip`, `Base128.VarintShortest`).
- The two channel registries stay inverse, membership is what subscriptions and departures make it, and batches lose
  nothing (`ChannelHub.RegistriesAgree`, `HubMembership.MembershipIff`, `BatchBuffer.EventsConserved`).
- Cron expressions mean on both sides what they are printed from (`CronText.ExpressionMeans`), and a built query selects
  what its filters say (`FilterMeaning.BuiltSelects`).
- The depth-first sort places every listed node once, and only links of cycles point back
  (`ServiceGraph.GenerateOrder`, `ServiceGraph.LegacyOrder`).
- Every live service process is the tracked one of its page, and runs its current code but for what polls overlook
  (`ServiceSupervisor.RunSupervised`, `ServiceSupervisor.RunsCurrentCodeIff`).
- The rate limiter admits at most 2*limit - 1 calls in a minute (`RateLimiter.AtMostTwiceLimit`), a detector can
  fire exactly when its window is long enough (`AnomalyReach.CanFireIff`), and paths and breadcrumbs are inverse
  (`FilePaths.BreadcrumbResolves`, `FilePaths.PathIsBreadcrumb`).

Fourteen statements one would expect are false of the code. The models keep the code as it is, give an input, and prove
exactly when the statement holds:

- The canvas keeps wires between listed nodes, unless the source node of a wire is deleted or reloaded away while the
  wire is being drawn (`FlowCanvas.CarelessSession`, `FlowCanvas.StepWellFormed`).
- A page can run twice in one calendar minute although a comment says it is skipped
  (`SchedulerExamples.TwiceInOneMinute`, `SchedulerRuns.SecondRunInMinuteIff`).
- A page can be executed without being counted, and then once by every replica in one minute, when its next-run search
  raises or a task ends in an SQL error (`SchedulerExamples.ThreeInOneMinute`, `SchedulerExamples.SqlErrorNotCounted`,
  `SchedulerProtocol.RunCountIsHistoryIff`, `SchedulerProtocol.RecordedIff`).
- A poll restarts a healthy, unchanged service whose code contains a carriage return
  (`ServiceSupervisor.TwoPollsTwoProcesses`, `ServiceSupervisor.RestartedEveryPollIff`).
- A live page need not run its current code: changed visual flows and emptied Python code are overlooked
  (`ServiceSupervisor.ChangedFlowOverlooked`, `ServiceSupervisor.EmptiedCodeOverlooked`,
  `ServiceSupervisor.RunsCurrentCodeIff`).
- An unknown field is not skipped by the command decoders if it is of 32 or 64 bits
  (`CommandCodec.TimestampLost`, `CommandCodec.CommandInsertableIff`, `CommandCodec.AckInsertableIff`).
- The two cron matchers disagree on a range from 0 to -0 (`CronFields.DoubleDashDiffers`,
  `CronFields.FieldsAgreeIff`, `Cron.NextRunsAgreeIff`).
- They disagree on numbers written with underscores (`CronFields.UnderscoreDiffers`, `Cron.UnderscoreHour`,
  `CronFields.IntsAgreeIff`).
- They disagree on weekdays (`Cron.WeekdayDiffers`, `Cron.WeekdaysAgreeIff`).
- A query fails when a filter names an inherited property such as `constructor` as its operator
  (`TableQuery.ConstructorIsRejected`, `TableQuery.QueryMeansFiltersIff`).
- Successive pages repeat or skip rows when ties lie across a page boundary or the size exceeds the cap
  (`TablePaging.CapSkips`, `TablePaging.StraddleRepeats`, `TablePaging.QueriesTileIff`).
- A text filter is the test its name promises only for values without %, _ and backslash, which are not escaped
  (`TableQuery.PrefixTestIff`, `TableQuery.SuffixTestIff`, `TableQuery.ContainsTestIff`).
- Deleting an entry can leave a key on disk when a file lies below another file, which upload and database allow
  (`FileTree.FileBelowFileLeavesKey`, `FileTree.RemoveOrphansIff`).
- So does an upload whose name, MIME type or visibility is too long for its column (`FileTree.LongNameLeavesKey`,
  `FileTree.FileStore.UploadFile`).

## Model

| member | source | states |
|---|---|---|
| FlowGraph.LinksAgree | backend/scheduler.py:224-228 | on a graph as the canvas saves it, with all targets listed, the three readings of an edge list (from before source, source before from, from and to only) give the same links in the same order |
| FlowGraph.LinksRead | backend/block_engine.py:61-66 | exactly which links each program reads from which edges: the engine prefers from and to, the generator source and target, an empty or missing text giving way; the listed sorts read from and to only |
| KahnSort.ReleasedExact | backend/block_engine.py:74-77 | scanning v's neighbours enqueues, once each, exactly those whose last unmet source was v, parallel links included |
| KahnSort.RunInvariant | backend/block_engine.py:68-79 | at every point of every run, what was ever enqueued is duplicate-free, starts with what was dequeued, and is exactly the set of nodes whose incoming sources are all emitted |
| KahnSort.RunsAgree | backend/block_engine.py:68-79 | any two partial runs are prefixes of one another: the order is determined by the graph and the listing |
| KahnSort.KahnOrderUnique | backend/block_engine.py:68-79 | a finished order extends every partial run, and two finished orders are equal |
| KahnSort.KahnOrderExists | backend/block_engine.py:71-79 | every partial run can be completed, on every graph, cyclic ones included |
| KahnSort.SourcesFirst | backend/block_engine.py:56-57 | every link into an emitted node has its source emitted strictly earlier |
| KahnSort.KahnSetIsLeastClosed | backend/block_engine.py:56-79 | each node is emitted at most once, and the emitted set is the least set closed under "all incoming sources are emitted" |
| KahnSort.OmittedIff | backend/block_engine.py:56-79 | on every graph, a node is left out exactly when it lies on a cycle, or downstream of a cycle or of a node that is neither listed nor a target |
| KahnSort.OmittedIffOnOrBelowCycle | backend/block_engine.py:56-79 | when every link source is a known node, cycles are the only cause |
| KahnPriority.KahnOrderByPriority | backend/block_engine.py:68-79 | in the emitted order every earlier node has priority over every later one: its last source was emitted earlier, or neither has sources and it is listed first, or one node was the last source of both and its last link to it comes first |
| KahnPriority.EarlierIffPriority | backend/block_engine.py:68-79 | two emitted nodes stand in the order of their priority, which decides between any two: the order is told without queue or counters |
| BlockEngine.TopologicalSort | backend/block_engine.py:56-79 | the dictionary-and-queue loop returns the Kahn order of the graph, for every node list with distinct ids and every edge list |
| BlockEngine.CollectInputs | backend/block_engine.py:178-183 | the inputs of a block have one entry for each upstream with a result that has no error, with its data, in order of first occurrence, and no other entry |
| BlockEngine.ExecuteFlow | backend/block_engine.py:135-197 | the result map has exactly the emitted nodes that are listed; each result is the recursive meaning of its block, whatever rank the recursion is measured by, and the answer of its handler (or of a missing handler) to the data of its sources that have no error, as the edges give them |
| BlockEngine.ResultsAreMeanings | backend/block_engine.py:161-197 | running the blocks in Kahn order and caching results computes the recursive meaning of every block |
| BlockEngine.AcyclicFlowRunsEveryBlock | backend/block_engine.py:161-197 | on an acyclic graph with known sources every listed block gets a result |
| FlowMeaning.KahnOrderIsSchedule | backend/block_engine.py:56-79 | a Kahn order lists each node once, after all its sources |
| FlowMeaning.RunSolves | backend/block_engine.py:161-197 | the final map satisfies every block's equation at once: no result is computed from a value that changes later |
| FlowMeaning.SolutionIsMeaning | backend/block_engine.py:146-197 | the equations have one solution, the recursive meaning |
| FlowMeaning.ScheduleRank | backend/block_engine.py:146-197 | every schedule provides the rank the recursive meaning needs, so the comparison is never vacuous |
| FlowMeaning.ScheduleIndependent | backend/block_engine.py:146-197 | any two orders of the same nodes that put sources first give the same result map |
| FlowAnswers.CollectDelivered | backend/block_engine.py:178-183 | what is collected, key by key: present without an error, once, in order of first occurrence, with its data |
| FlowAnswers.DeliveredUnique | backend/block_engine.py:178-183 | no other inputs fit that description |
| FlowAnswers.SourcesInOrder | backend/block_engine.py:153-159 | a node's upstreams are the sources that the edges give it, edge by edge |
| FlowAnswers.NodeMapListed | backend/block_engine.py:150 | of several nodes with one id the last is the one that runs |
| FlowAnswers.RunAnswers | backend/block_engine.py:161-197 | in the final map of every run each listed block that ran holds its handler's answer to its sources: plain data as data, a BlockResult as it is, an exception as its message, and an unknown type as an error |
| FlowAnswers.FailedSourceUnseen | backend/block_engine.py:180-183 | over whole runs, a handler sees no entry for a source whose result has an error |
| ListedSort.CanvasOrder | frontend/lib/components/flow-canvas.js:476-494 | the canvas sort returns the Kahn order of the links to listed nodes and never fails |
| ListedSort.CanvasSort | frontend/lib/components/flow-canvas.js:476-501 | the emitted blocks are the saved nodes themselves, in Kahn order |
| ListedSort.SchedulerOrder | backend/scheduler.py:220-238 | succeeds with the Kahn order when no emitted node links to an unlisted one, and fails only when one does |
| ListedSort.SchedulerSort | backend/scheduler.py:220-241 | KeyError exactly when a listed node's edge has no `to` or an emitted node links to an unlisted one, so never when the edges of listed nodes end at listed nodes; otherwise the type and config of the node with each emitted id, in Kahn order |
| SortAgreement.IntoEnqueued | backend/block_engine.py:68-77 | dropping the links into unlisted nodes drops exactly those nodes from everything ever enqueued, for every partial run |
| SortAgreement.SortsAgreeIff | frontend/lib/components/flow-canvas.js:476-501 | on the canvas's own edges the engine returns the same order as the other two if and only if every unlisted target has a source that is not emitted |
| SortAgreement.SortsAgree | backend/scheduler.py:220-241 | no edge the canvas writes lacks a target, and whenever the scheduler does not fail on a dangling link all three sorts return the same order |
| FlowCanvas.StepWellFormed | frontend/lib/components/flow-canvas.js:50-143 | an edit, or a reload of what the page holds, keeps the wires between listed nodes, without self-loops or repeated slots, exactly unless it completes a wire whose source node was deleted or reloaded away during the drag, or reloads a graph that was not so kept |
| FlowCanvas.SessionWellFormed | frontend/lib/components/flow-canvas.js:50-143 | every session of edits and reloads stays well formed that reloads well-formed canvases and neither deletes nor reloads away the source node of a drag |
| FlowCanvas.SessionTargetsListed | frontend/lib/components/flow-canvas.js:50-143 | in every session of edits and reloads, careful or not, wires end at listed nodes |
| FlowCanvas.SessionSortsAgree | frontend/lib/components/flow-canvas.js:50-143 | on the graph that any session of edits and reloads saves, all three Kahn sorts return the same order and none fails |
| FlowCanvas.CarelessSession | frontend/lib/components/flow-canvas.js:129-141 | start a wire at a, delete a, drop the wire on b: the saved wire leaves an unlisted node |
| FlowCanvas.NeverEmitted | backend/block_engine.py:56-79 | on every canvas whose wires end at listed nodes, as every session keeps them, the node at the end of a wire whose source is not listed is never emitted |
| CanvasHistory.StepWires | frontend/lib/components/flow-canvas.js:50-143 | an edit adds a wire exactly when a drag from an output is dropped on an input of another node not yet wired so, or a reload brings it, and removes one exactly when an end is removed, it is removed itself, or a reload does not bring it |
| CanvasHistory.StepNodes | frontend/lib/components/flow-canvas.js:50-143 | which nodes and which pending connection an edit leaves |
| CanvasHistory.DetachInOrder | frontend/lib/components/flow-canvas.js:73-143 | removing a node keeps the order of the wires that stay |
| CanvasHistory.WithoutInOrder | frontend/lib/components/flow-canvas.js:73-143 | and that of the nodes |
| CanvasHistory.WirePresentIff | frontend/lib/components/flow-canvas.js:50-143 | after every session a wire is on the canvas exactly when it was there or was drawn or loaded at some edit, and nothing has cut it since |
| ServiceGraph.DepthFirst.Dfs | backend/service_manager.py:161-167 | the recursion is well founded on every graph, keeps finished nodes after their children, and visits only what the listed nodes reach (Python's recursion limit apart) |
| ServiceGraph.GenerateOrder | backend/service_manager.py:147-171 | the order holds each reached node once, a link that points backwards closes a cycle, and what a later listed node is the first to reach comes before what earlier ones reach |
| ServiceGraph.ListedExactlyOnce | backend/service_manager.py:157-171 | every listed node is emitted exactly once, on every graph |
| ServiceGraph.AcyclicLinksPointForward | backend/service_manager.py:157-171 | on an acyclic graph every link goes from earlier to later |
| ServiceGraph.ConvertLegacy | backend/service_manager.py:391-400 | n legacy blocks become nodes block_0..block_{n-1} with their own config and type (custom_code by default), chained |
| ServiceGraph.BlockIdText | backend/service_manager.py:396-400 | the ids are block_0, block_7, block_42 |
| ServiceGraph.LegacyOrder | backend/service_manager.py:391-401 | the chain of n legacy blocks can only come out as block_0, ..., block_{n-1} |
| ServiceGraph.GenerateLegacyOrder | backend/service_manager.py:391-401 | converting and sorting n legacy blocks emits them in their own order (Python's recursion limit apart) |
| ServiceSchedule.LayoutIsSchedule | backend/service_manager.py:157-171 | on an acyclic graph with listed ends the generator's order lists each node once, after all its sources |
| ServiceSchedule.GeneratorOrderAlike | backend/service_manager.py:157-171 | evaluating the blocks of an acyclic canvas flow in the generator's order gives the engine's results |
| Base128.EncodeVarint | backend/proto_codec.py:188-197 | the encoder loop produces the base-128 form of the number |
| Base128.DecodeVarint | backend/proto_codec.py:225-235 | the shift-and-or loop reads one base-128 number at any offset, clamped at the end of the input, and advances whenever a byte is left |
| Base128.VarintRoundTrip | backend/proto_codec.py:188-235 | reading what was written gives the number and leaves any suffix untouched |
| Base128.VarintAtOffset | backend/proto_codec.py:225-235 | the same at every offset, behind any prefix |
| Base128.VarintShortest | backend/proto_codec.py:188-197 | no other byte string that reads as n is as short as the encoder's |
| Base128.VarintGroups | backend/proto_codec.py:188-197 | byte k holds the k-th group of seven bits, lowest first, and all bytes but the last are marked |
| Utf8.TextRoundTrip | backend/proto_codec.py:69 | strict UTF-8 decoding inverts encoding on every text |
| Utf8.DecodeInjective | backend/proto_codec.py:69 | accepted byte strings are exactly the encodings: re-encoding a decoded text gives the bytes back |
| Utf8.StandardExamples | backend/proto_codec.py:205-207 | the examples of section 7 of RFC 3629, with characters of one to four bytes |
| Wire.LexAppend | backend/proto_codec.py:58-87 | a complete field is read the same way in any longer buffer |
| Wire.DecodeAppend | backend/proto_codec.py:52-91 | for a well-formed first part, decoding a concatenation is decoding the second part from the first part's result, unless the loop stopped or raised in the first |
| Wire.WellFormedAppend | backend/proto_codec.py:52-91 | concatenations of well-formed buffers are well formed |
| Wire.InsertIgnored | backend/proto_codec.py:58-87 | a field that the reader ignores in every message it can meet can be inserted after any well-formed prefix without changing the result |
| Wire.LexShortChunk | backend/proto_codec.py:68-69 | a chunk cut short by the end of the input is what is left of it |
| Wire.LexShortFixed | backend/proto_codec.py:76-85 | a 64-bit field may be cut short, a 32-bit one may not |
| Wire.LexForeign | backend/proto_codec.py:86-87 | every other wire type is foreign |
| Wire.GuideExamples | backend/proto_codec.py:200-217 | the examples of the Encoding guide: 150 as field 1 is 08 96 01, "testing" as field 2 is 12 07 and its text; a 32-bit field 2 is 15 and its four bytes |
| SensorCodec.DecodeMapEntry | backend/proto_codec.py:238-254 | the map-entry loop computes the field-by-field reading of its bytes; anything but a string 1 or a float 2 ends it |
| SensorCodec.DecodeSensorData | backend/proto_codec.py:52-91 | the decoding loop terminates on every byte string and computes the field-by-field reading, or None where the code raises |
| SensorCodec.EncodeSensorData | backend/proto_codec.py:18-49 | the bytes written, field by field; a zero timestamp stands for the current time |
| SensorCodec.SensorTokens | backend/proto_codec.py:18-49 | the fields written, in order: the device id unless empty, the three packed floats as fields 2, 3 and 4, the timestamp, then the map |
| SensorCodec.ExtraTokens | backend/proto_codec.py:43-47 | the map is one field 6 for each entry in order, holding its key as field 1 and its packed value as field 2 |
| SensorCodec.SensorRoundTrip | backend/proto_codec.py:18-91 | decoding an encoded reading restores it, each float v as round(unpack(pack(v)), 2), and the extra map except an empty key |
| SensorCodec.QuadFieldMeans | backend/proto_codec.py:77-83 | decoding a 32-bit field 2, 3 or 4 sets temperature, humidity or pressure to round(unpack(bytes), 2) and nothing else; any other number changes nothing |
| SensorCodec.NumberFieldMeans | backend/proto_codec.py:60-64 | decoding a varint field sets the timestamp if it is field 5 and changes nothing otherwise |
| SensorCodec.DeviceIdMeans | backend/proto_codec.py:66-69 | decoding a field 1 sets the device id, and raises when its bytes are no UTF-8 |
| SensorCodec.EntryMeans | backend/proto_codec.py:238-254 | a map entry stores round(unpack(bytes), 2) under its key, in either order of its fields, zero when it has no value, and nothing when it has no key |
| SensorCodec.DecodeSensorBytes | backend/proto_codec.py:18-91 | decoding an encoded reading on top of any earlier message overwrites its fields and merges the maps |
| SensorCodec.EntriesMerge | backend/proto_codec.py:70-74 | storing entries one by one is map merge, later entries winning |
| SensorCodec.EntryMapIsDict | backend/proto_codec.py:43-47 | for a dict (distinct keys) the decoded map has exactly its non-empty keys, each with round(unpack(pack(v)), 2) of its own value |
| SensorCodec.SensorConcatenation | backend/proto_codec.py:52-91 | decoding a+b is decoding b starting from a's result, for every well-formed a and every b |
| SensorCodec.TwoReadingsMerge | backend/proto_codec.py:52-91 | two encoded readings back to back decode to the first merged with the second |
| SensorCodec.UnknownFieldIgnored | backend/proto_codec.py:58-87 | inserting an unknown field of wire type 0, 1, 2 or 5 at any field boundary changes nothing |
| SensorCodec.InsertableIff | backend/proto_codec.py:58-87 | the fields that can be inserted at every field boundary without changing any result are exactly the unknown ones and the map entries without a key |
| CommandCodec.DecodeDeviceCommand | backend/proto_codec.py:110-135 | the loop computes the field-by-field reading of a DeviceCommand |
| CommandCodec.DecodeCommandAck | backend/proto_codec.py:156-183 | the loop computes the field-by-field reading of a CommandAck |
| CommandCodec.EncodeDeviceCommand | backend/proto_codec.py:94-107 | the bytes written: the non-empty strings in order, then the timestamp (now if zero) |
| CommandCodec.EncodeCommandAck | backend/proto_codec.py:138-153 | the bytes written: the non-empty strings in order, then the timestamp (now if zero) |
| CommandCodec.CommandTokens | backend/proto_codec.py:94-107 | the fields written, in order: the strings that are not empty as fields 1 to 3, then the timestamp as field 4 |
| CommandCodec.AckTokens | backend/proto_codec.py:138-153 | the fields written, in order: the strings that are not empty as fields 1 to 4, then the timestamp as field 5 |
| CommandCodec.TextMessageRoundTrip | backend/proto_codec.py:94-183 | for any number of strings, decoding inverts encoding |
| CommandCodec.CommandRoundTrip | backend/proto_codec.py:94-135 | decoding an encoded DeviceCommand is the identity |
| CommandCodec.AckRoundTrip | backend/proto_codec.py:138-183 | decoding an encoded CommandAck is the identity |
| CommandCodec.CommandFieldMeans | backend/proto_codec.py:110-135 | which part of a DeviceCommand each string and varint field sets, by number |
| CommandCodec.AckFieldMeans | backend/proto_codec.py:156-183 | which part of a CommandAck each string and varint field sets, by number |
| CommandCodec.InsertableIffSkipped | backend/proto_codec.py:116-132 | for messages of n strings, a field can be inserted at every field boundary without changing any result if and only if it is a varint or valid string with another field number |
| CommandCodec.NotInsertable | backend/proto_codec.py:131-132 | for every other field, a buffer that decodes differently with it in front |
| CommandCodec.TimestampLost | backend/proto_codec.py:110-135 | a 32-bit field 5 in front of the timestamp 7 makes the decoder return the message without it |
| CommandCodec.CommandInsertableIff | backend/proto_codec.py:110-135 | the same of DeviceCommand |
| CommandCodec.AckInsertableIff | backend/proto_codec.py:156-183 | the same of CommandAck |
| CommandCodec.FixedFieldEndsMessage | backend/proto_codec.py:131-132 | a 32-bit or 64-bit field makes the decoder drop everything after it, unlike the SensorData decoder |
| ChannelHub.ChannelKeyInjective | backend/channels.py:41-42 | channel keys are injective on org ids without a colon |
| ChannelHub.MirrorExact | backend/channels.py:31-34 | under the invariant, a socket is in a key's subscriber set exactly when its connection record has that org and lists that channel |
| ChannelHub.ChannelManager.SubscribeSocket | backend/channels.py:82-89 | the socket is in the set of the key org:channel and its connection lists the channel; every other socket and key, organisation and history are as before, and the invariant is kept |
| ChannelHub.ChannelManager.UnsubscribeSocket | backend/channels.py:92-97 | the socket is not in that set and its connection does not list the channel; everything else is as before, and the invariant is kept |
| ChannelHub.ChannelManager.DisconnectSocket | backend/channels.py:100-106 | the loop over the record's channels removes the socket from exactly those subscriber sets |
| ChannelHub.ChannelManager.DropDead | backend/channels.py:226-229 | the cleanup loop forgets exactly the dead sockets and nothing else, in any order |
| ChannelHub.ChannelManager.Publish | backend/channels.py:187-231 | the message joins the bounded history, exactly the sockets that failed are forgotten, and the count returned is that of the remaining subscribers |
| ChannelHub.ChannelManager.GetRecent | backend/channels.py:234-237 | the slice for every integer limit: the last `limit` messages for a positive one, all for zero, all but the first -limit for a negative one |
| ChannelHub.ChannelManager.GetStats | backend/channels.py:240-246 | the three totals |
| ChannelHub.SubscribersCountChannels | backend/channels.py:240-246 | under the invariant total_subscribers is the sum of the channel counts over the connections |
| ChannelHub.RunMirror | backend/channels.py:82-231 | the indexes are inverse after every run of subscribe, unsubscribe, disconnect and publish in which each socket keeps to one org |
| ChannelHub.RegistriesAgree | backend/channels.py:82-246 | after every such run, membership in both registries and both totals agree |
| HubMembership.StepMember | backend/channels.py:82-231 | what one action does to the membership of one socket in one channel |
| HubMembership.MembershipIff | backend/channels.py:82-231 | after every such run a socket is in a channel's set if and only if it subscribed and has since neither unsubscribed nor disconnected nor failed on a message to a channel it was then in |
| HubMembership.SubscriberReceives | backend/channels.py:187-231 | so the sockets that publish counts are those members that do not fail |
| ChannelHub.RecentIsLastPublished | backend/channels.py:197-200 | after every run a channel's history is the last 100 messages ever published on it |
| BatchBuffer.EventBuffer.FlushBatch | backend/channels.py:120-129 | takes the whole buffer as one batch and leaves it empty; an empty buffer makes no batch |
| BatchBuffer.EventBuffer.BufferEvent | backend/channels.py:174-184 | appends one event and, at 500, takes the batch before suspending |
| BatchBuffer.StepAccounted | backend/channels.py:113-184 | each step between suspensions keeps: batches taken followed by the buffer are the events appended, every batch has 1 to 500 events, the buffer is below 500 |
| BatchBuffer.NothingLostBeforeSending | backend/channels.py:113-184 | over every interleaving of coroutines nothing is lost, duplicated or reordered before the HTTP call |
| BatchBuffer.EventsConserved | backend/channels.py:113-184 | every event ever appended is buffered, in flight, delivered or lost, exactly once |
| BatchBuffer.NoFailureNoLoss | backend/channels.py:156-157 | events are lost only through a failed insert |
| BatchFate.OnlyFullBatches | backend/channels.py:174-184 | without the timer every batch holds 500 events and the remainder is still buffered |
| BatchFate.TickEmpties | backend/channels.py:113-129 | the timer takes the whole buffer as one batch and changes no earlier one |
| BatchFate.FateIsFirstEnd | backend/channels.py:132-157 | after every run a batch is in flight until its call has ended and has the outcome of the first end of it |
| FileTree.MoveKeepsForest | frontend/lib/org-files.js:133-143 | re-parenting keeps the tree acyclic if and only if the move is not into the entry's own subtree |
| FileTree.FileStore.CreateDirectory | frontend/lib/org-files.js:93-100 | inserts one directory row with the given parent and name exactly when the name is valid and the texts fit their columns, changing no other row and keeping all invariants |
| FileTree.DirectoryRefusedIff | frontend/lib/org-files.js:93-94 | a name is refused if and only if it is empty, has one of the nine forbidden characters or NUL, or runs on beyond 255 characters with anything but blanks |
| FileTree.FileStore.Usage | frontend/lib/org-files.js:204-207 | the sum of the sizes of the file rows |
| FileTree.FileStore.UploadFile | frontend/lib/org-files.js:103-116 | stores the key and a row with the given parent, name and size exactly when the name is given, the limit would not be exceeded and the texts fit their columns; refuses without effect when the name is missing or the limit exceeded; otherwise leaves the key without a row, the only case in which a key becomes so |
| FileTree.OrphanedIff | frontend/lib/db.js:90-103 | an upload that is not refused leaves its key without a row if and only if name, MIME type or visibility has a NUL or is too long for its column |
| FileTree.FileStore.Meets | frontend/lib/org-files.js:134-140 | the ancestor walk terminates, with depth as measure, and meets the entry exactly when the start lies in its subtree |
| FileTree.FileStore.MoveEntry | frontend/lib/org-files.js:133-143 | refuses exactly the moves into the entry's own subtree, itself included; otherwise changes that one parent |
| FileTree.FileStore.DeleteEntry | frontend/lib/org-files.js:146-158 | removes exactly the entry and its descendants and unlinks exactly the keys of the files visited; a missing id changes nothing |
| FileTree.FileStore.DeleteRecursive | frontend/lib/org-files.js:146-158 | the recursive call in the middle of a deletion: rows and keys left, given what is already gone |
| FileTree.CascadeDelete | frontend/lib/db.js:91 | the foreign key's ON DELETE CASCADE removes exactly the subtree |
| FileTree.ChildSubtree | frontend/lib/org-files.js:152-155 | children's subtrees are strictly smaller and disjoint, so the deletion terminates |
| FileTree.RemoveValid | frontend/lib/org-files.js:146-158 | deletion keeps the forest, the uniqueness and presence of keys, and the size limit |
| FileTree.RemoveOrphansIff | frontend/lib/org-files.js:146-158 | a deletion leaves the keys without a row as they were if and only if every file removed by the cascade was visited by the recursion |
| FileTree.FileBelowFileLeavesKey | frontend/lib/org-files.js:103-158 | upload f, upload g with f as its folder, delete f: no row is left and g's key stays on disk |
| FileTree.VisitedIsSubtree | frontend/lib/org-files.js:146-158 | when parents are directories the recursion visits the whole subtree |
| FileTree.StepTidy | frontend/lib/org-files.js:93-158 | create, upload, move and delete each keep the forest, the keys of rows on disk, directories as parents, and the limit; the keys without a row become those of before and the key of an upload whose texts the database rejects |
| FileTree.RunTidy | frontend/lib/org-files.js:93-158 | over every run of operations the tree is acyclic, the total size never exceeds the limit, and the keys on disk are the keys of the file rows and those of the rejected uploads: the former alone if and only if no upload was rejected |
| FileTree.LongNameLeavesKey | frontend/lib/db.js:90 | an upload under a name of 256 characters leaves its key on disk and no row |
| FilePaths.GetBreadcrumb | frontend/lib/org-files.js:174-184 | the walk to the root terminates and returns the chain of ancestors with their names, root first |
| FilePaths.GetEntryByPath | frontend/lib/org-files.js:187-201 | whatever it returns is spelled by the path; with unique sibling names it returns every entry the path spells |
| FilePaths.PartsOfPath | frontend/lib/org-files.js:187-189 | slashes only separate: the parts of a path are those of its pieces, so leading, trailing and repeated slashes make no difference |
| FilePaths.ChainUnique | frontend/lib/org-files.js:187-201 | with unique sibling names a list of names spells at most one chain |
| FilePaths.BreadcrumbResolves | frontend/lib/org-files.js:174-201 | the joined breadcrumb of an entry spells that entry and no other |
| FilePaths.PathIsBreadcrumb | frontend/lib/org-files.js:174-201 | the breadcrumb of the entry a path spells has the path's names |
| Strings.SplitJoin | frontend/app/api/tables/[id]/data/route.js:26-27 | splitting a joined list gives the list back when no piece contains the separator |
| MinuteSearch.SearchIsNextRun | backend/scheduler.py:150-157 | the search returns the least matching minute strictly after the start, None exactly when none of the next 10080 match, and fails where the first deciding minute fails |
| Cron.CronNextRun | backend/scheduler.py:146-157 | the loop from the minute after the truncated start computes that search and its result is the next run |
| Cron.JsCronNextRun | frontend/app/api/tasks/route.js:7-44 | the frontend loop computes the search for its own matcher |
| CronFields.IntsAgreeIff | frontend/app/api/tasks/route.js:16-23 | wherever int() accepts a text, parseInt reads the same number before rounding to a double if and only if the text has no underscore or the number is zero |
| CronFields.IntsAgree | frontend/app/api/tasks/route.js:16-23 | wherever int() accepts a text without underscores, parseInt reads the same number before rounding to a double |
| CronFields.UnderscoreDiffers | frontend/app/api/tasks/route.js:16-23 | on `1_0` the backend matches 10 alone and the page 1 alone |
| CronFields.StepsExact | frontend/app/api/tasks/route.js:18 | a step that does not start below -(2^53 - 60) matches the same values in doubles as in integers |
| CronFields.RoundedBaseDiffers | frontend/app/api/tasks/route.js:18 | further down it need not: a step of 2 from -(2^53 + 1) matches 0 on the page only |
| CronFields.PartsAgreeIff | frontend/app/api/tasks/route.js:14-24 | wherever the backend does not raise, a part without underscores or such a step matches the same values on both sides, except 0 in a range from 0 to -0; the page never matches more |
| CronFields.FieldsAgreeIff | frontend/app/api/tasks/route.js:11-27 | a whole field of such parts differs only at 0, and exactly when it has a range from 0 to -0 and the text of no part admits 0; the page never matches more |
| CronFields.LosesZeroInBackendTerms | backend/scheduler.py:118-135 | when the backend reads every part, that is: it matches 0, and by ranges from 0 to -0 only |
| CronFields.DoubleDashDiffers | backend/scheduler.py:128-131 | on `0--0` the backend reads 0 to -0 and matches 0, the page reads an empty bound and does not |
| CronFields.HexadecimalDoesNotHelp | frontend/app/api/tasks/route.js:16-23 | nor does the page match 0 on `0--0,0x10`, where parseInt reads 16 |
| CronText.SignReads | frontend/app/api/tasks/route.js:16-23 | a sign in front of digits is read on both sides |
| CronText.TrailingText | frontend/app/api/tasks/route.js:16-23 | text after the digits is ignored by parseInt, and int() raises |
| CronText.NoNumber | frontend/app/api/tasks/route.js:16-23 | the empty text, a sign alone, 0x alone and a leading underscore are numbers on neither side |
| CronText.PartMeans | backend/scheduler.py:121-134 | printed from its meaning, a part matches just that on the backend: */n every n-th value, a/n every n-th from a, a-b a range, n one value; a zero step raises |
| CronText.FieldMeans | backend/scheduler.py:118-135 | a printed field without zero steps matches just the values of its terms, on the backend and on the page |
| CronText.ZeroStepRaises | backend/scheduler.py:121-127 | with zero steps the backend raises if and only if one of them comes before every term that matches |
| CronText.ExpressionMeans | backend/scheduler.py:112-143 | a printed expression matches at minute m of hour h of a day on the backend if and only if its five fields have m, h, the day, the month and the weekday counted from Monday |
| CronText.PageExpressionMeans | frontend/app/api/tasks/route.js:32-38 | on the page the same with weekdays counted from Sunday |
| Cron.Weekly | backend/scheduler.py:137-143 | with day and month `*` the matcher repeats every 10080 minutes |
| Cron.NoRunThisWeekMeansNever | backend/scheduler.py:146-157 | with day and month `*`, no run within the window means no run ever |
| Cron.EveryRunIsReached | backend/scheduler.py:146-157 | with day and month `*`, iterating cron_next_run from t reaches every later run |
| Cron.MatchesAgreeIff | frontend/app/api/tasks/route.js:32-38 | with weekday `*` and fields of such parts, the page matches no minute the backend rejects, and misses one it accepts exactly when a zero minute or hour comes from such a range |
| Cron.NextRunsAgreeIff | frontend/app/api/tasks/route.js:7-44 | with weekday `*` and fields of such parts the two searches return the same minute or both none, exactly unless the page overlooks the minute or hour of the backend's next run |
| Cron.UnderscoreHour | frontend/app/api/tasks/route.js:32-38 | `0 1_0 * * *` runs at 10:00 on the backend, and the page matches 01:00 instead |
| Cron.WeekdayDiffers | backend/scheduler.py:142 | `* * * * 0` on Monday 1970-01-05 00:00: the backend matches, the page does not |
| Cron.WeekdaysAgreeIff | frontend/app/api/tasks/route.js:32-38 | with a weekday field of such parts alone the two sides agree at every minute if and only if the field matches all seven days or none and does not lose its zero |
| SchedulerProtocol.StepInvariant | backend/scheduler.py:468-524 | every step of every replica keeps the protocol invariant |
| SchedulerProtocol.RunInvariant | backend/scheduler.py:468-524 | the invariant holds after every interleaving of replicas, failures of tasks and updates and crashes included |
| SchedulerProtocol.AtMostOneRunsTasks | backend/scheduler.py:472-477 | at most one replica is past the lock at any time |
| SchedulerProtocol.RunCountIsHistoryIff | backend/scheduler.py:193-217 | in every run run_count is the number of recorded executions of the page and last_run the finish of the latest of them; run_count is the number of all completed executions if and only if every one was recorded |
| SchedulerProtocol.RecordedIff | backend/scheduler.py:193-217 | in every run an execution is recorded if and only if no SQL error aborted it and the search for the next run from its finish does not raise |
| SchedulerCoverage.RunsWereDue | backend/scheduler.py:484-485 | in every run each execution of a page was started for a minute at which its expression matched |
| SchedulerCoverage.PollExact | backend/scheduler.py:479-519 | a poll that comes to its end has executed every fetched page that was due and whose last recorded run ended 55 s ago or more, once, and no other page, whatever the other replicas did meanwhile |
| SchedulerCoverage.GuardExact | backend/scheduler.py:484-493 | a fetched page is started if and only if it is due and not recent; it is passed over if and only if it is not, and the poll breaks off if and only if the matcher raises |
| SchedulerCoverage.WakeExact | backend/scheduler.py:472-477 | a replica that wakes up polls if and only if the lock is free |
| SchedulerCoverage.EndExact | backend/scheduler.py:502-516 | a task is recorded if and only if no SQL error aborted it and the next-run search goes through, whether it failed or not; otherwise it is lost after having failed |
| SchedulerCoverage.SleepExact | backend/scheduler.py:472-524 | after each kind of end the replica sleeps for one interval, and no event touches another replica |
| SchedulerCoverage.NextFoundIff | backend/scheduler.py:146-157 | the next-run search goes through unless, within 10080 minutes, a minute raises before any matches |
| SchedulerCoverage.LockHeldIff | backend/scheduler.py:472-524 | in every run the lock is held by the replica that is polling or by one that left an aborted poll by an exception and has not reconnected, and is free otherwise |
| SchedulerRuns.AtMostTwiceAMinute | backend/scheduler.py:487-493 | every execution after a recorded one is polled at least 55 s after that one's finish, so when three executions of a page fall in one minute, one of the first two was not recorded |
| SchedulerRuns.LateFinishLeavesMinute | backend/scheduler.py:487-493 | in every run, when a later execution of a page falls in the minute of a recorded one, the recorded one finished in the first five seconds of that minute |
| SchedulerRuns.EarliestExact | backend/scheduler.py:487-493 | in every reachable state the first moment at which the page is not skipped as run too recently is now after an unrecorded execution, and 55 s past the finish (or now, if later) after a recorded one |
| SchedulerRuns.SecondRunInMinuteIff | backend/scheduler.py:468-524 | from every reachable state with the page due and a replica free, the run can go on to execute the page again for the minute of its last execution if and only if that first moment still lies in the minute; the comment "already ran this minute" is only approximate |
| SchedulerRuns.SameMinuteIffEarly | backend/scheduler.py:487-493 | 55 s past a finish is still in the minute of the poll if and only if the execution finished in the first five seconds of it |
| SchedulerExamples.TwiceInOneMinute | backend/scheduler.py:468-524 | a complete two-replica run in which one page runs twice within one calendar minute, both runs recorded |
| SchedulerExamples.RaisingSchedule | backend/scheduler.py:193-217 | the schedule `0,x * * * *` is due at minute 0, and the search for its next run from there raises |
| SchedulerExamples.ManyInOneMinute | backend/scheduler.py:500-516 | when that search raises, any number of replicas up to sixty, polling a second apart, execute the page once each within one minute, and nothing is recorded |
| SchedulerExamples.ThreeInOneMinute | backend/scheduler.py:500-516 | on `0,x * * * *` three replicas execute the page three times in one minute and run_count stays 0 |
| SchedulerExamples.SqlErrorNotCounted | backend/scheduler.py:500-516 | a task that ends in an SQL error is executed and not counted, whatever its schedule |
| SchedulerRuns.RunRested | backend/scheduler.py:468-524 | with one replica and no crash, a run of a page is polled at least one poll interval after the previous run of it finished, recorded or not |
| SchedulerRuns.SingleReplicaOnceAMinute | backend/scheduler.py:468-524 | with one replica, no crash and a poll interval of at least 60 s no page runs twice in one calendar minute, even if its runs go unrecorded |
| ServiceSupervisor.StartIsFresh | backend/service_manager.py:404-447 | a started process is a new one, live for its page and started with its code; every other process, script and tracked page stays as it was; without code nothing is spawned |
| ServiceSupervisor.StopEndsPage | backend/service_manager.py:450-469 | a stopped page has no live process, no script and no entry; other pages keep theirs; an unknown page changes nothing |
| ServiceSupervisor.ServiceManager.VisitPage | backend/service_manager.py:482-527 | the visit to one page, with supervision kept |
| ServiceSupervisor.ServiceManager.RunPoll | backend/service_manager.py:478-533 | one complete poll: every flagged page visited, every other tracked page stopped |
| ServiceSupervisor.PollPageSupervised | backend/service_manager.py:486-527 | visiting a page keeps: every live process is the tracked one of its page, and the script on disk is the one it was started with |
| ServiceSupervisor.RunSupervised | backend/service_manager.py:472-533 | so does every run of polls, partial polls and process deaths |
| ServiceSupervisor.OneLiveProcessPerPage | backend/service_manager.py:472-533 | after every run each page has at most one live process and every live process is tracked |
| ServiceSupervisor.OnlyFlaggedAfterPoll | backend/service_manager.py:529-533 | after a complete poll only flagged pages are tracked or live |
| ServiceSupervisor.RunsCurrentCodeIff | backend/service_manager.py:478-533 | after a complete poll, on every run, a flagged page with a live process runs its current code (newlines translated) if and only if the code that ran before was not that of a visual flow changed since or of Python code emptied since; what runs is determined page by page |
| ServiceSupervisor.StartedIff | backend/service_manager.py:87-119 | a page that was not running runs its own code after a complete poll if and only if its Popen succeeds and it has Python code with anything but whitespace, or generated code that is not empty |
| ServiceSupervisor.TrackedAreLive | backend/service_manager.py:486-527 | after a complete poll every tracked page has a live process |
| ServiceSupervisor.ChangedFlowOverlooked | backend/service_manager.py:501-517 | a visual flow whose generated code changes between two polls goes on running the old code |
| ServiceSupervisor.EmptiedCodeOverlooked | backend/service_manager.py:501-517 | so does a Python page whose code is emptied |
| ServiceSupervisor.NewlinesUnchangedIff | backend/service_manager.py:509-510 | reading a script back in text mode gives the code written if and only if it has no carriage return |
| ServiceSupervisor.NewlinesByLine | backend/service_manager.py:509-510 | reading a script back turns each of the three line ends into one newline |
| ServiceSupervisor.UnchangedPageLeftAloneIff | backend/service_manager.py:501-517 | a live, up-to-date page is left alone if and only if it is not Python code with a carriage return |
| ServiceSupervisor.RestartedEveryPollIff | backend/service_manager.py:478-533 | after n polls of one page in which nothing dies, n processes have been spawned if its code has a carriage return, and one otherwise |
| ServiceSupervisor.TwoPollsTwoProcesses | backend/service_manager.py:478-533 | two polls of `print(1)` followed by a carriage return leave the second of two processes running |
| ServiceSupervisor.QuietPoll | backend/service_manager.py:478-533 | a poll in which nothing died and no code changed changes nothing |
| RateLimiter.Limiter.CheckRate | frontend/lib/api-key-auth.js:62-74 | one call updates that key's window only and decides as the fixed-window rule does |
| RateLimiter.ReplayWindowed | frontend/lib/api-key-auth.js:62-74 | admissions come in windows of at most `limit`, numbered without gaps, each window starting more than 60000 ms after the previous one |
| RateLimiter.AtMostTwiceLimit | frontend/lib/api-key-auth.js:62-74 | any closed 60000 ms interval admits at most 2*limit - 1 calls of a key |
| RateLimiter.BoundAttained | frontend/lib/api-key-auth.js:62-74 | for every limit there are calls that reach that bound |
| RateLimiter.ReopensAfterMinute | frontend/lib/api-key-auth.js:62-74 | after `limit` calls at one moment the next is admitted if and only if more than 60000 ms have passed |
| RateLimiter.RejectedAfterLimit | frontend/lib/api-key-auth.js:71 | every rejection is preceded by exactly `limit` admissions of the current window, all within the last 60000 ms |
| AnomalyDetector.Detector.Check | backend/services/data_processor.py:54-65 | the window is the last maxlen readings and the verdict is the z-score test over it, with the square root replaced by comparing squares |
| AnomalyDetector.SquaredComparison | backend/services/data_processor.py:62-65 | abs(d) / std > threshold is the comparison of squares the model makes, for every positive std |
| AnomalyDetector.SumSquaredBound | backend/services/data_processor.py:59-62 | the square of the sum of deviations is at most n times the sum of their squares |
| AnomalyDetector.NewestDeviationBound | backend/services/data_processor.py:59-64 | the squared z-score of the newest of n readings is at most n - 1 |
| AnomalyDetector.CannotFire | backend/services/data_processor.py:56-65 | a detector cannot fire while threshold^2 >= n - 1, whatever the readings |
| AnomalyReach.CanFireIff | backend/services/data_processor.py:54-65 | with n readings in the window a detector fires on some of them if and only if n >= 10 and threshold^2 < n - 1 |
| AnomalyReach.FiresIffZScore | backend/services/data_processor.py:56-65 | the verdict: at least ten readings, and the distance from the mean is more than `threshold` standard deviations on either side |
| AnomalyReach.BothSides | backend/services/data_processor.py:64-65 | turning all readings about zero changes no verdict |
| AnomalyDetector.PressureVerdicts | backend/services/data_processor.py:152-187 | the pressure detector's answers to any readings are the z-score tests over the last 60, and the first ten are never anomalies |
| AnomalyDetector.PressureMayFireOnEleventh | backend/services/data_processor.py:155 | on the eleventh it can |
| TableQuery.BuildQuery | frontend/lib/org-tables.js:229-269 | placeholders are numbered 1, 2, 3, ... in order, each naming its own parameter; the last two parameters are the clamped limit and offset; the text is SQL exactly when no used filter names an inherited property as its operator, and then selects the org's rows that satisfy every filter on a known column |
| TableQuery.BuildClause | frontend/lib/org-tables.js:236-247 | one filter's clause means the filter, whatever parameters follow it, unless its operator is an inherited name, and then it is not SQL |
| FilterMeaning.BuiltSelects | frontend/lib/org-tables.js:214-248 | over every database that reads the six comparisons as an order has it: the built query fails if a used filter has an inherited operator name, and otherwise selects the organisation's rows whose cells are greater, less, at least, at most, equal or unequal, null or not, or match the pattern, as each operator says; any other operator means equality |
| FilterMeaning.AboveEighteen | frontend/lib/org-tables.js:214-248 | the filter age:gt:18 selects the rows with an age above 18 |
| FilterMeaning.PageBounds | frontend/lib/org-tables.js:258-259 | fifty rows when no number or zero is asked for, otherwise between 1 and 1000, from the offset asked for or the start |
| TableQuery.QueryMeansFiltersIff | frontend/lib/org-tables.js:214-248 | the query answers what its filters ask, on every database and row, if and only if no filter on a known column has an inherited name for its operator |
| TableQuery.ConstructorIsRejected | frontend/lib/org-tables.js:236 | a filter with the operator `constructor` makes the query fail on every database |
| TableQuery.PatternsMean | frontend/lib/org-tables.js:241-243 | for values without %, _ and backslash the three ILIKE patterns mean starts with, ends with and contains, ignoring case |
| TableQuery.PrefixTestIff | frontend/lib/org-tables.js:242 | on every value: the `starts` pattern is a prefix test on every text if and only if the value has no %, _ or backslash |
| TableQuery.SuffixTestIff | frontend/lib/org-tables.js:243 | the same for `ends`, a value ending in a lone backslash included |
| TableQuery.ContainsTestIff | frontend/lib/org-tables.js:241 | the same for `contains` |
| TablePaging.ArrangementUnique | frontend/lib/org-tables.js:252-256 | without ties the ORDER BY admits one order |
| TablePaging.Swapped | frontend/lib/org-tables.js:252-256 | with a tie it admits a different order of the same rows |
| TablePaging.SelectedIsFiltered | frontend/lib/org-tables.js:262-269 | the rows a built query selects, and those the counting query counts, are the filtered rows |
| TablePaging.CapSkips | frontend/lib/org-tables.js:258 | pages of a size above 1000 never deliver row 1000 |
| TablePaging.StraddleRepeats | frontend/lib/org-tables.js:252-269 | when a tie lies across a page boundary there are orders of the same rows, one per query, whose pages repeat a row |
| TablePaging.TilesIff | frontend/lib/org-tables.js:252-269 | pages at offsets size*k, each query breaking ties its own way, always give every row once and in order if and only if there are no rows, or the size is from 1 to 1000 and no tie lies across a page boundary, or the size is larger and there are at most 1000 rows |
| TablePaging.QueriesTileIff | frontend/lib/org-tables.js:229-269 | the same of the queries built from filters, with the limits and offsets their parameters name, over the filtered rows of any table |
| TablePaging.TotalIsRowCount | frontend/lib/org-tables.js:262-263 | the reported total is the number of rows so delivered |
| FilterText.ParsePrint | frontend/app/api/tables/[id]/data/route.js:25-28 | parsing a printed filter restores column, operator and value, colons in the value included |
| FilterText.ParseMeans | frontend/app/api/tables/[id]/data/route.js:25-28 | column:op:value means just that, a missing or empty operator means eq, and a missing value is empty |
| FilterText.SentExact | frontend/app/(org)/-/databases/[id]/page.js:64-66 | the page sends the filters that have a column and an operator |
| FilterText.ParseAllExact | frontend/app/api/tables/[id]/data/route.js:24-28 | the route keeps the parsed filters that have a column |
| FilterText.RoundTripIff | frontend/app/(org)/-/databases/[id]/page.js:64-66 | it does so if and only if column and operator contain no colon |
| FilterText.RoundTripAllIff | frontend/app/(org)/-/databases/[id]/page.js:64-66 | a whole filter list survives, except the entries the page does not send, if and only if no sent column or operator contains a colon |

## Left out

Assumptions under which a contract is stated:

- BlockEngine.ExecuteFlow: handlers are pure functions of configuration and ordered inputs; the transform block edits rows in place (backend/block_engine.py:265-274), which the model does not capture. The handler registry is given, so loading custom blocks is left out, as is the metadata of a result.
- BlockEngine.TopologicalSort: node ids are distinct, as the canvas generates them.
- ListedSort.CanvasOrder: node ids are non-empty and are not names that every JavaScript object inherits, such as "constructor".
- FlowCanvas.StepWellFormed: node positions, selection and configuration edits are left out; they do not touch ids or wires. What a reload brings is assumed to end its wires at listed nodes, as every saved canvas does.
- SensorCodec.SensorRoundTrip: packing, unpacking and rounding of floats are arbitrary functions, so the law says which of them is applied to what; the overflow error of packing a too large double is left out, and so are lone surrogates in texts and negative integers.
- CommandCodec.CommandRoundTrip: a zero timestamp stands for the current time in the encoder, so the law is stated about the bytes written after that replacement.
- ChannelHub.ChannelManager.Publish: the broadcast loop is one step, although the code iterates a live set across awaits (backend/channels.py:220-224); the message counter in the database is left out.
- ChannelHub.RunMirror: a socket keeps to one org id, as the endpoint does (backend/main.py:245-265), and org ids contain no colon.
- BatchBuffer.NothingLostBeforeSending: steps run until the next suspension; the lock bodies contain no await, so the lock itself is left out.
- FileTree.FileStore.UploadFile: operations of one org run one after another, the disk succeeds and the database rejects no more than the texts, generated ids and keys are fresh and the parent row exists; a parent deleted in between would leave the key without a row.
- FileTree.RunTidy: parents are existing directories and the limit is fixed.
- FilePaths.GetBreadcrumb: stated on forests, which every run of the operations keeps.
- ServiceGraph.GenerateOrder: among the nodes that one listed node is the first to reach, the order is stated by links and cycles only, not by the order of the edges.
- ServiceGraph.DepthFirst.Dfs: Python raises RecursionError when a path of about 1000 unvisited nodes is followed; the model's recursion has no such limit.
- ServiceGraph.GenerateLegacyOrder: for the same reason a legacy list of about 1000 blocks fails in the source, because each block recurses into the next.
- Cron.CronNextRun: an expression is given as its whitespace-separated fields; non-ASCII digits and numbers of more than 4300 digits, which int() treats specially, are read as errors here; day of month and month of a minute are any functions of its day number within 1 to 31.
- CronFields.FieldsAgreeIff: parts with an underscore and steps that start below -(2^53 - 60) are excluded, here and in `CronFields.PartsAgreeIff`: the page stops reading at the underscore and computes with rounded differences; `CronFields.UnderscoreDiffers` and `CronFields.RoundedBaseDiffers` show one of each that differs. Rounding to doubles is any function that is exact up to 2^53 and does not come back below it, infinity included.
- Cron.MatchesAgreeIff: the same parts are excluded, here and in `Cron.NextRunsAgreeIff` and `Cron.WeekdaysAgreeIff`.
- Cron.JsCronNextRun: the local time zone is a whole number of minutes from UTC.
- SchedulerProtocol.RunInvariant: clocks are synchronised, schedules are not edited meanwhile, a crash ends the session that holds the lock, and a session left open by an exception ends when its replica next connects; other failures of an update, such as a lost connection, are left out, as are task logs.
- ServiceSupervisor.RunSupervised: a stopped process is dead when stop_service returns, scripts can be written, page ids of a poll are distinct, the environment of a page is not part of its code, and the service status in the database is left out; whitespace is ASCII whitespace.
- AnomalyDetector.Detector.Check: arithmetic is over exact reals; the rounded z-score, mean and deviation in the result are left out.
- TableQuery.BuildQuery: the database is any interpretation of the comparison operators by column and of case folding; a value that the column's type rejects, the column list and the quoted names are left out.
- TablePaging.QueriesTileIff: the table does not change between the queries, and ORDER BY is any integer key of the row; stated for at least two queries that ask for as many rows as there are.
- TableQuery.SuffixTestIff: a pattern that ends in a lone backslash matches nothing in the model; PostgreSQL reports an error. Case folding is any function that separates % from the backslash and _ from some character.

Not modelled:

- Network, MQTT, ClickHouse and Jupyter calls: outside the program's own logic.
- Pages and layout, SDK clients, the seed script, middleware, tokens and passwords: interface and foreign code.
- Custom code blocks, and the numeric and machine-learning blocks: foreign calls and floating point.
- The text of generated Python beyond block order: string assembly.
- `execute_flow_blocks` of the scheduler: a fold of SQL strings over blocks.
- Renaming, sharing, visibility and access levels of files; permission unions, pins, profiles, roles and the feature catalog: facts about single steps.
- Full cron conformance: the code differs from the cron standard on weekday numbers, on day combined with weekday, and on steps, and the model follows the code.
