# graphrefly, modelled and proved

A Dafny 4.11 project about the state machines, codecs and graph algorithms that graphrefly builds above its
wave engine. Verify it with `dafny verify dfyconfig.toml`.

Code that computes a value is a function; code that changes fields is a class with those fields, or a method
with the source's loops, proved against functions about which the laws below are stated. A clock is an
input to each step, a handler, projector or predicate is an uninterpreted function, a node is a number.

| files | what they model |
|---|---|
| `MessageBusModel`, `MessageBusLog`, `MessageBusReaders`, `MessageBusRetention`, `MessageBusOutcomes`, `MessageBusFollow`, `MessageBusCursors`, `MessageBusDedupe`, `MessageBus` | the message bus: a step function over its whole state, its refinement of an unbounded publish history, what retention keeps, what each command does, paging within one state and across a run, cursors, dead letters, dedupe, and the reducer that works in place |
| `Utf16`, `JsonGrammar`, `Json`, `JsonTrees`, `JsonRoundTrip`, `JsonCanonical`, `JsonScanner`, `JsonCodec`, `Identity` | strict canonical JSON, the grammar behind it, and the tuple keys built on it |
| `Digraph`, `NodeVersion`, `Checkpoint`, `Restore`, `Capture`, `SaveAndRestore` | node versions, checkpoint validation, the recursive rebuild, the worklist that captures a graph, and the round trip from graph to graph |
| `Snapshots`, `Bfs`, `Diagnostics`, `DiagnosticsCycle`, `DiagnosticsExplain` | described topologies with their subgraphs, and breadth-first path, cycle and reachability queries |
| `HigherOrderModel`, `HigherOrder` | the scheduler of inner streams behind merge, switch, concat and exhaust maps |
| `Buffers`, `ReactiveList`, `ReactiveLog`, `LogScan`, `ReactiveMap`, `ReactiveIndex` | collections that emit their changes, and the incremental scan of a log |
| `ReleaseModel`, `ReleaseLoop`, `ReleaseOrder`, `Release` | releasing a group of nodes |
| `Topology` | topology observers and their re-entrant delivery |
| `CqrsModel`, `Cqrs` | the CQRS reducer |
| `Combinators` | zip, concat and buffer_count |
| `AckDriver` | the acknowledgement driver of the Python binding |
| `DispatchPool` | the slot map of dispatched functions |

## Where the code does less than it seems to promise

- A subscription opened at a number other than 1 on a topic that does not exist yet has a cursor outside the
  topic's range, unflagged, once the topic is created (`LateTopicLeavesCursorOutside`). All others stay in range
  (`OpenTrackedIff`, `OpenedInRangeStaysInRange`). Paging still reads the history from the cursor on in both cases.
- `explain_path` with `max_depth` 0 answers `NoPath` across an edge, and `MaxDepthExceeded` does not mean that a
  longer path exists (`ZeroDepthHidesEdge`, `ExceededWithoutPath`).
- A graph can write a checkpoint that restore refuses: when a node lists a dep twice, when it depends on a node that
  is not registered, when its factory is unknown or its configuration not strict JSON, or when it holds an integer
  outside ±(2^53 − 1), which the writer does not validate. `OwnCheckpointAcceptedIff` says exactly when;
  `RepeatedDepIsRefused` and `RefusedInteger` are the smallest cases.
- An accepted checkpoint is refused when its node versions do not fit the versioning policies it is restored under:
  written without versions and restored under the default options, or the other way round (`PolicyMustMatch`), or
  at level 1 when the data of a version is gone (`ColdVersionIff`). `OwnCheckpointRestorableIff` has the exact condition.
- A reader that follows a topic's pages while the bus runs on is not told of messages trimmed between two pages
  (`ReadsAllButTrimmed` says which); a subscription's pages tell, by the gap flag (`SubscriberMissesNothing`).
- `release_nodes` does not always release an active dependent before its deps. Freeing a node can make one of its
  deps inactive, which then drops its own subscriptions, so that a dep of the inactive node may be freed first
  (`DepReleasedFirst`, `ReleaseCascade`). The order is known from the list (`ReleasedInOrder`), and dependents go first
  exactly when the list passes the check of `DependentsFirstIff`. What always holds is that no active node depends
  on a node when it is freed (`ReleasedOnceAndQuietly`).
- A scan of a log that receives an append and the trim it caused in one run may say nothing (`CoalescedRun` says
  exactly when). The next run that is not of this kind says the full fold again (`CoalescedRuns`).
- A dispatch handle outlives its registration when its slot has since been recycled an exact multiple of 2^32 times
  (`ResolvesIff`).

## Model

| member | source | states |
|---|---|---|
| `MessageBusLog.RetainedLogIsHistoryTail` | crates/graphrefly/src/messaging.rs:1715-1919 | after any run of commands and openings, with a clock that does not go back and `max_messages` not 0: each topic holds exactly the end of everything ever published to it, numbered 1, 2, 3, … in the history, with `head_seq + len = next_seq` |
| `MessageBusLog.RunAgrees` | crates/graphrefly/src/messaging.rs:1656-1713 | the refinement behind it, one step at a time: the bus and the publish history read off its events agree, and every cursor that is not flagged is covered |
| `MessageBusLog.KeptIsSuffix` | crates/graphrefly/src/messaging.rs:1857-1880 | age retention and count retention together cut one prefix, exactly the messages that one of the two limits rules out |
| `MessageBusLog.TrimKeepsTail` | crates/graphrefly/src/messaging.rs:1850-1896 | a trim only raises `head_seq` and leaves the end of the history |
| `MessageBusRetention.PublishKeepsAllowed` | crates/graphrefly/src/messaging.rs:1715-1896 | an accepted publish leaves in its topic, of the messages that were there and the new one, exactly those that are no older than `max_age_ms` and among the last `max_messages`: nothing too much is cut and nothing too little |
| `MessageBusRetention.RetainedIffAllowed` | crates/graphrefly/src/messaging.rs:1850-1896 | over whole runs: a message is still held exactly when every accepted publish to its topic, its own included, has allowed it by age and by count |
| `MessageBusRetention.CountBounded` | crates/graphrefly/src/messaging.rs:1872-1877 | in every reachable state no topic holds more than `max_messages` |
| `MessageBusRetention.PublishOutcome` | crates/graphrefly/src/messaging.rs:1715-1802 | a publish puts out one message, with the content of its command and the next number, exactly when its names are there, it is no repeat and its topic is open or may be created; otherwise none |
| `MessageBusRetention.OthersLeaveTopic` | crates/graphrefly/src/messaging.rs:1656-1713 | an operation that is no accepted publish to a topic leaves its messages and numbers alone |
| `MessageBusRetention.ClosedForGood` | crates/graphrefly/src/messaging.rs:1735-1748 | whatever follows, a closed topic stays closed, keeps what it holds and takes no further message |
| `MessageBusRetention.ClosedIff` | crates/graphrefly/src/messaging.rs:1824-1848 | a topic is closed exactly by an admitted close |
| `MessageBusRetention.ZeroCountLimit` | crates/graphrefly/src/messaging.rs:1862-1876 | `max_messages` 0 is no limit: only the age limit applies, the head stays, and each publish raises one issue |
| `MessageBusLog.SubscriptionKeyInjective` | crates/graphrefly/src/messaging.rs:2499-2501 | two subscriptions share a state key only if topic and id are equal |
| `MessageBusOutcomes.MalformedIsRefused` | crates/graphrefly/src/messaging.rs:1656-1672 | a command without its names changes nothing but for one dead letter |
| `MessageBusOutcomes.RepeatIsReported` | crates/graphrefly/src/messaging.rs:1674-1692 | a repeat changes nothing but the noted id and is reported as the dedupe action says |
| `MessageBusOutcomes.EnsureTopicOutcome` | crates/graphrefly/src/messaging.rs:1804-1822 | a new topic is open, empty and numbered from 1; an existing one stays as it is |
| `MessageBusOutcomes.CloseTopicOutcome` | crates/graphrefly/src/messaging.rs:1824-1848 | a known topic is closed and keeps its messages; an unknown one is an issue |
| `MessageBusOutcomes.PublishRefusal` | crates/graphrefly/src/messaging.rs:1715-1760 | a refused publish changes nothing but for one dead letter, and the issue tells an unknown topic from a closed one |
| `MessageBusOutcomes.PublishEffects` | crates/graphrefly/src/messaging.rs:1715-1802 | an accepted publish notes its command and its key and sends its events in this order: creation, message, status, trim |
| `MessageBusOutcomes.TrimEffects` | crates/graphrefly/src/messaging.rs:1880-1919 | a trim that moves the head says so and flags exactly the open, unflagged cursors of its topic that it passed, with one issue each; nothing else changes |
| `MessageBusOutcomes.AckOutcome` | crates/graphrefly/src/messaging.rs:1921-1995 | an ack is accepted exactly from the cursor up to the tail, on an open unflagged subscription, and puts the cursor after it; every other case has its own issue |
| `MessageBusOutcomes.SeekOutcome` | crates/graphrefly/src/messaging.rs:1997-2063 | a seek is accepted exactly into `[head_seq, next_seq]` and clears the flag; every other case has its own issue |
| `MessageBusOutcomes.CloseSubscriptionOutcome` | crates/graphrefly/src/messaging.rs:2065-2103 | a close is accepted for any known subscription and keeps its cursor |
| `MessageBusOutcomes.OpenOutcome` | crates/graphrefly/src/messaging.rs:2371-2432 | a new subscription is open and unflagged and starts where asked, unless its topic exists and does not reach there; then at the head, with an issue and a dead letter |
| `MessageBusOutcomes.TopicPageFramed` | crates/graphrefly/src/messaging.rs:2237-2275 | a page starts after the number given or at the head, holds at most `limit`, is full when more follow, and names where to go on |
| `MessageBusOutcomes.AvailablePageFramed` | crates/graphrefly/src/messaging.rs:2277-2316 | the same for the pages of a subscription, from its cursor |
| `MessageBusReaders.HeadNeverFalls` | crates/graphrefly/src/messaging.rs:1850-1919 | no topic disappears and no `head_seq` falls between any two points of a run |
| `MessageBusReaders.NoSilentLoss` | crates/graphrefly/src/messaging.rs:1898-1907 | in every reachable state an open subscription either reads, page after page, exactly the publish history from its cursor on, or carries the gap flag, reads nothing, and a message at or after its cursor is gone |
| `MessageBusReaders.FollowPagesReadsAll` | crates/graphrefly/src/messaging.rs:2277-2316 | following `next_after_seq` until `has_more` is false yields the remaining messages once each, in order, for every page limit |
| `MessageBusReaders.TopicPagesAreTheHistoryTail` | crates/graphrefly/src/messaging.rs:2237-2275 | the pages of a topic from the first on are everything published to it that retention has not trimmed |
| `MessageBusReaders.FollowTopicPagesReadsAll` | crates/graphrefly/src/messaging.rs:2237-2275 | paging a topic from any place reads all that is retained after that place |
| `MessageBusReaders.GapMeansLoss` | crates/graphrefly/src/messaging.rs:1898-1907 | the gap flag is never raised for nothing: some message at or after the cursor has been trimmed |
| `MessageBusReaders.OpenTrackedIff` | crates/graphrefly/src/messaging.rs:2371-2432 | a new subscription is in `[head_seq, next_seq]` or flagged exactly when its topic exists or its start is not a number other than 1 |
| `MessageBusReaders.OpenedInRangeStaysInRange` | crates/graphrefly/src/messaging.rs:1921-2063 | a subscription opened in range is, after any further run, closed, flagged or within `[head_seq, next_seq]` |
| `MessageBusReaders.TrackedForever` | crates/graphrefly/src/messaging.rs:1921-2063 | no ack, seek, publish, trim or close takes an unflagged open cursor out of its topic's range |
| `MessageBusReaders.LateTopicLeavesCursorOutside` | crates/graphrefly/src/messaging.rs:2371-2432 | the failing family: such a start on a topic that is created later leaves an open, unflagged cursor outside the range |
| `MessageBusFollow.ReadsAllButTrimmed` | crates/graphrefly/src/messaging.rs:2237-2275 | a reader that fetches a page of a topic, lets the bus run on, and fetches the next from the last message it read, over any run and any number of pages and limits: what it has read is a part of the publish history in order, each message once, and between where it started and where it stands it has missed exactly the messages that a trim took while it stood before them |
| `MessageBusFollow.ReadIffKept` | crates/graphrefly/src/messaging.rs:2237-2275 | the same on sequence numbers: a number passed has been read exactly when no trim took it before the reader came to it |
| `MessageBusFollow.LostMeansTrimmed` | crates/graphrefly/src/messaging.rs:1850-1896 | a missed message is gone from the topic when that page is fetched, and if it was already published at the page before, the topic still held it then |
| `MessageBusFollow.LostOnce` | crates/graphrefly/src/messaging.rs:2237-2275 | a missed message was taken between two particular pages, or before the first |
| `MessageBusFollow.NoHoleIff` | crates/graphrefly/src/messaging.rs:2237-2275 | the reader has read everything it passed exactly when it was never behind the head at a page from which it moved on |
| `MessageBusFollow.SubscriberMissesNothing` | crates/graphrefly/src/messaging.rs:2277-2316 | a subscriber that finds no gap flag when it fetches its pages and keeps its cursor at or before the last message it has read, reads every message from where it started on, with no hole, however the bus runs on between its pages |
| `MessageBusCursors.AckSplitsTheRest` | crates/graphrefly/src/messaging.rs:1921-1995 | a successful ack splits what was left to read into what has numbers up to its own, done with, and the rest, which is what is read next |
| `MessageBusCursors.AckedIsStale` | crates/graphrefly/src/messaging.rs:1921-1995 | what has been acknowledged cannot be acknowledged again |
| `MessageBusCursors.SeekReadsFrom` | crates/graphrefly/src/messaging.rs:1997-2063 | a successful seek clears the flag, and the pages then read the publish history from its place on |
| `MessageBusCursors.HeadIsAlwaysOpen` | crates/graphrefly/src/messaging.rs:1997-2063 | any open subscription, flagged or not, can be sought to the head, and then reads all that is retained |
| `MessageBusCursors.OneDeadLetterPerIssue` | crates/graphrefly/src/messaging.rs:2105-2137 | over any run, with any clock and retention, there is one dead letter for each issue, numbered 1, 2, 3, … |
| `MessageBusDedupe.OneMessagePerIdempotencyKey` | crates/graphrefly/src/messaging.rs:1780-1786 | over any run no two published messages share topic and idempotency key |
| `MessageBusDedupe.RepeatMeansPublished` | crates/graphrefly/src/messaging.rs:1674-1692 | a publish is treated as a repeat exactly when a message with its topic and idempotency key has been published |
| `MessageBusDedupe.OneEffectPerCommandId` | crates/graphrefly/src/messaging.rs:1674-1692 | of two commands with one command id at most one changes topics, subscriptions or policy |
| `MessageBusDedupe.IdempotencyKeyInjective` | crates/graphrefly/src/messaging.rs:2503-2505 | the dedupe key of a publish tells its topic and its idempotency key |
| `MessageBus.MessageBusState.ReduceCommand` | crates/graphrefly/src/messaging.rs:1656-1713 | the in-place reducer makes exactly the step above from every state, and emits the same events |
| `MessageBus.MessageBusState.PublishMessage` | crates/graphrefly/src/messaging.rs:1715-1802 | publishing in place: topic creation or refusal, numbering, dedupe mark, trim |
| `MessageBus.MessageBusState.TrimRetention` | crates/graphrefly/src/messaging.rs:1850-1919 | trimming in place is the step whose kept messages `PublishKeepsAllowed` pins and whose flags and issues `TrimEffects` does |
| `MessageBus.MessageBusState.AckSubscription` | crates/graphrefly/src/messaging.rs:1921-1995 | acknowledging in place, with its refusals |
| `MessageBus.MessageBusState.SeekSubscription` | crates/graphrefly/src/messaging.rs:1997-2063 | seeking in place, with its refusals; a successful seek clears the flag |
| `MessageBus.MessageBusState.EnsureSubscription` | crates/graphrefly/src/messaging.rs:2371-2432 | opening in place: an existing subscription is kept, a new one starts where asked or at the head |
| `MessageBus.MessageBusState.DuplicateCommandEvents` | crates/graphrefly/src/messaging.rs:2147-2165 | a repeated command changes nothing but, under the dead-letter action, the dead letters |
| `Utf16.JsLessIsStrictTotalOrder` | crates/graphrefly/src/json.rs:263-265 | comparing by UTF-16 code units (section 3.2.3 of RFC 8785) is a strict total order on strings |
| `Utf16.EncodeInjective` | crates/graphrefly/src/json.rs:263-265 | the code units of a string determine it |
| `Utf16.UnitsOf` | crates/graphrefly/src/json.rs:263-265 | one code unit below U+10000, else a high and a low surrogate from which the scalar value is computed back |
| `Utf16.EncodeSnoc` | crates/graphrefly/src/json.rs:263-265 | the units of a string are those of its characters, one after the other |
| `Utf16.JsLessIff` | crates/graphrefly/src/json.rs:263-265 | one string comes before another exactly when, at the first place where their units differ, it has the smaller unit or has ended |
| `Utf16.SortedListingUnique` | crates/graphrefly/src/json.rs:224-239 | there is one ascending listing of a set of names, so member order in the source map never matters |
| `Utf16.SortByJsUtf16` | crates/graphrefly/src/json.rs:224-239 | sorting any listing of the names gives the one listing that ascends in the order of `JsLessIff` |
| `Utf16.NotCodePointOrder` | crates/graphrefly/src/json.rs:263-265 | the order is not the order of code points: a pair where they differ |
| `JsonRoundTrip.ParsePrint` | crates/graphrefly/src/json.rs:202-243 | parsing canonical text, whatever follows it, reads exactly the printed value and stops at its end |
| `JsonRoundTrip.QuoteReads` | crates/graphrefly/src/json.rs:208-210 | reading a printed string gives the string back, with every escape of section 7 of RFC 8259 |
| `JsonRoundTrip.IntTextValue` | crates/graphrefly/src/json.rs:245-261 | a printed safe integer reads back as itself |
| `JsonRoundTrip.PrintThenDecode` | crates/graphrefly/src/json.rs:110-135 | every value that passes strict validation decodes back from its canonical text |
| `JsonRoundTrip.DecodeAcceptsExactlyCanonical` | crates/graphrefly/src/json.rs:122-135 | strict decoding yields a value from a text exactly when the text is that value's canonical text and the value is strict |
| `JsonRoundTrip.CanonicalInjective` | crates/graphrefly/src/json.rs:202-243 | different values never print alike |
| `JsonCanonical.CanonicalIff` | crates/graphrefly/src/json.rs:202-243 | canonical text by its form: it is the yield of a derivation tree of the value without white space, with least escapes, plain integers and names that ascend in the order of `JsLessIff`, and the only such text |
| `JsonCanonical.NeatIsCanonical` | crates/graphrefly/src/json.rs:202-243 | every such tree of a value yields the same text |
| `JsonCanonical.EscapeTexts` | crates/graphrefly/src/json.rs:208-210 | which characters are escaped and with which text |
| `JsonCanonical.DecimalText` | crates/graphrefly/src/json.rs:245-261 | integers in base ten, most significant digit first |
| `JsonCanonical.StrictIff` | crates/graphrefly/src/json.rs:137-200 | strict values are those in which nothing lies deeper than 128 levels and every integer is within ±(2^53 − 1) |
| `JsonCodec.CanonicalJsonString` | crates/graphrefly/src/json.rs:202-243 | the printing loops append exactly the canonical text, the one of `CanonicalIff` |
| `JsonCodec.StableJsonString` | crates/graphrefly/src/json.rs:110-115 | validation and printing together: text for strict values, an error for the others |
| `JsonCodec.StrictJsonDecode` | crates/graphrefly/src/json.rs:122-135 | the decoder's steps (grammar, repeated names, canonical form) decide exactly as the specification above |
| `JsonTrees.DocumentIff` | crates/graphrefly/src/json.rs:122-135 | a text is a JSON document with a given meaning exactly when a derivation tree of RFC 8259, with its white space, escapes and number forms, yields it: the readers are sound and complete for the grammar |
| `JsonTrees.Unambiguous` | crates/graphrefly/src/json.rs:122-135 | no text has two meanings |
| `JsonCanonical.EscapesByUnits` | crates/graphrefly/src/json.rs:122-135 | an escape in digits means the character with these UTF-16 units; the short ones mean the five controls or themselves |
| `JsonTrees.UniqueDocumentIff` | crates/graphrefly/src/json.rs:267-461 | what the duplicate scanner accepts, said in derivation trees |
| `JsonTrees.TreeReads` | crates/graphrefly/src/json.rs:367-379 | every yield reads as its meaning, whatever follows that cannot extend it |
| `JsonScanner.TokenReads` | crates/graphrefly/src/json.rs:291-316 | finding the closing quote first and decoding the token afterwards is reading the string grammar character by character |
| `JsonScanner.Scanner.ReadJsonString` | crates/graphrefly/src/json.rs:291-316 | the index moves strictly forward to the end of the string, and the name returned is the decoded one |
| `JsonScanner.Scanner.ConsumeNumber` | crates/graphrefly/src/json.rs:327-365 | accepts exactly the numbers of section 6 of RFC 8259 and stops where they end |
| `JsonScanner.Scanner.ScanValue` | crates/graphrefly/src/json.rs:367-379 | accepts exactly the texts of the grammar whose objects repeat no name, and stops at the value's end |
| `JsonScanner.Scanner.ScanObject` | crates/graphrefly/src/json.rs:381-424 | the same for objects: members, separators, and no name twice once decoded |
| `JsonScanner.Scanner.ScanArray` | crates/graphrefly/src/json.rs:426-461 | the same for arrays |
| `JsonScanner.AssertNoDuplicateKeys` | crates/graphrefly/src/json.rs:267-461 | ends on every text, and accepts exactly the JSON documents in which no object at any depth has two equal decoded member names |
| `Identity.TupleKeyIsCanonicalJson` | crates/graphrefly/src/identity.rs:3-5 | a tuple key is the canonical JSON of its list of strings |
| `Identity.TupleKeyInjective` | crates/graphrefly/src/identity.rs:3-5 | different lists of strings have different keys, whatever they contain |
| `Identity.CompoundTupleKeyInjective` | crates/graphrefly/src/identity.rs:7-10 | so have keys under one prefix |
| `Identity.TupleKeyRoundTrip` | crates/graphrefly/src/identity.rs:12-14 | the strings of a key can be read back from it |
| `Checkpoint.PrepareCheckpoint` | crates/graphrefly/src/checkpoint.rs:1256-1387 | validation succeeds exactly on acceptable checkpoints: checkpoint version, per-node rules with strict values and well-formed version metadata, distinct ids, deps present, edges equal to deps without repeats, mounts alike and under distinct paths; the result is the checkpoint re-keyed, or the first problem in the order of the checks |
| `Checkpoint.ProblemIff` | crates/graphrefly/src/checkpoint.rs:1256-1387 | the checks in their order find no problem exactly in what is acceptable |
| `Checkpoint.NodeProblemMeans` | crates/graphrefly/src/checkpoint.rs:1265-1313 | a node has no problem exactly when its factory is known, its status is one of a node at rest, and all it carries is strict |
| `Checkpoint.CheckEdges` | crates/graphrefly/src/checkpoint.rs:1317-1357 | recorded edges are accepted exactly when they are, as a set and without repeats, the dep relation; otherwise the first problem in order is reported |
| `Restore.GraphBuilder.BuildNode` | crates/graphrefly/src/checkpoint.rs:1480-1551 | one recursive rebuild step: it ends, keeps what is built, and fails only on a cycle or an undefined node |
| `Restore.GraphBuilder.BuildAll` | crates/graphrefly/src/checkpoint.rs:1435-1444 | on closed deps the rebuild succeeds exactly when the dep relation is acyclic and every node is defined; then every node is built once, after its deps, with its recorded dep list |
| `Restore.ConstructPrepared` | crates/graphrefly/src/checkpoint.rs:1426-1478 | the same for a graph and all its mounts, where every terminal record must agree with its status and every version with the policy and the data of its node; then each node holds the recorded value, status, terminal flag and version |
| `Restore.RestoreRuntimes` | crates/graphrefly/src/checkpoint.rs:1448-1476 | each node gets its recorded runtime back, exactly when terminal records agree with statuses and versions verify |
| `Restore.RestoreGraph` | crates/graphrefly/src/checkpoint.rs:958-964 | restoring succeeds exactly when the checkpoint is acceptable, the deps are acyclic and defined, terminal records agree with statuses, and every version fits: at level 1 the hash of the canonical text of the recorded value is its `cid` |
| `Restore.RestorableIff` | crates/graphrefly/src/checkpoint.rs:1426-1551 | what of a checked checkpoint can be rebuilt, node by node and mount by mount, in terms of the records alone |
| `Restore.AcceptedIsWellFormed` | crates/graphrefly/src/checkpoint.rs:1256-1387 | whatever validation accepts meets what the rebuild needs |
| `Restore.CompleteLogMeansAcyclic` | crates/graphrefly/src/checkpoint.rs:1480-1551 | a complete build log, deps before dependents, exists only for an acyclic relation |
| `Capture.CollectEntries` | crates/graphrefly/src/checkpoint.rs:966-985 | the worklist of `checkpoint_graph` finds exactly the nodes reachable through deps, registered ones first, each once |
| `Capture.OwnEdgesAcceptedIff` | crates/graphrefly/src/checkpoint.rs:1317-1357 | the edges a checkpoint records are accepted back exactly when no node lists a dep twice |
| `Capture.RepeatedDepIsRefused` | crates/graphrefly/src/checkpoint.rs:1317-1357 | a two-node graph whose own checkpoint is refused |
| `Capture.RecordedEdgesAreDeps` | crates/graphrefly/src/checkpoint.rs:988-1011 | the recorded edges are the dep relation |
| `SaveAndRestore.CheckpointGraph` | crates/graphrefly/src/checkpoint.rs:966-1093 | writing succeeds exactly when everything reached is quiescent and without an ERROR terminal, and each value is an integer, written unvalidated, or strict JSON, down through the mounts; it records exactly the nodes reached with their deps, values and versions |
| `SaveAndRestore.RecordTells` | crates/graphrefly/src/checkpoint.rs:988-1060 | the record of a node field by field: restore metadata or none, status, version, COMPLETE, and its value and context unless it is a helper |
| `SaveAndRestore.RecordableIff` | crates/graphrefly/src/checkpoint.rs:988-1060 | which nodes the writer accepts: at rest, no ERROR terminal, and every value it has to record strict JSON or an integer |
| `SaveAndRestore.OwnCheckpointAcceptedIff` | crates/graphrefly/src/checkpoint.rs:1256-1387 | what was written passes its own restore's validation exactly when the live graph is clean: deps registered, ids distinct, factories in the registry with strict configuration, no dep listed twice, integers within ±(2^53 − 1), versions sound, and so in the mounts |
| `SaveAndRestore.OwnCheckpointRestorableIff` | crates/graphrefly/src/checkpoint.rs:1426-1551 | what is accepted is rebuilt exactly when the live deps are acyclic, the descriptors define the nodes, and each version fits the policy its node is restored under and the value recorded of it |
| `SaveAndRestore.SaveThenRestore` | crates/graphrefly/src/checkpoint.rs:952-1093 | checkpoint and restore end to end: when they succeed, and that the restored graph has the same nodes, each once, with the same deps in order and the same values, statuses, terminal flags and versions, at every mount |
| `SaveAndRestore.IntegerAcceptedIff` | crates/graphrefly/src/checkpoint.rs:1153-1200 | a state node that holds an integer is always written, and its checkpoint accepted back exactly when the integer lies within ±(2^53 − 1) |
| `SaveAndRestore.RefusedInteger` | crates/graphrefly/src/checkpoint.rs:1389-1425 | 2^53 + 1 is written and refused by its own restore |
| `SaveAndRestore.OwnVersionFits` | crates/graphrefly/src/versioning.rs:280-328 | the version of a node fits at restore under the policy that made it while the recorded value is the data it was made from |
| `NodeVersions.VersionCounts` | crates/graphrefly/src/versioning.rs:146-201 | after any data a version counts it; at level 1 it carries the content id of the latest data and that of the data before |
| `NodeVersions.VersionsIff` | crates/graphrefly/src/versioning.rs:146-201 | a node can keep versioning exactly while its counter stays safe and, at level 1, all that is hashed is strict |
| `NodeVersions.VersionReads` | crates/graphrefly/src/versioning.rs:203-278 | the JSON form of a version reads back as that version exactly when it is sound: a safe counter, and a previous id exactly after the first data |
| `NodeVersions.VersionReadFrom` | crates/graphrefly/src/versioning.rs:203-278 | nothing else is read: what is accepted is the JSON form of a sound version |
| `NodeVersions.VerifyVersion` | crates/graphrefly/src/versioning.rs:280-328 | the check of a restored version succeeds exactly when there is no record under a disabled policy, a sound level 0 record at level 0, and at level 1 a sound level 1 record whose `cid` is the hash of the canonical text of the data held, which is strict |
| `NodeVersions.VerifiesIff` | crates/graphrefly/src/versioning.rs:280-328 | the ordered checks find no problem exactly then |
| `NodeVersions.ProblemTells` | crates/graphrefly/src/versioning.rs:280-328 | and which problem they find otherwise |
| `NodeVersions.OwnVersionVerifies` | crates/graphrefly/src/versioning.rs:280-328 | a version reached by data passes under the same policy while the latest data is there |
| `NodeVersions.ColdVersionIff` | crates/graphrefly/src/versioning.rs:280-328 | without its data a level 1 version passes exactly while there never was any |
| `NodeVersions.PolicyMustMatch` | crates/graphrefly/src/versioning.rs:280-328 | under a policy of another level no version passes |
| `Bfs.FrontierOnWalk` | crates/graphrefly/src/diagnostics.rs:609-647 | a walk leaves what a breadth-first search has closed off only through its frontier |
| `Bfs.FoundIsShortest` | crates/graphrefly/src/diagnostics.rs:609-647 | the recorded distance of a found node is the least |
| `Bfs.ExhaustedMisses` | crates/graphrefly/src/diagnostics.rs:609-647 | an exhausted search rules out every walk within the limit, and every walk at all if nothing was cut off |
| `Diagnostics.TracePath` | crates/graphrefly/src/diagnostics.rs:634-640 | following predecessors back gives a walk of the recorded length |
| `Diagnostics.ShortestPath` | crates/graphrefly/src/diagnostics.rs:609-647 | a real path of least length within the limit; an empty answer only when the limit cut something off and no path within it exists; none only when no path of any length exists |
| `Diagnostics.Reachable` | crates/graphrefly/src/diagnostics.rs:508-553 | exactly the nodes within the limit with their exact distances, and the truncation flag exactly when some node at the limit still has a successor |
| `Diagnostics.NotTruncatedMeansComplete` | crates/graphrefly/src/diagnostics.rs:508-553 | an answer that is not truncated holds every reachable node |
| `DiagnosticsCycle.ShortestCycle` | crates/graphrefly/src/diagnostics.rs:649-691 | a shortest closed walk within the limit; an empty answer exactly when there is none and the limit cut something off; none only when no closed walk exists at all |
| `DiagnosticsExplain.IndexSnapshot` | crates/graphrefly/src/diagnostics.rs:454-488 | the index holds every node of the snapshot and of its mounted subgraphs, of several with one id the last by place, and, between them, exactly the deps of these nodes and all listed edges, in both directions |
| `Snapshots.IdFlatIff` | crates/graphrefly/src/diagnostics.rs:256-261 | an id is found in the flattened snapshot exactly when a node at some depth of mounted subgraphs has it |
| `Snapshots.LastFlatIsLast` | crates/graphrefly/src/diagnostics.rs:454-460 | the last of several nodes with one id is the last in the order of places: a graph's own nodes, then its subgraphs in list order, each as a block |
| `Snapshots.FlatOrder` | crates/graphrefly/src/diagnostics.rs:256-261 | the flattening keeps that order |
| `Snapshots.EdgeFlatIff` | crates/graphrefly/src/diagnostics.rs:478-488 | the edges indexed are listed from the graph and from all its subgraphs, and from nowhere else |
| `DiagnosticsExplain.ExplainPath` | crates/graphrefly/src/diagnostics.rs:705-756 | `Ok` exactly when a path within the limit exists, with the steps of a shortest one, each with its hop and the places where the next node lists it as a dep; otherwise which of the other reasons, for every combination of endpoints |
| `DiagnosticsExplain.ReachableIn` | crates/graphrefly/src/diagnostics.rs:508-553 | the reachability query on a snapshot, upstream, downstream or both |
| `DiagnosticsExplain.ZeroDepthHidesEdge` | crates/graphrefly/src/diagnostics.rs:705-756 | with `max_depth` 0 the answer across an edge is `NoPath` although a path exists |
| `DiagnosticsExplain.ExceededWithoutPath` | crates/graphrefly/src/diagnostics.rs:705-756 | `MaxDepthExceeded` can be reported where no path exists at all |
| `HigherOrder.MapOperator.RunWave` | crates/graphrefly/src/higher_order.rs:200-350 | one clean wave by mode: a switch starts the last value of the batch, an exhaust the first if nothing survives, an unlimited merge all, a concat and a limited merge the oldest of queue and batch for the free places, the rest staying queued; afterwards the deps are the source followed by the inners; COMPLETE exactly when the source is done and nothing is live or queued; ERROR exactly on an error terminal or a projector panic |
| `HigherOrder.MapOperator.RunMapBody` | crates/graphrefly/src/higher_order.rs:200-350 | the wave as it is run: what is forwarded and sent, which inners go and come, and the state after it |
| `HigherOrderModel.ProjectedStarts` | crates/graphrefly/src/higher_order.rs:242-337 | the values that each mode starts, by their places in queue and batch |
| `HigherOrderModel.StartsOnce` | crates/graphrefly/src/higher_order.rs:242-337 | the modes leave no choice |
| `HigherOrderModel.ForwardedAt` | crates/graphrefly/src/higher_order.rs:214-216 | every datum of every inner is sent on, the first inner included, in dep order and its own, and nothing else |
| `HigherOrderModel.PickedAt` | crates/graphrefly/src/higher_order.rs:231-240 | the inners that have completed, and those that have not, by place |
| `HigherOrder.MapOperator.ProjectWave` | crates/graphrefly/src/higher_order.rs:230-349 | the state after a wave without an error terminal, with the invariants: no place idle while a value waits, at most `concurrent` inners, and all that arrived is what was projected followed by what is queued |
| `HigherOrder.MapOperator.FailWave` | crates/graphrefly/src/higher_order.rs:220-225 | an error terminal drops every inner and the queue |
| `HigherOrder.MapOperator.StartQueued` | crates/graphrefly/src/higher_order.rs:314-325 | a limited merge starts queued values oldest first until the places or the values run out |
| `HigherOrder.MapOperator.StartLatest` | crates/graphrefly/src/higher_order.rs:246-268 | a switch projects the last value of the batch and removes every other inner |
| `HigherOrder.MapOperator.TakeCompleted` | crates/graphrefly/src/higher_order.rs:231-240 | the inners split into the completed ones and the rest, both in order |
| `HigherOrder.MapOperator.CleanupAllInners` | crates/graphrefly/src/higher_order.rs:445-461 | cleanup asks for the removal of each inner once |
| `HigherOrder.SlotsKept` | crates/graphrefly/src/higher_order.rs:314-337 | a wave that keeps some inners leaves no place free while a value is queued |
| `HigherOrder.HistoryContinues` | crates/graphrefly/src/higher_order.rs:269-337 | what is projected now and what stays queued are, in order, what was queued and what arrived |
| `HigherOrderModel.DepsAfterWave` | crates/graphrefly/src/ctx.rs:249-275 | the rewire requests of a clean wave, applied in order, make the deps the source and the new inners in order |
| `HigherOrderModel.DepsAfterPanic` | crates/graphrefly/src/ctx.rs:249-275 | those of a projector panic leave the source and the inners that had completed |
| `HigherOrderModel.DepsAfterError` | crates/graphrefly/src/ctx.rs:249-275 | those of an error terminal leave the source alone |
| `ReactiveLists.ReactiveList.Append` | crates/graphrefly/src/data_structures.rs:844-848 | contents and emitted changes after an append, with the trim it may cause |
| `ReactiveLists.ReactiveList.AppendMany` | crates/graphrefly/src/data_structures.rs:851-858 | the same for a batch; an empty one does nothing |
| `ReactiveLists.ReactiveList.Insert` | crates/graphrefly/src/data_structures.rs:861-865 | the value goes in at the index, then the head is trimmed |
| `ReactiveLists.ReactiveList.InsertMany` | crates/graphrefly/src/data_structures.rs:868-875 | the same for a batch |
| `ReactiveLists.ReactiveList.Pop` | crates/graphrefly/src/data_structures.rs:878-885 | removes and returns one element, counted from the end when negative; the change names its place and value |
| `ReactiveLists.ReactiveList.Clear` | crates/graphrefly/src/data_structures.rs:888-893 | an empty list emits nothing |
| `ReactiveLists.ReactiveList.Commit` | crates/graphrefly/src/data_structures.rs:397-464 | every single change keeps the list equal to the replay of what was emitted, and the version equal to its length modulo 2^64 |
| `Buffers.NormalizeReadIndex` | crates/graphrefly/src/data_structures.rs:2393-2397 | a negative index counts from the end; none outside `[-len, len)` |
| `ReactiveLogs.DeltasReplay` | crates/graphrefly/src/data_structures.rs:1475-1503 | replaying what a log operation emitted, on its old contents, is the operation |
| `ReactiveLogs.StillTail` | crates/graphrefly/src/data_structures.rs:710-757 | the log is always what was ever appended without a prefix, and the prefix only grows |
| `ReactiveLogs.ReactiveLog.Append` | crates/graphrefly/src/data_structures.rs:1475-1479 | append, with the trim made before either change is announced |
| `ReactiveLogs.ReactiveLog.AppendMany` | crates/graphrefly/src/data_structures.rs:1482-1489 | the same for a batch |
| `ReactiveLogs.ReactiveLog.TrimHead` | crates/graphrefly/src/data_structures.rs:1500-1503 | the first `n` elements go, or all if there are fewer, with one change; nothing to remove is silent |
| `ReactiveLogs.ReactiveLog.Clear` | crates/graphrefly/src/data_structures.rs:1492-1497 | an empty log emits nothing |
| `LogScans.LogScan.Run` | crates/graphrefly/src/data_structures.rs:1600-1643 | one run of the scan: where it starts over, when it says nothing, and what it folds |
| `LogScans.OpRefinesFold` | crates/graphrefly/src/data_structures.rs:1587-1645 | each change in its own run: after one operation the scan has said one value, the fold of the whole log, or nothing if nothing changed |
| `LogScans.ScanRefinesFullFolds` | crates/graphrefly/src/data_structures.rs:1587-1645 | over any run of operations the incremental scan says exactly what refolding the whole log after each effective operation says |
| `LogScans.LateScanCatchesUp` | crates/graphrefly/src/data_structures.rs:1587-1645 | a scan attached to a log with contents agrees from its first change on |
| `LogScans.CoalescedRun` | crates/graphrefly/src/data_structures.rs:1587-1645 | with the changes of any operations in one run: the full fold, or silence exactly when a removal is among them and fewer elements are left than were appended |
| `LogScans.CoalescedRuns` | crates/graphrefly/src/data_structures.rs:1587-1645 | over any number of such runs each says the full fold or is silent, and which is decided by its own changes alone |
| `LogScans.CoalescedTrimIsSilent` | crates/graphrefly/src/data_structures.rs:1587-1645 | such a silent run |
| `ReactiveMaps.ReactiveMap.Set` | crates/graphrefly/src/data_structures.rs:1270-1274 | the row and its change |
| `ReactiveMaps.ReactiveMap.SetMany` | crates/graphrefly/src/data_structures.rs:1277-1281 | one change an entry |
| `ReactiveMaps.LastEntryWins` | crates/graphrefly/src/data_structures.rs:596-601 | of several entries with one key the last wins; other keys keep their rows |
| `ReactiveMaps.ReactiveMap.Delete` | crates/graphrefly/src/data_structures.rs:1284-1293 | the change carries the removed value; an absent key changes nothing |
| `ReactiveMaps.ReactiveMap.DeleteMany` | crates/graphrefly/src/data_structures.rs:1296-1300 | one change for each present key, at its first mention, with its old value |
| `ReactiveMaps.PresentInOrder` | crates/graphrefly/src/data_structures.rs:1296-1300 | the keys named keep the order of their first mention |
| `ReactiveMaps.ReactiveMap.Clear` | crates/graphrefly/src/data_structures.rs:1303-1310 | the change counts the rows |
| `ReactiveMaps.ReactiveMap.Commit` | crates/graphrefly/src/data_structures.rs:648-670 | every change keeps the map equal to the replay of what was emitted |
| `ReactiveIndexes.ReactiveIndex.Upsert` | crates/graphrefly/src/data_structures.rs:1102-1111 | the row and its change |
| `ReactiveIndexes.ReactiveIndex.Delete` | crates/graphrefly/src/data_structures.rs:1114-1122 | an absent key changes nothing |
| `ReactiveIndexes.ReactiveIndex.DeleteMany` | crates/graphrefly/src/data_structures.rs:568-581 | one change naming each removed key once |
| `ReactiveIndexes.RemovedAreRemoved` | crates/graphrefly/src/data_structures.rs:568-581 | the keys named are distinct and present, and removing them removes all that were listed |
| `ReactiveIndexes.ReactiveIndex.Clear` | crates/graphrefly/src/data_structures.rs:1136-1143 | the change counts the rows |
| `GroupRelease.GraphRuntime.ReleaseNodes` | crates/graphrefly/src/graph.rs:891-1025 | succeeds exactly when no registered outsider depends on a member, every member is quiescent, none has more subscribers than active members hold, and the deps of the active members have no cycle; then every member is released once, in an order known from the list, dependents before deps exactly when the list passes the check of `DependentsFirstIff`; a failed check changes nothing |
| `GroupRelease.RegisteredInOrder` | crates/graphrefly/src/graph.rs:891-907 | the members are the registered ones of the list, in its order |
| `GroupRelease.RemainingInOrder` | crates/graphrefly/src/graph.rs:972-975 | what stays registered keeps its order |
| `GroupRelease.GraphRuntime.ScanLoop` | crates/graphrefly/src/graph.rs:987-1013 | the nested loops are the step functions `Pass` and `Passes` |
| `GroupRelease.GraphRuntime.InternalSubscribers` | crates/graphrefly/src/graph.rs:940-945 | counts the dep places of active members |
| `GroupRelease.GraphRuntime.Deactivate` | crates/graphrefly/src/node.rs:2939-2990 | a node without subscribers goes inactive and drops its own subscriptions, and so on |
| `ReleaseLoop.EmptiesIffAcyclic` | crates/graphrefly/src/graph.rs:987-1014 | the repeated scan empties the group exactly when the deps of its active members have no cycle |
| `ReleaseLoop.ReleasedOnceAndQuietly` | crates/graphrefly/src/graph.rs:987-1014 | each member is released once, and when it is no active node depends on it |
| `ReleaseOrder.ReleasedInOrder` | crates/graphrefly/src/graph.rs:986-1014 | the exact order of release, known from the list alone: first the members all of whose roots are listed after them, then the others, each part in the reverse of the list |
| `ReleaseOrder.TwoScans` | crates/graphrefly/src/graph.rs:987-1014 | the first scan frees exactly the first part, and a second one the rest: two scans always suffice |
| `ReleaseOrder.DependentsFirstIff` | crates/graphrefly/src/graph.rs:986-1014 | every member active at the start is released before each of its member deps exactly when the list passes a check on each active member that is not a root and each of its deps |
| `ReleaseOrder.FreeIffRootsGone` | crates/graphrefly/src/graph.rs:990-994 | a member is free exactly when every root over it has been freed |
| `ReleaseOrder.PassesAwake` | crates/graphrefly/src/node.rs:2830-2853 | every subscribed node stays active throughout |
| `ReleaseLoop.ListedInOrder` | crates/graphrefly/src/graph.rs:987-1014 | a group listed with deps before dependents is released in one scan, in the reverse order |
| `ReleaseLoop.DepReleasedFirst` | crates/graphrefly/src/graph.rs:987-1014 | listed otherwise, a dep can go before a dependent that was active when the release began |
| `GroupRelease.ReleaseCascade` | crates/graphrefly/src/graph.rs:891-1027 | such a release, through all its checks, from a graph whose own observer keeps it active |
| `ReleaseLoop.UnsubscribedSound` | crates/graphrefly/src/node.rs:2841-2853 | the cascade keeps the subscriber counts equal to the subscriptions that active nodes and outsiders hold |
| `ReleaseModel.OnlyMembersSubscribe` | crates/graphrefly/src/graph.rs:940-950 | the count check leaves no subscriber outside the group |
| `ReleaseModel.StuckHasCycle` | crates/graphrefly/src/graph.rs:1011-1013 | if every pending node has an active pending dependent, the deps have a cycle |
| `TopologyEvents.Topology.ReceivedAll` | crates/graphrefly/src/graph.rs:1229-1268 | after any interleaving of emits, deliveries, subscriptions and their ends: what an observer got has strictly increasing `seq`, and between deliveries an active observer got exactly what was delivered since it joined, all of it without a path and the matching events with one |
| `TopologyEvents.Topology.Subscribe` | crates/graphrefly/src/graph.rs:1784-1807 | the freed slot used last or a new one; the active count stays the number of occupied slots |
| `TopologyEvents.Topology.Unsubscribe` | crates/graphrefly/src/graph.rs:1836-1868 | an active handle empties the slot of its own sink; a spent one changes nothing, whoever has the slot |
| `TopologyEvents.Topology.Emit` | crates/graphrefly/src/graph.rs:1229-1235 | events are numbered and kept in order of emission, delivered or queued |
| `TopologyEvents.Topology.DeliverNext` | crates/graphrefly/src/graph.rs:1245-1264 | one observer's turn: offered the event if its slot still holds it |
| `TopologyEvents.Topology.Advance` | crates/graphrefly/src/graph.rs:1265-1267 | the oldest queued event is next; the order of events never changes |
| `TopologyEvents.SlotFreed` | crates/graphrefly/src/graph.rs:1836-1868 | the free list holds exactly the empty slots, once each, and every active handle its own slot, also after a slot is freed |
| `TopologyEvents.SlotReused` | crates/graphrefly/src/graph.rs:1785-1800 | and after a freed slot is taken again |
| `TopologyEvents.MatchingAscends` | crates/graphrefly/src/graph.rs:1256-1262 | filtering by path keeps the order |
| `Cqrs.Runtime.ReduceCommandFact` | crates/graphrefly/src/cqrs.rs:831-960 | the verdict on a command, the counters, every fact emitted with its cursor, the events with all they carry from their drafts, one audit record; and for a rejection that no event, event id or sequence number was used |
| `Cqrs.Runtime.RunGuarantees` | crates/graphrefly/src/cqrs.rs:831-1082 | over any run: accepted events and audit records are numbered 1, 2, 3, …, there is one record a command, together they name every event once and in order and count every error, and an admitted command id or event id comes back only more than its window later |
| `Cqrs.Runtime.PrepareEvents` | crates/graphrefly/src/cqrs.rs:972-1019 | the first fault among the drafts, or ids new to the window and to one another |
| `Cqrs.Runtime.AcceptEvents` | crates/graphrefly/src/cqrs.rs:915-939 | the prepared events in order under the next numbers, each with the cursor of its moment |
| `Cqrs.Runtime.Failure` | crates/graphrefly/src/cqrs.rs:1021-1056 | one error and one audit record, and nothing else |
| `Cqrs.Runtime.TrimCommands` | crates/graphrefly/src/cqrs.rs:1174-1184 | the window keeps its newest entries and counts the rest |
| `CqrsModel.RecursOnlyPastWindow` | crates/graphrefly/src/cqrs.rs:867-872 | an id that each time was absent from the window of the last N comes back only more than N later, and never when the window is unbounded |
| `CqrsModel.GeneratedIdInjective` | crates/graphrefly/src/cqrs.rs:995-1001 | a generated event id tells its command and its place |
| `CqrsModel.GeneratedNeverDuplicate` | crates/graphrefly/src/cqrs.rs:972-1019 | where ids are generated, the events of a new command are never duplicates |
| `CqrsModel.NoFaultIff` | crates/graphrefly/src/cqrs.rs:972-1019 | no fault is found exactly when each draft has none |
| `CqrsModel.VerdictTells` | crates/graphrefly/src/cqrs.rs:831-930 | a command is accepted exactly when it is well-formed and new, its handler is known and returns drafts, each has a known type and an id new to the window and to the drafts before it, and the clock answers; otherwise which error, by the first of these that fails |
| `CqrsModel.FirstFaultTells` | crates/graphrefly/src/cqrs.rs:972-1019 | the draft that decides is the first that is not fine, and its error says why: no type, an unknown type, or an id used before |
| `Cqrs.OutcomeFacts` | crates/graphrefly/src/cqrs.rs:831-960 | the facts of one command one by one, and its audit record |
| `Cqrs.Runtime.CursorTells` | crates/graphrefly/src/cqrs.rs:1141-1158 | the cursor counts events, commands, failures and records, and what each window holds and has let go |
| `Combinators.Zip.Run` | crates/graphrefly/src/combinators.rs:72-128 | after each run the tuples since the deps last changed in number are the rows of what has been waiting or has arrived since, as many as the shortest column; COMPLETE has been sent exactly when a completed dep has no value left or there are no deps |
| `Combinators.SplitDoesNotMatter` | crates/graphrefly/src/combinators.rs:72-128 | two zips delivered the same, with the same deps complete, have emitted the same and agree on COMPLETE, however it was split into runs |
| `Combinators.Zip.CompleteForGood` | crates/graphrefly/src/combinators.rs:117-125 | after COMPLETE no further tuple could form |
| `Combinators.Concat.Run` | crates/graphrefly/src/combinators.rs:138-187 | all that dep 0 delivers up to the run it completes in and then all of dep 1, nothing of these lost; COMPLETE exactly when both are done |
| `Combinators.BufferCount.Run` | crates/graphrefly/src/combinators.rs:300-331 | full chunks in order, and at COMPLETE the rest |
| `Combinators.SameChunks` | crates/graphrefly/src/combinators.rs:300-331 | the chunks sent, the shorter last one included, depend only on what was delivered and whether it has completed |
| `AckDriver.Driver.TwoTimeoutsAtMost` | crates/graphrefly-bindings-py/src/lib.rs:2787-2861 | of all events sent over any interleaving, each timeout belongs to an attempt once inserted, and at most two to each: the first not before `timeout_ms` after it was observed, the second not before the last announced delay after the first, or at the end of u64 time |
| `AckDriver.Driver.OnClock` | crates/graphrefly-bindings-py/src/lib.rs:2787-2870 | `now_ms` never falls; a fact that goes back or is no integer is refused; otherwise exactly the due attempts get one timeout each, in ascending order, or one state event says that none is; and each history moves by exactly these events |
| `AckDriver.SentMatchesLives` | crates/graphrefly-bindings-py/src/lib.rs:2818-2870 | the timeouts returned on one clock fact are one for each attempt whose history grows, and no others |
| `AckDriver.FiresIffDue` | crates/graphrefly-bindings-py/src/lib.rs:2832-2861 | a pending attempt fires exactly when it is due: the first time `timeout_ms` after it was observed, the second time the last announced delay after the first, or at the end of u64 time |
| `AckDriver.Driver.OnStatus` | crates/graphrefly-bindings-py/src/lib.rs:2746-2773 | a status with nothing pending clears, an exhausted one removes, a waiting one sets the retry time of a record between its two timeouts |
| `AckDriver.Driver.OnAttempt` | crates/graphrefly-bindings-py/src/lib.rs:2696-2716 | a new record replaces the one under its number |
| `AckDriver.Driver.OnAckOrNack` | crates/graphrefly-bindings-py/src/lib.rs:2720-2742 | an ack or nack removes the record |
| `AckDriver.TickTracks` | crates/graphrefly-bindings-py/src/lib.rs:2832-2861 | one clock fact on one record: the fields follow its life, and nothing fires a third time |
| `AckDriver.DelayTracks` | crates/graphrefly-bindings-py/src/lib.rs:2758-2772 | an announced delay moves only a retry that is still to come |
| `DispatchPool.Pool.HandleResolvesToItsOwn` | crates/graphrefly/src/dispatcher.rs:108-115 | below 2^32 slots and recyclings a handle resolves to its own function while it is live and to nothing afterwards |
| `DispatchPool.Pool.ResolvesIff` | crates/graphrefly/src/dispatcher.rs:108-115 | exactly: a handle resolves when its slot is occupied and has been recycled a multiple of 2^32 times since |
| `DispatchPool.Pool.LiveResolves` | crates/graphrefly/src/dispatcher.rs:108-115 | a live handle resolves to its own function, however often its slot was recycled |
| `DispatchPool.Pool.UnregisterEndsItsOwn` | crates/graphrefly/src/dispatcher.rs:95-106 | below 2^32 recyclings an unregister ends its own registration and no other |
| `DispatchPool.Pool.TruncatedIdMisses` | crates/graphrefly/src/dispatcher.rs:85-92 | a function put in a slot past 2^32 is out of reach of its handle |
| `DispatchPool.Pool.Register` | crates/graphrefly/src/dispatcher.rs:79-93 | a new live registration; the others stay as they were |
| `DispatchPool.Pool.Unregister` | crates/graphrefly/src/dispatcher.rs:95-106 | frees the named slot if the generation is its own; otherwise nothing |

## Left out

- The wave engine (`node.rs`, `protocol.rs`): only what is said of subscriptions in `ReleaseLoop` and of rewire requests in `HigherOrderModel` is assumed of it.
- Storage, work queues, processes, bridges, asynchronous drivers, HTTP, WebSocket and the rest of the Python binding: input and output, or easy members.
- Floating point: numbers are integers, and the strict codec's numbers are safe integers; the formatting and the subnormal checks of `json.rs` are not modelled, nor is serde_json's recursion limit.
- Bytes: text is a sequence of Unicode scalar values; UTF-8 decoding and its errors are not modelled.
- JsonCodec.StrictJsonDecode: a number token that is not an integer is refused, where the source may accept a fraction.
- Message texts, panic payloads, profiling counters, rendering, JSON Schema validation and option builders: presentational.
- The bus with `max_messages` 0 or a clock that goes back: the trim does not keep the log contiguous then, so both are excluded by precondition where the log is concerned; `ZeroCountLimit` says what a limit of 0 does.
- A failing bus clock (read as 0), the catalog and dead-letter pages, and the timestamps on status facts and dead letters.
- Overflow of 64-bit counters: sequence numbers and counts are unbounded, except the collections' versions and the ack driver's saturation.
- Context values and lifecycle flags are written and validated in the model, not restored; what a descriptor reads from a node's configuration or metadata is not modelled.
- SaveAndRestore.SaveThenRestore: does not compare context values and lifecycle flags; a descriptor's answer and the versioning policy of the node it registers are functions of the recorded node.
- The default content hash of level 1 versions: the hash is an uninterpreted function of the canonical text.
- `topology_diff`, `profile_summary`, `validate_no_islands` and the order in which ordered maps are visited: a search may visit the successors of a node in any order.
- Projectors that return an existing or an already completed node, and the `repeat` operator.
- Views, selections, pages and the sorted snapshot of the index; sources bound to a list or a log (each value is an append).
- GroupRelease.GraphRuntime.ReleaseNodes: quiescence is checked once and does not change; the source asserts it again for each core inside the loop and collects that panic.
- Panics of cleanup hooks during a release (the node is removed all the same), the retired ids, and the topology events announced afterwards.
- Mounted graphs' topology forwarders; an observer's panic, which the source swallows, has no effect on the hub.
- Topology delivery as one call: a run is an interleaving of steps instead, so that observers which emit for ever are covered.
- CqrsModel.GeneratedNeverDuplicate: asks that the ids in the window were generated too; an explicit id can equal a generated one.
- Cqrs.Runtime.ReduceCommandFact: the error messages, and panics that the source passes on to the graph runtime.
- The two pools of the dispatcher are two such slot maps; worker back ends and statistics are not modelled.
