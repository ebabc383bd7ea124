# Verified models of the agent canvas, the MCP session, the metadata filters and two migrations

This project models the parts of the system whose correctness rests on an argument rather than on
a glance, and proves the argument for all inputs, all runs and all interleavings.

**The canvas scheduler** (`Readiness`, `CanvasRun`, `CanvasOrder`, `Canvas`). `agent/canvas.py`
keeps a growing `path`. Every turn takes the entries behind the finished prefix, drops what can
never be given its input, runs what waits on nothing else in the window, holds the rest, and lets
post-processing append successors. `Graph` abstracts the components: what each one reads, which ones
read nothing, and which ids mark a resumed run. `Readiness` defines the outcome of one scheduling
call without its loop (the greatest closed part of the window), `CanvasRun` and `CanvasOrder` reason
about whole runs for arbitrary choices of post-processing, and the class `Canvas.Canvas` is the code
itself, with its loops and its field `path`, proved against those definitions.

**The speech pipeline** (`TtsPipeline`, `Segmentation`, `SentenceEnd`, `SpeechStream`). A streamed message is cut
into sentences; sentences are numbered into a queue of four, synthesised by two workers in any order
and released in order by a reorder buffer. The pipeline is a state machine over producer, workers
and drain; the cutter is a class that buffers chunks, proved for every sentence finder with the one
property the loop needs, and the actual sentence-end pattern is shown to have it. `SpeechStream` puts
the two together.

**The MCP session** (`McpSession`, `McpProgress`, `McpLoopStop`, `McpRegistry`). One step is one lock section or one
event-loop segment between awaits. Deadlines are steps that may be taken at any time. The invariants
hold in every interleaving of callers, closers, the server task and the event loop; `McpProgress` shows
that calls can be served and sessions closed from every reachable state.

**The metadata filters** (`Text`, `Patterns`, `FilterSyntax`, `MetaFilter`, `EsFilter`, `FilterRouting`,
`GaussFilter`, `ListText`, `GaussAgreement`). `MetaFilter` is the in-memory evaluator. `EsFilter` models the Elasticsearch
translator, an evaluator for the bool DSL it emits, and proves that rendered queries select the same
documents; `FilterRouting` models the choice between index and memory and proves when it can be
observed. `GaussFilter` models the SQL translator over an evaluator with three-valued logic and
positional placeholders (sections 8.12 and 8.5 of ISO/IEC 9075:1992), and `GaussAgreement` compares
it with the in-memory evaluator; `ListText` is how the database writes a list of texts. `Patterns` holds one glob matcher for both wildcard queries and
LIKE, and the exactness of the escaping.

**The DSL migration** (`References`, `DslMigration`, `DslGraph`, `DslPlaces`). Ordered JSON objects, the
`{id@name}` pattern, the rewriting of components, path, drawn graph and conversation state.

**Canonical keys** (`Canonical`). Nested Python values, Python's own equality on them, and the
hashable form.

## What does not hold

The model follows the code where its comments, or the other evaluator of the same filter, say
something else.

- `common/metadata_es_filter.py:83-85` says that pushing `not contains` down is safe on multi-valued
  fields. It is not: the in-memory filter judges each value on its own.
  `EsFilter.NotContainsDiffersOnLists` gives a document, `EsFilter.NotContainsAgreesIff` the exact
  condition.
- `common/metadata_es_filter.py:239-240` says that `empty` has the in-memory meaning. The two agree
  exactly on documents that carry the field (`EsFilter.EmptyAgreesIff`, with a document in
  `EsFilter.EmptyDiffersWithoutField`); the GaussDB form has the same gap
  (`GaussAgreement.EmptyDiffersWithoutKey`).
- `=` and `in` trim what they look for, so they miss values with outer space
  (`FilterRouting.TrimmingIsObservable`). A filter agrees with the in-memory one on all documents
  exactly when it is a text operator, or `=` or `in` with trimmed texts (`EsFilter.AlwaysAgreesIff`).
- Because of these a caller of `filter_doc_ids_by_metadata` can tell whether the index or memory
  answered (`FilterRouting.RouteIsObservable`); for one filter exactly when some document does not fit
  it (`FilterRouting.OneFilterPathsAgreeIff`), and never, whatever is stored, exactly for the filters
  just named (`FilterRouting.NeverObservedIff`).
- `agent/canvas.py:475-476` says that a node may only read what an earlier batch produced. From the
  second turn on the path also holds what earlier turns ran, and its outputs have been reset
  (`CanvasRun.HistoryCounts`); the exact condition is in `CanvasRun.ReadsThisRun`.
- The docstring of `hashable_key` names only a top-level frozenset as keyed apart from an equal set.
  Tuples that hold them are keyed apart too (`Canonical.SetAndFrozenDiffer`); the exact condition is
  `Canonical.KeysEqualIff`.
- Renaming can lose a component when a DSL already holds the new name of a legacy id
  (`DslGraph.CollisionOverwrites`, exact condition in `DslGraph.NothingLostIff`).
- On list values GaussDB's `=` and `in` find a member only if it is stored in lower case
  (`GaussAgreement.ListsNeedLowerCase`); its negative operators, which its pre-check admits, judge the
  list as a whole (`GaussAgreement.NotEqualDiffersOnLists`); `start with` and `end with` look at the
  written list and never find a member (`GaussAgreement.StartWithDiffersOnLists`), and `contains` also
  finds separators (`GaussAgreement.ContainsDiffersOnLists`). `GaussAgreement.FilterAgreesIff` has the
  exact condition on the members and the text.

## Model

| member | source | states |
|---|---|---|
| `Readiness.SurvivorsAreGreatestClosed` | agent/canvas.py:496-502 | what pruning leaves is the greatest part of the window whose dependencies lie in the finished set or in that part |
| `Readiness.SurvivorsUnique` | agent/canvas.py:496-502 | any closed part of the window that contains every closed part is that greatest one, so the order of pruning does not matter |
| `Readiness.DivisionKeepsSurvivors` | agent/canvas.py:504-529 | ready and deferred together are exactly the surviving entries with their multiplicities, disjoint as ids; the batch is empty only if nothing survives |
| `Readiness.BatchReadsOnlyFinished` | agent/canvas.py:504-513 | a member of a batch that is not failed as a cycle reads only finished components, and none of the batch or of what is held |
| `Readiness.UnconditionalRuns` | agent/canvas.py:491-494 | a begin or user-fill-up component of the window is in the batch, whatever it depends on |
| `Readiness.SatisfiedRuns` | agent/canvas.py:494-513 | so is every component all of whose dependencies are finished and not queued again |
| `Readiness.QueuedHolds` | agent/canvas.py:509-511 | a component with a dependency in the batch is not in it, unless the batch is failed as a cycle |
| `Readiness.DroppedIff` | agent/canvas.py:496-508 | a window entry is dropped exactly when a chain of unfinished dependencies leads from it to one that is neither finished nor in the window |
| `Readiness.LongWalk` | agent/canvas.py:515-526 | where every node waits on another, dependency walks of any length exist |
| `Readiness.StuckMeansCycle` | agent/canvas.py:515-526 | a finite set where every member waits on another member contains a dependency cycle |
| `Readiness.CyclicMeansCycle` | agent/canvas.py:515-526 | the fail-as-cycle branch fires only when the entries it fails contain a dependency cycle |
| `Readiness.RankedNeverCyclic` | agent/canvas.py:515-526 | on dependencies with a strictly falling rank that branch never fires |
| `Readiness.HeldSurvive` | agent/canvas.py:499-513 | whatever is appended behind held entries, the next scheduling call drops none of them |
| `CanvasRun.ScheduleParts` | agent/canvas.py:528-529 | the rewritten path is the old prefix, the batch and the held entries, and the returned end separates them |
| `CanvasRun.ScheduleKeepsRest` | agent/canvas.py:528-529 | only the window is rewritten; the path before and behind it stays |
| `CanvasRun.PlanShape` | agent/canvas.py:483-529 | scheduling keeps the prefix, adds no entry, and an empty batch leaves nothing pending |
| `CanvasRun.StepKeepsSafe` | agent/canvas.py:684-902 | one turn, with any post-processing, keeps the whole-run safety invariant |
| `CanvasRun.EveryRunIsSafe` | agent/canvas.py:684-902 | in every fresh run every dispatched component not failed as part of a cycle has all it reads on the path before its batch, and each batch stands right behind all earlier ones |
| `CanvasRun.ReadsThisRun` | agent/canvas.py:486-529 | what a dispatched component reads and earlier turns did not leave on the path was dispatched earlier in this run; it reads only what this run wrote exactly when what it reads of the history was dispatched again |
| `CanvasRun.EveryRunReadsItself` | agent/canvas.py:538-549 | in every fresh run a component that reads nothing of the history, whose outputs have been reset, reads only what earlier batches of the run wrote |
| `CanvasRun.HistoryCounts` | agent/canvas.py:486-529 | a run that dispatches a component although what it reads ran in an earlier turn only |
| `CanvasRun.AppendTidies` | agent/canvas.py:869-875 | what the check in front of appending achieves: the successor is pending or has just run, and pending entries do not repeat |
| `CanvasRun.PostFollows` | agent/canvas.py:838-897 | whatever a component asks for is to run next or is the last of the batch; the targets of an exception branch are appended as they stand |
| `CanvasRun.TurnFollows` | agent/canvas.py:700-902 | after a turn every successor asked for by any member of the batch is still to run or is its last member; a failed member ends the run with the path cut |
| `CanvasRun.NoBatchRepeats` | agent/canvas.py:684-902 | in every run that starts without repetitions and takes no exception branch no component is pending twice and no batch holds a component twice |
| `CanvasRun.FreshRunNeverRepeats` | agent/canvas.py:680-902 | in every fresh run without exception branches no batch holds a component twice |
| `CanvasRun.HeldOneTurn` | agent/canvas.py:684-902 | a held component is dispatched or still held after the next turn |
| `CanvasRun.HeldNeverDropped` | agent/canvas.py:684-902 | over any number of later turns a held component is still held or has been dispatched, whatever was appended in between |
| `CanvasOrder.RunOutFollowsOrder` | agent/canvas.py:684-902 | a run to which nothing is appended ends with the whole order on the path and nothing pending |
| `CanvasOrder.OrderIsTopological` | agent/canvas.py:486-529 | on acyclic dependencies that order holds each surviving entry once per occurrence and puts every component behind all it reads |
| `CanvasOrder.FixedWindowRunsInOrder` | agent/canvas.py:684-902 | a fixed window on acyclic dependencies is executed completely, in topological order |
| `CanvasOrder.AppendedLoad` | agent/canvas.py:869-897 | what post-processing appends for a batch weighs less than the batch |
| `CanvasOrder.PendingLoad` | agent/canvas.py:869-902 | scheduling and post-processing together lower the weight of the pending entries by at least the batch size |
| `CanvasOrder.TurnLowersLoad` | agent/canvas.py:684-902 | every turn lowers the sum of w(c) = 1 + sum of w over successors, or leaves nothing pending |
| `Canvas.Canvas.Prune` | agent/canvas.py:496-502 | the loop halts and leaves the greatest closed part |
| `Canvas.Canvas.Sort` | agent/canvas.py:504-513 | the surviving entries sorted, in order, into those that wait on no survivor and the others |
| `Canvas.Canvas.Schedulable` | agent/canvas.py:472-529 | the new path and batch end are the specified ones; exactly the members of a cyclic batch are marked unrunnable; a resumed run is left alone |
| `Canvas.Canvas.Append` | agent/canvas.py:869-875 | afterwards the successor is pending, or is the member of the batch that has just run last, and nothing became pending twice |
| `Canvas.Canvas.Extend` | agent/canvas.py:877-882 | successors are appended one by one under that check |
| `Canvas.Canvas.PostProcess` | agent/canvas.py:700-902 | every member of the batch is post-processed once, in order, and failure is reported exactly when one failed |
| `Canvas.Canvas.Turn` | agent/canvas.py:684-902 | one turn of the loop is one step of the run relation |
| `Canvas.Canvas.Run` | agent/canvas.py:680-921 | the loop halts when everything that can be appended is acyclic; what it did is a run; the log of a fresh run is safe; the path is cut to what ran |
| `TtsPipeline.PutKeepsInv` | agent/canvas.py:743-747 | scheduling a sentence keeps the partition of the sequence numbers |
| `TtsPipeline.TakeKeepsInv` | agent/canvas.py:729-731 | so does a worker taking one |
| `TtsPipeline.FinishKeepsInv` | agent/canvas.py:732-738 | so does a worker finishing, with or without an exception |
| `TtsPipeline.FailedIffRaised` | agent/canvas.py:733-736 | in every run a sentence counts as failed exactly when its synthesis raised |
| `TtsPipeline.DueClipsAre` | agent/canvas.py:758-764 | a clip is due exactly when its sentence has audio and did not fail |
| `TtsPipeline.PipelineIsBounded` | agent/canvas.py:720-741 | at most four sentences are queued, and there are two workers |
| `TtsPipeline.DrainKeepsInv` | agent/canvas.py:749-765 | so does a drain |
| `TtsPipeline.EveryInterleavingKeepsInv` | agent/canvas.py:720-765 | in every interleaving the numbers not yet consumed lie in exactly one place, every clip belongs to its own sentence, and what came out is the due audio of the consumed prefix |
| `TtsPipeline.EmissionIncreases` | agent/canvas.py:749-765 | audio comes out in strictly increasing order, so at most once |
| `TtsPipeline.FinalDrainIsComplete` | agent/canvas.py:813-818 | after the join and the last drain every scheduled sentence has been emitted or had no audio, and nothing is left anywhere |
| `TtsPipeline.CollectResults` | agent/canvas.py:752-757 | the first loop moves every waiting result into the buffer |
| `TtsPipeline.Release` | agent/canvas.py:758-764 | the second loop releases the longest consecutive run and removes exactly it |
| `TtsPipeline.DrainReady` | agent/canvas.py:749-765 | both loops together are the drain step of the protocol |
| `Segmentation.CutIsLossless` | agent/canvas.py:785-792 | sentences and rest concatenate to the buffer, for every finder whose match ends are positive |
| `Segmentation.CutsWholeSentences` | agent/canvas.py:786-792 | each piece ends at its own first sentence end and the rest holds none |
| `Segmentation.Feeder.constructor` | agent/canvas.py:716-727 | a feeder starts with nothing buffered, thought or scheduled |
| `Segmentation.Feeder.Schedule` | agent/canvas.py:743-747 | with speech on the queued text grows by exactly the given text, with speech off not at all, and no empty text is queued |
| `Segmentation.Feeder.Split` | agent/canvas.py:786-792 | the loop halts with the cut of the buffer |
| `Segmentation.Feeder.Flush` | agent/canvas.py:771-774 | the buffer is queued whole, no text is lost |
| `Segmentation.Feeder.Speak` | agent/canvas.py:785-792 | queued and buffered text grow by exactly the chunk |
| `Segmentation.Feeder.Process` | agent/canvas.py:767-794 | after any chunks, markers and thinking included, queued plus buffered text is the text to be spoken |
| `Segmentation.Stream` | agent/canvas.py:796-815 | for every chunk stream that ends normally the scheduled texts concatenate to the text outside thinking, and the answer to all text that is no marker |
| `Segmentation.ThinkingIsSilent` | agent/canvas.py:771-794 | what stands between the two markers is not spoken but part of the answer, and the markers are in neither |
| `SentenceEnd.EndOfPrefix` | agent/canvas.py:726 | a sentence that is cut off still ends where it was cut |
| `SentenceEnd.PatternIsCutter` | agent/canvas.py:726 | every match of the sentence-end pattern has a positive end, and cutting is stable |
| `SentenceEnd.MarkEndsSentence` | agent/canvas.py:726 | a sentence ends behind the first ending mark and the closing marks that follow it |
| `SentenceEnd.StopEndsSentence` | agent/canvas.py:726 | a full stop ends a sentence where the text ends or white space follows, and not before other characters |
| `SpeechStream.TextsArePut` | agent/canvas.py:743-747 | in every interleaving the sentences numbered are the texts given, in order |
| `SpeechStream.PlaysAll` | agent/canvas.py:796-818 | every interleaving that is given the sentences, joins and drains plays, in order, the audio of exactly those that have some and whose synthesis did not raise |
| `SpeechStream.PlaysEverything` | agent/canvas.py:796-818 | where no synthesis raises, every sentence that has audio is played |
| `SpeechStream.WorkerCanStep` | agent/canvas.py:729-741 | until the join returns some worker can take or finish a sentence, and every such step leaves less to do |
| `SpeechStream.ReachJoin` | agent/canvas.py:816-816 | from every reachable state the workers alone can bring the join about |
| `SpeechStream.EveryListPlays` | agent/canvas.py:796-818 | every list of sentences has an interleaving without a raised synthesis that plays all their audio |
| `SpeechStream.SpeakAnswer` | agent/canvas.py:716-818 | for every chunk stream the queued sentences concatenate to the text outside markers and thinking, and in every interleaving the clips played are exactly theirs |
| `McpSession.StepKeepsInv` | common/mcp_tool_call_conn.py:246-421 | every step of callers, server task, closers and event loop keeps the session invariant |
| `McpSession.EveryRunKeepsInv` | common/mcp_tool_call_conn.py:246-421 | it holds in every reachable state |
| `McpSession.GatheredMeansAllEnded` | common/mcp_tool_call_conn.py:382-402 | once the shutdown has gathered its snapshot nothing is pending or queued and every accepted call has ended with its own reply, its timeout, the closing error, a refusal or the caller's cancellation |
| `McpSession.ClosingIsFinal` | common/mcp_tool_call_conn.py:409-421 | between any two states of a run closing does not revert, no call is accepted or becomes pending after it, no call is forgotten, an ended call keeps its outcome, and the shutdown only moves on |
| `McpSession.AtMostOnce` | common/mcp_tool_call_conn.py:246-289 | at most one shutdown coroutine is ever stored, and each call is handed to the server at most once |
| `McpSession.HandoverIsTimely` | common/mcp_tool_call_conn.py:246-289 | a call that is handed over is pending and not abandoned, and the shutdown drain has not happened |
| `McpSession.ShutdownNotifiesPending` | common/mcp_tool_call_conn.py:382-388 | after the drain every pending call has a reply waiting and can end |
| `McpProgress.CallCanBeServed` | common/mcp_tool_call_conn.py:246-315 | from every reachable state of an open session whose server runs, a submitted call can end with the server's own answer, success or error, or with its own error when the connection cannot be used |
| `McpProgress.CloseCanComplete` | common/mcp_tool_call_conn.py:382-421 | from every reachable state the session can be closed completely, with its server task ended |
| `McpProgress.FailedCloseCanBeRetried` | common/mcp_tool_call_conn.py:409-421 | a close that cannot hand over its coroutine leaves the session closed, and another one can still complete |
| `McpProgress.CallCanBeGivenUp` | common/mcp_tool_call_conn.py:304-315 | a call can be cancelled or time out before it ends, and is then abandoned and not pending |
| `McpProgress.ServerCanBreak` | common/mcp_tool_call_conn.py:251-284 | a served call can lose its transport without a reply, and the server task can end at any time |
| `McpLoopStop.EveryRunKeepsInv` | common/mcp_tool_call_conn.py:423-463 | the stop protocol's invariant holds in every run |
| `McpLoopStop.StopIsNeitherEarlyNorLost` | common/mcp_tool_call_conn.py:423-463 | an armed stop implies that no close waits on the loop; once the stop request has run, with no waiter and an open loop, a stop is armed or has fired; the loop closes only after the shutdown or a failed constructor |
| `McpLoopStop.LoopCanClose` | common/mcp_tool_call_conn.py:423-463 | from every reachable state of a session whose constructor did not fail, the shutdown can complete and the armed stop close the loop |
| `McpRegistry.StepKeepsInv` | common/mcp_tool_call_conn.py:78-137 | constructors, rollbacks and global shutdowns keep the registry invariant |
| `McpRegistry.SnapshotsCoverRegistry` | common/mcp_tool_call_conn.py:119-137 | in every run the counter is the number of open global shutdowns, every registered session is in every snapshot taken, and a failed constructor leaves nothing registered |
| `McpRegistry.RegisteredIff` | common/mcp_tool_call_conn.py:78-167 | in every run a session is registered exactly when a constructor registered it and it has neither left nor been rolled back since |
| `McpRegistry.SnapshotsAreReal` | common/mcp_tool_call_conn.py:119-132 | a snapshot holds only sessions that were registered at some time |
| `McpRegistry.ConstructIff` | common/mcp_tool_call_conn.py:79-86 | a session can be constructed exactly while no global shutdown is open, and is refused otherwise |
| `McpRegistry.ShutdownsCanEnd` | common/mcp_tool_call_conn.py:134-137 | every open global shutdown can end, and the counter returns to zero |
| `Patterns.EscapesAgree` | common/metadata_es_filter.py:576-578 | three replaces in sequence are one escape per character, for every text |
| `Patterns.EscapedIsLiteral` | common/metadata_gaussdb_filter.py:450-451 | an escaped text in front of a pattern matches exactly itself |
| `Patterns.PrefixPattern` | common/metadata_gaussdb_filter.py:198-203 | the escaped text followed by any matches exactly the texts it starts |
| `Patterns.SuffixPattern` | common/metadata_es_filter.py:310-312 | any followed by the escaped text matches exactly the texts it ends |
| `Patterns.InfixPattern` | common/metadata_es_filter.py:295-304 | the escaped text between two any matches exactly the texts it occurs in |
| `Patterns.LowerEscape` | common/metadata_es_filter.py:558-578 | escaping and lower-casing commute |
| `Text.LowerLetters` | common/metadata_utils.py:33-38 | lower-casing maps each capital to its small letter and keeps the rest |
| `Text.StripIs` | common/metadata_utils.py:51-52 | stripping removes white space at the two ends and nothing else |
| `Text.SpaceIs` | common/metadata_utils.py:51-52 | which ASCII characters are white space |
| `Text.SplitAtCommas` | common/metadata_gaussdb_filter.py:438-438 | a text is split at its commas into stripped parts, empty ones dropped |
| `Patterns.OneCharacter` | common/metadata_es_filter.py:576-578 | a question mark, and in SQL an underscore, stands for one character |
| `MetaFilter.EqOnDates` | common/metadata_utils.py:59-67 | with a date, `=` compares stripped texts and neither `=` nor `≠` matches what is no date |
| `MetaFilter.EqOnNumbers` | common/metadata_utils.py:79-80 | two numbers are compared by value |
| `MetaFilter.EqOnQuoted` | common/metadata_utils.py:79-88 | two quoted texts are compared by what they quote, ignoring case |
| `MetaFilter.EqOnOtherLiterals` | common/metadata_utils.py:79-88 | other literals are equal exactly when they are the same, those of different kinds never |
| `MetaFilter.EqOnTexts` | common/metadata_utils.py:79-88 | where one side is no literal the texts are compared, ignoring case |
| `MetaFilter.InMeans` | common/metadata_utils.py:100-103 | `in` searches a text for the value and a list for a member; `not in` is its complement |
| `MetaFilter.OtherValues` | common/metadata_utils.py:96-107 | what `start with`, `end with`, `contains` and `=` make of a value that is no text |
| `MetaFilter.DateShape` | common/metadata_utils.py:55-57 | a date is four, two and two digits with dashes between them |
| `MetaFilter.FilterOut` | common/metadata_utils.py:40-129 | the ids returned are those of the documents in a bucket whose value matches |
| `MetaFilter.Evaluate` | common/metadata_utils.py:131-150 | the result, early return included, is all or at least one of the filters; no filter selects nothing |
| `MetaFilter.HitIsDocMatch` | api/db/services/doc_metadata_service.py:835-851 | on flattened metadata a filter hits exactly the documents with a matching value |
| `MetaFilter.SelectsIsDocSelected` | api/db/services/doc_metadata_service.py:835-851 | the id-level result is the document-level one, and only known ids appear |
| `EsFilter.ClausesAreAtomic` | common/metadata_es_filter.py:116-134 | each translated filter becomes one clause with its meaning, so an OR parent cannot match half of it |
| `EsFilter.EqAgreesIff` | common/metadata_es_filter.py:264-266 | `=` agrees with the in-memory filter on a document exactly when the text is trimmed, or the document carries it both with and without its outer space, or neither |
| `EsFilter.TextAgrees` | common/metadata_es_filter.py:295-312 | `contains`, `start with` and `end with` agree on every document, multi-valued fields included |
| `EsFilter.InListAgreesIff` | common/metadata_es_filter.py:284-286 | `in` with a list agrees on a document exactly when the members are trimmed, or the document is found by both the given and the trimmed members, or by neither |
| `EsFilter.NeAgreesIff` | common/metadata_es_filter.py:268-273 | `≠`, which the pre-check refuses, agrees for a trimmed text exactly where the values do not disagree among themselves |
| `EsFilter.NotInAgreesIff` | common/metadata_es_filter.py:288-293 | `not in` likewise |
| `EsFilter.EqLooksFor` | common/metadata_es_filter.py:412-435 | what `=` looks for: a date as it is, a quoted text without quotes, a number in the numeric field, any other text stripped and ignoring case |
| `EsFilter.InSplitsAtCommas` | common/metadata_es_filter.py:472-504 | a text given to `in` stands for the parts between its commas |
| `EsFilter.TranslatesIff` | common/metadata_es_filter.py:194-312 | which values each operator refuses |
| `EsFilter.NotContainsAgreesIff` | common/metadata_es_filter.py:299-304 | `not contains` agrees exactly when the values do not disagree among themselves |
| `EsFilter.NotEmptyAgreesIff` | common/metadata_es_filter.py:258-262 | `not empty` agrees exactly when blank and other values are not mixed |
| `EsFilter.EmptyAgreesIff` | common/metadata_es_filter.py:238-256 | `empty` agrees exactly on documents that carry the field |
| `EsFilter.NotContainsDiffersOnLists` | common/metadata_es_filter.py:77-86 | a document on which a supported `not contains` differs from the in-memory filter |
| `EsFilter.EmptyDiffersWithoutField` | common/metadata_es_filter.py:238-256 | a document on which a supported `empty` differs |
| `EsFilter.SimpleFits` | common/metadata_es_filter.py:194-312 | trimmed texts, with at most one value under a negative operator and the field present under `empty`, always fit |
| `EsFilter.FilterAgreesIff` | common/metadata_es_filter.py:194-312 | every filter in scope is translatable, and keeps its meaning on a document exactly when the document's values fit it |
| `EsFilter.DifferingDoc` | common/metadata_es_filter.py:412-504 | for every filter in scope that is no text operator and no `=` or `in` with trimmed texts, a document on which it differs |
| `EsFilter.AlwaysAgreesIff` | common/metadata_es_filter.py:194-312 | a filter agrees with the in-memory filter on all documents exactly when it is `contains`, `start with` or `end with`, or `=` or `in` with trimmed texts; so never `≠` or `not in`, which the pre-check refuses |
| `EsFilter.FlattenAgrees` | common/metadata_es_filter.py:158-159 | the flattened clauses stand for the filters one for one |
| `EsFilter.Plan` | common/metadata_es_filter.py:329-346 | planning translates every filter in order or fails as a whole |
| `EsFilter.QueryAgrees` | common/metadata_es_filter.py:147-177 | on every document whose values fit, the rendered query selects it exactly when it is in the knowledge bases and the filter list selects it |
| `EsFilter.NoFiltersDiffer` | common/metadata_es_filter.py:155-156 | without filters the query selects everything and the in-memory filter nothing |
| `EsFilter.OneFilterAgreesIff` | common/metadata_es_filter.py:147-177 | for a single filter the whole query agrees with the in-memory filter on a document exactly when its values fit |
| `EsFilter.PushDown` | common/metadata_es_filter.py:315-346 | all filters are translated or none; the query of a non-empty and/or list in scope selects, among fitting documents, exactly those `meta_filter` selects |
| `FilterRouting.Unique` | api/db/services/doc_metadata_service.py:961-967 | the loop removes repetitions and nothing else |
| `FilterRouting.TryPushDown` | api/db/services/doc_metadata_service.py:915-986 | the index answers exactly when it is up, the pre-check admits the filters, they can be translated and the hits are not cut off; its answer holds every document the query matches, once |
| `FilterRouting.FittingPathsAgree` | common/metadata_utils.py:299-320 | where every document fits every filter, index and memory give the same documents |
| `FilterRouting.OneFilterPathsAgreeIff` | common/metadata_utils.py:299-320 | for a single filter in scope they do so exactly when every document fits it |
| `FilterRouting.NeverObservedIff` | common/metadata_utils.py:299-320 | whatever is stored, the two paths give the same documents for a single filter exactly when it is a text operator, or `=` or `in` with trimmed texts, or is refused by the pre-check |
| `FilterRouting.RouteIsObservable` | common/metadata_utils.py:299-320 | an admitted filter and a document for which the two paths answer differently |
| `FilterRouting.TrimmingIsObservable` | common/metadata_es_filter.py:424-435 | `=` with a space in front of the text: memory finds the document that carries it, the index does not |
| `FilterRouting.FilterDocIds` | common/metadata_utils.py:299-320 | exactly when the index answers the caller gets the documents its query matches, otherwise those of the in-memory filter; the two are the same whenever all documents fit |
| `GaussFilter.EvalWindow` | common/metadata_gaussdb_filter.py:108-116 | a predicate depends only on the parameters bound to its own placeholders |
| `GaussFilter.TranslateWf` | common/metadata_gaussdb_filter.py:123-245 | every translated filter carries one parameter per placeholder |
| `GaussFilter.CompoundOn` | common/metadata_gaussdb_filter.py:108-116 | joining two predicates and concatenating their parameters gives each its own |
| `GaussFilter.NegatedOn` | common/metadata_gaussdb_filter.py:154-156 | the guarded negation is never NULL: the complement where the key is present, false where it is missing |
| `GaussFilter.NoMemberOn` | common/metadata_gaussdb_filter.py:177-180 | `not in` is never NULL and complements `in` where the key is present |
| `GaussFilter.AnyMemberOn` | common/metadata_gaussdb_filter.py:173-175 | `in` holds exactly when `=` holds for some coerced member |
| `GaussFilter.InTranslatable` | common/metadata_gaussdb_filter.py:424-443 | `in` is translatable exactly when `=` is for every member as the user wrote it |
| `GaussFilter.InIsSomeEqual` | common/metadata_gaussdb_filter.py:224-231 | `in` accepts a row exactly when `=` accepts it for some member as the user wrote it: the second coercion changes nothing |
| `GaussFilter.EqualTextOn` | common/metadata_gaussdb_filter.py:212-222 | `=` with a text holds for the stored text in any case or a lower-case member of it |
| `GaussFilter.TruthTables` | common/metadata_gaussdb_filter.py:108-116 | conjunction and disjunction under three-valued logic |
| `GaussFilter.ComparisonIsNull` | common/metadata_gaussdb_filter.py:270-275 | a comparison is NULL exactly where there is nothing to compare with |
| `GaussFilter.EqFindsScalars` | common/metadata_gaussdb_filter.py:212-222 | `=` with a number or truth value, given as such or as a text that Python reads as one, finds it as stored and in lists |
| `GaussFilter.EqFindsNothing` | common/metadata_gaussdb_filter.py:212-219 | `=` with nothing finds JSON null, with an empty text the empty text |
| `GaussFilter.EqLooksInside` | common/metadata_gaussdb_filter.py:220-221 | `=` with a text looks at the text, the elements of a list and the keys of an object, never at JSON null |
| `GaussFilter.InSplitsAtCommas` | common/metadata_gaussdb_filter.py:424-443 | a text given to `in` stands for the parts between its commas |
| `GaussFilter.InTakesScalars` | common/metadata_gaussdb_filter.py:439-440 | a number or truth value given to `in` stands for itself |
| `GaussFilter.KeyIsValidIff` | common/metadata_gaussdb_filter.py:341-349 | a key is refused exactly when a dotted segment is empty or it holds a NUL |
| `GaussFilter.TranslatesIff` | common/metadata_gaussdb_filter.py:123-245 | which values each operator refuses |
| `GaussFilter.NegativeComplementsPositive` | common/metadata_gaussdb_filter.py:123-196 | `≠`, `not in`, `not contains` are translatable exactly when their positive forms are, are never NULL, and complement them on rows with the key |
| `GaussFilter.EmptyPartitions` | common/metadata_gaussdb_filter.py:233-245 | `empty` and `not empty` are never NULL and partition all rows, including missing, null and empty containers |
| `GaussFilter.StartsWithOn` | common/metadata_gaussdb_filter.py:198-203 | `start with` means prefix for every text, and NULL only without text |
| `GaussFilter.EndsWithOn` | common/metadata_gaussdb_filter.py:205-210 | `end with` means suffix |
| `GaussFilter.ContainsOn` | common/metadata_gaussdb_filter.py:182-189 | `contains` means substring of the text or member of the value |
| `GaussFilter.PlanBindsItsParameters` | common/metadata_gaussdb_filter.py:108-116 | in any and/or plan placeholders and parameters line up, and the plan is true exactly when all, or some, of its parts are with their own parameters |
| `GaussFilter.ToPredicate` | common/metadata_gaussdb_filter.py:108-116 | the loop builds that joined predicate |
| `GaussFilter.BuildFilter` | common/metadata_gaussdb_filter.py:278-293 | the whole list is translated or refused, and the result accepts exactly the rows its filters, judged one by one, accept together |
| `ListText.OccursInList` | common/metadata_gaussdb_filter.py:182-189 | a text without a quote occurs in a written list exactly when it occurs in a member or is part of a bracket or separator |
| `ListText.StartsList` | common/metadata_gaussdb_filter.py:198-210 | only a bracket starts or ends a written list |
| `GaussAgreement.PartInList` | common/metadata_gaussdb_filter.py:182-189 | on a list of clean texts `contains` finds what its members contain, brackets and separators; with a quote in the text no member has it and it is found across members only |
| `GaussAgreement.StartInList` | common/metadata_gaussdb_filter.py:198-203 | on such a list `start with` finds nothing but the opening bracket, or a text with a quote |
| `GaussAgreement.FilterAgreesIff` | common/metadata_gaussdb_filter.py:123-245 | the predicate accepts a document exactly when `meta_filter` selects it if and only if what is stored fits: always on a single text, save `empty` on a missing key; on a list, an operator-by-operator condition on the members and the text (see the comment on `ListFits`) |
| `GaussAgreement.LowerCaseListFits` | common/metadata_gaussdb_filter.py:154-180 | on a list stored in lower case `≠` and `not in` agree exactly when it is not empty and its members do not disagree among themselves |
| `GaussAgreement.PlanAgrees` | common/metadata_gaussdb_filter.py:278-293 | on documents that fit, single texts and lists alike, every non-empty and/or list of filters accepts exactly what `meta_filter` selects |
| `GaussAgreement.ListsNeedLowerCase` | common/metadata_gaussdb_filter.py:212-222 | a list value on which `=` differs from `meta_filter` |
| `GaussAgreement.NotEqualDiffersOnLists` | common/metadata_gaussdb_filter.py:307-312 | a list value on which `≠`, which nothing refuses beforehand, differs |
| `GaussAgreement.StartWithDiffersOnLists` | common/metadata_gaussdb_filter.py:198-203 | a list value on which `start with` differs |
| `GaussAgreement.ContainsDiffersOnLists` | common/metadata_gaussdb_filter.py:182-189 | a list value on which `contains` finds the separator |
| `GaussAgreement.EmptyDiffersWithoutKey` | common/metadata_gaussdb_filter.py:233-235 | a document on which `empty` differs |
| `References.RefWritten` | agent/dsl_migration.py:32-32 | a written reference is read back, whatever follows |
| `References.RefRead` | agent/dsl_migration.py:32-32 | what is read as a reference is what is written there |
| `References.AnyMatchIsFound` | agent/dsl_migration.py:32-32 | whichever way the pattern matches, the greedy search finds that reference, so backtracking finds no other |
| `References.NoNewRef` | agent/dsl_migration.py:63-71 | substitution makes no reference where none started |
| `References.SubRenamesTokens` | agent/dsl_migration.py:63-71 | reading the substituted text gives the tokens of the original with exactly the ids renamed |
| `References.SubFixed` | agent/dsl_migration.py:63-71 | under an identity map substitution changes nothing |
| `References.SubUnchangedIff` | agent/dsl_migration.py:63-71 | a text is left as it is exactly when none of its references names a renamed id |
| `References.ClassesAre` | agent/dsl_migration.py:32-32 | the characters of ids and variable names |
| `DslMigration.RenameTwice` | agent/dsl_migration.py:53-61 | new ids are no legacy ids: renaming again changes nothing |
| `DslMigration.CollideIff` | agent/dsl_migration.py:53-61 | two ids get the same new id exactly when one is the new name of the other |
| `DslGraph.ClassAndId` | agent/dsl_migration.py:22-26 | class and id move together: the id of a renamed class starts with the new class |
| `DslGraph.OthersKept` | agent/dsl_migration.py:53-61 | no other class is renamed, and no id without a renamed class in front |
| `DslMigration.BuildIdMap` | agent/dsl_migration.py:53-61 | the loop maps every component id to its new id |
| `DslMigration.MigrateComponents` | agent/dsl_migration.py:82-104 | the loop rebuilds the components under their new ids, or fails when a link cannot be looked up |
| `DslMigration.MigrateNodes` | agent/dsl_migration.py:111-141 | the loop rewrites every node of the drawn graph |
| `DslMigration.MigrateEdges` | agent/dsl_migration.py:143-158 | the loop rewrites every edge |
| `DslMigration.ByLengthSorts` | agent/dsl_migration.py:145-145 | the replacements for edge ids cover every component id, longer ids first |
| `DslMigration.Migrate` | agent/dsl_migration.py:35-164 | the result is current, and it equals the input exactly when the input was current |
| `DslMigration.CurrentIsKept` | agent/dsl_migration.py:35-164 | a current DSL is returned as it is |
| `DslMigration.NormalizeMakesCurrent` | agent/dsl_migration.py:35-164 | whatever is returned is current |
| `DslMigration.NormalizeIsIdempotent` | agent/dsl_migration.py:35-164 | normalising twice is normalising once, for every DSL |
| `DslMigration.UnchangedIffCurrent` | agent/dsl_migration.py:35-164 | the fixed points are exactly the current DSLs |
| `DslGraph.NewKeys` | agent/dsl_migration.py:82-104 | the new component ids are exactly the renamed ones |
| `DslGraph.LastWins` | agent/dsl_migration.py:82-104 | under a new id stands the last component renamed to it |
| `DslGraph.ComponentFound` | agent/dsl_migration.py:82-104 | without collisions every component is found, rewritten, under its new id |
| `DslGraph.NothingLostIff` | agent/dsl_migration.py:82-104 | no component is lost exactly when no legacy id's new name is taken |
| `DslGraph.CollisionOverwrites` | agent/dsl_migration.py:82-104 | a family of DSLs in which a component is lost |
| `DslGraph.LinksRewritten` | agent/dsl_migration.py:93-96 | each downstream and upstream link stays at its place, rewritten |
| `DslGraph.LinkIsRenamed` | agent/dsl_migration.py:93-96 | rewriting a link twice is harmless: it ends as the new id |
| `DslGraph.JoinsKept` | agent/dsl_migration.py:82-104 | links between components are kept, and none appear between components whose links all resolve |
| `DslGraph.DanglingLink` | agent/dsl_migration.py:93-96 | a plain dangling link comes to resolve exactly when it is the new name of a component |
| `DslGraph.MigrationKeepsGraph` | agent/dsl_migration.py:35-164 | without collisions the migration of a whole DSL keeps every component and every link under the injective renaming |
| `DslGraph.PathRenamed` | agent/dsl_migration.py:106-107 | path entries are renamed in place and others left alone |
| `DslGraph.DrawingRenamed` | agent/dsl_migration.py:109-152 | node by node and edge by edge the drawn graph is the same with ids, parents, sources and targets renamed |
| `DslPlaces.AtRewritten` | agent/dsl_migration.py:73-80 | rewriting a value rewrites everything nested in it at its own place |
| `DslPlaces.PlaceRewritten` | agent/dsl_migration.py:35-164 | whatever stands in a component parameter, in the conversation state or in the form of a drawn node stands, rewritten, at the same place of the migrated DSL |
| `DslPlaces.ReferencesKept` | agent/dsl_migration.py:35-164 | without collisions every `{id@name}` of the DSL that names a component keeps its place, braces and name and resolves, in the migrated DSL, to that component rewritten |
| `DslPlaces.ParentsKept` | agent/dsl_migration.py:35-164 | without collisions a parent stays the parent in the migrated DSL and is found under its new id |
| `DslGraph.ValueUnchangedIff` | agent/dsl_migration.py:73-80 | a parameter value is left as it is exactly when no text in it is, or refers to, a renamed id |
| `DslGraph.ObjRewritten` | agent/dsl_migration.py:87-91 | the runtime object keeps every parameter, rewritten in place, and its class name is the renamed one, null where there was none |
| `DslGraph.RestIsKept` | agent/dsl_migration.py:35-164 | every other part of the DSL is kept as it is |
| `DslGraph.MigratesIff` | agent/dsl_migration.py:82-107 | the migration raises exactly when a list of links, the path or a class holds a list or an object |
| `DslPlaces.ClassMovesWithId` | agent/dsl_migration.py:82-104 | in the migrated DSL a component whose id and class are those of a renamed class stands under the new id with the new class |
| `DslPlaces.LabelsRenamed` | agent/dsl_migration.py:132-138 | a drawn node labelled or named with a renamed class gets the new class; every other label and name is kept |
| `DslPlaces.TypesRenamed` | agent/dsl_migration.py:124-126 | a splitter node becomes a chunker node, every other type is kept |
| `DslPlaces.EdgeIdsMigrate` | agent/dsl_migration.py:154-158 | an edge id that mentions no renamed component is kept; one that mentions a renamed component once mentions it by its new id in the same place |
| `Canonical.ElemsEqualIff` | common/misc_utils.py:310-328 | sequences without repetition have equal element sets exactly when equally long and one covers the other |
| `Canonical.RawIsFaithful` | common/misc_utils.py:331-345 | hashable values used as they are have equal keys exactly when they are equal |
| `Canonical.TagsTell` | common/misc_utils.py:310-328 | forms of different kinds differ, and so do the values |
| `Canonical.CanonIsFaithful` | common/misc_utils.py:310-328 | canonical forms are equal exactly when the values are equal in Python: dict order ignored, list order kept, list never equal to tuple, set equal to frozenset |
| `Canonical.KeysEqualIff` | common/misc_utils.py:331-345 | keys are equal exactly when the values are equal and alike in being hashable |
| `Canonical.SetAndFrozenDiffer` | common/misc_utils.py:331-345 | equal values with different keys |

## Left out

- Canvas: component bodies, model and Redis calls, event payloads and the concurrency inside one batch; what a component reads and what post-processing appends are parameters.
- Canvas: the pause for user input (`agent/canvas.py:904-920`); runs resumed at a UserFillUp are modelled but carry no safety claim, because the code does not prune there.
- Canvas: termination is claimed for acyclic successors only; loops of the canvas itself may run for ever.
- CanvasRun.NoBatchRepeats: does not cover exception branches, because they append without the check and can repeat an entry.
- TtsPipeline: cancelling the workers after the stream, and exceptions of the stream itself.
- McpSession: transports, wall-clock time and the real thread and loop interfaces; a deadline is a step that may happen at any time, and a server connection that fails or times out while initialising is one that cannot be used.
- McpSession.GatheredMeansAllEnded: does not claim that closing ends in bounded time, because that depends on the transport.
- McpRegistry: the weak set's own collection is a step that may remove any session.
- MetaFilter.FilterOut: the range operators, and numbers or lists as stored values; a stored value is a text.
- EsFilter.EqAgreesIff: texts that Python reads as literals or that look like dates, because what the index does with them depends on its mapping.
- EsFilter.InListAgreesIff: `in` with a comma-separated text, which the in-memory filter reads as a substring test.
- EsFilter.FilterAgreesIff: the range operators; `ignore_above` on keyword fields and analysers.
- FilterRouting: a missing index, which the code answers with no documents, and the GaussDB and Infinity routes.
- GaussFilter: range operators, the SQL text with its parentheses and quoting (predicates are trees), path literals, and the row limit; how the database writes a JSON value that is no text is a parameter.
- GaussAgreement.FilterAgreesIff: texts that Python reads as literals or that look like dates, numbers and booleans as stored values, and keys that name nested paths; for `contains`, `not contains`, `start with` and `end with`, lists with a member that JSON writes with escapes.
- Patterns: letter case is ASCII; locale-specific folding is not modelled.
- DslMigration: objects shared inside one DSL, keys that are no texts, and values a JSON document cannot hold.
- DslPlaces.EdgeIdsMigrate: does not cover edge ids that mention several renamed components, or one twice; idempotence covers them.
- Canonical: the `__repr__` fallback for unhashable values that are no containers, NaN, and classes with their own equality.
- The Infinity filter translator, the encryption helpers, the settings, the HTTP clients and the server wiring.
