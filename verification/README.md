# MBLink: verified models of its state machines, plans and codecs

MBLink talks to Mercedes control units through an ELM327-style adapter, flashes an STM32F767 target with A/B slots, and
carries the catalogues, consoles and command-line tools around that. These Dafny modules model the parts of it that keep
state or do exact arithmetic, and prove what those parts are for.

| Area | Modules | What is modelled |
|---|---|---|
| Manufacturer data scan | `Requests`, `ScanModel`, `ScanRuns`, `ScanReplies`, `DataScanner` | The command/reply machine with its setup chain, the three ways of planning requests, the retry budget, the counters and the bounded record store. It is the client of ReadDataByIdentifier (ISO 14229-1:2013, section 10.2) and ReadDataByLocalIdentifier (ISO 14230-3). |
| Firmware target | `OtaLayout`, `OtaModel`, `OtaCalls`, `OtaConfirm`, `OtaLives`, `OtaBackend` | Flash layout, the backend in any call order with any hook answers, post-boot confirmation with a power loss between any two hook calls, and both together over many lives of the product. |
| Catalogues and plans | `Catalog`, `Session`, `EcuPack`, `DiscoverPlan` | The route-wide read union, the session-command consensus with both normalisers, item acquisition and cursor iteration, and the 11-bit sweep and mobile census. |
| Bit fields | `BitField` | Both EGS51 extractors and the signal decoder. |
| Text and files | `Hex`, `Console`, `ConsoleCommands`, `ConsoleLine`, `CbfReader`, `CbfRecords`, `CbfLayouts`, `CbfExtract`, `CbfPlain`, `CbfWriter` | Hex printing and parsing, the console editor and its output lines, the flag-driven CBF reader, the direct-read extractor, and a writer of whole CBF files for it to read back. |

`Words` holds the machine integers. They are subset types of the integers, so every assignment to one is also a proof that
the C arithmetic behind it does not wrap.

The source changes structures in place, and so do the models: `DataScanner.DataScan`, `OtaBackend.OtaTarget`,
`Console.LineEditor`, `ConsoleLine.LineBuffer` and `CbfReader.Reader` are classes whose fields are those of the C
structures. A ghost field holds what the concrete fields encode (the plan of a scan, the text that a line was asked to
hold, the record under the reader's cursor), and each method is proved against a function of the old state. The laws are
then proved about those functions, over every table, every reply stream and every run.

Beside each model stand theorems in terms that the model's own functions do not use: bytes and counters for a reply
(`ScanReplies`), the history of begins and aborts for a backend call (`OtaCalls`), rows of the tables for the route union,
characters typed for a console command (`ConsoleCommands`), byte places for a record (`CbfLayouts`), and a written file for the
extractor (`CbfWriter`).

Three methods of proof recur:

* a run is a fold of one step over arbitrary events, and theorems about runs go by induction over the events;
* a fast or stateful form (a retry loop, a two-pass enumerator, an incremental parser) is proved equal to a definition that
  does not mention its state (a list of outcomes, a set, a record layout);
* replies, hook answers and tables are universally quantified.

How replies are read: a read is answered positively by its positive service byte with its own identifier echoed, negatively
by `7F service nrc`, and any other response is one of the remaining kinds. The same service with another identifier is
*stale*; silence is *transient* only in a list that is known to be positive.

How hooks behave: a read or check may fail at any time; a persistent write may be lost, or may be stored although it reports
failure, but is stored whenever it reports success. Only the erase and program hooks change flash, each within the range it
was given; the abort hook is a call whose slot is recorded, and what else it does is the product's. In a backend run
(`OtaModel`) the running slot may change between any two calls, which is more than a product can do; over lives (`OtaLives`)
it changes only at a reset, which also clears the target, and the verifiers may decide differently after it; in a single
confirmation history (`OtaConfirm`) it stays fixed over the restarts and the verifiers always decide alike.

## What turned out not to hold as stated

* *Terminator style never changes what runs.* The commands that run are indeed the same (`Console.TerminatorStyleDoesNotMatter`),
  but the executed lines are not: an empty line sent with a bare LF right after a line sent with a bare CR is swallowed as
  the second half of CR LF, and its prompt redraw is missing. `Console.EmptyLineIsSwallowed` is an instance and
  `Console.EveryLineRunsIff` the exact condition.
* *Blanks around a line do not matter.* They do around the empty line: alone it redraws the prompt, with a blank it is an unknown
  command (`Console.BlankLineIsUnknown`); `Console.PaddingDoesNotMatterIff` shows that this is the only case.
* *The sweep is a bijection for any route table.* It is exactly when the TX ids are distinct and one route lies outside the range
  (`DiscoverPlan.SweepIsBijectionIff`); with distinct ids, fewer make it fail and more make it miss addresses
  (`DiscoverPlan.DistinctSweepIff`, with `DiscoverPlan.SweepFailsWithoutOutsider` and
  `DiscoverPlan.SweepMissesWithTwoOutsiders`). The shipped table meets the condition (`DiscoverPlan.ShippedSweepIsExact`).
* *The mobile plan visits every known route once.* It visits all of them exactly when every off-grid route after the first two is
  an OBD pair, and none of them twice exactly when the first two are not OBD pairs (`DiscoverPlan.CensusVisitsAllIff`,
  `DiscoverPlan.CensusIsInjectiveIff`; `DiscoverPlan.CensusMissesThirdException` and
  `DiscoverPlan.CensusVisitsEarlyObdTwice` are instances). The shipped table meets both (`DiscoverPlan.ShippedCensusIsExact`).
* *Overlap means a shared address.* It does, except that an empty range strictly inside the other also counts as overlapping
  (`OtaLayout.OverlapsMeansShared`). The containment tests before it leave only nonempty ranges.
* *A rerun of confirmation succeeds.* After the record has been cleared, a rerun returns false although storage is exactly what an
  uninterrupted run leaves (`OtaConfirm.RerunReturnsFalse`). `OtaConfirm.CrashSafe` is therefore about
  storage, and `OtaConfirm.HealthyResult` says when the result is true.
* *Every extracted read is one that the catalogue calls safe.* A `21 00` or `1A 00` service is extracted, although the catalogue
  calls local identifier zero unsafe (`CbfExtract.ZeroIdentifierIsExtracted`; `CbfWriter.UnsafeReadIsExtracted` is a whole
  file from which it happens). The rows are all safe exactly when no executable data service of the file stores such a
  request: `CbfExtract.ExtractedIsSafeIff` for either mode when the end is reached, `CbfPlain.PlainIsSafeIff` for every file.
* *The backend commits a version once the new slot runs.* Its guard asks for an image in flight on the running slot, and a reset,
  the only way to another slot, ends the image in flight. So the backend commit never succeeds in any life
  (`OtaLives.BackendCommitFails`), and only a checked confirmation moves the counter (`OtaLives.EveryRiseIsConfirmed`).

## Model

| member | source | states |
|---|---|---|
| `ScanRuns.WholeRun` | src/mercedes/data_scan.c:593-654 | For every configuration, plan and response stream the machine ends exactly where a definition without stages, cursors or retry counters says: failed by an adapter step, still in setup, or holding the report of the settled outcomes in plan order |
| `ScanRuns.ReadingRefinesOutcomes` | src/mercedes/data_scan.c:432-591 | From any reading state the run refines one settled outcome per request: at most two transient replies are passed over for each request, and the third settles it |
| `ScanRuns.NoiseIsInvisible` | src/mercedes/data_scan.c:432-560 | Up to two transient replies before each settling reply, at every request of a run, leave records, counters and position as without them |
| `ScanRuns.Conservation` | src/mercedes/data_scan.c:66-117 | In every reachable state attempted is the sum of the four outcome counters; complete means the whole plan was attempted; stored records are the positive outcomes capped at 256, each of at most 96 bytes |
| `ScanRuns.RecordsAreInOrder` | src/mercedes/data_scan.c:91-117 | Record j belongs to the j-th positive outcome: its service and identifier are that request's and its bytes that reply's, so no record is dropped, swapped or misfiled |
| `ScanRuns.PositionsAreExact` | src/mercedes/data_scan.c:91-117 | The positions that produced records are all positive outcomes and no others |
| `ScanRuns.PositionsRise` | src/mercedes/data_scan.c:91-117 | Those positions rise, so records keep plan order |
| `ScanRuns.RecordKeysAreDistinct` | src/mercedes/data_scan.c:66-117 | In every reachable state no two stored records share service and identifier |
| `ScanRuns.RecordsWereAnswered` | src/mercedes/data_scan.c:447-591 | Records are only appended, and each new one is for a planned request and carries the payload of a response in the run that echoed exactly its service and identifier |
| `ScanRuns.FailsOnlyInSetup` | src/mercedes/data_scan.c:420-430 | A scan fails exactly when one of the seven adapter steps is not answered OK; no session or data reply can fail it |
| `ScanRuns.ScanTerminates` | src/mercedes/data_scan.c:593-654 | Any setup length + 3N responses, hostile or not, bring a scan of N requests to an end state; setup takes nine with an extended session and eight without |
| `ScanRuns.BoundIsTight` | src/mercedes/data_scan.c:432-445 | For every configuration and plan some stream of one response less leaves the scan running |
| `ScanRuns.StepProgress` | src/mercedes/data_scan.c:593-654 | Each response strictly lowers a measure over setup stage, remaining requests and unused retries, except in an end state, which absorbs it |
| `ScanRuns.StallingRun` | src/mercedes/data_scan.c:432-445 | From every read state, and with an extended session from every state, some stream lowers the measure by only one a response, down to the end |
| `ScanRuns.RunsCompose` | src/mercedes/data_scan.c:593-654 | A run over two joined streams is the second run started where the first ended |
| `ScanRuns.EndStays` | src/mercedes/data_scan.c:600-612 | Complete and failed absorb every further response |
| `ScanRuns.CommandReplyAgreement` | src/mercedes/data_scan.c:402-409 | In every reachable read state the command text parses back to exactly the service and identifier under which the next record would be stored, and that pair is a safe read |
| `ScanReplies.SilenceStep` | src/mercedes/data_scan.c:432-466 | In any read state a silence leaves the request out exactly when the plan is known to be positive and fewer than two retries were used; otherwise it counts once and the scan goes on |
| `ScanReplies.StrangerStep` | src/mercedes/data_scan.c:476-499 | A positive answer with another identifier leaves the request out exactly when fewer than two retries were used, in every plan; otherwise it counts as invalid |
| `ScanReplies.PositiveStep` | src/mercedes/data_scan.c:91-117 | The answer `62 hh ll`, `61 ii` or `5A ii` with its own identifier counts as positive, and while fewer than 256 were counted its first 96 bytes are stored under that very request, marked as cut when there are more |
| `ScanReplies.RefusalStep` | src/mercedes/data_scan.c:447-591 | `7F` with the service counts as negative at once |
| `ScanReplies.UselessStep` | src/mercedes/data_scan.c:447-591 | Every other response counts as invalid at once |
| `ScanReplies.SilentScan` | src/mercedes/data_scan.c:432-466 | When nothing answers after the setup, a scan of N requests is over exactly after N more responses, or 3N in a known-positive plan, with each request counted as unanswered once and nothing else counted |
| `ScanModel.RangePlanIsValid` | src/mercedes/data_scan.c:167-187 | A valid range is a plan of last - first + 1 distinct requests of the protocol's own service; a KWP range always fits the record store |
| `ScanModel.RangeStep` | src/mercedes/data_scan.c:79-88 | Incrementing the identifier walks the range and stops at its last one, 0xFFFF included, without wrapping |
| `ScanModel.ConfigIsValidIff` | src/mercedes/data_scan.c:167-187 | A configuration is valid exactly when its range is a nonempty run of reads that its protocol can send safely, on identifiers of 11 or 29 bits |
| `ScanModel.Step` | src/mercedes/data_scan.c:593-654 | No response takes a scan past its retry budget of two, or past the last request without completing it |
| `DataScanner.DataScan.Accept` | src/mercedes/data_scan.c:593-654 | The structure's fields after a response encode the abstract next state, with the result code of the C function |
| `DataScanner.DataScan.AcceptUdsIdentifier` | src/mercedes/data_scan.c:447-499 | The UDS branch settles, retries or advances as the reply classification demands, in all fields |
| `DataScanner.DataScan.AcceptKwpIdentifier` | src/mercedes/data_scan.c:501-548 | The same for local-identifier reads |
| `DataScanner.DataScan.AcceptKwpEcuIdentification` | src/mercedes/data_scan.c:550-591 | The same for 1A reads, which are decoded by hand |
| `DataScanner.DidReply` | src/mercedes/data_scan.c:447-499 | The staleness test plus the decoder contract classify every 22 reply, with no reply in two classes |
| `DataScanner.LocalReply` | src/mercedes/data_scan.c:501-548 | The same for 21 replies |
| `DataScanner.IdentificationReply` | src/mercedes/data_scan.c:550-591 | The same for 1A replies |
| `DataScanner.DataScan.RetryAfterTransient` | src/mercedes/data_scan.c:432-445 | A retry is granted exactly while the budget of two lasts and, for silence, only in a known-positive list; otherwise nothing changes |
| `DataScanner.DataScan.AdvanceIdentifier` | src/mercedes/data_scan.c:66-89 | Leaving a request moves the cursor fields to the plan's next request, or completes, and restores the retry budget |
| `DataScanner.DataScan.RecordPositive` | src/mercedes/data_scan.c:91-117 | A positive is counted, and stored cut to 96 bytes while fewer than 256 are; the truncated flag is set exactly past that |
| `DataScanner.DataScan.Begin` | src/mercedes/data_scan.c:221-240 | A range scan starts on its first identifier exactly for a valid configuration, and otherwise leaves the structure alone |
| `DataScanner.DataScan.BeginIdentifierList` | src/mercedes/data_scan.c:242-287 | A list starts exactly when it is nonempty, fits, has no repetition and each entry suits the protocol; the plan is then the list. A refusal by size or configuration leaves the structure as it was, any other leaves every field and buffer zero |
| `DataScanner.DataScan.BeginIdentifiers` | src/mercedes/data_scan.c:289-297 | The known-positive list, for which silence is retried, with the same refusals |
| `DataScanner.DataScan.BeginProbeIdentifiers` | src/mercedes/data_scan.c:299-307 | The probe list, for which silence is an answer, with the same refusals |
| `DataScanner.DataScan.BeginProbeCommands` | src/mercedes/data_scan.c:309-340 | A command list starts exactly when each pair is a safe read of the protocol and none repeats, with the same refusals |
| `DataScanner.DataScan.CopyIdentifiers` | src/mercedes/data_scan.c:242-287 | The nested duplicate scan accepts exactly the repetition-free lists and stores them unchanged |
| `DataScanner.DataScan.CopyCommands` | src/mercedes/data_scan.c:309-340 | The same for service and identifier pairs, by both components |
| `DataScanner.DataScan.Command` | src/mercedes/data_scan.c:342-418 | The text written for a read state, NUL included, parses back to the plan's current request; a buffer without room for text and NUL gets an empty string and an error; a completed scan empties the buffer and a failed one leaves it alone |
| `DataScanner.SetupCommands` | src/mercedes/data_scan.c:354-401 | The commands before the first read, in the order they are sent, for every configuration: protocol, headers, formatting, flow control, time-out, header, receive filter, session if asked for, tester present |
| `DataScanner.DataScan.RecordAt` | src/mercedes/data_scan.c:665-681 | Indices below the capped count yield the stored records in order, others none |
| `Requests.CommandParsesBack` | src/mercedes/data_scan.c:402-409 | Every safe read survives the trip to command text and back |
| `Requests.WireReadIff` | tools/mblink-cbf-data-extract.c:703-714 | The messages that ask for a read are `22 hh ll` and `21 ii` or `1A ii`, byte by byte |
| `Requests.IsSafeIff` | src/mercedes/data_catalog.c:316 | The safe reads are those some message asks for, without local identifier zero |
| `Hex.PrintParseRoundTrip` | src/mercedes/data_scan.c:711-735 | Parsing the printed form of any nonempty record gives back exactly its bytes |
| `Hex.PrintedIsInjective` | src/mercedes/data_scan.c:711-735 | Different records print differently |
| `Hex.PrintedIsUpper` | src/mercedes/data_scan.c:711-735 | The printed form uses upper-case digits only |
| `Hex.NibbleOfDigit` | tools/mblink-did-lab.c:25-31 | Each digit, in either case, stands for its own value |
| `Hex.SeparatorsDoNotMatter` | tools/mblink-did-lab.c:33-57 | Spaces, colons or dashes inserted at any place, even between the two digits of a byte, do not change what a text parses to |
| `Hex.ParsedIff` | tools/mblink-did-lab.c:33-57 | A text parses exactly when it is an even, nonzero number of digits with nothing but white space, colons and dashes around them |
| `Hex.FormatRecord` | src/mercedes/data_scan.c:711-735 | Formatting succeeds exactly when the buffer holds twice the length plus one, and otherwise leaves an empty string |
| `Hex.ParseHexBytes` | tools/mblink-did-lab.c:33-57 | The nibble loop accepts exactly the texts with an even number of digits, at least one byte and only separators between, that fit the buffer |
| `OtaLayout.ContainsMeansSubset` | src/embedded/stm32f767_ota.c:6-14 | The containment test holds exactly for a nonempty subset of addresses below 4 GiB |
| `OtaLayout.OverlapsMeansShared` | src/embedded/stm32f767_ota.c:16-21 | The overlap test holds exactly when an address is shared or an empty range lies strictly inside the other |
| `OtaLayout.RegionsAreDisjoint` | src/embedded/stm32f767_ota.c:144-157 | What a bind accepts keeps bootloader and both slots apart, address by address |
| `OtaLayout.SeparatedIff` | src/embedded/stm32f767_ota.c:144-157 | What a bind accepts is exactly: bootloader and both slots are nonempty parts of a 32-bit flash, and no two share an address |
| `OtaModel.FlashRequestsAreSafe` | src/embedded/stm32f767_ota.c:40-75 | Whatever the call and its arguments, each erase or program range lies wholly in the slot that is not running, with no 32-bit wrap |
| `OtaModel.StepTouchesIdleSlotOnly` | src/embedded/stm32f767_ota.c:40-75 | One backend call changes no byte outside the idle slot, even if the flash hook fails half-way |
| `OtaModel.FlashOutsideSlotsIsKept` | src/embedded/stm32f767_ota.c:23-142 | Over any run, any order and any slot changes, bytes outside the two slots keep their values |
| `OtaModel.BootloaderIsKept` | src/embedded/stm32f767_ota.c:144-157 | Hence the bootloader survives every run after a bind |
| `OtaModel.RunningSlotIsKept` | src/embedded/stm32f767_ota.c:23-142 | While the running slot does not change, no run alters it |
| `OtaModel.WriteStoresData` | src/embedded/stm32f767_ota.c:61-75 | A successful write leaves exactly its bytes at slot base plus offset |
| `OtaModel.ImageHasABegin` | src/embedded/stm32f767_ota.c:40-59 | An image in flight goes back to a successful begin on the slot that was idle then, and has stayed the selected one since |
| `OtaModel.CommitFollowsSwitch` | src/embedded/stm32f767_ota.c:121-131 | A successful commit, or any movement of the counter, needs an image in flight and a running slot other than at its begin |
| `OtaModel.ConstantSlotNeverCommits` | src/embedded/stm32f767_ota.c:121-131 | No run with a constant running slot moves the rollback counter |
| `OtaModel.OneImageInFlight` | src/embedded/stm32f767_ota.c:40-59 | Successful begins and effective aborts alternate: their balance is always zero or one, and tells whether an image is in flight |
| `OtaModel.AbortHookEndsImages` | src/embedded/stm32f767_ota.c:133-142 | Each image begun is still in flight, or went through the abort hook exactly once, or was given up by an abort that named another slot |
| `OtaCalls.ImageIsRemembered` | src/embedded/stm32f767_ota.c:40-142 | At any point of any run the target remembers a slot and a size exactly when a successful begin of that slot with that size came earlier and no abort since |
| `OtaCalls.CheckSucceedsIff` | src/embedded/stm32f767_ota.c:77-103 | Finish, integrity and authenticity succeed exactly when their hook says so and an image was begun, and not given up, on that slot with that very size |
| `OtaCalls.SecureBootSucceedsIff` | src/embedded/stm32f767_ota.c:113-119 | The same for the boot check, for the slot alone |
| `OtaCalls.BeginSucceedsIff` | src/embedded/stm32f767_ota.c:40-59 | A begin succeeds exactly for the idle slot, a size that fits it, no image begun and not given up, and an erase that works; every byte of that slot, and no other, is then what the erase left |
| `OtaCalls.WriteSucceedsIff` | src/embedded/stm32f767_ota.c:61-75 | A write succeeds exactly for data inside the declared size of the image begun on that idle slot; each byte of flash afterwards is given |
| `OtaCalls.StageSucceedsIff` | src/embedded/stm32f767_ota.c:105-111 | A stage call records slot, version and the size given to the begin, exactly when there is such an image and the hook stores it |
| `OtaCalls.CommitSucceedsIff` | src/embedded/stm32f767_ota.c:121-131 | A commit succeeds exactly when an image begun and not given up is on the running slot and the hooks agree; the counter moves to that version exactly when the hook stores it |
| `OtaCalls.AbortEndsImage` | src/embedded/stm32f767_ota.c:133-142 | After an abort no image is in flight; the abort hook is called and the pending record cleared exactly when the abort names the slot of the image |
| `OtaConfirm.CrashSafe` | src/embedded/stm32f767_ota.c:188-219 | After any history of interrupted and failed calls, a call that returns true, or one whose hooks all work, leaves counter and pending record as one uninterrupted call would have |
| `OtaConfirm.CounterNeverFalls` | src/embedded/stm32f767_ota.c:188-219 | Over any history the rollback counter never decreases |
| `OtaConfirm.RiseIsChecked` | src/embedded/stm32f767_ota.c:205-218 | Any change of the counter sets it to the pending version, for the running slot, after all three checks passed in that same call |
| `OtaConfirm.StepIsSound` | src/embedded/stm32f767_ota.c:188-219 | Every hook call and every restart keeps what the call has established about its candidate |
| `OtaConfirm.TrueMeansSettled` | src/embedded/stm32f767_ota.c:188-219 | A call that returns true has brought storage to its goal, whatever failed on the way |
| `OtaConfirm.HealthySettles` | src/embedded/stm32f767_ota.c:188-219 | From any interruption point working hooks bring storage to its goal |
| `OtaConfirm.RunKeepsGoal` | src/embedded/stm32f767_ota.c:188-219 | No history changes the goal that storage is heading for |
| `OtaConfirm.HealthyResult` | src/embedded/stm32f767_ota.c:188-219 | With working hooks the call returns true exactly when an admissible record is pending that is already committed or passes all checks |
| `OtaConfirm.ConfirmedExactly` | src/embedded/stm32f767_ota.c:188-219 | For every combination of hook answers: which calls check, commit and clear, what counter and pending record are afterwards, and which result is returned |
| `OtaConfirm.RerunReturnsFalse` | src/embedded/stm32f767_ota.c:188-219 | After a successful call another one returns false and changes nothing |
| `OtaConfirm.FinishIsARun` | src/embedded/stm32f767_ota.c:188-219 | Finishing a call is one of the histories, so the history theorems cover it |
| `OtaLives.CounterNeverFallsOverLives` | src/embedded/stm32f767_ota.c:121-219 | Over any sequence of backend calls, confirmations, power losses and resets the rollback counter never falls |
| `OtaLives.EveryRiseIsConfirmed` | src/embedded/stm32f767_ota.c:121-219 | Whenever it has moved, its value was set by a confirmation of the pending image of the slot running then, with all three checks passed in that very call |
| `OtaLives.EveryRiseWasStaged` | src/embedded/stm32f767_ota.c:105-219 | From a life with nothing pending, each rise confirms the slot, version and size that an earlier stage call recorded for an image in flight on a slot not running then |
| `OtaLives.PendingWasStaged` | src/embedded/stm32f767_ota.c:105-111 | Over any number of lives a pending record was there at the start or was staged since |
| `OtaLives.CounterMovesByConfirmation` | src/embedded/stm32f767_ota.c:188-219 | No other event moves it |
| `OtaLives.BackendCommitFails` | src/embedded/stm32f767_ota.c:121-131 | In no life does a backend commit succeed or change anything |
| `OtaLives.LiveKeepsValid` | src/embedded/stm32f767_ota.c:40-219 | Every event keeps the target valid, its image off the running slot, and what a confirmation has established |
| `OtaLives.FlashSurvivesLives` | src/embedded/stm32f767_ota.c:40-75 | Over any number of lives bytes outside the two slots are kept |
| `OtaLives.RunningImageSurvives` | src/embedded/stm32f767_ota.c:40-75 | Between two resets the running image is kept |
| `OtaLives.AbortSparesRunningSlot` | src/embedded/stm32f767_ota.c:133-142 | The abort hook is never called for the running slot |
| `OtaBackend.OtaTarget.Bind` | src/embedded/stm32f767_ota.c:144-186 | A bind succeeds exactly for separated regions and a full set of hooks, allows programming only then, and starts with no image |
| `OtaBackend.OtaTarget.SelectSlot` | src/embedded/stm32f767_ota.c:30-38 | The slot offered is the only one on which a begin can reach its erase |
| `OtaBackend.OtaTarget.BeginImage` | src/embedded/stm32f767_ota.c:40-59 | The target and device after the call are those of the abstract step, on success and on each failure |
| `OtaBackend.OtaTarget.WriteBlock` | src/embedded/stm32f767_ota.c:61-75 | The same for a write; the 32-bit address never wraps |
| `OtaBackend.OtaTarget.Commit` | src/embedded/stm32f767_ota.c:121-131 | The same for a version commit |
| `OtaBackend.OtaTarget.AbortImage` | src/embedded/stm32f767_ota.c:133-142 | The same for an abort: the abort hook is called, and the pending record touched, only for the selected slot in flight, and the image is given up in any case |
| `OtaBackend.OtaTarget.ConfirmAfterBoot` | src/embedded/stm32f767_ota.c:188-219 | The straight-line function does to storage what the hook-by-hook machine does under the same answers, and returns its result |
| `Catalog.RouteUnionIsTheSet` | src/mercedes/data_catalog.c:130-205 | The route's list holds a read exactly when it is safe and stands in a row of the read table that some profile of the route and its protocol claims as its own, and holds none twice |
| `Catalog.UnionIsTheSet` | src/mercedes/data_catalog.c:130-167 | Deduplication keeps exactly the safe members, and the length is the cardinality of that set |
| `Catalog.UnionKeepsOrder` | src/mercedes/data_catalog.c:169-205 | Earlier in the list means an earlier first occurrence in the tables |
| `Catalog.RouteUnionInTableOrder` | src/mercedes/data_catalog.c:169-205 | Of two listed reads the earlier one is published first: by an earlier profile, or in an earlier row of the same |
| `Catalog.RouteReadCount` | src/mercedes/data_catalog.c:130-167 | The nested counting loops return the length of that list |
| `Catalog.RouteReadAt` | src/mercedes/data_catalog.c:169-205 | The nested search returns its k-th member, and nothing from the count on |
| `Catalog.SeenBefore` | src/mercedes/data_catalog.c:95-128 | The look-back finds a read exactly when it was published before this position |
| `Catalog.BeforeIsPrefix` | src/mercedes/data_catalog.c:95-205 | What the loops have listed at any position is a prefix of the final list |
| `Session.RouteControlCommand` | src/mercedes/data_catalog.c:233-283 | The lookup succeeds exactly when the normalised commands of all matching profiles form a one-element set and the buffer has five places; it returns that element, and otherwise leaves an empty string |
| `Session.ConsensusIgnoresOrder` | src/mercedes/data_catalog.c:233-283 | Any permutation of the profile table has the same consensus |
| `Session.CandidateIff` | src/mercedes/data_catalog.c:233-283 | A command is a candidate exactly when some profile of the route and its protocol publishes it, as its quit command when that is asked for and as its session command otherwise |
| `Session.NormalizedMeansSame` | src/mercedes/data_catalog.c:207-231 | A normal form is its own normal form and denotes the same two bytes as the text it came from |
| `Session.NormalizedIff` | src/mercedes/data_catalog.c:207-231 | The texts accepted are exactly four hexadecimal digits, perhaps behind 0x or 0X, and the normal form is those digits in upper case |
| `Session.NormalizeControlCommand` | src/mercedes/data_catalog.c:207-231 | The catalogue's in-place normaliser accepts exactly the normalisable texts |
| `Session.SimpleDiagnosticControlCommand` | src/mercedes/connection_lifecycle.c:47-62 | The lifecycle's normaliser, built on the C character classes, accepts the same texts and writes the same command |
| `Session.CtypeAgrees` | src/mercedes/connection_lifecycle.c:47-62 | The C character classes and the explicit ranges agree on every character |
| `EcuPack.PassesPartition` | src/mercedes/ecu_pack.c:830-857 | The startup and the user pass together visit every advertised item exactly once, each in rising order, and nothing else |
| `EcuPack.CompletePass` | src/mercedes/ecu_pack.c:830-857 | Repeated calls from cursor zero visit exactly the pass and leave the cursor at the count |
| `EcuPack.NextItem` | src/mercedes/ecu_pack.c:830-857 | The cursor strictly rises to just behind the next wanted item, skipping only unwanted ones, or to the count |
| `EcuPack.PassMembers` | src/mercedes/ecu_pack.c:830-857 | A pass visits a position exactly when its item is advertised and of that acquisition |
| `EcuPack.MetadataIsStartupOnly` | src/mercedes/ecu_pack.c:367-382 | The complete startup pass visits every advertised metadata read and the user pass visits none, whatever the policy table says |
| `EcuPack.IdentificationFlagIsExact` | src/mercedes/ecu_pack.c:396-421 | The flag is set exactly for the reads that identification itself sends; the startup condition beside it excludes none of them |
| `EcuPack.DataItemAt` | src/mercedes/ecu_pack.c:689-828 | Reducing the index through the four segments is indexing their concatenation |
| `EcuPack.DataItemCount` | src/mercedes/ecu_pack.c:675-687 | The count is the length of that concatenation |
| `EcuPack.ItemsOfPack` | src/mercedes/ecu_pack.c:689-828 | At each position stands an item with exactly these fields: live `21 30` signals, the transmission reads, the profile entries of which the corroborated ones are advertised, and the documented reads of which the safe ones are |
| `EcuPack.StartupOnceIff` | src/mercedes/ecu_pack.c:367-382 | A read is acquired at startup exactly when it is one of the listed metadata reads or its first policy row for this family says so |
| `EcuPack.PolicyFor` | src/mercedes/ecu_pack.c:343-365 | The first applicable row is found, or no row applies |
| `BitField.FieldIsDivMod` | src/mercedes/egs51_lookup.c:334-340 | A field is the big-endian number of the payload divided by a power of two, modulo another |
| `BitField.Plain` | src/mercedes/egs51_lookup.c:334-340 | Accumulating bit by bit in 64 bits loses none and yields that field, exactly for windows inside the payload of 1 to 64 bits |
| `BitField.Masked` | src/mercedes/egs51_lookup.c:341-350 | Shift and mask on an 8-byte frame yields the same field whenever the mask is all ones of the field's length |
| `BitField.MaskedAgreesWithPlain` | src/mercedes/egs51_lookup.c:334-350 | The two extractors agree, in closed form |
| `BitField.FieldsConcatenate` | src/mercedes/egs51_lookup.c:334-340 | Two adjacent fields, the first shifted past the second, add up to the field over both |
| `BitField.FieldReadsItsWindow` | src/mercedes/egs51_lookup.c:334-340 | Two payloads that agree on the bits of a window, whatever their lengths, have the same field |
| `BitField.BitsAreField` | src/mercedes/egs51_lookup.c:334-340 | Taking the bits one at a time gives the field |
| `BitField.NoBitIsLost` | src/mercedes/egs51_lookup.c:334-340 | The accumulator never exceeds 64 bits before the last bit is in |
| `BitField.AllOnesMask` | src/mercedes/egs51_lookup.c:341-350 | Masking with 2^k - 1 keeps exactly the k lowest bits |
| `BitField.BitsOfAnd` | src/mercedes/egs51_lookup.c:341-350 | Under any mask a bit of the result is set exactly when both operands have it |
| `BitField.ScaledIsLine` | src/mercedes/egs51_lookup.c:384-400 | Scaling is the straight line through the offset that rises by the multiplier |
| `BitField.DecodeSignal` | src/mercedes/egs51_lookup.c:357-402 | A decoded signal carries the field, or the masked number under a partial mask, as its raw value, at most one reading, which is the one its name and kind call for, an enumeration's name and description from its first matching row, and the unit that goes with it |
| `DiscoverPlan.SweepIsBijectionIff` | src/mercedes/discover_plan.c:197-254 | For any table the 11-bit sweep never fails, never repeats and covers range and table exactly when the TX ids are distinct and one route lies outside the range |
| `DiscoverPlan.DistinctSweepIff` | src/mercedes/discover_plan.c:197-254 | With distinct ids it never repeats, fails exactly with no route outside the range, and misses addresses exactly with more than one |
| `DiscoverPlan.SweepFailsWithoutOutsider` | src/mercedes/discover_plan.c:197-254 | The instance: for the empty table an index of the sweep fails |
| `DiscoverPlan.SweepMissesWithTwoOutsiders` | src/mercedes/discover_plan.c:197-254 | In any table of two routes outside the range some address is never probed |
| `DiscoverPlan.WishIsComplete` | src/mercedes/discover_plan.c:216-254 | The order the sweep follows lists each address of range or table once |
| `DiscoverPlan.WishIsOrdered` | src/mercedes/discover_plan.c:216-254 | It starts with the known routes in table order and then rises through the rest of 600 to 7F7 |
| `DiscoverPlan.UnknownAscends` | src/mercedes/discover_plan.c:197-214 | The unknown addresses come in ascending order |
| `DiscoverPlan.Generic11TxAt` | src/mercedes/discover_plan.c:197-214 | The candidate loop finds the k-th address in range that no route uses |
| `DiscoverPlan.TargetAt` | src/mercedes/discover_plan.c:216-261 | Known routes come first with their own RX, the rest with RX = TX + 8, then the 29-bit targets, then none |
| `DiscoverPlan.GridPredicateIsExact` | src/mercedes/discover_plan.c:263-276 | The grid predicate accepts exactly the pairs that the grid enumerator yields |
| `DiscoverPlan.CensusVisitsAllIff` | src/mercedes/discover_plan.c:278-327 | The mobile plan visits every known route exactly when each off-grid route after the first two is an OBD pair |
| `DiscoverPlan.CensusIsInjectiveIff` | src/mercedes/discover_plan.c:278-327 | It visits nothing twice exactly when the first two off-grid routes are not OBD pairs |
| `DiscoverPlan.CensusMissesThirdException` | src/mercedes/discover_plan.c:278-327 | In any table of three off-grid routes the third is never visited unless it is an OBD pair |
| `DiscoverPlan.CensusVisitsEarlyObdTwice` | src/mercedes/discover_plan.c:278-327 | A table of one OBD pair has it visited twice, as an exception and in its slot |
| `DiscoverPlan.MobileExceptionAt` | src/mercedes/discover_plan.c:278-292 | The exception loop finds the k-th off-grid route in table order |
| `DiscoverPlan.ExceptionsInTableOrder` | src/mercedes/discover_plan.c:278-292 | The off-grid routes keep the order of the table |
| `DiscoverPlan.MobileTargetAt` | src/mercedes/discover_plan.c:294-327 | Grid, exceptions and OBD slots in this order, as the census has them |
| `DiscoverPlan.ShippedSweepIsExact` | src/mercedes/discover_plan.c:17-48 | For the shipped table the sweep probes every address of range and table exactly once |
| `DiscoverPlan.ShippedCensusIsExact` | src/mercedes/discover_plan.c:17-48 | The shipped table meets both census conditions; 7E1/7E9 is reached through its OBD slot |
| `Console.ConsoleRefinesFold` | src/embedded/console.c:340-386 | For every byte stream the executed lines are those of a pure split at CR, LF or CR LF followed by editing each raw line on its own |
| `Console.TerminatorStyleDoesNotMatter` | src/embedded/console.c:351-368 | Whatever mix of terminators lines are sent with, the commands that run are the same |
| `Console.EveryLineRunsIff` | src/embedded/console.c:351-368 | The executed lines are exactly the sent ones, in number and in sequence, if and only if no empty LF line directly follows a CR line |
| `Console.EmptyLineIsSwallowed` | src/embedded/console.c:351-362 | The instance: `a` with CR and an empty line with LF execute one line, not two |
| `Console.TooLongIff` | src/embedded/console.c:340-386 | A line is refused exactly when some printable byte arrived while 63 characters were held; backspaces after that do not help |
| `Console.TextFits` | src/embedded/console.c:340-386 | No sequence of bytes makes the text longer than 63 characters |
| `Console.PaddingDoesNotMatterIff` | src/embedded/console.c:285-319 | Blanks around a line leave its action alone exactly when they are not put around the empty line |
| `Console.BlankLineIsUnknown` | src/embedded/console.c:285-319 | A line of blanks only is an unknown command, while the empty line redraws the prompt |
| `Console.CaseDoesNotMatter` | src/embedded/console.c:111-129 | The case of a line's letters never changes its action |
| `Console.CommandEquals` | src/embedded/console.c:111-129 | Two trimming cursors and a folding comparison decide equality of the trimmed, lowered words |
| `Console.LineEditor.Feed` | src/embedded/console.c:340-386 | One byte takes the editor fields, with the trailing NUL, to the abstract next state and runs what that says |
| `Console.LineEditor.ExecuteLine` | src/embedded/console.c:285-319 | The held line is run or refused, and the editor is empty afterwards |
| `ConsoleCommands.CommandIff` | src/embedded/console.c:285-319 | A line runs a command exactly when it is that command's name, its letters in either case and blanks or tabs around it |
| `ConsoleCommands.UnknownIff` | src/embedded/console.c:285-319 | It is unknown exactly when it is not empty and no command's name; only the empty line redraws |
| `ConsoleCommands.NamesAreDistinct` | src/embedded/console.c:285-319 | No two commands have the same name |
| `ConsoleCommands.NameRuns` | src/embedded/console.c:340-386 | Typing a command's name and CR, or LF, runs that command and nothing else |
| `ConsoleCommands.TypedLineRuns` | src/embedded/console.c:340-386 | A line of at most 63 printable characters is executed as typed |
| `ConsoleCommands.TwoByteEnds` | src/embedded/console.c:351-368 | CR LF ends one line, LF CR two |
| `ConsoleLine.DecimalIsCanonical` | src/embedded/console.c:84-98 | The decimal form of every number reads back to it, uses digits only and has no leading zero |
| `ConsoleLine.WordDecimalLength` | src/embedded/console.c:84-98 | Ten digits are enough for every 32-bit value, so the scratch array never truncates |
| `ConsoleLine.LineBuffer.PutU32` | src/embedded/console.c:84-98 | The reversed-digit loops append exactly the decimal form, or as much of it as fits, and report which |
| `ConsoleLine.LineBuffer.PutText` | src/embedded/console.c:37-45 | A text is appended whole, or cut at 191 characters with the NUL kept, and the result says which |
| `ConsoleLine.LineBuffer.PutCanId` | src/embedded/console.c:74-82 | Three digits for an 11-bit identifier, eight for a longer one |
| `ConsoleLine.Hex32IsBigEndian` | src/embedded/console.c:66-72 | The eight digits parse back to the four bytes of the word, most significant first |
| `ConsoleLine.Hex24ReadsBack` | src/embedded/console.c:59-64 | The six digits parse back to the three low bytes |
| `ConsoleLine.CanDigitsReadBack` | src/embedded/console.c:74-82 | The three digits parse back to an 11-bit identifier; a longer one has its eight |
| `ConsoleLine.LinesAreShort` | src/embedded/console.c:150-275 | No snapshot number makes a status, statistics, last or reset line longer than 87 characters |
| `ConsoleLine.EmitLine` | src/embedded/console.c:100-109 | A line goes out whole with CR LF, or not at all; never cut |
| `ConsoleLine.EmitStats` | src/embedded/console.c:215-242 | Both statistics lines go out whole, word by word, for all counter values |
| `ConsoleLine.EmitStatus` | src/embedded/console.c:150-178 | Both status lines go out whole, word by word, for all identifiers and states |
| `ConsoleLine.EmitDtcs` | src/embedded/console.c:195-213 | One whole line for each trouble code in order, or the notice that there is none |
| `ConsoleLine.DtcLinesAt` | src/embedded/console.c:195-213 | The line of each trouble code: six digits of code, two of status |
| `ConsoleLine.EmitLast` | src/embedded/console.c:244-257 | The last-service line goes out whole |
| `ConsoleLine.EmitReset` | src/embedded/console.c:259-275 | The reset line goes out whole |
| `ConsoleLine.EmitVin` | src/embedded/console.c:180-193 | A VIN of any length goes out whole when the line has at most 189 characters, and otherwise not at all |
| `ConsoleLine.EmitVersion` | src/embedded/console.c:131-148 | The same for version texts of any length |
| `CbfReader.RecordRoundTrip` | tools/mblink-cbf-data-extract.c:334-382 | Whatever surrounds an encoded record, each stored field reads back to the value it was given and an omitted one is not announced |
| `CbfReader.EncodedRecordFits` | tools/mblink-cbf-data-extract.c:334-382 | Every encoded record parses |
| `CbfReader.StoredIsBit` | tools/mblink-cbf-data-extract.c:334-341 | Field k is announced by bit k of the flag word |
| `CbfReader.NumbersAreLittleEndian` | tools/mblink-cbf-data-extract.c:272-308 | Numbers are stored low byte first, signed ones in two's complement |
| `CbfReader.TextAt` | tools/mblink-cbf-data-extract.c:358-367 | There is a text at an offset exactly when a zero byte follows inside the file, and it is the bytes up to the first one |
| `CbfReader.Reader.ReadU16` | tools/mblink-cbf-data-extract.c:272-283 | Two bytes, low first, and the cursor behind them; or no movement and a cleared flag, exactly when they are not in the file |
| `CbfReader.Reader.ReadU32` | tools/mblink-cbf-data-extract.c:290-303 | The same for four bytes |
| `CbfReader.Reader.SeekTo` | tools/mblink-cbf-data-extract.c:310-318 | The cursor moves exactly to offsets inside the file or at its end; a cleared flag stays cleared |
| `CbfReader.Reader.StringAt` | tools/mblink-cbf-data-extract.c:358-367 | The zero-byte search returns that text, for any offset |
| `CbfReader.Reader.ReadFlagI32` | tools/mblink-cbf-data-extract.c:343-346 | The next field is read at the place that the flag word gives it, or replaced by the fallback; the cursor is then at the place of the field after it |
| `CbfReader.Reader.ReadFlagString` | tools/mblink-cbf-data-extract.c:369-382 | The same for text offsets; one that leads before the file clears the flag for good |
| `CbfRecords.AddRelativeOffset` | tools/mblink-cbf-data-extract.c:320-332 | The resolved offset is exact inside the limit and refused outside. The C addition overflows for bases close to INT64_MAX, which the function itself lets through; the contract excludes them, and the callers' bases, below 2^33, never get there |
| `CbfRecords.ParseCffHeader` | tools/mblink-cbf-data-extract.c:384-410 | Eleven successive reads find the header fields at their places, and accept exactly complete headers with usable values |
| `CbfRecords.ParseEcuHeader` | tools/mblink-cbf-data-extract.c:434-479 | Twenty-five successive reads find the qualifier and the service pool, or refuse |
| `CbfRecords.ParseService` | tools/mblink-cbf-data-extract.c:481-516 | Twenty successive reads find the service's seven used fields, or refuse |
| `CbfRecords.EncodedServiceReadsBack` | tools/mblink-cbf-data-extract.c:481-516 | A service record written with any choice of stored fields reads back as written; there is a service exactly when its qualifier is stored and terminated |
| `CbfRecords.EncodedEcuReadsBack` | tools/mblink-cbf-data-extract.c:434-479 | The same for an ECU header, with the exact conditions under which it is refused |
| `CbfRecords.EncodedCffReadsBack` | tools/mblink-cbf-data-extract.c:384-410 | The same for the file header |
| `CbfLayouts.FullServiceFits` | tools/mblink-cbf-data-extract.c:481-516 | A service record with every field stored is 78 bytes long, and parses exactly when its text offsets at 8 and 52 do not lead before the file |
| `CbfLayouts.FullServiceReads` | tools/mblink-cbf-data-extract.c:481-516 | The byte at which each used field of it stands |
| `CbfLayouts.FullEcuFits` | tools/mblink-cbf-data-extract.c:412-479 | The same for an ECU record of 102 bytes with five text offsets |
| `CbfLayouts.FullEcuReads` | tools/mblink-cbf-data-extract.c:434-479 | The byte at which each used field of it stands |
| `CbfLayouts.FullCffReads` | tools/mblink-cbf-data-extract.c:384-410 | The same for the file header, with the exact condition under which it is accepted |
| `CbfExtract.RowsAreDirectReads` | tools/mblink-cbf-data-extract.c:687-715 | Every row, also of an extraction that fails later, is asked for by an executable type-5 service of the file with a 3-byte 22 request or a 2-byte 21 or 1A request |
| `CbfExtract.NoDirectReadIsMissed` | tools/mblink-cbf-data-extract.c:628-776 | An extraction that reaches the end has a row for every such service |
| `CbfExtract.ProfileRowsAreDistinct` | tools/mblink-cbf-data-extract.c:717-722 | In profile mode no two rows have the same service and identifier |
| `CbfExtract.ProfileModeIsFirstRows` | tools/mblink-cbf-data-extract.c:717-762 | Profile mode emits the first row of each key that plain mode emits, and ends well exactly when plain mode does and their provenance texts fit |
| `CbfExtract.ProvenanceLengthIs` | tools/mblink-cbf-data-extract.c:744-762 | The length that is tested is that of the provenance text in UTF-8, byte by byte |
| `CbfExtract.PlainIsFineIff` | tools/mblink-cbf-data-extract.c:628-776 | Plain mode ends well exactly when no ECU or service on the way fails to parse |
| `CbfExtract.EndIsFinal` | tools/mblink-cbf-data-extract.c:628-776 | After the failing entry nothing more is emitted |
| `CbfExtract.ExtractedIsSafeIff` | src/mercedes/data_catalog.c:316 | An extraction that reaches the end, in either mode, has only safe rows exactly when no executable data service of the file stores a request `21 00` or `1A 00` |
| `CbfPlain.PlainIsSafeIff` | tools/mblink-cbf-data-extract.c:628-776 | For every file, also one that stops the extraction, plain mode emits only safe rows exactly when no such service is preceded by entries that all parse |
| `CbfPlain.EmittedInFile` | tools/mblink-cbf-data-extract.c:628-776 | Plain mode emits a row exactly for a service that asks for it and is preceded by entries that all parse |
| `CbfExtract.UnsafeRowNeedsZeroRead` | src/mercedes/data_catalog.c:316 | In either mode, also when the extraction stops early, an unsafe row comes from such a service |
| `CbfExtract.ExtractedReadIs` | tools/mblink-cbf-data-extract.c:703-714 | Every extracted request is a 22, 21 or 1A read, the latter two with a one-byte identifier |
| `CbfExtract.ZeroIdentifierIsExtracted` | tools/mblink-cbf-data-extract.c:687-715 | A named, executable type-5 service stored in a file with the request `21 00` yields a row, and its read is unsafe |
| `CbfWriter.UnsafeReadIsExtracted` | tools/mblink-cbf-data-extract.c:589-776 | One file for which this happens, from header to row |
| `CbfWriter.WrittenIsExtracted` | tools/mblink-cbf-data-extract.c:589-776 | For any number of ECUs with any number of services each, written with any choice of optional fields, names, entry sizes and pool: the extraction reaches the end, and its rows are exactly the reads that the executable data services ask for, in table order, each with its names and access levels |
| `CbfWriter.EcuEntryLeads` | tools/mblink-cbf-data-extract.c:628-650 | In an ECU table of any length entry i leads where its own offset says |
| `CbfWriter.ServiceEntryLeads` | tools/mblink-cbf-data-extract.c:657-685 | The same for a service table of any length and any entry size from 14 bytes on |
| `CbfWriter.EcuIsRead` | tools/mblink-cbf-data-extract.c:434-479 | An ECU record written anywhere in a file yields its name, its service table behind the string pool, the number of entries and their size |
| `CbfWriter.ServiceIsRead` | tools/mblink-cbf-data-extract.c:481-516 | A service record written anywhere yields its name, class, flags and request, whatever else is stored in it |
| `CbfWriter.AssembledIsRead` | tools/mblink-cbf-data-extract.c:384-410 | A header written behind any stub reads back, and the ECU table and the data base that it leads to are where they were written |
| `CbfExtract.VerdictIsReadIff` | tools/mblink-cbf-data-extract.c:687-715 | The extractor's branches accept exactly the executable data services with a direct read request |
| `CbfExtract.SeenIndexIsInjective` | tools/mblink-cbf-data-extract.c:717-722 | The flat table gives each service and identifier its own cell |
| `CbfExtract.EntryPlaceBounds` | tools/mblink-cbf-data-extract.c:657-672 | A table entry's place is computed without wrapping around 64 bits |
| `CbfExtract.SeenTable.Mark` | tools/mblink-cbf-data-extract.c:717-722 | A mark reports whether the pair is new and changes no other cell |
| `CbfExtract.EmitDirectReadData` | tools/mblink-cbf-data-extract.c:589-776 | The two nested loops emit exactly the specified rows before the first failure, with status 0 or 2 |

## Left out

- LINK: its decoders, response parser, adapter wrappers, OBD endpoint and 29-bit target functions are not in the repository; they are contracts or parameters here.
- DataScanner.DataScan.Command: the header, receive-filter and extended-session texts are supplied by the caller, because they are formatted by LINK or come from the catalogue tables.
- OtaBackend.OtaTarget.AbortImage: what the product's abort hook does is not modelled beyond the slot it is called for; it is taken not to change flash. OtaLives.AbortSparesRunningSlot says that this slot is never the running one.
- OtaBackend.OtaTarget.SelectSlot: how the UDS bootloader core orders the backend calls is not part of this model; the theorems hold for every order.
- OtaConfirm.CrashSafe: assumes that the running slot stays the same over the reboots and that each verifier always decides alike about the same candidate.
- CbfExtract.EmitDirectReadData: rows are values; the text that is printed for them, the display-name table, the part of a row that is printed before its provenance text is found too long, and the 32-bit row counter are not modelled. The seen table is allocated in both modes and marked in profile mode only.
- CbfRecords.AddRelativeOffset: bases up to INT64_MAX whose sum with the offset passes INT64_MAX are excluded, because the C addition overflows there without a defined result (base INT64_MAX with offset 1, say); no caller passes a base of 2^33 or more.
- CbfReader.Reader.ReadFlagI16: the records that are parsed use no fallback but zero, so the model has no fallback argument.
- BitField.DecodeSignal: scaling and offset are exact reals; floating-point rounding and value texts are not modelled. The bit count of a payload is taken not to wrap around the platform's size type.
- Console.LineEditor.Feed: echo, prompt and banner output are not modelled; the executed lines and actions are.
- Null pointers: functions that refuse a null argument are modelled from their non-null arguments on, except where a null text or list has a meaning of its own.
- Static tables (routes, profiles, reads, policies, signals, names, workshop codes) are parameters, except the shipped route table.
- Long per-record formatters, numeric and text decoders and resolved identifiers of the data scan and the ECU packs: wide but shallow, presentation only.
- Pack resolution, aliases and protocol masks; connection lifecycle begin and finish, and the session-command lookup with its per-family exception: they would only add easy members.
- Default scan configuration, time-outs and result names: constants.
- File input, allocation failure and printing in the tools; scripts, user interfaces, hardware abstraction and the Apple bridge.
