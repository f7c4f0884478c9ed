# Verified models of the contract checkers in `qa/`

The repository guards its evidence with Python checkers. This project models the ones that
hold real algorithms and proves what they promise, for every input. `dafny verify dfyconfig.toml`
checks all of it.

| file | models | main results |
|---|---|---|
| `PythonAst`, `PythonEval`, `PythonFiles` | a subset of Python's syntax, its evaluation on a heap, and what a `write_text` puts in a file, with an oracle for everything a reader of the script cannot see | a value has one rendering; growing the heap does not change it |
| `ProofFlow`, `ProofFlowSoundness`, `ProofFlowMeaning` | the static analyser of the embedded proof writer | accepted scripts put in the file what `qemu` held, for every oracle; which literal is judged; a condition under which the status written reports QEMU for every oracle |
| `ProofFlowShape`, `ProofFlowAccepted` | which scripts it accepts, built from their statements | the table holds the last path; the scan finds exactly the writes; exactly which inputs are accepted; the repository's shape is, and one mutation after the capture is enough to be rejected |
| `ProofFlowReports` | runs in which nothing hidden touches two names and one status | the status written reports QEMU iff it is decided before the literal |
| `ProofFlowLimits`, `ProofFlowWitnesses` | what acceptance leaves open | exact conditions on the capture's targets and on the literal; six accepted scripts that mislead, each with its run |
| `FunctionBody` | the string-aware brace matcher | it accepts exactly the blocks of a recursive grammar and returns them; each failure exactly |
| `DaemonErrors` | the conflict-free map build | succeeds iff calls agree; independent of order |
| `KeyTokens`, `KeyBoundaries`, `RuntimePrivacy` | the backtracking key tokeniser and the scan of runtime samples | where a key is cut, told by its characters; lossless, round trip through snake and camel case; exactly which trees are rejected |
| `BenchmarkPrivacy`, `BenchmarkKeys`, `BenchmarkLeaks` | the second tokeniser, the key rules and the scan of benchmark records | where a key is cut; which keys, texts and trees are rejected, exactly; one check is redundant; what the root exemption is worth |
| `BenchmarkRecord`, `BenchmarkMetrics`, `BenchmarkReports` | the benchmark parsers and the record | the record says the sums and means of the numbers in the input, field by field |
| `BenchmarkRules`, `BenchmarkAgreement`, `BenchmarkFixedParts`, `TellingPairs` | the record validator against the normaliser | exactly which records are valid; every built one is, except short cyclictest runs |
| `PathSafety` | the path rule as a regular expression and on path parts | the two are equal on lines; accepted paths stay under the run root |
| `SchedExtSequence`, `FailureTerminal`, `AlertOrder`, `EventJournal`, `LiveSeries`, `EventCounters`, `CounterText`, `MonitorRows`, `LiveRows` | monitors over rows of events and samples | one pass decides a property of pairs; closure laws; where duplicated monitors agree, exactly; no counter in a text is missed |
| `TableContract` | the capability matrix against its contract | no failure iff row-for-row agreement; the failures reported are exactly those there are |
| `BundleIndex`, `BundleRules` | bundle indexing and comparison | which bundles can be indexed and compare, from the manifest; counts agree with what is stored and sum to all references; comparison is an equivalence |
| `Chars`, `Decimals`, `Digests`, `JsonValue`, `Wrappers` | characters, decimal text, digests, JSON trees, optional values | |

Functions that the source writes as expressions or recursion are functions here; its loops are
methods with loops, each proved equal to a specification that the lemmas are about. An exception
or an error exit is a `None`, a `false` or a constructor of a result type.

## Model

| member | source | states |
|---|---|---|
| `ProofFlow.CanonicalWrites` | qa/manual_vm_proof_flow.py:142-158 | The loop with its table of path names reports the statements the recogniser takes, each judged by the assignments before it; which they are is told by `ProofFlowShape.SoleWriterIff` |
| `ProofFlow.ScanCapture` | qa/manual_vm_proof_flow.py:208-226 | The loop reports the last statement that assigns an accepted capture to `proof`, and whether `qemu_usable` is assigned the required expression |
| `ProofFlow.ValidateQemuProofSemantics` | qa/manual_vm_proof_flow.py:233-242 | It returns the verdict of the rules: one canonical write, the last statement, right after the last capture, whose status is a conditional on `qemu_usable` that the script assigns as required; `ProofFlowAccepted.AcceptsIff` tells which scripts meet them |
| `ProofFlowShape.TableHoldsLastPath` | qa/manual_vm_proof_flow.py:97-152 | The table of paths holds for each name the last path, a string with any calls of `Path` around it, assigned to it, and nothing else |
| `ProofFlowShape.WriteStatementIff` | qa/manual_vm_proof_flow.py:72-158 | The recogniser takes exactly the statements `<receiver>.write_text(json.dumps(proof, indent=2, sort_keys=True) + "\n")` whose receiver is the proof file's path or was last given it |
| `ProofFlowShape.ReportedSomewhere` | qa/manual_vm_proof_flow.py:142-158 | A write is reported iff it stands in one of the scripts |
| `ProofFlowShape.SoleWriterIff` | qa/manual_vm_proof_flow.py:142-158 | Exactly one write is reported iff one script holds one such statement, and no other script holds any |
| `ProofFlowAccepted.SideEffectFreeIff` | qa/manual_vm_proof_flow.py:161-189 | The test over all nodes is a recursion over the expression: no calls, no named expressions, and only string keys |
| `ProofFlowAccepted.LastCaptureIff` | qa/manual_vm_proof_flow.py:192-226 | Exactly which capture the scan reports: the last statement that at some target `proof` assigns a literal of quiet entries naming `qemu`, with the first status of its own literal, if it assigned `qemu` before, or else of the last literal assigned to `qemu` |
| `ProofFlowAccepted.AcceptsIff` | qa/manual_vm_proof_flow.py:142-242 | Exactly which scripts are accepted, by their statements alone |
| `ProofFlowAccepted.WorkflowShapeIsAccepted` | .github/workflows/manual-vm-proof.yml:358-540 | A script of the repository's shape, `out = Path(...)`, a literal for `qemu`, its capture and `out.write_text(...)` of the dump, has that one write and is accepted |
| `ProofFlowAccepted.InsertedStatementIsRejected` | qa/manual_vm_proof_ci_selftest.py:222-227 | Whatever else stands in the script, a statement between capture and write that assigns no literal to `proof` makes it rejected |
| `ProofFlowAccepted.MutatedWriteIsRejected` | qa/manual_vm_proof_ci_selftest.py:228-230 | A last statement whose dump comes behind any `... or` is rejected |
| `ProofFlowSoundness.SideEffectFreeValueOnlyAllocates` | qa/manual_vm_proof_flow.py:161-189 | For every oracle and state, a value without forbidden node and with literal keys only evaluates without changing a name or an existing heap cell |
| `ProofFlowSoundness.CaptureEntriesBindQemu` | qa/manual_vm_proof_flow.py:192-205 | The entries of an accepted capture bind "qemu" to the object `qemu` names, and change nothing else |
| `ProofFlowSoundness.CaptureShowsQemu` | qa/manual_vm_proof_flow.py:192-226 | Executing a capture statement that only binds names, `proof` last as a plain name, leaves a `proof` whose JSON shows under "qemu" the contents of `qemu` just before |
| `ProofFlowSoundness.CaptureIsStatement` | qa/manual_vm_proof_flow.py:208-226 | What the scan reports is a statement assigning an accepted capture value to `proof` |
| `ProofFlowSoundness.CanonicalWritePutsProof` | qa/manual_vm_proof_flow.py:72-111 | For every oracle and state, a write statement whose receiver is a name or `Path` without keywords puts the JSON of `proof`, as it is before the statement, and a newline in the file of the receiver, or raises |
| `ProofFlowSoundness.WriteIsFaithfulIff` | qa/manual_vm_proof_flow.py:97-111 | Exact condition: a recognised write does so for every oracle iff no `Path` in its receiver has keywords |
| `ProofFlowSoundness.AcceptedScriptWritesQemu` | qa/manual_vm_proof_flow.py:161-242 | Soundness: in every run of an accepted script, whatever calls and unknown statements do, the text its write puts in the file is the JSON of `proof` and a newline, and shows under "qemu" exactly the contents of the object bound to `qemu` before the capture, if the capture only binds names, `proof` last as a plain name, and the receiver is a name or has no keywords; a receiver `Path(...)` is the proof file |
| `PythonEval.RendersUnique` | qa/manual_vm_proof_flow.py:72-84 | A value has at most one JSON rendering, so "what is written" is well defined |
| `PythonEval.RendersInExtension` | qa/manual_vm_proof_flow.py:72-84 | Allocating renders no existing value differently |
| `ProofFlowMeaning.TableHoldsLastLiteral` | qa/manual_vm_proof_flow.py:208-226 | The table of the scan holds for each name the last dict literal assigned to it |
| `ProofFlowMeaning.CaptureReadsJudgedLiteral` | qa/manual_vm_proof_flow.py:114-226 | The status the scan reports is the first "status" entry of one literal: the capture's own, if a `qemu` target stands before some `proof` target and the literal has a "status", else the last one assigned to `qemu` before |
| `ProofFlowMeaning.OwnLiteralIff` | qa/manual_vm_proof_flow.py:219-225 | The target at which the scan captures comes after a `qemu` target exactly for statements of that form, whatever the table held |
| `ProofFlowMeaning.CaptureDependsOnQemu` | qa/manual_vm_proof_flow.py:192-205 | Whether a value captures, and with which status, depends on the table only through `qemu` |
| `ProofFlowMeaning.LastStatusIsKept` | qa/manual_vm_proof_flow.py:50-54 | Python keeps the value of the last "status" entry, as evaluated there, if only constant keys follow |
| `ProofFlowMeaning.FirstIsLastIffOnce` | qa/manual_vm_proof_flow.py:50-54 | The entry `dict_value` finds is that one iff "status" occurs once |
| `ProofFlowMeaning.JudgedEntryIsKept` | qa/manual_vm_proof_flow.py:50-54 | Then the status judged is the expression whose value Python keeps |
| `ProofFlowMeaning.AcceptedScriptWritesChosenStatus` | qa/manual_vm_proof_flow.py:114-242 | If the literal settles its status and nothing disturbs `qemu` in between, the status written is the conditional's true branch exactly when `qemu_usable` was truthy at the literal |
| `ProofFlowMeaning.WrittenStringTellsUsability` | qa/manual_vm_proof_flow.py:233-242 | With two different strings as branches, the string written tells whether `qemu_usable` was truthy |
| `ProofFlowMeaning.UsableIsAvailableWithVersion` | qa/manual_vm_proof_flow.py:42-47 | The required expression computes "QEMU was found and its version is not empty" |
| `ProofFlowMeaning.WrittenStatusReportsQemu` | qa/manual_vm_proof_flow.py:42-242 | End to end: if the literal sees the value the required assignment computed, the status written says whether QEMU was found with a version |
| `ProofFlowMeaning.QuietScriptLeavesQemuUndisturbed` | qa/manual_vm_proof_flow.py:161-189 | If only side-effect free assignments to other names stand between literal and capture, no run disturbs `qemu` |
| `ProofFlowMeaning.StraightScriptReportsQemu` | qa/manual_vm_proof_flow.py:42-242 | For every oracle: if only side-effect free assignments stand between decision, literal and capture, the status an accepted script writes says whether QEMU was found with a version |
| `ProofFlowReports.EvalLeaves` | qa/manual_vm_proof_flow.py:161-189 | If the hidden parts of a run leave some names and the status of `qemu`'s object alone, so does evaluating any expression |
| `ProofFlowReports.StatusFollowsUsable` | qa/manual_vm_proof_flow.py:208-242 | In such runs the status an accepted script writes is the one `qemu_usable` chose before the literal, calls, `if` statements and subscript stores in between included |
| `ProofFlowReports.DecidedScriptReportsQemu` | qa/manual_vm_proof_flow.py:42-242 | End to end in such runs: if the required assignment stands before the literal and nothing binds `qemu_usable` or `qemu` again in between, the status written says whether QEMU was found with a version |
| `ProofFlowReports.ReportsIffDecidedFirst` | qa/manual_vm_proof_flow.py:216-217 | Exact condition: an accepted script that decides `qemu_usable` once, as required, and leaves its inputs alone reports QEMU in every such run iff the decision stands before the literal |
| `ProofFlowReports.WorkflowShapeReports` | .github/workflows/manual-vm-proof.yml:428-469 | The repository's literal is settled, and scripts of the workflow's shape meet the conditions of the end-to-end result |
| `ProofFlowReports.WriteGoesToProofFile` | qa/manual_vm_proof_flow.py:97-152 | In runs in which `Path` has its usual meaning and nothing hidden changes the name, a script that assigns it the proof file's path and does not bind it again writes that file |
| `ProofFlowLimits.CaptureIsSafeIff` | qa/manual_vm_proof_flow.py:208-231 | Exact condition: for targets that are names, tuples or lists of names, attributes or subscripts, an accepted capture is faithful in every run and for every oracle iff it cannot succeed at all, or none is an attribute or subscript and the last to bind `proof` is the plain name |
| `ProofFlowLimits.JudgedEntryIsKeptIffSettled` | qa/manual_vm_proof_flow.py:50-54 | Exact condition: a literal whose first "status" chooses between two strings, and whose later ones are constants, keeps the entry judged in every run iff no later entry has the key "status" or a computed key |
| `ProofFlowLimits.LosingTargetsAreUnsafe` | qa/manual_vm_proof_flow.py:229-231 | A capture that stores elsewhere, or takes the value for `proof` apart, has a run in which something else is written |
| `ProofFlowWitnesses.AcceptedCaptureMayBeUnsafe` | qa/manual_vm_proof_flow.py:208-242 | A concrete accepted script with an attribute among its targets, and its run |
| `ProofFlowWitnesses.RepeatedStatusMisleads` | qa/manual_vm_proof_flow.py:50-54 | A concrete accepted script whose literal repeats "status": QEMU is usable, and "unavailable" is written |
| `ProofFlowWitnesses.OwnLiteralIsJudged` | qa/manual_vm_proof_flow.py:219-225 | A concrete accepted script whose capture assigns `qemu` first: its own literal is judged "available", and an object with any other status is written |
| `ProofFlowWitnesses.LateDecisionMisleads` | qa/manual_vm_proof_flow.py:216-217 | A concrete accepted script that assigns `qemu_usable` as required only after the literal: QEMU is not there, and "available" is written |
| `ProofFlowWitnesses.KeywordReceiverMisleads` | qa/manual_vm_proof_flow.py:97-102 | A concrete accepted script whose receiver calls `Path` with a keyword that empties `qemu`, and its run: the JSON does not show what `qemu` held |
| `ProofFlowWitnesses.StalePathMisleads` | qa/manual_vm_proof_flow.py:145-152 | A concrete accepted script that rebinds `out`: in every run, for every oracle, it is the other file that is written |
| `FunctionBody.MatchBrace` | qa/openrpc_contract_daemon.py:56-78 | The loop over depth, in-string and escaped stops at the brace where a state machine first closes |
| `FunctionBody.ExtractFunctionBody` | qa/openrpc_contract_daemon.py:49-78 | What is extracted, and each of the three failures, for every text and name |
| `FunctionBody.CloseAfterItems` | qa/openrpc_contract_daemon.py:56-78 | Reading the print of a block's items at any depth leaves depth and mode as they were |
| `FunctionBody.BlockIsParsed` | qa/openrpc_contract_daemon.py:56-78 | Whenever the matcher closes, the text before is the print of a block of the grammar |
| `FunctionBody.PrintedFunctionIsExtracted` | qa/openrpc_contract_daemon.py:49-78 | Round trip: header, "{", a printed block, "}" and any tail yield the printed block |
| `FunctionBody.ExtractedIffPrintedBlock` | qa/openrpc_contract_daemon.py:49-78 | Exactness: a body is extracted iff it is the print of a block of the grammar standing in braces there |
| `FunctionBody.FailuresIff` | qa/openrpc_contract_daemon.py:49-78 | For every text and name: the function is missing iff the marker occurs nowhere; the body iff the marker first occurs at some place and no "{" stands at or after it; and it is unterminated iff both are found and no later position closes the depth outside a string |
| `FunctionBody.UnterminatedIffNoBlock` | qa/openrpc_contract_daemon.py:56-78 | It is unterminated iff it starts and no block of the grammar stands in braces there |
| `DaemonErrors.ExtractDaemonErrorMappings` | qa/openrpc_contract_daemon.py:91-104 | A map is built iff every incident is known and calls for the same incident agree; it then holds exactly the calls |
| `DaemonErrors.TableIgnoresOrder` | qa/openrpc_contract_daemon.py:91-104 | Neither success nor the map depends on the order or repetition of calls |
| `KeyTokens.PrivateKeyTokens` | qa/runtime_sample_common.py:103-109 | The loop over chunks yields the tokens that the expression finds; which they are is told by `KeyBoundaries` |
| `KeyTokens.ContainsPattern` | qa/runtime_sample_common.py:122-129 | The index loop finds a pattern iff it stands among the tokens |
| `KeyTokens.MatchAtCovers` | qa/runtime_sample_common.py:22 | The token expression, with its backtracking, matches at the start of every chunk, and what it takes is a token |
| `KeyBoundaries.TokensAreCut` | qa/runtime_sample_common.py:22 | A key is cut at its ends, next to a separator, between small letter and capital, between letter and digit, and before a capital that a small letter follows, behind another: there its tokens are those before and those after |
| `KeyBoundaries.PieceIsToken` | qa/runtime_sample_common.py:22 | It is cut nowhere else: what stands between two consecutive cuts is one token, lowercased, in its place |
| `KeyBoundaries.TokensOfPascal` | qa/runtime_sample_common.py:103-109 | Round trip: words in Pascal case are cut back into the words |
| `KeyBoundaries.TokensOfCamel` | qa/runtime_sample_common.py:103-109 | Round trip: words in camel case are cut back into the words |
| `KeyBoundaries.FlaggedBetweenCuts` | qa/runtime_sample_common.py:112-129 | A key is flagged if what stands between any two of its cuts is |
| `KeyTokens.TokensAreLossless` | qa/runtime_sample_common.py:103-109 | Tokens are not empty, all letters or all digits, and concatenate to the key's letters and digits, lowercased, in order |
| `KeyTokens.TokensAppend` | qa/runtime_sample_common.py:103-109 | Tokenising across a separator is concatenating the tokens |
| `KeyTokens.RetokenisingIsIdentity` | qa/runtime_sample_common.py:103-109 | Tokenising the tokens joined by "_" gives them back |
| `KeyTokens.FlaggedKeyStaysFlagged` | qa/runtime_sample_common.py:112-129 | A flagged key stays flagged behind any prefix and before any suffix set off by a separator |
| `RuntimePrivacy.AcceptsIffCleanEverywhere` | qa/runtime_sample_common.py:136-151 | The scan accepts a tree iff every field on every path and every text is clean |
| `RuntimePrivacy.SubtreeIsAccepted` | qa/runtime_sample_common.py:136-151 | Every subtree of an accepted tree is accepted |
| `RuntimePrivacy.DressedForbiddenKeyIsRejected` | qa/runtime_sample_common.py:112-151 | A tree with a prefixed and suffixed forbidden key at any depth is rejected |
| `RuntimePrivacy.PatternsAreWords` | qa/runtime_sample_common.py:132 | The patterns computed from the forbidden keys are the words they are made of |
| `RuntimePrivacy.PrivateTextIff` | qa/runtime_sample_common.py:117-119 | A text is private iff a forbidden one stands in it, in any case |
| `RuntimePrivacy.AcceptsIffNothingLeaks` | qa/runtime_sample_common.py:136-151 | A tree is accepted iff no node, on any path, has a key in whose pieces forbidden words stand in a row, a claim that is true, or a private text |
| `RuntimePrivacy.SpelledForbiddenKeyIsRejected` | qa/runtime_sample_common.py:112-151 | A tree is rejected if a key at any depth holds forbidden words, in snake, camel or Pascal case, between two cuts |
| `RuntimePrivacy.ApiKeyIsRejected` | qa/runtime_sample_common.py:136-141 | For one, "apiKey" is rejected at any depth |
| `BenchmarkPrivacy.TokensConcatenateToCompactKey` | qa/benchmark_output_privacy.py:61-68 | The tokens of both tokenisers concatenate to the compact form of the key |
| `BenchmarkKeys.TokensAreCut` | qa/benchmark_output_privacy.py:61-64 | A key is cut at its ends, next to a separator, and between a small letter or digit and a capital: there its tokens are those before and those after |
| `BenchmarkKeys.PieceIsToken` | qa/benchmark_output_privacy.py:61-64 | It is cut nowhere else: what stands between two consecutive cuts is one token, lowercased, in its place |
| `BenchmarkKeys.TokenIffPiece` | qa/benchmark_output_privacy.py:61-64 | The tokens of a key are exactly its pieces, lowercased |
| `BenchmarkLeaks.CompactIsLowerAlnum` | qa/benchmark_output_privacy.py:67-68 | The compact form is the letters and digits of the key, lowercased |
| `BenchmarkLeaks.ForbiddenKeyIff` | qa/benchmark_output_privacy.py:76-88 | A key is forbidden iff it is spelled like a forbidden one, has a forbidden token as a piece, or holds a forbidden concept, and is not exempt |
| `BenchmarkLeaks.ClaimIff` | qa/benchmark_output_privacy.py:112-114 | The claim patterns match exactly the texts in which the two words of a claim stand, in any case, with a gap between them and neither running on |
| `BenchmarkPrivacy.SequenceCheckIsRedundant` | qa/benchmark_output_privacy.py:71-88 | A sequence hit implies a concept hit, so the last check never changes the answer |
| `BenchmarkPrivacy.AcceptsIffCleanEverywhere` | qa/benchmark_output_privacy.py:76-114 | The scan accepts a tree iff every key on every path and every leaf is clean, control keys being exempt at the top of "record" only |
| `BenchmarkLeaks.AcceptsIffNothingLeaks` | qa/benchmark_output_privacy.py:91-114 | A tree is accepted iff no node, on any path, is non-finite, has a private key that is not exempt there, or is a private text |
| `BenchmarkLeaks.SetOffTokenIsRejected` | qa/benchmark_output_privacy.py:76-114 | A tree is rejected if a piece of a key at any depth is a forbidden token |
| `BenchmarkLeaks.AuthTokenIsRejected` | qa/benchmark_output_privacy.py:76-114 | For one, "authToken" is rejected at any depth |
| `BenchmarkPrivacy.SubtreeIsAccepted` | qa/benchmark_output_privacy.py:91-114 | Every value inside an accepted tree is accepted in any context |
| `BenchmarkPrivacy.ExemptionIsTopLevelOnly` | qa/benchmark_output_privacy.py:76-78 | A tree accepted as the record is accepted elsewhere iff no top key owes its pass to the exemption |
| `PathSafety.ExpressionIffParts` | qa/matrix_run_json.py:137-141 | The expression accepts exactly the newline-free strings that the parts rule accepts |
| `PathSafety.SafeIffNoDotDotSegment` | qa/matrix_run_json.py:137-141 | A path is safe iff it is not empty, does not start with "/", and no ".." stands between two slashes or ends of the text |
| `PathSafety.SafeDescendantStaysUnderRoot` | qa/matrix_run_json.py:150-151 | A safe path accepted under a root without ".." lies under it once every segment is resolved |
| `PathSafety.DescendantIffUnderRoot` | qa/matrix_run_json.py:150-151 | For relative paths without "..", the check accepts exactly those that resolve under the root |
| `PathSafety.ManifestRootIsRunDirectory` | qa/matrix_run_json.py:143-148 | An accepted manifest path gives its run directory as root, and lies under it |
| `PathSafety.RunManifestIsAcceptedIff` | qa/matrix_run_json.py:143-148 | Of the paths `evidence/lab/matrix/<id>/manifest.json` exactly those are accepted whose id is 1 to 64 safe characters other than "." and ".." |
| `PathSafety.AcceptedArtifactIsInRunDirectory` | qa/matrix_run_json.py:137-151 | Any path accepted under that root resolves into the run directory |
| `SchedExtSequence.ValidateSchedExtSequence` | qa/runtime_sample_sched_ext.py:96-122 | The one pass that keeps two numbers accepts iff all pairs of rows have strictly increasing `sequence` and non-decreasing `enable_seq` where numeric, and every row meets the phase rules |
| `SchedExtSequence.LastSuffices` | qa/runtime_sample_sched_ext.py:97-110 | Comparing with the last number seen is comparing with every earlier one |
| `SchedExtSequence.DroppingRowsKeepsOrder` | qa/runtime_sample_sched_ext.py:96-122 | Corollary: An accepted stream stays accepted when any rows are dropped |
| `SchedExtSequence.OrderIsPairwise` | qa/runtime_sample_sched_ext.py:96-122 | A stream is accepted iff every stream of at most two of its rows is |
| `SchedExtSequence.NumberedRowsAreDistinct` | qa/runtime_sample_sched_ext.py:101-105 | Corollary: No numbered row of an accepted stream is repeated |
| `MonitorRows.OrderedIff` | qa/runtime_sample_sched_ext.py:96-122 | What the pass accepts, by the fields of the rows: of any two, the later has a greater sequence and no smaller enable_seq |
| `MonitorRows.PhaseIff` | qa/runtime_sample_sched_ext.py:111-122 | A row is sound iff the phase it claims fits its state and its scheduler |
| `MonitorRows.EnableSeqIff` | qa/runtime_sample_sched_ext.py:30-32 | The number read is the one written in decimal between white space |
| `FailureTerminal.ValidateFailureTerminal` | qa/consumer_contract_check.py:157-168 | It accepts iff every row has an event and every failed rollback or cleanup has a reason and, strictly later, a bad terminal incident with that reason |
| `FailureTerminal.AnyTerminal` | qa/consumer_contract_check.py:165-168 | The inner search finds an incident iff there is one, and stops only at a row without an event |
| `FailureTerminal.ValidateBackwards` | qa/consumer_contract_check.py:157-168 | One backward pass with a set of ended reasons gives the same answer |
| `FailureTerminal.SuffixEnds` | qa/consumer_contract_check.py:157-168 | Corollary: Accepted streams are closed under suffix |
| `FailureTerminal.JoinIffEnds` | qa/consumer_contract_check.py:157-168 | When a concatenation is accepted: exactly if the second part is and each failure of the first ends in either part |
| `FailureTerminal.JoinEnds` | qa/consumer_contract_check.py:157-168 | Accepted streams are closed under concatenation |
| `MonitorRows.FailuresEndIff` | qa/consumer_contract_check.py:157-168 | The property decided, by the fields of the rows |
| `AlertOrder.ValidateAlertOrder` | qa/runtime_sample_core.py:189-204 | It accepts iff each alert has a qualifying sample at or before it |
| `AlertOrder.PrefixFollows` | qa/runtime_sample_core.py:189-204 | Corollary: Accepted streams are closed under prefix |
| `AlertOrder.ValidateRuntimeAlert` | qa/frontend_contract_pack_semantics.py:241-260 | The branch's five outcomes, each characterised by what the stream holds |
| `AlertOrder.OneVerdict` | qa/frontend_contract_pack_semantics.py:241-260 | Corollary: Those characterisations exclude one another |
| `AlertOrder.FollowingImpliesPackOrder` | qa/frontend_contract_pack_semantics.py:241-260 | Corollary: A stream the first monitor accepts never fails the contract pack's ordering |
| `AlertOrder.PackOrderIff` | qa/frontend_contract_pack_semantics.py:134-260 | On readable rows the contract pack says "precedes" iff some row ending the scenario has no sample before it |
| `AlertOrder.RequireFailedProofIncident` | qa/frontend_contract_pack_semantics.py:150-161 | Looking after the first failed row only is enough: it accepts iff some failed row has an ending after it |
| `MonitorRows.FailedProofIff` | qa/frontend_contract_pack_semantics.py:151-154 | Which rows count as a failed proof, by their fields |
| `AlertOrder.ValidateRuntimeSamples` | qa/consumer_contract_check.py:178-195 | It accepts iff every row has an event, every sample is accepted, and each of three alerts has its sample at or before it |
| `AlertOrder.ReadingsDifferIff` | qa/consumer_contract_check.py:183-186 | Exactly the values of `nr_rejected` that the two monitors read differently |
| `AlertOrder.CanonicalReadingsAgree` | qa/consumer_contract_check.py:183-186 | An absent counter and a canonical decimal are read alike |
| `AlertOrder.MonitorsAgreeIffReadingsDo` | qa/runtime_sample_core.py:189-204 | Over any set of rows the two monitors agree on every stream iff they read every row's counter alike |
| `AlertOrder.ConsumerOrderAgrees` | qa/consumer_contract_check.py:178-195 | With canonical counters the orderings are the same, and a stream the consumer accepts is accepted by the first monitor |
| `MonitorRows.AlertsFollowIff` | qa/runtime_sample_core.py:189-204 | What the first monitor accepts, by the fields of the rows |
| `MonitorRows.ConsumerFollowsIff` | qa/consumer_contract_check.py:178-195 | What the consumer accepts, by the fields of the rows |
| `MonitorRows.TerminalReadingIff` | qa/frontend_contract_pack_semantics.py:135-140 | Which rows end a scenario, and which cannot be read because a value is unhashable |
| `EventJournal.ValidateJournal` | qa/daemon_event_contract_check.py:114-197 | A journal is accepted iff its rows load and are numbered from 1, with schema and without host mutation |
| `EventJournal.ValidateMonotonic` | qa/golden_fixture_lifecycle_check.py:124-139 | A fixture is accepted iff its rows are numbered from an integer that its kind allows |
| `EventJournal.ValidatePackRows` | qa/frontend_contract_pack_check.py:216-233 | The same for the contract pack's cursor, which starts at 1 except for event replays |
| `EventJournal.SuffixIsReplay` | qa/golden_fixture_lifecycle_check.py:124-139 | Corollary: What is left of a journal from event k >= 2 on is an accepted replay from k |
| `EventJournal.JoinIsJournalIff` | qa/daemon_event_contract_check.py:114-166 | Joining a journal and a replay gives a journal iff the replay starts where it ends and its rows have integer numbers and events |
| `EventJournal.CutAndJoin` | qa/daemon_event_contract_check.py:161-166 | Corollary: Cutting a journal leaves a journal and a replay that meets that condition |
| `EventJournal.FloatReplayDoesNotJoin` | qa/daemon_event_contract_check.py:86-90 | The condition is needed: a replay with a float for a number is accepted, and no journal holds it |
| `EventJournal.FixtureChecksAgreeIff` | qa/frontend_contract_pack_check.py:216-233 | Corollary: Exactly where the two checks of fixtures differ |
| `EventJournal.JournalIsFixture` | qa/golden_fixture_lifecycle_check.py:124-139 | Corollary: Every journal passes both |
| `MonitorRows.JournalIff` | qa/daemon_event_contract_check.py:114-197 | What a journal is, by the fields of the rows |
| `MonitorRows.FixtureIff` | qa/golden_fixture_lifecycle_check.py:124-139 | What a fixture is, by the fields of the rows |
| `MonitorRows.PackIff` | qa/frontend_contract_pack_check.py:216-233 | What the contract pack takes for one, by the fields of the rows |
| `LiveSeries.ValidatePhases` | qa/live_behavior_check.py:199-205 | Detached at both ends, attached in between |
| `LiveSeries.ValidateCounterGrowth` | qa/live_behavior_check.py:219-231 | It accepts iff every counter fact is sound, and neither it nor one of the four compared counters is higher in the last sample |
| `LiveSeries.NoCounterGrowsIff` | qa/live_behavior_check.py:225-231 | In an accepted series no counter that both ends name grows iff `fallbacks` does not |
| `LiveSeries.GrowingFallbacksIsAccepted` | qa/live_behavior_check.py:40-41 | Concrete accepted series in which `fallbacks` grows |
| `LiveSeries.ObservedDigestIff` | qa/live_behavior_check.py:264-270 | Exactly which digests count as observed: a final newline is taken, and with it all zeros |
| `EventCounters.NoneGrowsIff` | qa/live_behavior_check.py:40-41 | No counter of two samples grows iff none of the compared ones does and `fallbacks` does not |
| `EventCounters.FallbacksAlone` | qa/live_behavior_check.py:289-296 | The text "fallbacks=N" is read as that one counter |
| `LiveSeries.ValidateSamples` | qa/live_behavior_check.py:198-216 | What a live series must be, all conditions together |
| `LiveSeries.EdgesBalance` | qa/live_behavior_check.py:273-278 | Attach and detach edges balance up to the state at the ends |
| `LiveSeries.AcceptedSeriesAttachesThenDetaches` | qa/live_behavior_check.py:198-207 | An accepted series has an attach edge and a later detach edge, and as many of either |
| `CounterText.MatchAtIff` | qa/live_behavior_check.py:40 | The counter expression matches at a place iff a name, ":" or "=", any white space and digits stand there, and it takes all the digits |
| `CounterText.CountersAreApart` | qa/live_behavior_check.py:40 | No counter starts inside another |
| `CounterText.TableHoldsLastCounts` | qa/live_behavior_check.py:289-296 | Scanning from left to right misses no counter: the table holds for each name the value of its last counter anywhere in the text |
| `LiveRows.MembershipIff` | qa/live_behavior_check.py:264-270 | Which rows show an observed group membership |
| `LiveRows.CounterFactIff` | qa/live_behavior_check.py:233-252 | When a row counts, and what |
| `LiveRows.NoneRisesIff` | qa/live_behavior_check.py:225-231 | No compared counter grows iff none is higher in the last text than in the first |
| `LiveRows.LiveIff` | qa/live_behavior_check.py:198-270 | Exactly which series are live, by the fields of the samples |
| `TableContract.NormalizedIffSameWords` | qa/backend_capability_matrix_check.py:61-62 | Cells agree once normalised iff they have the same words; normalising twice is normalising once |
| `TableContract.WordsAreCut` | qa/backend_capability_matrix_check.py:61-62 | White space cuts a text: its words are those before and those after |
| `TableContract.WholeWord` | qa/backend_capability_matrix_check.py:61-62 | Nothing else cuts it: a text without white space is one word |
| `TableContract.CollectDuplicateIds` | qa/backend_capability_matrix_check.py:123-130 | The ids listed are those at their second occurrence, in that order |
| `TableContract.SecondOccurrencesAreRepeated` | qa/backend_capability_matrix_check.py:123-130 | Each repeated id is listed, once, and no other |
| `TableContract.NoneRepeatedIffDistinct` | qa/backend_capability_matrix_check.py:123-130 | Nothing is listed iff the ids are pairwise distinct |
| `TableContract.FirstRowsById` | qa/backend_capability_matrix_check.py:133-138 | The table holds the first row of every id |
| `TableContract.ValidateRowCells` | qa/backend_capability_matrix_check.py:162-172 | A cell is reported iff its words differ |
| `TableContract.ValidateCells` | qa/backend_capability_matrix_check.py:153-158 | A cell is reported iff it differs between an expected row and the first row with its id |
| `TableContract.ValidateContract` | qa/backend_capability_matrix_check.py:141-159 | What is reported is exactly what fails, and nothing is iff the rows meet the contract position by position |
| `TableContract.NothingFailsIffMeets` | qa/backend_capability_matrix_check.py:141-159 | Duplicates, missing and unexpected ids, order and looked-up cells together are pointwise equality |
| `TableContract.MeetsIff` | qa/backend_capability_matrix_check.py:141-172 | Nothing is reported iff the rows have the expected ids, none twice, and in each of the three cells the expected words |
| `BundleIndex.NoClaimsIffCleanEverywhere` | qa/evidence_bundle_compare_check.py:81-98 | The claim scan accepts a tree iff every field on every path carries the value it must |
| `BundleRules.ClaimFreeIff` | qa/evidence_bundle_compare_check.py:81-98 | Which trees make no claim, by the text of their keys |
| `BundleRules.RefIff` | qa/evidence_bundle_compare_check.py:72-78 | Which references are valid, and what they refer to |
| `BundleRules.ScenariosIff` | qa/evidence_bundle_compare_check.py:117-131 | Which scenarios a matrix has |
| `BundleRules.BpfIdIs` | qa/evidence_bundle_compare_check.py:149-157 | Which of the five places gives the identity of the BPF object, the first with a text, or else the digest |
| `BundleIndex.FillRoles` | qa/evidence_bundle_compare_check.py:173-178 | The counter and the table of lists, filled side by side, count and hold each role's references |
| `BundleIndex.RowSet` | qa/evidence_bundle_compare_check.py:117-131 | The scenarios of a matrix without claims, without repetition and as many as counted |
| `BundleIndex.CountsSumToAll` | qa/evidence_bundle_compare_check.py:173-178 | The counts of any list of references sum to its length |
| `BundleIndex.CountsAreOfRefs` | qa/evidence_bundle_compare_check.py:168-190 | In an index each role's count is the number of references stored for it, and the counts sum to all references |
| `BundleIndex.IndexBundle` | qa/evidence_bundle_compare_check.py:168-196 | When a bundle can be indexed, and its index |
| `BundleRules.OrderGivesIndex` | qa/evidence_bundle_compare_check.py:168-196 | A bundle that is in order has the index of the facts that put it in order |
| `BundleRules.IndexedIsInOrder` | qa/evidence_bundle_compare_check.py:168-196 | A bundle that can be indexed is in order |
| `BundleIndex.Compare` | qa/evidence_bundle_compare_check.py:199-208 | It accepts iff both bundles can be indexed and their indexes agree but for what the flags allow |
| `BundleRules.ComparesIff` | qa/evidence_bundle_compare_check.py:199-208 | Exactly when the comparison passes: both bundles are in order, with as many references of every role, the same scenarios and benchmark state, and tuple, revision and BPF object the same unless flagged |
| `BundleIndex.ComparisonIsEquivalence` | qa/evidence_bundle_compare_check.py:199-208 | Corollary: With any flags, so with none, comparison is an equivalence on the bundles that can be indexed |
| `BundleIndex.FlagsOnlyAccept` | qa/evidence_bundle_compare_check.py:199-208 | Corollary: Turning a flag on never rejects more |
| `BundleIndex.ComparedBundlesHaveAsManyRefs` | qa/evidence_bundle_compare_check.py:199-208 | Bundles that compare have as many references, role by role and in all |
| `BenchmarkRecord.ParseCyclictestJson` | qa/benchmark_output_parse.py:50-65 | The accumulating pass fails iff an entry is malformed, and else gives what the text parser gives on the same rows |
| `BenchmarkRecord.SumSections` | qa/benchmark_output_parse.py:84-98 | The inner loop fails iff a job is malformed, and else sums the sections |
| `BenchmarkRecord.ParseFio` | qa/benchmark_output_parse.py:78-103 | The loops give the metrics of `FioOf`, which `BenchmarkMetrics.FioSumsUp` describes by the jobs |
| `BenchmarkRecord.ParseStressNg` | qa/benchmark_output_parse.py:123-143 | The loop gives the totals of `StressOf`, which `BenchmarkMetrics.StressRowsSumUp` describes by the rows |
| `BenchmarkMetrics.FioIsParsedIff` | qa/benchmark_output_parse.py:78-96 | A fio input is parsed iff there are jobs, and in each the sections `read` and `write` say nonnegative `iops`, `bw_bytes` and, where there is a `lat_ns`, its `mean` |
| `BenchmarkMetrics.FioSumsUp` | qa/benchmark_output_parse.py:84-103 | On the JSON of the jobs: `read_iops` and `read_bw_bytes` are the sums of what the jobs say under `read`, `read_lat_ns_mean_avg` the sum of their means over the number of jobs, the same for `write`, each with its unit, and nothing else is recorded |
| `BenchmarkMetrics.OneJobIsRecorded` | qa/benchmark_output_parse.py:84-99 | For one: a job that reads at 100 and writes nothing |
| `BenchmarkMetrics.LatenciesIff` | qa/benchmark_output_parse.py:55-61 | A cyclictest input is read iff every thread says four nonnegative numbers, and as it says them |
| `BenchmarkMetrics.CyclicRowsSumUp` | qa/benchmark_output_parse.py:62-75 | Field by field: the number of threads, the sum of the cycles, the means of the least and average latencies, and the greatest of the greatest |
| `BenchmarkMetrics.StressRowsSumUp` | qa/benchmark_output_parse.py:123-143 | Field by field: the number of rows, and the sums of operations, real, user and system time |
| `BenchmarkMetrics.PerfSays` | qa/benchmark_output_parse.py:106-120 | The time, and the groups and processes if the text tells them |
| `BenchmarkRecord.LargestIsLargest` | qa/benchmark_output_parse.py:50-75 | The running maximum is attained and bounds every row |
| `BenchmarkRecord.AggregatesAreOrdered` | qa/benchmark_output_parse.py:50-75 | If every row has min <= avg <= max, then so have the aggregates, for any number of threads |
| `BenchmarkAgreement.BuildRecord` | qa/benchmark_output_parse.py:170-173 | When a record is built, and that it is the one of `RecordOf`, which `BenchmarkReports.RecordSays` describes by the input |
| `BenchmarkReports.ParsedIffYields` | qa/benchmark_output_parse.py:146-167 | An input is parsed iff it yields a report, and then it yields what is parsed |
| `BenchmarkReports.RecordSays` | qa/benchmark_output_parse.py:170-173 | A record is built iff the input yields a report and both paths are relative and give nothing away; its fields then say, key by key, what the input yields |
| `BenchmarkAgreement.BuiltRecordIsAccepted` | qa/benchmark_output_privacy.py:91-114 | The scan for private data accepts every record the producer builds |
| `BenchmarkAgreement.FamilyCompletes` | qa/benchmark_output_validate.py:20-68 | Only a record's own family fits it, and then its counts decide |
| `BenchmarkRules.KeysIff` | qa/benchmark_output_validate.py:16-19 | A record has the required fields iff its keys are those nineteen texts |
| `BenchmarkRules.MetricIff` | qa/benchmark_output_validate.py:52-55 | A metric is valid iff it is a nonnegative number with a unit of its name |
| `BenchmarkRules.ValidatesIff` | qa/benchmark_output_validate.py:14-68 | Exactly which records are valid, field by field and by the text of their keys |
| `BenchmarkAgreement.BuiltRecordValidatesUnlessShort` | qa/benchmark_output_validate.py:14-68 | Agreement: the validator accepts every built record, except that a cyclictest record is accepted iff its total cycles reach 1 |
| `BenchmarkAgreement.StillRunIsBuiltAndRejected` | qa/benchmark_output_validate.py:61-64 | A concrete cyclictest run, one thread with no cycle, is built and then rejected |
| `BenchmarkAgreement.NewlineInDigestIsValid` | qa/benchmark_output_validate.py:30-30 | A valid record stays valid when a newline is added to its digest |
| `Digests.DigestIffNoNewline` | qa/benchmark_output_model.py:40-40 | A validated digest is 64 hexadecimal digits iff it has no newline |
| `BenchmarkFixedParts.KeyIsClean` | qa/benchmark_output_privacy.py:76-88 | No fixed key of a record is forbidden in any context, but for the four control keys |
| `BenchmarkFixedParts.FixedTextsAreClean` | qa/benchmark_output_privacy.py:109-114 | Every fixed text of a record passes the text and claim checks |

Rows marked as corollaries follow from the specification of the row they belong to without a
further argument.

## Findings

- `qa/manual_vm_proof_flow.py:229-231` accepts a capture statement with further targets. An attribute
  or subscript among them, or a tuple that takes the value for `proof` apart, makes it unfaithful
  (`CaptureIsSafeIff`, `AcceptedCaptureMayBeUnsafe`); a tuple of other names does not.
- `dict_value` (`qa/manual_vm_proof_flow.py:50-54`) takes the first of repeated keys, Python keeps
  the last (`RepeatedStatusMisleads`). It judges the entry that is kept iff no later entry can
  replace it (`JudgedEntryIsKeptIffSettled`).
- The scan updates its table target by target (`qa/manual_vm_proof_flow.py:219-225`). If the capture
  statement assigns `qemu` before `proof`, its own literal may be judged, while the object written is
  the one `qemu` named before (`OwnLiteralIsJudged`). That happens iff a `qemu` target stands before
  some `proof` target and the literal has a "status" entry (`OwnLiteralIff`, `CaptureReadsJudgedLiteral`).
- The required assignment to `qemu_usable` may stand anywhere (`qa/manual_vm_proof_flow.py:216-217`),
  also after the literal that should see it (`LateDecisionMisleads`). Among scripts that decide once,
  the status is right in every run iff the decision comes first (`ReportsIffDecidedFirst`).
- `path_literal` (`qa/manual_vm_proof_flow.py:97-102`) looks at the arguments of `Path` and not at its
  keywords, whose evaluation may change `qemu` before the dump (`KeywordReceiverMisleads`). A write is
  faithful iff its receiver has none (`WriteIsFaithfulIff`).
- The table of paths keeps a name's last path literal when the name is bound to something else
  (`qa/manual_vm_proof_flow.py:145-152`), so an accepted script may write another file
  (`StalePathMisleads`); one that does not rebind it writes the proof file (`WriteGoesToProofFile`).
- A recorded cyclictest run whose cycles total less than 1 is built and then rejected
  (`qa/benchmark_output_validate.py:64`; `StillRunIsBuiltAndRejected`).
- The live check compares four counters, but its expression also reads `fallbacks`, which may grow
  (`qa/live_behavior_check.py:40-41`; `NoCounterGrowsIff`, `GrowingFallbacksIsAccepted`).
- `nr_rejected` is read differently by `qa/runtime_sample_core.py:196-198` and
  `qa/consumer_contract_check.py:184-185`: integers, True, and texts such as "00".
- A replay row may number itself with a float (`qa/golden_fixture_lifecycle_check.py:135`), which
  the daemon's journal check refuses (`qa/daemon_event_contract_check.py:86-90`).
- The SHA-256 patterns (`qa/benchmark_output_model.py:40`, `qa/live_behavior_check.py:43`) end in `$`
  and are used with `match`, so they also take a final newline (`NewlineInDigestIsValid`); in a live
  sample it even lets 64 zeros pass (`ObservedDigestIff`). The path pattern
  (`qa/matrix_run_model.py:40`) is used with `fullmatch` and takes no newline.

## Left out

- Reading files, hashing, git, subprocesses and the command line: rows, trees, digests and paths that exist are inputs.
- `embedded_python` and `ast.parse`: scripts are syntax trees from the start; syntax outside the subset is one `Effect` node or one `OtherStmt`, whose effect is arbitrary.
- Operators, comparisons, attribute and subscript loads, and list, tuple and set displays without calls are read-only, as they are on Python's built-in values; a class that overloads one with a side effect is outside the model, and so is threading.
- Attributes and subscripts as targets, starred targets, and unpacking an object that is no dict, list or string, do anything at all to the state. A dict is unpacked into its keys, in an order nothing is assumed of.
- ProofFlowLimits.CaptureIsSafeIff: nested and starred targets are not covered, nor an attribute or subscript mixed with a tuple or list of the wrong length; soundness covers all nested targets that only bind.
- ProofFlowLimits.JudgedEntryIsKeptIffSettled: a computed key is taken to be able to become any value, so the only-if half counts keys such as `-1`, `1 + 2` or a tuple of constants among those that can replace the status, which they cannot.
- ProofFlowReports.ReportsIffDecidedFirst: for scripts that take nothing apart and whose calls, computed keys, stores and unknown statements leave the four names and the status alone; that those of a given script do is assumed, not analysed.
- ProofFlowMeaning.StraightScriptReportsQemu: gives one direction; a script that is not straight may report QEMU for every oracle as well.
- `json.dumps`, `+`, `Path` and `write_text` have their usual meaning in the write statement; elsewhere a call is the oracle's. Printed JSON is kept as its tree: indentation, key order and escapes are those of the library.
- ProofFlowSoundness.AcceptedScriptWritesQemu: a receiver that is a name stands for the object it names, taken to be writable; that this object is the proof file's path is `WriteGoesToProofFile`, under its conditions. Two spellings of a path are two files.
- ProofFlowReports.WriteGoesToProofFile: gives one direction; a script that rebinds the name may still write the proof file.
- States are closed: no reference dangles, which Python guarantees.
- Floats are exact reals; rounding and overflow to infinity are not modelled. NaN and the infinities are one value.
- Characters outside ASCII in tokenisers, case folding, decimal checks and white space.
- The texts and rows that the regular expressions of the cyclictest, perf and stress-ng parsers find, and the `writeRpcError` calls found in the daemon's source, are inputs.
- Python's limits on numbers: `int` of more than 4300 digits raises, and so does `math.isfinite` of an integer too large for a float; here both succeed.
- RuntimePrivacy.SpelledForbiddenKeyIsRejected: about keys cut as `KeyBoundaries` says; a key run together with other letters, such as `apikey`, is cut otherwise and may pass.
- Error messages, and which error comes first where several apply.
- FunctionBody.ExtractFunctionBody: the Zig source is any text; comments and character literals are plain characters, as the source treats them.
- EventJournal.ValidateJournal: keeps schema, seq, host_mutation and event; identifiers, audit ids and private fields are further checks of single rows.
- EventJournal.ValidatePackRows: keeps schema, seq and host_mutation, for the same reason.
- AlertOrder.ValidateRuntimeAlert: the other branches of `validate_scenario_semantics` test for the presence of rows one by one.
- LiveSeries.ValidateSamples: the observation's two summaries are inputs; the bundle around it is left out.
- BundleIndex.IndexBundle: a path names a file by its text, so two spellings of one path are two names.
- BenchmarkAgreement.BuildRecord: the input's SHA-256 is an input, assumed to be 64 hexadecimal digits.
- PathSafety.SafeDescendantStaysUnderRoot: resolution is lexical; symbolic links are not modelled.
- `validate_sample`, the other sched_ext fact checks, the frontend scope and prose checks of the matrix, and the proof-outcome checklists: each is a list of tests on single fields.
- Self-tests, fixtures, document and schema checks, the BPF programs and the Zig daemon itself.
