# Verified models of dag-ml's recovery, codec, closure and replay contracts

This project states, in Dafny, what some of the hardest code of the repository
does, and proves what that code is for. `dafny verify dfyconfig.toml` checks all of it.

## What is modelled

**Two-store crash recovery** (`HpoTrials`, `HpoAdapter`, `HpoHost`, `HpoRuns`, `HpoDiscipline`,
`HpoAdmission`, `HpoWitness`, `HpoHistory`). The optimizer adapter keeps a trial table and three checkpoints in
one file; the DAG host publishes its own checkpoint in another. The adapter is a class whose
methods are proved against functions of its memory. Host and adapter together are a state machine
over single events, publications and crashes; the process may die between any two of them. The
main result is an equivalence: after any run, the adapter refuses a restart exactly if the two files
are stranded, and the host refuses one that the adapter accepts exactly if it does not accept the
parameters of a trial beyond the paired history. Nothing is assumed about the proposals, nor about
the kind of terminal the host prepares for a candidate. A discipline rules both out:

- no proposal but the empty one is of a kind the host refuses, that is, with a blank name or a
  parameter it cannot route. The adapter saves a proposal before the host looks at it, so that every
  later start finds it as an interrupted trial and the host refuses it again. An empty proposal stops
  the host as well, but an interrupted trial without parameters is accepted;

- no crash falls between the first acknowledgement and the first published checkpoint, because
  no native file exists while the adapter has already committed;
- after a crash between an acknowledgement and its publication, no second crash falls before the
  next publication, because acknowledging again overwrites the previous checkpoint; only while the
  host resumes, and if no candidate ran ahead, is another crash harmless;
- a prune reply is not saved by itself, but any later event saves it, so the terminal of the pruned
  candidate is prepared before anything else is saved. The serial search does so. The parallel
  search can prune a later candidate first, and then a crash leaves files that cannot be reconciled;
- that terminal is a pruned one. Both searches prepare a failed terminal for a pruned candidate if
  its evaluation fails after the prune reply. The adapter then refuses the failure, and every restart.

Each clause on what is asked, crashes or saves is needed: a step that breaks one after a disciplined
run leaves files with which no restart succeeds if the process dies then.

**Binary classifier state** (`Bytes`, `StateFrames`, `KeyedEntries`, `EstimatorCodec`,
`EstimatorReader`, `LatentState`, `LatentShapes`, `RecipeCodec`, `RecipeWriter`, and by byte `ByteLayout`,
`EstimatorLayout`, `LatentLayout`, `ClassifierLayout`, `ClassifierShapes`, `RecipeLayout`). Frames carry a 64-bit FNV-1a
checksum; texts are bytes, checked for UTF-8 as in section 4 of RFC 3629; binary64 values are eight
raw bytes. Parser and printer are inverse to each other, the checksum notices every change of a
single byte, packed models have one exact size, and the canonical recipe is injective. The layouts are
stated a second time by offset and literal, and proved to be what the parsers accept and the printers write.

**Schema dependencies** (`SchemaGraph`, `SchemaWalk`, `SchemaDependencies`, `SchemaRefs`). The
three-colour search over `$ref` edges is a class with its colours, stack and cycles as fields. Its
result is exactly the reachable set, and every reachable cycle runs through the closing reference of a
recorded one, so that the record of cycles is empty exactly if there are none.

**Out-of-fold predictions** (`OutOfFold`, `FoldLoop`, `MergeStage`). Fitting, prediction, augmentation
and the mean are arbitrary functions. Branch predictions do not depend on the targets of the held-out
samples. Merge predictions do: a fold of the merge stage is free of its own held-out targets exactly if
it trains on nothing, because the features it trains on come from branch folds that were fitted on them.

**Comment-only changes** (`RustPieces`, `RustComments`, `RustJoins`, `RustLiterals`, `RustChanges`,
`RustTokens`). The hand-written lexer cuts a source into blanks, comments and code without losing anything, keeps literals
whole, and is blind to what its comments say. A comment is worth a blank, with one exception that is
stated exactly, and may be dropped unless a token before it reaches over. Equal tokens mean equal code pieces, and no more: blanks between
operators do not count.

**Replay contracts** (`TextSort`, `JsonValues`, `RelationRecords`, `RelationSets`, `RelationFields`, `Upstream`,
`ReplayPhases`, `ReplayLineage`). Relation sets have one canonical form, the upstream closure decides
the replayable phases, and the lineage of a replay mirrors the plan over paths of any length.

**Archive binding** (`ArchiveBinding`, `ArchiveRefs`, `ArchiveManifest`). Binding a manifest to payload bytes
rewrites members and references in place and restores the integrity of the closed inventory,
with one exception that is stated exactly. The manifest schema fixes the package's profile to
`dagml_tcv1`, so no manifest that is valid against it is such an exception.

`Results` holds what the others share; `Instances` gives small inputs that meet the hypotheses of the
theorems whose premises no run or method of the model reaches. Methods follow the source's loops and fields; each is proved
equal to a function, and the theorems are about these functions.

## Model

| member | source | states |
|---|---|---|
| HpoTrials.Optimizer.TellResult | examples/adapters/hpo_n4m_optimizer_jsonl.py:310-327 | only a RUNNING trial can take a terminal status; any other index or status is refused and changes nothing |
| HpoTrials.Optimizer.Ask | examples/adapters/hpo_n4m_optimizer_jsonl.py:292-298 | a new trial gets the next id, runs, and leaves every earlier trial as it was |
| HpoAdapter.N4MHostOptimizer.Open | examples/adapters/hpo_n4m_optimizer_jsonl.py:107-173 | a start gives exactly the adapter that the saved file and the native checkpoint determine, writes it, and leaves the file alone when it refuses |
| HpoAdapter.N4MHostOptimizer.Save | examples/adapters/hpo_n4m_optimizer_jsonl.py:175-179 | one write replaces the whole file by the adapter's memory |
| HpoAdapter.N4MHostOptimizer.ValidateHistory | examples/adapters/hpo_n4m_optimizer_jsonl.py:181-201 | accepts exactly the checkpoints whose entries agree index by index with the table on id, params, status and score |
| HpoAdapter.N4MHostOptimizer.FinishPrepared | examples/adapters/hpo_n4m_optimizer_jsonl.py:203-218 | finishes the prospective trial if the crash came before its transition, leaves it alone if it came after, and refuses the rest with the source's reason |
| HpoAdapter.N4MHostOptimizer.Pair | examples/adapters/hpo_n4m_optimizer_jsonl.py:230-264 | which prospective checkpoint and which interrupted trials the two files tell of, or why they cannot be paired |
| HpoAdapter.N4MHostOptimizer.Reconcile | examples/adapters/hpo_n4m_optimizer_jsonl.py:230-270 | the table after checking the native history and finishing the prospective trial |
| HpoAdapter.N4MHostOptimizer.FailOrphans | examples/adapters/hpo_n4m_optimizer_jsonl.py:271-284 | every unaccounted trial must still be RUNNING under its own index; all of them become failed and are listed in order |
| HpoAdapter.N4MHostOptimizer.Recover | examples/adapters/hpo_n4m_optimizer_jsonl.py:220-288 | the recovered memory, the prepared checkpoint and the interrupted list, or the refusal, as a function of the saved file and the native checkpoint |
| HpoAdapter.N4MHostOptimizer.Handle | examples/adapters/hpo_n4m_optimizer_jsonl.py:290-336 | for every event the new memory, whether it was saved, and the reply, refusals included |
| HpoRuns.FinishesPrepared | examples/adapters/hpo_n4m_optimizer_jsonl.py:203-218 | from any file a run can leave, finishing the prospective trial succeeds if and only if its terminal does not contradict the table; then it touches that trial only, and agrees with both histories |
| HpoRuns.RecoveryConserves | examples/adapters/hpo_n4m_optimizer_jsonl.py:230-288 | after a successful recovery nothing is RUNNING, and the table splits in order into native trials, at most one prepared trial and the contiguous interrupted ones; the host adopts them exactly if none of them has a parameter with a blank name |
| HpoRuns.CommittedSurvives | examples/adapters/hpo_n4m_optimizer_jsonl.py:230-288 | what was acknowledged before the crash is a prefix of what the host resumes from |
| HpoRuns.RunKeeps | examples/adapters/hpo_n4m_optimizer_jsonl.py:290-336 | the invariant of host, memory, adapter file and native file holds after every run of events, crashes and restarts |
| HpoRuns.StepKeeps | crates/dag-ml-core/src/runtime/host_hpo.rs:1772-1985 | every single step of the host, of the publication or a crash keeps that invariant, and the adapter refuses an event exactly if it reports on a pruned trial or asks for a contradicting transition |
| HpoRuns.TransitionKeeps | examples/adapters/hpo_n4m_optimizer_jsonl.py:310-327 | tell, pruned or fail for the prepared trial keeps the invariant, and is refused exactly if the adapter holds the trial as the other kind |
| HpoRuns.AcknowledgeKeeps | examples/adapters/hpo_n4m_optimizer_jsonl.py:328-335 | acknowledging a checkpoint keeps the file fit for recovery, whatever the published one is |
| HpoAdmission.RestartRefusesExactly | examples/adapters/hpo_n4m_optimizer_jsonl.py:220-288 | after any run, with crashes anywhere, the adapter refuses a restart if and only if the files are stranded: native missing, native neither committed nor previous, a prepared terminal that contradicts the table, or a non-running trial beyond the accounted ones; and host and adapter both start if and only if, moreover, the host accepts the parameters of every trial beyond the paired history |
| HpoAdmission.AdmittedExactly | crates/dag-ml-core/src/runtime/host_hpo.rs:2715-2728 | every trial of the checkpoint that the recovered files yield passes the host's parameter checks if and only if the rows beyond the paired history do, whose parameters may also be missing |
| HpoAdmission.RefusedProposal | crates/dag-ml-core/src/runtime/host_hpo.rs:1779-1796 | a proposal stops the host exactly if it is empty, has a blank name or cannot be routed; the adapter has saved it by then, and unless it is empty no restart can succeed |
| HpoAdmission.HopelessForever | crates/dag-ml-core/src/runtime/host_hpo.rs:667-711 | where no restart can succeed, host and adapter stay down in every continuation, though the adapter may accept restarts |
| HpoAdmission.RunScreened | crates/dag-ml-core/src/runtime/host_hpo.rs:2574-2731 | in every run all checkpoints, of host and adapter, hold only trials whose parameters the host accepts, and while the host is up so does the whole table |
| HpoRuns.LiveEventsAccepted | crates/dag-ml-core/src/runtime/host_hpo.rs:2230-2508 | in every run, serial or parallel, the adapter accepts an event of the host exactly unless it reports on a pruned trial or asks for a transition to a terminal of the other kind |
| HpoDiscipline.StrandedForever | examples/adapters/hpo_n4m_optimizer_jsonl.py:220-288 | stranded files stay stranded: no further run changes them |
| HpoDiscipline.CrashBeforeFirstPublish | crates/dag-ml-cli/src/main.rs:4401-4443 | a crash after the first acknowledgement and before the first published checkpoint strands the files |
| HpoDiscipline.SecondLostAcknowledgement | examples/adapters/hpo_n4m_optimizer_jsonl.py:328-335 | after a crash between acknowledgement and publication, acknowledging again forgets the published checkpoint: a second crash is fatal |
| HpoDiscipline.RestartTwiceLosesOrphans | examples/adapters/hpo_n4m_optimizer_jsonl.py:238-288 | a candidate that ran ahead of a lost acknowledgement is failed by the first restart and rejected by the second |
| HpoDiscipline.PruneAheadStrands | crates/dag-ml-core/src/runtime/host_hpo.rs:2363-2387 | a prune reply is written to the file by the next event that saves; unless that prepares the terminal of the same candidate, the files are stranded; the parallel search does this |
| HpoDiscipline.ContradictionStrands | crates/dag-ml-core/src/runtime/host_hpo.rs:1891-1910 | an evaluation that fails after the adapter has pruned its candidate prepares a failed terminal: the files are stranded, and the transition that follows is refused |
| HpoDiscipline.CrashExactly | examples/adapters/hpo_n4m_optimizer_jsonl.py:220-288 | in a disciplined state a crash is fatal in exactly the situations the discipline excludes |
| HpoDiscipline.CarelessStrands | examples/adapters/hpo_n4m_optimizer_jsonl.py:220-288 | after a disciplined run, any step that breaks a clause on what is asked, crashes or saves leaves files with which no restart succeeds; the adapter itself refuses unless only the proposal is at fault |
| HpoDiscipline.DisciplinedNeverRefuses | examples/adapters/hpo_n4m_optimizer_jsonl.py:220-288 | in every disciplined run, of any length and crashing anywhere, the restart succeeds and the host resumes |
| HpoWitness.FirstAckReached | crates/dag-ml-cli/src/main.rs:4401-4443 | a run that reaches the first of these situations |
| HpoWitness.LostAckReached | crates/dag-ml-cli/src/main.rs:4401-4443 | a run that reaches the lost acknowledgement with a candidate ahead |
| HpoWitness.PruneAheadReached | crates/dag-ml-core/src/runtime/host_hpo.rs:2363-2387 | a run that reaches the pruned candidate ahead of the next terminal, and strands the files |
| HpoWitness.FailedAfterPruneReached | crates/dag-ml-core/src/runtime/host_hpo.rs:1891-1910 | a run that prepares a failed terminal for a pruned candidate, and strands the files |
| HpoWitness.SavedPruneReached | crates/dag-ml-core/src/runtime/host_hpo.rs:2230-2260 | a run that asks for the next candidate with a prune reply open, and strands the files |
| HpoWitness.NamelessReached | crates/dag-ml-core/src/runtime/host_hpo.rs:694-700 | with an axis whose name is blank the first proposal already leads to files that the adapter accepts and the host refuses, in every continuation |
| HpoHistory.CommittedAgreesAlways | examples/adapters/hpo_n4m_optimizer_jsonl.py:181-201 | with no host discipline at all, in every state reachable by events, crashes and restarts the committed checkpoint agrees with the table, in memory and in the file |
| HpoHistory.CommittedOutright | examples/adapters/hpo_n4m_optimizer_jsonl.py:181-201 | outright: every committed outcome in the file is the table's row of its index, with its parameters and status and, if complete, its score |
| HpoHistory.StartedAgrees | examples/adapters/hpo_n4m_optimizer_jsonl.py:107-125 | whatever happened before, a process that comes up with a native checkpoint found a file, has committed a checkpoint and holds that history in its table: it never starts afresh beside one |
| HpoHistory.AbsentFile | examples/adapters/hpo_n4m_optimizer_jsonl.py:120-173 | without a file a start succeeds exactly without a native checkpoint, and then writes an empty table |
| HpoHistory.FinishedTrialsFrozen | examples/adapters/hpo_n4m_optimizer_jsonl.py:290-336 | a trial that is terminal in one saved file has the same status, params and score in every later one |
| HpoHistory.RecoverTwicePaired | examples/adapters/hpo_n4m_optimizer_jsonl.py:230-288 | recovering again from the file just saved gives the same answer and the same state when the native checkpoint is the committed one |
| HpoHistory.RecoverTwiceUnpaired | examples/adapters/hpo_n4m_optimizer_jsonl.py:238-288 | when it is the previous one, the second recovery gives the same answer if and only if no trial lies beyond the acknowledged ones; otherwise it refuses |
| HpoHistory.CheckpointlessRestart | crates/dag-ml-cli/src/main.rs:4535-4556 | a host that never sends a checkpoint, whatever else it sends and wherever it dies, finds the adapter willing to start again if and only if no process that had been asked ever saved anything |
| HpoHistory.RefusedAskForgotten | examples/adapters/hpo_n4m_optimizer_jsonl.py:290-298 | an ask whose id is refused is not saved: if the process dies then, the adapter starts again, and after an accepted one it does not |
| Bytes.NumberOfLittle | scripts/validate_classification_state.py:42-49 | a little-endian word reads back the number it was written from |
| Bytes.LittleOfNumber | scripts/validate_classification_state.py:42-49 | and a read number writes back the same bytes |
| StateFrames.CheckedIffFrame | scripts/validate_classification_state.py:70-78 | a byte string is accepted exactly if it is a magic number, body length, body and the FNV-1a checksum of what precedes it |
| StateFrames.ChecksumSeparates | scripts/validate_classification_state.py:70-78 | strings of equal length that differ in one byte have different checksums, at any length and in any place |
| StateFrames.SingleByteChangeDetected | scripts/validate_classification_state.py:70-78 | two accepted strings of equal length never differ in exactly one byte, the checksum bytes included |
| StateFrames.Hash | scripts/validate_classification_state.py:70-78 | the checksum loop computes 64-bit FNV-1a |
| StateFrames.CheckedReader | scripts/validate_classification_state.py:70-78 | the frame check returns a reader over the body exactly for accepted strings |
| StateFrames.Reader.Take | scripts/validate_classification_state.py:36-40 | the cursor advances by the count over exactly the bytes returned, or nothing is returned and it stays |
| StateFrames.Reader.Text | scripts/validate_classification_state.py:61-64 | a length-prefixed UTF-8 text within its bound, with the cursor behind it |
| ByteLayout.UnpackedBytes | scripts/validate_classification_state.py:42-49 | four and eight bytes are read as their sum with weights of powers of 256, the lowest first, and the signed ones in two's complement |
| ByteLayout.XorByBits | scripts/validate_classification_state.py:70-78 | the exclusive or of the checksum has a bit exactly where one of its operands has it |
| ByteLayout.ChecksumSteps | scripts/validate_classification_state.py:70-78 | the checksum starts at the FNV offset, and each byte is mixed in and multiplied by the FNV prime modulo 2^64 |
| ByteLayout.CheckedByBytes | scripts/validate_classification_state.py:70-78 | a string is accepted exactly if its length, its magic, the sixteen constant bytes behind it and the checksum in its last eight bytes are right |
| ByteLayout.Utf8Exactly | scripts/validate_classification_state.py:61-64 | the texts accepted as UTF-8 are exactly the encodings of sequences of Unicode scalar values |
| ByteLayout.TextByBytes | scripts/validate_classification_state.py:61-64 | a text is a length of four or eight bytes within its limit, and that many bytes of UTF-8 |
| ByteLayout.BlockByBytes | scripts/validate_classification_state.py:56-59 | a block is a length of eight bytes, at most 64 mebibytes, and that many bytes |
| EstimatorLayout.DecodedByBytes | scripts/validate_classification_state.py:81-101 | a string decodes to a state exactly if that state is within the literal bounds, no name or tag twice, and the string is its bytes written out |
| EstimatorReader.ReadEstimator | scripts/validate_classification_state.py:81-101 | the reader's loops accept and decode exactly what the grammar of the format says |
| EstimatorCodec.SerialisedDecodes | scripts/validate_classification_state.py:81-101 | every well-formed value serialises to an accepted string that decodes to itself |
| EstimatorCodec.OneBlockWellFormed | scripts/validate_classification_state.py:81-101 | every block content that leaves room for the frame makes a well-formed value: the bounds exclude no content |
| EstimatorCodec.DecodedSerialises | scripts/validate_classification_state.py:81-101 | every accepted string is exactly the serialisation of the value it decodes to |
| EstimatorCodec.EncodingUnique | scripts/validate_classification_state.py:81-101 | no two byte strings decode to the same ordered value |
| LatentState.CheckLatent | scripts/validate_classification_state.py:104-113 | the latent model check accepts exactly the specified layout |
| LatentState.LatentHasExactSize | scripts/validate_classification_state.py:104-113 | with w features, c classes and k components every accepted latent model has exactly 192 + 8(2w + 2c + wc + 3wk + ck) bytes |
| LatentShapes.LatentShapesExactly | scripts/validate_classification_state.py:104-113 | a latent model of w features, c classes and k components is accepted for some bytes if and only if that size fits a frame and k + 1 fits a 64-bit word |
| LatentState.CheckState | scripts/validate_classification_state.py:116-133 | the classifier block check accepts exactly the specified layout |
| LatentLayout.LatentByBytes | scripts/validate_classification_state.py:104-113 | a latent model is accepted exactly if these numbers stand at these offsets: flags, extents, tolerance, iterations, and eleven arrays of finite values with their lengths |
| LatentLayout.StateByBytes | scripts/validate_classification_state.py:116-133 | a classifier block is accepted exactly if width, classes, the packed latent model and the two arrays of coefficients stand at their offsets and nothing follows |
| LatentState.CheckClassifier | scripts/validate_classification_state.py:116-133 | the classifier check accepts exactly the estimators with the two parameters and one such block |
| ClassifierLayout.ParametersOwn | scripts/validate_classification_state.py:116-133 | in accepted data the parameter named n_components has kind 1 and the first value, the one named max_iter kind 1 and the second, there are no others, and the capabilities are 156 and the tag `CLS1` |
| ClassifierLayout.ClassifierByBytes | scripts/validate_classification_state.py:116-133 | the accepted strings are exactly these, written out from magic to checksum, with the two parameters in either order |
| ClassifierShapes.ClassifierShapesExactly | scripts/validate_classification_state.py:116-133 | parameters, width and classes are accepted for some bytes if and only if they are within their bounds and 178 bytes and the block fit a frame |
| LatentState.NoPadding | scripts/validate_classification_state.py:116-133 | in every accepted classifier the packed words hold the latent model and no padding |
| LatentState.StateHasExactSize | scripts/validate_classification_state.py:116-133 | every accepted classifier block has one exact length |
| RecipeWriter.CanonicalRecipe | scripts/validate_classification_state.py:162-179 | the loop over the source order produces the canonical bytes of the recipe |
| RecipeLayout.RecipeByBytes | scripts/validate_classification_state.py:162-179 | the canonical recipe is exactly these bytes: method, parameters, count, and for every source its four texts, its dimensions and the sixty bytes of its declaration, which are literal for each kind |
| RecipeLayout.SamplesByBytes | scripts/validate_classification_state.py:162-179 | the whole byte string of a recipe with one source, for a standard scaler, a tensor PCA and a column transformer |
| RecipeCodec.CanonicalRecipeInjective | scripts/validate_archive_v2_contract.py:672-713 | two validated recipe and schema pairs with the same bytes, whatever follows them, agree on model parameters, source order, and every source's schema, declaration and weight |
| RecipeCodec.SourcesDependOnListed | scripts/validate_classification_state.py:162-179 | conversely the bytes depend on nothing else |
| RecipeCodec.FrameBindsRecipe | scripts/validate_classification_state.py:182-196 | a frame whose first block is a canonical recipe is bound to one recipe |
| SchemaRefs.CollectExternalRefs | parity/schema_dependencies.py:81-96 | the recursive collection equals its specification, failures included |
| SchemaRefs.RefsFailExactly | parity/schema_dependencies.py:81-96 | it fails exactly if some `$ref` in the document is not text |
| SchemaRefs.RefsExact | parity/schema_dependencies.py:81-96 | otherwise it collects exactly the external parts of the references that occur in the document |
| SchemaRefs.EdgeIsReference | parity/schema_dependencies.py:167-193 | an edge of the dependency graph is exactly a resolved external reference |
| SchemaWalk.Traversal.Visit | parity/schema_dependencies.py:199-214 | the three-colour search, with its explicit stack, keeps its invariant on every finite graph, cyclic or not, and ends |
| SchemaWalk.Traversal.Record | parity/schema_dependencies.py:201-205 | a grey target on the stack is recorded as a closed walk that repeats nothing but its endpoint |
| SchemaDependencies.DependencyClosure | parity/schema_dependencies.py:154-221 | the closure is exactly what the seeds reach, every recorded cycle is genuine, and every cycle the seeds reach contains the closing reference of a recorded one |
| SchemaDependencies.TraversalReaches | parity/schema_dependencies.py:199-221 | the visited paths are exactly the reachable ones, and all of them resolve |
| SchemaDependencies.CyclesExact | parity/schema_dependencies.py:195-221 | every directed cycle that is reachable contains the closing reference of a recorded cycle, so that the record is empty if and only if none is reachable |
| SchemaDependencies.MissingDependencies | parity/schema_dependencies.py:224-232 | the reported names are exactly the reachable schemas that are not listed |
| SchemaDependencies.WithTransitiveDependencies | parity/schema_dependencies.py:235-245 | the expanded mapping is the given one and an entry for every schema it depends on |
| SchemaDependencies.ExpandedKeeps | parity/schema_dependencies.py:235-245 | expansion keeps every given entry |
| SchemaDependencies.ExpandedComplete | parity/schema_dependencies.py:235-245 | an expanded mapping misses nothing, and expanding it again changes nothing |
| SchemaDependencies.NothingMissingIffExpanded | parity/schema_dependencies.py:224-245 | nothing is missing if and only if expansion changes nothing |
| FoldLoop.SelectRows | examples/sklearn_complex_oof_demo.py:371-378 | the observations of a set of samples, in order |
| FoldLoop.AggregateBySample | examples/sklearn_complex_oof_demo.py:301-312 | for every listed sample the mean over the predictions at all of its rows, ascending and each once, or failure exactly if a listed sample has no row |
| OutOfFold.SampleSum | examples/sklearn_complex_oof_demo.py:307-311 | the predictions taken for a sample sum to the sum over all of its rows |
| FoldLoop.OofAt | examples/sklearn_complex_oof_demo.py:369-404 | every position of a finished array holds the mean over the sample's rows of what the estimator predicts, fitted on all rows of the fold's train samples and a perturbed copy, with their targets twice and the fold's seed |
| FoldLoop.Scatter | examples/sklearn_complex_oof_demo.py:404-404 | every validation position is written once, and no other |
| FoldLoop.RunFolds | examples/sklearn_complex_oof_demo.py:361-404 | the fold loop ends with every branch's array holding exactly what each fold predicts for its own validation samples, and fails only if some sample has no observation |
| FoldLoop.FinishedMeansObserved | examples/sklearn_complex_oof_demo.py:301-312 | and it finishes only if every sample has one |
| FoldLoop.HoldsDetermined | examples/sklearn_complex_oof_demo.py:369-404 | each position was written in exactly one fold, so the whole array is determined |
| OutOfFold.OofIgnoresOwnTargets | examples/sklearn_complex_oof_demo.py:369-404 | a fold's predictions do not depend on the targets of its own validation samples, for any estimator, noise and mean |
| FoldLoop.NoLeakage | examples/sklearn_complex_oof_demo.py:369-404 | two executions whose targets differ only on the samples of a sample's validation fold end with the same out-of-fold value for it, for every branch |
| FoldLoop.NoGroupLeakage | examples/sklearn_complex_oof_demo.py:353-404 | the same for targets that differ anywhere in the sample's group, where folds keep groups whole |
| MergeStage.MergeBlindExactly | examples/sklearn_complex_oof_demo.py:437-447 | for every partition with all samples observed, every selection of branches and every fold that holds out anything: the merge predictions of the fold are the same for all learners and all targets that differ on its own validation samples only, if and only if the fold trains on nothing |
| MergeStage.MergeLeaks | examples/sklearn_complex_oof_demo.py:400-447 | with a learner that sums what it is fitted on, raising targets within a fold's validation samples raises every merge prediction for them, whichever branches are selected before and after |
| MergeStage.FeaturesIgnore | examples/sklearn_complex_oof_demo.py:333-342 | the merge features of a fold's own validation samples do not depend on their targets; only those it trains on do |
| MergeStage.HalvesComplete | examples/sklearn_complex_oof_demo.py:353-361 | the hypotheses of these results can be met: two samples of two groups, held out in turn |
| MergeStage.HalvesLeak | examples/sklearn_complex_oof_demo.py:437-447 | of that study no fold of the merge stage is blind, and a raised target changes its own merge prediction |
| MergeStage.RunMerge | examples/sklearn_complex_oof_demo.py:438-447 | the merge fold loop ends with the array holding, for every fold, what the estimator fitted on the features and targets of its train samples predicts for its validation samples |
| OutOfFold.MergeSeesOwnTarget | examples/sklearn_complex_oof_demo.py:436-447 | a witness on two samples: a merge prediction that is the sum of both targets, its own included |
| RustTokens.SkipBlock | scripts/check_so_freshness.py:122-136 | the nested comment loop stops where the comments are all closed, or at the end with the depth left open |
| RustTokens.StringEnd | scripts/check_so_freshness.py:144-156 | the string loop stops behind the closing quote, skipping escaped characters |
| RustTokens.Advance | scripts/check_so_freshness.py:114-162 | every pass of the loop moves on, over exactly one piece of the source |
| RustTokens.RustCodeTokens | scripts/check_so_freshness.py:110-163 | the loop returns the tokens of the pieces the source is cut into |
| RustPieces.NothingLost | scripts/check_so_freshness.py:110-163 | the pieces joined are the whole source, blanks and comments are only that, and the tokens are the code pieces in order |
| RustPieces.ClosedSkipped | scripts/check_so_freshness.py:122-133 | text that closes all the comments it stands in is passed over as a whole, however deep it is nested |
| RustLiterals.StringWhole | scripts/check_so_freshness.py:144-156 | a string or byte string literal is one token, whatever comment openers and escaped quotes it holds |
| RustLiterals.RawWhole | scripts/check_so_freshness.py:137-143 | a raw string literal is one token up to the first quote with as many hashes as it opened with |
| RustLiterals.CharWhole | scripts/check_so_freshness.py:157-162 | a quoted character, plain or behind a backslash, is one token, and a quote that closes nothing is one of its own |
| RustLiterals.HexCharWhole | scripts/check_so_freshness.py:157-162 | so is a character escape of two hexadecimal digits |
| RustLiterals.UnicodeCharWhole | scripts/check_so_freshness.py:157-162 | and one of hexadecimal digits in braces |
| RustLiterals.CharExactly | scripts/check_so_freshness.py:157-162 | a character literal is found at the front exactly if the source begins with one of the pattern's forms, and only of that length |
| RustLiterals.StringExactly | scripts/check_so_freshness.py:144-156 | either units and a quote come next and the scan ends behind the quote, or the string is never closed and the token takes everything |
| RustLiterals.RawExactly | scripts/check_so_freshness.py:137-143 | a raw string ends behind the first quote with enough hashes, or at the end of the source without one |
| RustLiterals.CommentNests | scripts/check_so_freshness.py:122-133 | a comment that holds a closed comment is closed only by its own end |
| RustChanges.SameTokensExactly | scripts/check_so_freshness.py:110-163 | two sources have the same tokens if and only if they have the same code pieces in order and both or neither leave a comment open |
| RustChanges.ShiftOrComparisons | scripts/check_so_freshness.py:157-162 | blanks between pieces do not count: a shift operator and two comparisons have the same tokens |
| RustLiterals.WordWhole | scripts/check_so_freshness.py:158-162 | a maximal run of word characters is one token, where it opens no string |
| RustComments.CommentAsBlank | scripts/check_so_freshness.py:110-163 | where the loop comes to a comment, a blank in its place gives the same tokens if and only if it does not stand between a quote, or a quote and a backslash, that are tokens of their own and another quote |
| RustJoins.CommentAsNothing | scripts/check_so_freshness.py:110-163 | where the loop comes to a comment, the source without it has the same tokens if and only if no token before the comment reaches over to what follows: a word that goes on, the prefix of a string or raw string that meets its quote, or an open quote that finds its character |
| RustComments.CommentBetweenQuotes | scripts/check_so_freshness.py:157-162 | a comment between two quotes and a blank between them give different tokens: the blank makes them a character literal |
| RustComments.CommentBehindBlank | scripts/check_so_freshness.py:110-133 | a comment put behind a blank of the source changes no token |
| RustComments.CommentBlind | scripts/check_so_freshness.py:110-163 | where the loop comes to a comment, any other comment in its place, nested, line or block, gives the same tokens |
| JsonValues.SortedIffReordered | scripts/validate_training_replay_contracts.py:84-89 | two values have the same key-sorted form if and only if they differ in the order of keys only, at any depth |
| TextSort.SortForgetsOrder | scripts/validate_training_replay_contracts.py:894-900 | sorting forgets the order it was given where no two different elements share a key |
| JsonValues.SortedAscends | scripts/validate_training_replay_contracts.py:84-89 | the key-sorted form lists the members of every object by ascending name, at any depth |
| TextSort.BelowExactly | scripts/validate_training_replay_contracts.py:894-900 | the order is that of the first difference, and a prefix comes first |
| RelationFields.RecordExactly | scripts/validate_training_replay_contracts.py:731-893 | exactly the acceptable records are read, each field is the member of its own name or that field's default, and the effective unit is the unit id or what the level prescribes |
| RelationFields.ConsistentExactly | scripts/validate_training_replay_contracts.py:744-889 | a set is consistent exactly if no two records share an observation or a unit, each sample has one target and one group, and combos are made of other observations of their sample |
| RelationFields.CanonicalExactly | scripts/validate_training_replay_contracts.py:714-901 | a relation set is accepted exactly if it is one array of acceptable, consistent records, and its canonical list holds each of them once in ascending order |
| RelationFields.RepetitionsAccepted | scripts/validate_training_replay_contracts.py:793-819 | two repetitions of one sample without a level are accepted, each as its own unit |
| RelationRecords.RecordReordered | scripts/validate_training_replay_contracts.py:731-866 | reordering the keys of a record, at any depth, changes neither its acceptance nor its canonical record |
| RelationSets.ReplayRelationFingerprint | scripts/validate_training_replay_contracts.py:714-901 | the two loops with their dictionaries accept exactly the consistent sets and return their records in canonical order |
| RelationSets.AdmitsExactly | scripts/validate_training_replay_contracts.py:744-842 | the checks against the dictionaries are the checks against every earlier record |
| RelationSets.RelationSetsCanonical | scripts/validate_training_replay_contracts.py:714-901 | permuting the records and reordering keys at any depth changes neither acceptance nor the canonical list, hence not the fingerprint |
| RelationSets.EffectiveUnitsDistinct | scripts/validate_training_replay_contracts.py:820-842 | an accepted set is listed by strictly ascending effective unit: no unit occurs twice |
| Upstream.TransitiveNodeIds | scripts/validate_contracts.py:3937-3969 | the worklist ends with exactly the ancestors-or-self of the outputs, and refuses exactly if one of them has no plan |
| Upstream.Closure | parity/conformal/generate_fixtures.py:137-149 | the same worklist without the plan check ends with exactly the ancestors-or-self of the outputs |
| Upstream.ClosureOnlyUpstream | scripts/validate_contracts.py:3937-3969 | adding, removing or reordering edges that lead elsewhere does not change the closure |
| ReplayPhases.DeriveSourceOutcomeReplayablePhases | parity/conformal/generate_fixtures.py:120-213 | the derivation returns PREDICT or EXPLAIN exactly after a completed refit whose ancestors of outputs all support it and keep their state, REFIT exactly without one if all support it and their out-of-fold edges are backed; it raises only if an ancestor lacks a plan or a manifest |
| ReplayPhases.CheckOofEdges | parity/conformal/generate_fixtures.py:187-203 | the flag survives the loop exactly if every out-of-fold edge inside the closure is backed by requirement, cache and payload |
| ReplayPhases.PhasesOnlyUpstream | parity/conformal/generate_fixtures.py:133-213 | nodes, manifests and edges outside the closure can change at will without changing the phases |
| ReplayPhases.MoreRecordsKeepPhases | parity/conformal/generate_fixtures.py:161-213 | further artifact records and further requirement, cache and payload keys never remove a phase |
| ReplayLineage.ValidateLineage | scripts/validate_training_replay_contracts.py:1346-1385 | the lineage part of the validation accepts exactly the record lists that repeat the plan over the whole closure |
| ReplayLineage.RecordCopiesPlan | scripts/validate_training_replay_contracts.py:1360-1385 | an accepted record repeats its node's controller, version, parameters and the outcome's variant, has no fold, and lists in ascending order the ids of the records of its inputs, one for each |
| ReplayLineage.RecordsByNode | scripts/validate_training_replay_contracts.py:1355-1359 | the dictionary by node has as many entries as there are records exactly if no node repeats |
| ReplayLineage.LineageSimulates | scripts/validate_training_replay_contracts.py:1378-1385 | following input lineage from a record reaches exactly the records of the nodes that following input nodes reaches from its node, over paths of any length |
| ReplayLineage.EveryRecordReached | scripts/validate_contracts.py:12551-12556 | where input nodes repeat the graph's edges, every record is reached from the record of a requested output |
| ArchiveRefs.RefsInOrder | scripts/validate_archive_v2_contract.py:301-316 | the references found are exactly those at the places of the document whose dictionary has the four keys, each once, in document order |
| ArchiveManifest.ReadInventory | scripts/validate_archive_v2_contract.py:373-413 | the inventory loop accepts exactly the inventories within the three budgets whose members are sound and have distinct paths |
| ArchiveManifest.ValidateReferences | scripts/validate_archive_v2_contract.py:470-502 | the reference loop accepts exactly if every reference resolves to a member with the same hash and semantic identity and every member is referenced |
| ArchiveManifest.MaterializeFixture | scripts/validate_archive_v2_contract.py:1086-1127 | members and references are rewritten in place to the binding of their old values, and the payloads are the fixture's; None for a missing artifact, with nothing changed |
| ArchiveManifest.CheckPayloads | scripts/validate_archive_v2_contract.py:1245-1261 | the payload loop accepts exactly the inventory's paths with its sizes and hashes |
| ArchiveBinding.PayloadsExactly | scripts/validate_archive_v2_contract.py:1092-1104 | every payload is the artifact of the last reference to its path, or else the package at the package's path, or else the filler |
| ArchiveBinding.MaterialisingRestores | scripts/validate_archive_v2_contract.py:1086-1127 | materialising an accepted manifest fails only for an artifact the package lacks, always yields payloads that pass the size and hash loop, and yields references that match the closed inventory again if and only if the package member does not use a raw-hash profile against its fingerprint |
| ArchiveBinding.SchemaValidRestores | docs/contracts/archive-v2/archive_workspace_manifest.v2.schema.json:380 | with the profile that the manifest schema fixes for the package, references and payloads always match |
| ArchiveBinding.MethodsBound | scripts/validate_archive_v2_contract.py:1345-1350 | a bound Methods reference identifies its payload if and only if it has its artifact's profile and, where that is a classifier's, whose fingerprint is not rebound, the fingerprint was the payload's hash already |

## Left out

Where code and documentation differ, the code is followed.

- Files, directories, ZIP entries, subprocesses, git, signals and standard streams. An atomic save is one step; the schema index is a finite map; file contents are values.
- The optimizer's sampler and pruner: proposals and prune decisions are inputs of the events. The reply to an ask is taken to hold the params that the optimizer records for the trial.
- Checkpoint fingerprints and seals: `Checkpoint.binding` stands for the schema version and every fingerprint; the seal is taken to be a function of the rest. Indices are unbounded naturals instead of 32-bit words, `variant_id` is the constant the source uses.
- Floating point: scores and predictions are reals without NaN or rounding; binary64 values in the codec are eight opaque bytes.
- HpoAdapter.N4MHostOptimizer.Open: models the contract comparison, the recovery and the fresh start; the checks of the state path, the axes, the file format and the digest of the serialised optimizer are not part of it, because they look at the request and the encoding alone.
- HpoDiscipline.DisciplinedNeverRefuses: assumes the discipline that the parallel search with progressive pruning, an evaluation that fails after a prune reply, and a search space with axes the request does not route do not keep; PruneAheadStrands, ContradictionStrands and RefusedProposal say what happens then, and RestartRefusesExactly holds without it.
- What `prepare_host_hpo_checkpoint` asks besides parameters: seals, the binding, scores and reports of complete and pruned trials, nonblank errors, and a budget not smaller than the history. The first two and the evidence are the host's own output; a smaller budget is another request. Which named parameters can be routed is a parameter, fixed over a search. Candidate plans that fail for another reason after an ask are crashes.
- Runs without a checkpoint path: the host then sends no checkpoint and reads none. CheckpointlessRestart says what the adapter makes of that; the state machine has a checkpoint path.
- A reply that is lost to a timeout is a crash right after the event, except for an intermediate report, after which the host goes on in the dark. Replies read for a later event are covered: the terminals of the model are of any kind.
- FoldLoop.RunFolds: fold specifications, prediction blocks, metrics and augmentation counts are not modelled; folds come as a partition, as the group splitter is documented to give them.
- MergeStage.MergeBlindExactly: takes the selected branches and the columns of original features as given. That a fold leaks holds whatever is selected before and after a change of targets (MergeLeaks); that a fold which trains on nothing does not, for one selection.
- Branch selection by lowest error, the metrics of the demonstration and the final refit: arithmetic over predictions.
- SchemaDependencies.DependencyClosure: takes the index of schemas by path and id as given and returns sets instead of sorted lists, which loses nothing but the order; the order in which seeds are visited does not matter to the result.
- URL handling, path resolution and canonical seed names: functions about which the model assumes nothing.
- The encoder blocks of the classifier, the remainder of `raw_classifier`, the vocabulary and `validate_payload`: more frames of the same format, and equality checks against a plan.
- Of the classes `isspace` and `\w` the model assumes only that a slash is in neither and, where comments meet blanks or vanish, what is so of blanks, quotes, hashes, backslashes and the letters b and r in Python.
- Regular expressions and string methods of Python: functions with the meaning of the pattern, as are `sorted` and `list.sort`.
- RelationSets.ReplayRelationFingerprint: ends with the list that is hashed; SHA-256 and the JSON text are functions of it. Which texts are identifiers or blank is a parameter.
- RelationSets.RelationSetsCanonical: is stated for the list of records; the enclosing object has one key.
- ReplayLineage.ValidateLineage: models the lineage checks only; outputs, explanations, envelopes, cohort and fingerprint checks are equality checks beside them. The loop over the sorted closure visits nodes in any order, which does not affect the verdict.
- ArchiveManifest.MaterializeFixture: starts from the copy the source makes, takes the fixture's package, artifacts and hash as parameters, and requires that the references point into the inventory, without which the source raises a key error. The dictionaries of the copy are distinct objects.
- ArchiveBinding.MaterialisingRestores: is about references and payloads; the sizes that binding records may exceed the budgets of the profile.
- ABI fields, path aliasing between Methods and replay members, schema ids, versions and the package content: equality checks. Which paths are safe is a parameter.
- JSON Schema validation, conformance fixtures, oracles, the Rust core beyond the HPO host, WASM, R and release tooling.
