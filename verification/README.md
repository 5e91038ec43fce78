# Verified models of the Reliquary operator scripts

The Reliquary repository trains a model from rollouts that miners submit and validators check. Its `scripts/`
directory holds the tools around that loop: auctions over archived windows, a protocol that archives a finished
run before rewriting its history, a compare-and-swap publisher, a replay of the training accumulator, scanners,
rewriters and converters. This project models the algorithms and protocols of ten of these scripts, and one class
of the validator, in Dafny and proves what they promise for every input and every run.

Each script has its own modules:

| modules | what they model |
|---|---|
| `RewardStats`, `DifficultyAuction`, `AuctionOptimality`, `WindowCandidates` | `scripts/report_difficulty_auction.py` |
| `Snapshots`, `ArchiveSquash`, `ArchiveMachine`, `ArchiveSafety`, `ArchiveTheorems`, `ArchiveProgress` | `scripts/archive_finished_hf_run.py` |
| `CheckpointHistory`, `BootstrapPublish`, `BootstrapRuns`, `BootstrapProgress` | `scripts/publish_v1_bootstrap.py` and the history check of `scripts/prepare_v5_fill_checkpoint.py` |
| `AccumulatorReplay`, `AccumulatorProducer`, `AccumulatorInverse`, `AccumulatorResets`, `AccumulatorExamples` | `scripts/replay_training_recovery.py` and `reliquary/validator/training_accumulator.py` |
| `JsonSpans`, `JsonTurns` | `scripts/eval_envscaler_band.py` |
| `Splitting`, `DigestPins`, `DigestRewrites`, `DigestFiles` | `scripts/regen_episode_manifests.py` |
| `PyJson`, `JsonGuard`, `AssertCases` | `scripts/build_opencode_curated.py` |
| `SeedChoice`, `SeedWorstCase`, `SeedGroupVerdict` | `scripts/benchmark_inference_contract.py` |
| `SigmaBand` | `scripts/eval_logic_band.py` |
| `Wrappers`, `Text`, `Orders`, `Sets` | optional values, Python text handling, lexicographic order and stable sorting, sizes of sets |

`dafny verify dfyconfig.toml` checks the whole project.

## Where the code and its promises part

Some properties that the scripts are meant to have do not hold on all inputs. The models keep the code as it is,
give an input on which the property fails, and prove exactly when it holds.

- The last comparison of a squash, and the same comparison on the resume path, set an inventory in path-component
  order against one sorted by path string. They agree exactly when no file `d/x` stands beside a file whose name
  continues `d` with a character below the slash. `tokenizer/vocab.json` beside `tokenizer.json` makes a correct
  squash fail at its very end (`ArchiveTheorems.FinishOutcome`, `ArchiveTheorems.ResumeOutcome`,
  `Snapshots.DottedSiblingInverts`).
- The JSON round-trip guard also rejects strings and keys in which a high surrogate stands directly before a low one,
  because loading joins the two (`JsonGuard.GuardIff`, `JsonGuard.SplitPairRefused`).
- A case is looked up among the names that a solution defines, while an assert also finds the builtins.
  `assert len([1, 2]) == 2` is translated and passes for every solution that leaves `len` alone; the case passes for none
  of them. `assert f(a=1, a=1) == 1` parses but does not compile, yet it is turned into a case that can pass. Case and
  assert agree for all solutions exactly when no keyword is repeated and the called name is no builtin
  (`AssertCases.SameVerdictIff`, `AssertCases.SameVerdictByName`, `AssertCases.BuiltinIsTranslated`,
  `AssertCases.RepeatedKeywordIsTranslated`).
- A negative target in an archive makes a reconstruction return fewer groups than it says, because the slice counts
  from the end: at target -1 and one retained group it returns none and reports one
  (`AccumulatorReplay.ReconstructionSound`, `AccumulatorReplay.NegativeTargetLosesGroups`).
- The service clears the accumulator after a training step, and the replay does not read what the archive says about it.
  Two windows of one checkpoint that each fill the batch leave complete archives of a ready accumulator that the replay
  refuses. So does one aborted window, whose archive has no snapshot. All archives of a history are accepted exactly when
  none is of an aborted window, of one with several checkpoints or none, or of one whose archiving failed, every clearing
  that a window of the same revision followed had found nothing held, and the last window left the accumulator ready.
  Where no archiving failed, the archives that do have a snapshot replay as if the others did not exist, and those since
  the last clearing rebuild what the accumulator holds (`AccumulatorResets.ReplayAcrossResets`,
  `AccumulatorResets.ReplayOfUsable`, `AccumulatorResets.ReplaySinceReset`, `AccumulatorExamples.TrainedTwiceRefused`,
  `AccumulatorExamples.AbortedWindowRefused`).
- The replay compares numbers of groups and not the groups. An archive is accepted exactly when the numbers agree, and
  then leaves the right groups exactly when the replay had the right ones before. After a training step and a window whose
  archiving failed, it rebuilds the groups that were already trained on (`AccumulatorResets.AbsorbIff`,
  `AccumulatorResets.AcceptedMirrorsIff`, `AccumulatorExamples.FailedArchiveUnnoticed`).
- A missing archive is noticed exactly when it had added a group and the next archive has the same revision
  (`AccumulatorInverse.MissingArchiveNoticed`, `AccumulatorExamples.MissingArchiveUnnoticed`).
- When no success count passes the sigma gate, the default band `1..n-1` admits every mixed group. So it is for every
  threshold above one half (`SigmaBand.InBandIffGate`, `SigmaBand.DefaultAdmitsWhatFails`).
- The documentation calls the lowest-agreement group the adversarial case. For single rollouts it is, exactly when no
  rollout that is too short to be judged is ranked into it before one below the floor
  (`SeedWorstCase.LowestIsWorstIff`, `SeedWorstCase.ShortRolloutsHideOthers`). For the group ratio it is when all rollouts
  have equally many positions. In general, as long as no group is too short to be judged, its verdict speaks for every
  group exactly when it is rejected or the group with the least margin over the floor passes
  (`SeedGroupVerdict.LowestSpeaksIff`, `SeedWorstCase.LongRolloutsDilute`). Its acceptance speaks for every group exactly
  when it is not accepted, or in addition no rollout outside it is below its floor or has a hard mismatch
  (`SeedGroupVerdict.AcceptanceSpeaksIff`).
- A repeated digest rewrite is the identity exactly when the digest is longer than the first piece of the pin, or the
  next pin in the block already spells the digest. Otherwise it rewrites that next pin, or finds none and fails
  (`DigestFiles.RepeatIff`, `DigestFiles.RepeatCanFail`).
- The candidates of an archive do not depend on the arrangement of its entries exactly when entries that share a dedup
  key agree. Swapping two that disagree changes the selection (`WindowCandidates.OrderFreeIff`,
  `WindowCandidates.SwapChangesSelection`).

## Assumptions

Floating-point numbers are reals, and the square root is any function that is one on non-negative reals. SHA-256 is
a function. Where bytes are concluded from equal digests, it is required not to collide on the values compared: the files
of the same name in the two trees, or the dedup keys of the candidates. The parser of checkpoint titles, `json.loads`,
`str`, the builtins, the contents of a downloaded profile or weight index and the spelling of keys that are no strings
are parameters. The hub names commits by identifiers of
40 lower-case hexadecimal digits. Only the archiver writes to the bucket, nobody deletes stored objects, and no snapshot
file is named `manifest.json`.

Both protocols are state machines over values. A crash can come after any step, and other writers to the repository act
between any two steps. Every write to a store is a step of its own. Reads are coarser in the archiver. Reading a manifest
and, when it is missing, downloading its source; verifying a manifest against its objects and its source; the comparison
after the squash; and the checks of a resumed squash are one step each, although each takes several remote reads.

## Model

| member | source | states |
|---|---|---|
| RewardStats.ComputeStats | scripts/report_difficulty_auction.py:100-113 | the loop over raw rewards returns mean, deviation and count, and nothing for an empty list or a reward outside the unit interval |
| RewardStats.VarianceBound | scripts/report_difficulty_auction.py:100-113 | for rewards in [0,1] the variance is at most mean·(1−mean) and at most 1/4; the first bound is met exactly by 0/1 rewards, the second exactly by 0/1 rewards of mean one half |
| RewardStats.StoredStatsSurvive | scripts/report_difficulty_auction.py:129-159 | statistics computed from rewards and stored in an entry are read back unchanged: the bound on a stored deviation never rejects one that the script produced |
| DifficultyAuction.SelectCandidates | scripts/report_difficulty_auction.py:265-313 | refuses exactly the argument and overflow errors, and otherwise returns the greedy selection over the ranked eligible candidates |
| DifficultyAuction.GreedyPass | scripts/report_difficulty_auction.py:289-313 | the loop with its claimed-prompt set and operator counter computes the greedy selection under the feasibility rules |
| AuctionOptimality.GreedyFeasible | scripts/report_difficulty_auction.py:289-313 | every greedy selection has distinct prompts, respects cap and batch size, and repeats nobody |
| AuctionOptimality.GreedyCharges | scripts/report_difficulty_auction.py:289-313 | on every prefix of the ranking, each selected candidate accounts for at most one member of any feasible set, or two under a cap |
| AuctionOptimality.SelectionMaximal | scripts/report_difficulty_auction.py:289-313 | no eligible candidate left out could still be added |
| AuctionOptimality.SelectionCompetitive | scripts/report_difficulty_auction.py:265-332 | the total difficulty value is at least that of every feasible alternative without a cap, and at least half of it with a cap |
| AuctionOptimality.SelectionSize | scripts/report_difficulty_auction.py:277-313 | without a cap the selection has the smaller of batch size and number of distinct eligible prompts |
| AuctionOptimality.FactorTwoIsTight | scripts/report_difficulty_auction.py:265-332 | for every factor below two there is an auction whose cap applies and a feasible alternative worth more than that factor times the selection |
| WindowCandidates.ExtractWindowCandidates | scripts/report_difficulty_auction.py:218-248 | the loop with its seen set returns the first offer of each dedup key and the number of entries without statistics |
| WindowCandidates.ExtractionSound | scripts/report_difficulty_auction.py:162-248 | every candidate was offered, every offered key survives once, and every digest has 32 bytes |
| WindowCandidates.Utf8Injective | scripts/report_difficulty_auction.py:257-262 | different hotkeys have different UTF-8 bytes |
| WindowCandidates.KeyBytesInjective | scripts/report_difficulty_auction.py:257-262 | the bytes under the ranking hash determine the dedup key, because their suffix has a fixed length |
| WindowCandidates.RankingStrict | scripts/report_difficulty_auction.py:277-288 | candidates with distinct keys never tie in the ranking |
| WindowCandidates.SelectionIgnoresArchiveOrder | scripts/report_difficulty_auction.py:218-288 | the selection depends on which entries an archive holds, not on their order, repetition or split into batch and runners-up, if entries that share a key agree |
| WindowCandidates.OrderFreeIff | scripts/report_difficulty_auction.py:218-248 | every arrangement of the entries gives the same candidates exactly when entries that share a dedup key describe the same candidate |
| WindowCandidates.SwapChangesSelection | scripts/report_difficulty_auction.py:218-313 | two entries with one key and different deviations, whose swap changes the selection |
| WindowCandidates.DisagreeingEntriesTakeOrder | scripts/report_difficulty_auction.py:239-247 | of two entries that share a key and disagree, the earlier one is selected |
| Snapshots.ComponentOrder | scripts/archive_finished_hf_run.py:163-187 | comparing paths component by component is comparing strings with the slash moved below every other character |
| Snapshots.ComponentsAreSplit | scripts/archive_finished_hf_run.py:163-187 | the components of a path are its parts between slashes |
| Snapshots.OrdersDisagree | scripts/archive_finished_hf_run.py:163-187 | path order and string order differ on two paths exactly when one continues, below the slash, where the other has a slash |
| Snapshots.StringSortKeepsInventory | scripts/archive_finished_hf_run.py:661-666 | sorting an inventory by path string leaves it unchanged exactly when the two orders agree on the tree |
| Snapshots.DottedSiblingInverts | scripts/archive_finished_hf_run.py:404-409 | they disagree on every tree with a file below a directory and a sibling file that goes on with a dot |
| Snapshots.InventoryComplete | scripts/archive_finished_hf_run.py:314-318 | a manifest has the sizes of its source tree exactly when no path of the tree has `.cache` as a component |
| ArchiveSquash.SelectCommits | scripts/archive_finished_hf_run.py:98-120 | the loop with its dictionary returns the selection of the requested numbers, or the error for a number that is missing or carried twice or a revision that is no full commit hash |
| ArchiveSquash.SelectionUnique | scripts/archive_finished_hf_run.py:98-120 | a selection names, for each number, the one revision that carries it, and each is a full commit hash |
| ArchiveSquash.VerifyObjects | scripts/archive_finished_hf_run.py:228-263 | accepts exactly a non-empty file list of well-formed records with different paths whose objects all have the listed size and hash |
| ArchiveSquash.VerifyCompletedSquash | scripts/archive_finished_hf_run.py:326-424 | accepts exactly a single rooted commit with the squash title, verified manifests of the whole selection, and a rooted inventory equal to the archived one |
| ArchiveSafety.WorkKeeps | scripts/archive_finished_hf_run.py:427-677 | every step of an invocation keeps the invariant: sound manifests, secured selections, and what each control state relies on |
| ArchiveSafety.RunKeeps | scripts/archive_finished_hf_run.py:427-677 | the invariant holds in every world reachable with crashes, restarts, repeated invocations and other writers |
| ArchiveTheorems.ManifestImpliesObjects | scripts/archive_finished_hf_run.py:539-598 | in every reachable world a manifest in the bucket is the inventory of its revision and each listed object is there with the listed size and hash |
| ArchiveTheorems.SecuredRestores | scripts/archive_finished_hf_run.py:314-318 | a checkpoint that passed verification can be restored from the bucket completely and byte for byte |
| ArchiveTheorems.SquashReliesOnArchive | scripts/archive_finished_hf_run.py:508-641 | whenever the tool rewrites history, the trace holds both re-checks, of the head and then of the refs, in the same invocation, and every selected checkpoint has a verified manifest of an earlier invocation that covers its source tree |
| ArchiveTheorems.SquashWritesNothing | scripts/archive_finished_hf_run.py:533-538 | an invocation that asks for a squash, or resumes one, writes nothing to the bucket in any of its steps |
| ArchiveTheorems.SquashedStaysRecoverable | scripts/archive_finished_hf_run.py:508-641 | whatever happens later, every checkpoint a squash selected can be restored exactly as its revision was |
| ArchiveTheorems.SquashTakesEffect | scripts/archive_finished_hf_run.py:632-641 | a squash of the head it verified leaves one root with the expected title and the head's tree |
| ArchiveTheorems.AfterSquashStays | scripts/archive_finished_hf_run.py:450-467 | after it, crashes and re-runs with the same arguments change neither store |
| ArchiveTheorems.FinishOutcome | scripts/archive_finished_hf_run.py:642-666 | the invocation's own final comparison succeeds exactly when the two orders agree on the head |
| ArchiveTheorems.ResumeOutcome | scripts/archive_finished_hf_run.py:326-424 | a re-run takes the resume path, writes nothing, and succeeds exactly when the two orders agree on the head |
| ArchiveTheorems.SquashedRunsResume | scripts/archive_finished_hf_run.py:450-467 | over whole runs: after any number of crashes and re-runs the stores are unchanged and the tool can resume |
| ArchiveTheorems.FinishedMeansPreserved | scripts/archive_finished_hf_run.py:642-677 | whoever raced the squash, reported success means that the repository holds exactly the archived content of the given head, if no file collides under the hash with the file of the same name in the other tree |
| ArchiveProgress.SoundManifestVerifies | scripts/archive_finished_hf_run.py:228-263 | the manifest of an archivable checkpoint passes object and source verification |
| ArchiveProgress.EveryStepGoesOn | scripts/archive_finished_hf_run.py:468-641 | on a repository that is as the arguments say, no undisturbed step fails, and each comes closer to the end |
| ArchiveProgress.InvocationArrives | scripts/archive_finished_hf_run.py:468-641 | so an archive invocation finishes and a squash invocation arrives at the squash, each with the whole selection secured |
| ArchiveProgress.ArchiveThenSquash | scripts/archive_finished_hf_run.py:427-641 | from any reachable world in which no other manifest occupies a selected prefix, an archive invocation and then a squash invocation, undisturbed, arrive at the squash of the unchanged head |
| ArchiveProgress.SquashOutcome | scripts/archive_finished_hf_run.py:632-677 | the squash takes effect, leaves the bucket alone, and the invocation finishes exactly when the two orders agree on the head |
| CheckpointHistory.SourceNumberIsStrictMaximum | scripts/prepare_v5_fill_checkpoint.py:113-124 | the history check returns `n` exactly when the head is the revision, carries `n`, and every other number in the history is smaller |
| BootstrapPublish.ReadTree | scripts/publish_v1_bootstrap.py:28-42 | the loop returns the tree exactly when the revision matches, every file has metadata and the model files are there |
| BootstrapPublish.AnyOrderPublishes | scripts/publish_v1_bootstrap.py:113-129 | the operations, applied in any order, give the expected tree plus the metadata files, for the inherited and the base-reset plan |
| BootstrapPublish.AcceptedIffPublished | scripts/publish_v1_bootstrap.py:137-147 | the post-commit comparison accepts exactly the trees that a correctly applied commit can have |
| BootstrapPublish.PublishedIsModel | scripts/publish_v1_bootstrap.py:28-42 | a published tree has the model files that the reader demands, whenever the wanted tree has them |
| BootstrapRuns.NextKeeps | scripts/publish_v1_bootstrap.py:100-161 | every request of every run, and every commit of another writer, keeps the invariant |
| BootstrapRuns.RunKeeps | scripts/publish_v1_bootstrap.py:100-161 | the invariant holds after every interleaving, with acknowledgements lost anywhere |
| BootstrapRuns.OneChild | scripts/publish_v1_bootstrap.py:130-134 | in a linear history a commit has one child |
| BootstrapRuns.AtMostOneCommit | scripts/publish_v1_bootstrap.py:124-134 | all runs of one plan together make at most one commit, which is the child of the fenced parent with the published tree |
| BootstrapRuns.OneCommitOneReceipt | scripts/publish_v1_bootstrap.py:130-161 | every receipt names the same child; its number is the next one, the strict maximum, and occurs once; if a run committed, it is that commit |
| BootstrapRuns.RetryCompletes | scripts/publish_v1_bootstrap.py:84-147 | after a lost acknowledgement a new run passes every check for the commit already made, those of the source profile, the model files and the weight index included, and makes no other |
| BootstrapProgress.FirstRunPublishes | scripts/publish_v1_bootstrap.py:84-161 | an undisturbed, acknowledged run on the fenced parent, whose profile, number, model files and weight index pass, makes the one commit, with the published tree, and ends with its receipt |
| BootstrapProgress.RetryPublishes | scripts/publish_v1_bootstrap.py:84-161 | after a lost acknowledgement an undisturbed retry ends with the receipt of the commit already made and makes no other |
| AccumulatorReplay.Reconstruct | scripts/replay_training_recovery.py:47-198 | the loop that updates retained groups, revision, targets and windows archive by archive computes the reconstruction, with its errors |
| AccumulatorReplay.ReconstructionSound | scripts/replay_training_recovery.py:125-198 | each returned group is of its environment and from an archive of the returned revision; the reported count reaches the target, and the number returned is the target, or for a negative target the count less that many |
| AccumulatorReplay.NegativeTargetLosesGroups | scripts/replay_training_recovery.py:176-198 | at target -1 with one retained group the reconstruction succeeds, returns no group and reports a count of one |
| AccumulatorProducer.Accumulator.constructor | reliquary/validator/training_accumulator.py:21-26 | starts empty, without a revision and without source windows |
| AccumulatorProducer.Accumulator.Create | reliquary/validator/training_accumulator.py:16-26 | fails exactly for an empty mapping and for a negative target, and otherwise gives an empty accumulator with these targets in this order |
| AccumulatorProducer.Accumulator.Reset | reliquary/validator/training_accumulator.py:56-63 | goes back to the initial contents and returns the report of what was held |
| AccumulatorProducer.Accumulator.TakeGroups | reliquary/validator/training_accumulator.py:87-101 | each environment takes what it still needs and notes the window if it took any; both the taken and the left groups are counted |
| AccumulatorProducer.Accumulator.TakeOne | reliquary/validator/training_accumulator.py:87-101 | one round of the loop extends all four results by one environment |
| AccumulatorProducer.Accumulator.AddWindow | reliquary/validator/training_accumulator.py:65-109 | fails, without a change, exactly when the window maps an environment that has no target, be it to an empty list; otherwise contents and source windows become those of the producer state machine, and the whole returned record is as specified |
| AccumulatorProducer.StepMirrors | scripts/replay_training_recovery.py:130-175 | absorbing the archive of a window does to the replay what the window did to the accumulator, and every cross-check passes |
| AccumulatorProducer.HistoryMirrors | scripts/replay_training_recovery.py:125-191 | so does absorbing the archives of a whole history |
| AccumulatorInverse.LiveBounded | reliquary/validator/training_accumulator.py:65-109 | the accumulator never holds more than its targets |
| AccumulatorInverse.ReplayInverts | scripts/replay_training_recovery.py:47-198 | for all windows added to an empty accumulator and every permutation of their archives, reconstruction succeeds exactly when the accumulator ended ready, and then returns exactly its groups, in order, with counts, revision, targets and windows |
| AccumulatorInverse.MissingArchiveNoticed | scripts/replay_training_recovery.py:130-175 | leaving out an archive that is not the last is refused exactly when it had added a group and the next one has the same revision; otherwise the result is the same |
| AccumulatorResets.AfterClearing | reliquary/validator/service.py:5958 | the archive of the first window after a clearing is absorbed exactly when the revision changed or nothing had been held |
| AccumulatorResets.EventsMirror | scripts/replay_training_recovery.py:125-191 | replaying the archives with a snapshot, of a history of added, aborted and mixed windows and clearings, goes through exactly when every clearing was harmless, and then mirrors what the last window left |
| AccumulatorResets.UnusableRefuses | scripts/replay_training_recovery.py:130-139 | one archive without a snapshot, or whose snapshot names no checkpoint, is enough for a refusal |
| AccumulatorResets.ReplayOfUsable | scripts/replay_training_recovery.py:47-198 | if every added window has its archive, the archives with a snapshot, in any order, are reconstructed exactly when there is one, every clearing that a window of the same revision followed had found nothing held, and the last window left the accumulator ready; the result is what that window left |
| AccumulatorResets.ReplayAcrossResets | scripts/replay_training_recovery.py:47-198 | all archives of any history, in any order, are reconstructed exactly when in addition no window was aborted (reliquary/validator/service.py:7858-7862), mixed (5723-5739), without a checkpoint or without its archive (6164-6172) |
| AccumulatorResets.ReplaySinceReset | scripts/replay_training_recovery.py:47-198 | the archives with a snapshot since the last clearing, in any order, rebuild exactly what the accumulator holds, whatever came before; all archives since then do so exactly when all have a snapshot |
| AccumulatorResets.TrainedThenContinued | reliquary/validator/service.py:5958 | once a filled batch was trained on and cleared, a further window of the same revision makes the archives as a whole unusable, whatever follows |
| AccumulatorResets.AbsorbIff | scripts/replay_training_recovery.py:130-186 | whatever the replay and the accumulator hold, the archive of a window is absorbed exactly when both hold the same number of groups per environment before it, and then its groups are added |
| AccumulatorResets.AcceptedMirrorsIff | scripts/replay_training_recovery.py:130-186 | an absorbed archive leaves the replay with the groups of the accumulator exactly when it had the same groups before |
| AccumulatorExamples.TrainedTwiceRefused | reliquary/validator/service.py:5958 | two windows of one checkpoint with a training step between them: the accumulator is ready, and its archives are refused |
| AccumulatorExamples.AbortedWindowRefused | reliquary/validator/service.py:5459-5482 | a window and an aborted one, with nothing cleared: the accumulator is ready, its archives are refused, and without the aborted one they are accepted |
| AccumulatorExamples.MissingArchiveUnnoticed | scripts/replay_training_recovery.py:140-144 | two windows of different checkpoints: the archive of the first had added a group, and its absence goes unnoticed |
| AccumulatorExamples.FailedArchiveUnnoticed | reliquary/validator/service.py:6156-6172 | a training step, a window whose archiving failed and one without groups: the replay accepts, and rebuilds the group trained on before instead of the one held |
| JsonSpans.IterJsonSpans | scripts/eval_envscaler_band.py:39-71 | the four-variable loop yields the texts of the completed spans |
| JsonSpans.SpansInOrder | scripts/eval_envscaler_band.py:46-71 | on every text the spans are disjoint, left to right, and run from an opening to a closing brace; throughout, depth is positive exactly when a start is set |
| JsonSpans.ScanConcat | scripts/eval_envscaler_band.py:46-71 | scanning two texts in a row is scanning their concatenation |
| JsonSpans.YieldedIsBalanced | scripts/eval_envscaler_band.py:39-71 | each yielded text is balanced by itself under a definition that does not mention the scanner |
| JsonSpans.RescanYieldsItself | scripts/eval_envscaler_band.py:39-71 | rescanning a yielded text yields exactly that text |
| JsonTurns.LiteralTakes | scripts/eval_envscaler_band.py:50-58 | a printed string literal leaves the scanner unchanged, whatever it spells |
| JsonTurns.PrintTakes | scripts/eval_envscaler_band.py:50-71 | inside a span a printed value leaves the scanner unchanged, whatever its nesting |
| JsonTurns.ScannerInvertsPrinter | scripts/eval_envscaler_band.py:39-71 | objects printed one after the other, with text free of quotes and opening braces around them, are yielded exactly, in order |
| JsonTurns.ParseAction | scripts/eval_envscaler_band.py:74-94 | returns the first span that reads as an action, and nothing exactly when none does |
| JsonTurns.QwenAction | scripts/eval_envscaler_band.py:161-185 | returns the last span that reads as a named call, and nothing exactly when none does |
| JsonTurns.TurnActions | scripts/eval_envscaler_band.py:74-94 | on a turn of printed objects the readers act on the first and the last object that is one |
| Splitting.FindFrom | scripts/regen_episode_manifests.py:80 | finds the leftmost occurrence, or shows that there is none |
| Splitting.JoinInvertsSplit | scripts/regen_episode_manifests.py:80 | joining the parts of a split gives the text back |
| Splitting.SplitInvertsJoin | scripts/regen_episode_manifests.py:107 | splitting a join gives the parts back when no part holds or begins the separator |
| DigestPins.MatchPinIff | scripts/regen_episode_manifests.py:44-46 | the matcher finds a pin exactly when the text begins with the spelling of an admitted pin, which is then unique |
| DigestRewrites.OpenerKept | scripts/regen_episode_manifests.py:95-106 | rewriting a pin neither makes nor breaks a block opener |
| DigestRewrites.NamesKept | scripts/regen_episode_manifests.py:81-84 | rewriting a pin changes no contract name in the block |
| DigestRewrites.PatchedSite | scripts/regen_episode_manifests.py:95-106 | a patch replaces the first pin by the new one and nothing else |
| DigestRewrites.PatchedAgain | scripts/regen_episode_manifests.py:95-106 | the patched block's first pin spells the digest in two pieces, and patching again changes nothing |
| DigestRewrites.HiddenThenNext | scripts/regen_episode_manifests.py:95-106 | where the digest is no longer than the first piece, the next patch of the block works on the first pin after the patched one |
| DigestRewrites.SiteIff | scripts/regen_episode_manifests.py:95-106 | a pin is the one patched exactly when the text before it holds no pin |
| DigestFiles.SourceFile.RewriteBlock | scripts/regen_episode_manifests.py:70-108 | the file becomes the rewritten text, or stays as it was on an error or when an optional block is absent |
| DigestFiles.SuccessIff | scripts/regen_episode_manifests.py:81-105 | a rewrite succeeds exactly when one block names the contract and has a pin |
| DigestFiles.RewriteFrame | scripts/regen_episode_manifests.py:80-108 | the file splits into the same blocks as before but for the one rewritten |
| DigestFiles.HitsKept | scripts/regen_episode_manifests.py:81-84 | after a rewrite the same blocks name each contract |
| DigestFiles.RepeatIsIdentity | scripts/regen_episode_manifests.py:70-108 | the two pieces concatenate to the digest, and the same rewrite again gives the same file |
| DigestFiles.RewriteFixes | scripts/regen_episode_manifests.py:70-108 | a rewrite gives back the same file exactly when its pin already spells the digest in this layout |
| DigestFiles.RepeatIff | scripts/regen_episode_manifests.py:70-108 | repeating a rewrite is the identity exactly when the digest is longer than the first piece or the next pin of the block already spells it, and is refused exactly when the digest is no longer and there is no next pin |
| DigestFiles.RepeatCanFail | scripts/regen_episode_manifests.py:70-108 | for every digest, a file that is rewritten once and then refused |
| DigestFiles.RewritesCommute | scripts/regen_episode_manifests.py:70-108 | rewrites of contracts in different blocks give the same file in either order |
| DigestFiles.PinnedFileIsRewritten | scripts/regen_episode_manifests.py:70-108 | of a file put together from separated blocks, a block is rewritten at a given pin exactly when it alone names the contract and no pin precedes that one in it |
| DigestFiles.PinnedNamesAreDistinctive | scripts/regen_episode_manifests.py:33-42 | the openers and the hyphenated contract names of the script meet the conditions of these results |
| PyJson.UnitsRoundTrip | scripts/build_opencode_curated.py:84-93 | writing and reading a string gives it back unless a high surrogate stands before a low one |
| JsonGuard.LoadKeepsAll | scripts/build_opencode_curated.py:84-93 | an object loads without losing a member exactly when its names stay different |
| JsonGuard.PlainComesBack | scripts/build_opencode_curated.py:84-93 | a value without tuples, keys other than strings and split surrogate pairs comes back identically |
| JsonGuard.AcceptedIsPlain | scripts/build_opencode_curated.py:84-93 | nothing else passes the loose comparison, at any depth |
| JsonGuard.GuardIff | scripts/build_opencode_curated.py:84-93 | the guard accepts exactly these values and hands each on exactly as it was written |
| JsonGuard.SplitPairRefused | scripts/build_opencode_curated.py:84-93 | it refuses a serialisable string without tuples or keys |
| AssertCases.ParseAssert | scripts/build_opencode_curated.py:43-93 | translates exactly one assert of a plain call with literal arguments and named keywords that equals a literal, if the case is plain; the result is that case |
| AssertCases.CaseOfPlain | scripts/build_opencode_curated.py:77-83 | a case is plain exactly when its name, arguments, keyword arguments and expected value are |
| AssertCases.SameVerdictIff | scripts/build_opencode_curated.py:183-194 | case and assert pass for the same solutions and comparisons exactly when the call repeats no keyword and no builtin answers it |
| AssertCases.SameVerdictByName | scripts/build_opencode_curated.py:183-194 | whatever the builtins do: exactly when the call repeats no keyword and its name is none of theirs |
| AssertCases.BuiltinIsTranslated | scripts/build_opencode_curated.py:67-93 | `assert len([1, 2]) == 2` is translated; it passes for every solution that leaves `len` alone, and its case for none of them |
| AssertCases.RepeatedKeywordIsTranslated | scripts/build_opencode_curated.py:67-76 | an assert that no function makes pass is translated all the same |
| SeedChoice.CallsPartitionThePool | scripts/benchmark_inference_contract.py:107-112 | the two calls are groups that list every seed of a published pool once |
| SeedChoice.ChoiceIsAGroup | scripts/benchmark_inference_contract.py:115-129 | a choice is group-size many generated seeds in ascending order, and fails only for an unknown pick or too few seeds |
| SeedWorstCase.ChosenTakesTheSmallest | scripts/benchmark_inference_contract.py:126-129 | no seed left out has a lower agreement than a seed taken, or a higher one for the opposite pick |
| SeedWorstCase.ChoiceDominates | scripts/benchmark_inference_contract.py:115-129 | the sorted agreements of the chosen group are pointwise at most, or at least, those of every group of that size |
| SeedWorstCase.LowestIsWorstIff | scripts/benchmark_inference_contract.py:115-181 | no group has more rollouts below the floor than the lowest-agreement group, exactly when no unjudged rollout is ranked into it before one below the floor |
| SeedWorstCase.LowestIsWorstForRollouts | scripts/benchmark_inference_contract.py:168-181 | so it is if every rollout is judged |
| SeedWorstCase.ShortRolloutsHideOthers | scripts/benchmark_inference_contract.py:168-181 | with rollouts too short to be judged, another group can have one below the floor although the chosen group has none |
| SeedWorstCase.LowestIsWorstForGroups | scripts/benchmark_inference_contract.py:151-167 | if all rollouts have equally many positions and the verdict passes the lowest-agreement group, it passes every group |
| SeedWorstCase.LongRolloutsDilute | scripts/benchmark_inference_contract.py:151-167 | with different lengths the verdict can pass the lowest-agreement group and reject another |
| SeedGroupVerdict.RejectedByMargin | scripts/benchmark_inference_contract.py:151-155 | a group is rejected exactly when it has enough positions and its margins over the floor sum to less than nothing |
| SeedGroupVerdict.LowestSpeaksIff | scripts/benchmark_inference_contract.py:115-167 | where no group is too short to be judged, the verdict on the lowest-agreement group speaks for all exactly when it is a rejection or the group with the least margin passes |
| SeedGroupVerdict.AllAcceptedIff | scripts/benchmark_inference_contract.py:138-181 | where no group is too short to be judged, every group is accepted exactly when no rollout is below its floor or has a hard mismatch and the group with the least margin passes |
| SeedGroupVerdict.AcceptanceSpeaksIff | scripts/benchmark_inference_contract.py:115-181 | acceptance of the lowest-agreement group speaks for every group exactly when it is not accepted, or every rollout outside it is clean and the group with the least margin passes |
| SigmaBand.PassesIsGate | scripts/eval_logic_band.py:30-34 | the gate on the deviation is an inequality between products of integers and the squared threshold |
| SigmaBand.NonEmptyIffMiddlePasses | scripts/eval_logic_band.py:30-35 | some count passes exactly when half the group does |
| SigmaBand.BandIsTheGate | scripts/eval_logic_band.py:30-35 | a non-empty band is one interval with low + high = rollouts that holds exactly the passing counts |
| SigmaBand.InBandIffGate | scripts/eval_logic_band.py:30-35 | the two-endpoint test is the gate for every count exactly when the band is non-empty or the group has one rollout |
| SigmaBand.DefaultAdmitsWhatFails | scripts/eval_logic_band.py:30-35 | above a threshold of one half no count passes, and the band admits exactly the counts 1..n-1 |
| SigmaBand.ProductionBand | scripts/eval_logic_band.py:140 | at 16 rollouts and 0.24 the band is 1..15 |
| SigmaBand.InBandIsSigmaGate | scripts/eval_logic_band.py:174-180 | for a group of 0/1 rewards the band test is the gate on the group's own standard deviation |

## Left out

- Remote calls to Hugging Face, R2, Docker and subprocesses: they appear only as steps of the two protocols.
- `main` of `scripts/archive_finished_hf_run.py` is a state machine over values, so that a crash and other writers can come
  between its steps; its local variables are the fields of the control state. A change between the remote reads that one
  step takes together is not modelled.
- `publish_prepared` is a state machine over values for the same reason; the regeneration of the plan from its
  transition and a run without `--apply` are not part of it.
- BootstrapRuns.RetryCompletes: speaks of a made commit that is still the head; a run that finds another writer's commit
  on top of it stops, as the script does.
- SeedGroupVerdict.LowestSpeaksIff: says nothing of pools with groups too short to be judged, where the worst judged group
  is not the first of any ranking; SeedWorstCase.LowestIsWorstForGroups covers those with rollouts of equal length.
- SeedGroupVerdict.AcceptanceSpeaksIff: has the same limit.
- SeedWorstCase.LowestIsWorstForGroups: is the case of equal lengths, in which groups may be too short to be judged.
- AccumulatorResets.ReplaySinceReset: supposes that archiving succeeded for every window since the clearing; what happens
  otherwise is AccumulatorResets.AcceptedMirrorsIff, one archive at a time.
- The search for another function of the solution that the sandbox worker makes when the named one is missing.
- The text of JSON in `build_opencode_curated.py` is a tree whose strings are sequences of UTF-16 units; the printed
  syntax around them is not modelled, nor is the limit on the digits of very large integers or the sign of zero.
- Values that `ast.literal_eval` returns and `json.dumps` refuses (sets, bytes, complex numbers, the ellipsis) are one
  kind of value.
- Text files are read and written without newline translation.
- Floating-point rounding, in every script.
- The floor for single rollouts is the one of protocol version 4 and later.
- The legacy full-window branch of the replay script.
- `iter_curated` and the measurement loops of the evaluation scripts: they filter and count.
- Reports, argument parsing, file discovery, model loading and everything that needs a GPU.
