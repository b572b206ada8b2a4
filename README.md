# FLARE training controllers and hyperparameter masks, in Dafny

This project models three parts of FLARE, a package that learns interatomic forces with Gaussian
process (GP) models:

- `TrajectoryTrainer` (`flare/gp_from_aimd.py`) trains a GP from a recorded ab-initio
  molecular-dynamics trajectory. Its parts:
  - the seeding step (`pre_run`);
  - the passive learning loop;
  - the active learning loop;
  - the legacy `run` loop;
  - the model-writing decisions;
  - the model-growth statistics that `parse_trajectory_trainer_output` derives from its log.
- `OTF` (`flare/otf.py`) is the on-the-fly controller. It runs molecular dynamics with the GP and calls
  DFT when the GP's uncertainty is out of bound. The model covers:
  - its main loop;
  - the GP update after a DFT call;
  - checkpoints;
  - restoring from a dictionary.
- `ParameterMasking` (`flare/mask_helper.py`) builds the `hyps_mask` dictionary that describes
  multi-group hyperparameters. The model covers:
  - group definition and wildcard expansion;
  - parameter tables;
  - mask construction (`print_group`);
  - dictionary assembly (`generate_dict`);
  - the two static validators.

## How the model is laid out

- **Classes where the source updates objects in place.**
  - `TrajectoryTrainer.Trainer`, `Otf.Otf` and `Masking.ParameterMasking` are classes.
  - Their methods state the new state with `modifies`/`ensures`.
  - The masks that `print_group` fills slot by slot are `array<int>`s.
- **The GP.** The GP is `GaussianProcess.Gp`:
  - the species of its training environments, in insertion order;
  - a log of the operations called on it: `update_db`, `train`, `update_L_alpha`, `check_L_alpha`, `set_L_alpha`, `write_model`.
- **Pure rules are functions with lemmas.** These include:
  - how many atoms a frame admits;
  - when a model or checkpoint is written;
  - counter updates;
  - the retrain conditions;
  - the mask slot arithmetic;
  - wildcard expansion;
  - the validators.
- **Things the model cannot see become parameters.**
  - Predictions and the uncertainty/force checks become function-typed oracles (`FlagOracle`, `Predictor`, `StdCheck`).
  - These oracles take the frame or step number and the GP's training data.
  - Random sampling and shuffling become a nondeterministic choice of a subset of the stated size.
- **Python conventions are explicit:**
  - infinite limits are `Bound = Finite(n) | Infinite`;
  - negative indices go through `PyIndex`;
  - slices go through `PySliceLen` and `Strided`;
  - `%` is `PyMod`;
  - `a or b` is `PyOr`.
- **Exceptions are `Result`/`Option` outcomes.** Each outcome is named by the Python exception it stands for.

## Model

| member | source | states |
|---|---|---|
| TrajectoryTrainer.Trainer.constructor | flare/gp_from_aimd.py:157-256 | stores every setting; `train_checkpoint_interval or checkpoint_interval`; shuffling only permutes the frames; train count starts at 0; `skip >= 1` and `0 <= validate_ratio <= 1` are the asserted preconditions |
| TrajectoryTrainer.Trainer.TrainGp | flare/gp_from_aimd.py:977-1022 | a mapped GP is left alone; otherwise `max_iter == 0` only factorises, any other value trains with that iteration cap, and the train count goes up by one |
| TrajectoryTrainer.Trainer.UpdateGpAndPrint | flare/gp_from_aimd.py:921-975 | an empty atom list changes nothing; an invalid atom index is an IndexError; otherwise the GP gains exactly the species of the listed atoms, its log gains one `update_db` of that many atoms, and it trains once only when asked |
| TrajectoryTrainer.Trainer.WriteModelDecision | flare/gp_from_aimd.py:577-605 | returns `WillWrite` of the intervals and counters; when a model format is set and a write is due, factorises then writes `<output>_checkpt`, and the training data is untouched |
| TrajectoryTrainer.Trainer.SplitOnSkips | flare/gp_from_aimd.py:639-647 | frames at positions `i % k == 0` become the seed frames and the rest stay as frames, so the two parts together are a permutation of the original frames |
| TrajectoryTrainer.Trainer.SeedOneFrame | flare/gp_from_aimd.py:655-679 | the atoms added from one seed frame are a `SeedChoice`: distinct positions with, per species, `min(n_at, per-species cap, max_atoms_from_frame)` of them |
| TrajectoryTrainer.Trainer.SeedFromFrames | flare/gp_from_aimd.py:654-679 | over all seed frames, every frame's atoms are a seed choice, the GP gains exactly their species in frame order, the log gains one `update_db` per contributing frame, and `atom_count` is their total |
| TrajectoryTrainer.Trainer.AddEnvironments | flare/gp_from_aimd.py:295-296 | each given environment is appended to the GP in order, with one single-atom `update_db` per environment in the log |
| TrajectoryTrainer.Trainer.PassiveFrame | flare/gp_from_aimd.py:308-339 | the atoms taken from one frame are distinct, respect the per-frame and per-species caps and the per-element model caps, and the model size cap unless nothing was added; the log gains one `update_db` exactly when atoms were taken |
| TrajectoryTrainer.Trainer.PassiveFrames | flare/gp_from_aimd.py:306-339 | over all frames, each frame's atoms are a passive choice, the GP gains exactly their species, the log gains one `update_db` per contributing frame in order, and model size / element counts stay under their caps unless unchanged |
| TrajectoryTrainer.Trainer.RunPassiveLearning | flare/gp_from_aimd.py:258-363 | a mapped GP raises NotImplementedError and is untouched; otherwise environments then frame atoms are added under the caps, and the log ends with `train(max_iter=post_training_iterations)` when that is non-zero, else with `check_L_alpha` when `post_build_matrices`, else with nothing |
| TrajectoryTrainer.Trainer.ActiveFrame | flare/gp_from_aimd.py:416-562 | an in-bound frame changes nothing; a flagged frame records its plan entry, adds its atoms only if the model stays within `max_model_size` (else sets the atom cap to 0 and writes `<output>_saturated`), then trains or calls `update_L_alpha`, then factorises and writes `<output>_checkpt` when a checkpoint is due; the log gains exactly those calls and the train count grows by the number of trainings in it |
| TrajectoryTrainer.Trainer.RunActiveLearning | flare/gp_from_aimd.py:365-575 | an empty model with no frames fails on `frames[0]`; the plan covers only frames before `train_frame` with valid atoms; after seeding the model never shrinks and stays within `max_model_size` once it grew; the log is the seeding's `update_db`s, then the frames' events (trainings equal to the train-count growth, writes only `_saturated` and `_checkpt`), then `<output>_model` exactly when the run succeeds with a model format, `post_write` and an unmapped GP |
| TrajectoryTrainer.Trainer.RunFrame | flare/gp_from_aimd.py:741-903 | a frame is flagged when either check is out of bound; its atoms are the merged flags without `-1` and without repeats; the plan entry, GP growth and counters follow `RunFrameStep`; the log gains the `update_db`, then `train` or `update_L_alpha`, then `<output>_checkpt` when due, with trainings equal to the train-count growth and no factorisation |
| TrajectoryTrainer.Trainer.RunFrames | flare/gp_from_aimd.py:729-906 | the loop over every `skip`-th frame: plan keys lie before `train_frame`, plan atoms are distinct and never `-1`, training never takes the train count past `max_trains`, trainings in the log equal the train-count growth, the only writes are `_checkpt`, and `check_L_alpha` is called exactly once, last, when the loop completes for an unmapped GP with `0 < train_frame <= ` the number of frames |
| TrajectoryTrainer.Trainer.Run | flare/gp_from_aimd.py:711-919 | `pre_run` for an unmapped GP (its log ending in `<output>_prerun` when a format is set), then the frame loop with the same plan and log guarantees, then `<output>_model` exactly when the run succeeds with a format for an unmapped GP; at most the pre-run training beyond `max_trains` |
| TrajectoryTrainer.Trainer.PreRun | flare/gp_from_aimd.py:607-709 | mapped GP raises NotImplementedError; the three seed-frame rules (split on skips, first frame of a blank model, given seeds); GP gains seed envs then seed atoms; the log is their `update_db`s, then `train(pre_train_max_iter)` exactly when `PreTrainDue` (a factorisation otherwise, or for a zero iteration cap), then `<output>_prerun` when a format is set |
| TrajectoryTrainer.Trainer.PreTrain | flare/gp_from_aimd.py:690-709 | the end of `pre_run`: one `train(pre_train_max_iter)` (counted) when `PreTrainDue`, else `check_L_alpha`; then `<output>_prerun` when a format is set; the data is untouched |
| TrajectoryTrainer.Trainer.RunPreamble | flare/gp_from_aimd.py:726-727 | `pre_run` runs only for an unmapped GP; a mapped GP's log and train count are untouched; a successful pre-run with a format leaves `<output>_prerun` last in the log |
| TrajectoryTrainer.Trainer.RunTurn | flare/gp_from_aimd.py:741-906 | one training frame of `run`: `RunFrame`, then `check_L_alpha` exactly when this is the last training frame of an unmapped GP and the frame raised nothing; the counters keep `RunInvariant` |
| TrajectoryTrainer.Trainer.RunFrameUpdate | flare/gp_from_aimd.py:857-903 | a flagged frame's model calls: the GP gains the atoms' species (nothing when mapped), the log gains exactly `RunFrameEvents` of the step the counters take, and the train count follows that step |
| TrajectoryTrainer.RunFrameEventsCounts | flare/gp_from_aimd.py:857-903 | a flagged `run` frame trains once exactly when the counters retrain an unmapped GP, writes once exactly when a checkpoint is due with a format, never factorises, and writes only `_checkpt` |
| TrajectoryTrainer.Trainer.ActiveFrameUpdate | flare/gp_from_aimd.py:520-562 | a flagged frame's model calls in active learning: add the atoms when they fit (else write `<output>_saturated`), train or `update_L_alpha`, then `write_model_decision`; the log gains exactly `ActiveFrameEvents` and the train count grows by one exactly on a full training |
| TrajectoryTrainer.ActiveFrameEventsCounts | flare/gp_from_aimd.py:520-562 | a flagged active-learning frame trains once exactly when the retrain test holds, writes once for saturation and once for a due checkpoint (with a format), and writes nothing else |
| TrajectoryTrainer.Trainer.SeedActive | flare/gp_from_aimd.py:388-400 | seeding an empty model for active learning is a passive run over frame 0 with one atom per species; it raises NotImplementedError exactly for a mapped GP, only adds data, and logs only `update_db`s |
| TrajectoryTrainer.Trainer.ActiveFrames | flare/gp_from_aimd.py:416-562 | the frame loop of `run_active_learning`: plan keys lie before `train_frame`, the model never shrinks and stays within `max_model_size` once it grew, trainings in the log equal the train-count growth, and the only writes are `_saturated` and `_checkpt` |
| TrajectoryTrainer.ChooseSeedAtoms | flare/gp_from_aimd.py:656-672 | the atoms chosen from one frame are distinct valid indices with, for every species, exactly `SeedCount` atoms of that species |
| TrajectoryTrainer.SeedTurn | flare/gp_from_aimd.py:657-671 | one species' turn adds exactly its seed count of atoms of that species and nothing of any other |
| TrajectoryTrainer.ChoosePassiveAtoms | flare/gp_from_aimd.py:312-332 | the atoms chosen from one frame are distinct, within the frame and model caps and every species/element cap, and the remaining budget is `available - len(train_atoms)` |
| TrajectoryTrainer.PassiveTurn | flare/gp_from_aimd.py:313-332 | one species' turn keeps every cap and charges the budget by the atoms taken |
| TrajectoryTrainer.PassiveStep | flare/gp_from_aimd.py:319-330 | adding `n_add` sampled atoms of an unvisited species keeps the caps of the frame |
| TrajectoryTrainer.PlanFor | flare/gp_from_aimd.py:514-516 | one plan entry per atom, in order, holding the atom with its predicted uncertainty and force error |
| TrajectoryTrainer.PyOr | flare/gp_from_aimd.py:244-246 | `a or b` on integers: non-zero exactly when one of them is, and `a` when `a` is non-zero |
| TrajectoryTrainer.OnePerSpecies | flare/gp_from_aimd.py:399 | a cap of 1 for exactly the species present in the frame |
| TrajectoryTrainer.ExtendVisited | flare/gp_from_aimd.py:313-330 | sampled atoms of a new species extend the chosen atoms without repeats and count only for that species |
| TrajectoryTrainer.SeededByAppend | flare/gp_from_aimd.py:655-679 | one more seed frame extends the seeding facts and the gathered species by that frame |
| TrajectoryTrainer.PassivePickedAppend | flare/gp_from_aimd.py:308-339 | one more passive frame extends the passive facts and the gathered species by that frame |
| TrajectoryTrainer.GatherFramesAppend | flare/gp_from_aimd.py:655-679 | the species added over `k + 1` frames are those of `k` frames followed by frame `k`'s |
| Selection.MinOf | flare/gp_from_aimd.py:664-668 | `min(n, caps...)`: at most `n` and every cap, and equal to `n` or to one of the caps |
| Selection.AdmitCount | flare/gp_from_aimd.py:320-328 | `max(0, min(...))` is at most `n_at` and, when positive, fits under every cap |
| Selection.AdmitCountIsGreatest | flare/gp_from_aimd.py:320-328 | the admitted count is the greatest count that fits every cap |
| Selection.PassiveCaps | flare/gp_from_aimd.py:320-327 | the four caps of `n_add`: species cap, frame cap less atoms taken, remaining budget less atoms taken, element cap less atoms held |
| Selection.PassiveBudgetChargedTwice | flare/gp_from_aimd.py:310-331 | because `available_to_add` is both decremented and reduced by `len(train_atoms)`, a frame admits at most `budget - 2*taken` more atoms |
| Selection.PySliceLen | flare/gp_from_aimd.py:670 | `len(xs[:k])` for both signs of `k` |
| Selection.SeedTakeMatchesAdmitCount | flare/gp_from_aimd.py:664-671 | with non-negative caps the seed slice takes exactly `AdmitCount` atoms; a negative cap slices from the end |
| Selection.TrainFrameBounds | flare/gp_from_aimd.py:405 | `int(n * (1 - r))` lies in `[0, n]`, is `n` for `r = 0` and `0` for `r = 1` |
| Selection.MergeFlags | flare/gp_from_aimd.py:844-846 | the union of both flagged lists minus `-1` |
| Selection.MergedListBound | flare/gp_from_aimd.py:844-846 | the merged list holds no `-1` and no more atoms than the two lists together |
| Selection.WriteAtZeroTrainings | flare/gp_from_aimd.py:588-593 | with a train interval set, a write is already due at train counter 0 |
| Selection.WritePeriodic | flare/gp_from_aimd.py:588-600 | without atom trigger, a write is due exactly at multiples of the train interval |
| Selection.WriteDisabled | flare/gp_from_aimd.py:588-600 | both intervals 0: never written |
| Selection.CheckpointDecision | flare/gp_from_aimd.py:882-898 | `run` writes when the train or atom condition holds, and resets exactly the counter whose condition held |
| Selection.CheckpointIdempotent | flare/gp_from_aimd.py:882-898 | deciding again right after a decision writes nothing and resets nothing |
| Selection.RunFrameStep | flare/gp_from_aimd.py:863-878 | full training exactly when enough atoms were added or it is the last training frame, and `train_count < max_trains`; the atom counter resets on either trigger |
| Selection.RunFrameStepKeepsInvariant | flare/gp_from_aimd.py:863-878 | counters stay non-negative and the train count never passes `max_trains` beyond its start |
| Selection.RunInvariantInitially | flare/gp_from_aimd.py:734-736 | the counters start at zero and satisfy the invariant |
| Selection.RunRespectsMaxTrains | flare/gp_from_aimd.py:867-878 | once `train_count >= max_trains`, `run` only refreshes |
| Selection.ActiveFrameStep | flare/gp_from_aimd.py:521-562 | atoms are added iff the model fits `max_model_size` (else the atom cap becomes 0); retraining per `A or (B and C)`; the write follows `write_model_decision` on the new counter |
| Selection.ActiveFrameStepKeepsInvariant | flare/gp_from_aimd.py:521-562 | counters stay non-negative and a saturated model keeps a zero atom cap |
| Selection.ActiveAtomThresholdIgnoresMaxTrains | flare/gp_from_aimd.py:545-552 | by Python's precedence, enough new atoms retrain whatever `max_trains` is |
| Selection.ActiveLastFrameRetrain | flare/gp_from_aimd.py:545-552 | on the last training frame the retrain happens exactly while `train_counter <= max_trains` |
| TrainerOutput.Seeds | flare/gp_from_aimd.py:1143-1146 | the initial size, then the pre-run size exactly when a pre-run line exists |
| TrainerOutput.CumulativeGpSize | flare/gp_from_aimd.py:1142-1155 | the loop builds exactly `CumulativeSizes` |
| TrainerOutput.CumulativeAt | flare/gp_from_aimd.py:1148-1155 | the entry of frame `k` is the running total over the first `k + 1` frames |
| TrainerOutput.RunningMonotone | flare/gp_from_aimd.py:1150-1155 | the running total never decreases and never drops below its start |
| TrainerOutput.CumulativeMonotone | flare/gp_from_aimd.py:1150-1155 | per-frame sizes are non-decreasing and at least the starting size |
| TrainerOutput.CumulativeSizesGrow | flare/gp_from_aimd.py:1142-1155 | `cumulative_gp_size` has one entry per seed and per frame, starts with the initial size, and is non-decreasing from the last seed on |
| GaussianProcess.Gp.constructor | flare/gp_from_aimd.py:170 | the model starts with the given training data and an empty log |
| GaussianProcess.Gp.UpdateDb | flare/gp_from_aimd.py:967-969 | `update_db(custom_range=atoms)` appends one environment per listed atom |
| GaussianProcess.Gp.AddOneEnv | flare/gp_from_aimd.py:295-296 | `add_one_env` appends one environment |
| GaussianProcess.Gp.Train | flare/gp_from_aimd.py:1001-1007 | training leaves the data alone and logs one training |
| GaussianProcess.Gp.UpdateLAlpha | flare/gp_from_aimd.py:554 | logs a refresh, data unchanged |
| GaussianProcess.Gp.CheckLAlpha | flare/gp_from_aimd.py:1000 | logs a factorisation, data unchanged |
| GaussianProcess.Gp.SetLAlpha | flare/otf.py:442 | logs a factorisation, data unchanged |
| GaussianProcess.Gp.WriteModel | flare/gp_from_aimd.py:604 | logs a write of the named file, data unchanged |
| GaussianProcess.CountsStep | flare/otf.py:445-450 | one more logged event adds one training or one write exactly when it is one |
| Seqs.Gather | flare/gp_from_aimd.py:943 | `[xs[a] for a in atoms]` with Python negative indexing |
| Seqs.PyIndex | flare/gp_from_aimd.py:943 | a negative index counts from the end |
| Seqs.IndicesOfSpec | flare/gp_from_aimd.py:317 | `indices_of_specie` lists, without repeats, exactly the positions of that species |
| Seqs.CountInGather | flare/gp_from_aimd.py:943-947 | counting chosen atoms of a species is counting that species among the added environments |
| Seqs.StridedPartition | flare/gp_from_aimd.py:639-647 | the seed split by `pre_train_on_skips` loses and duplicates no frame |
| Seqs.StridedAt | flare/gp_from_aimd.py:642-646 | frame `i` lands at `i / k` in the seed part when `i % k == 0`, else at `i - i / k - 1` in the rest |
| Seqs.StridedLength | flare/gp_from_aimd.py:731 | `len(frames[::k])` is `ceil(len(frames) / k)` |
| Seqs.StridedCounts | flare/gp_from_aimd.py:639-647 | the seed part has `ceil(n / k)` frames and the rest `n - ceil(n / k)` |
| PyNum.Minus | flare/gp_from_aimd.py:310 | `inf - k` stays infinite; a finite limit drops by `k` |
| PyNum.MinWith | flare/gp_from_aimd.py:664-668 | `min` of an integer with a limit is an integer under both |
| PyNum.PyMod | flare/gp_from_aimd.py:643 | Python `%`: the remainder takes the divisor's sign and is zero exactly when Dafny's is |
| PyNum.Truncate | flare/gp_from_aimd.py:405 | `int()` truncates toward zero |
| OtfRules.CheckpointFileName | flare/otf.py:554-557 | the checkpoint file always ends in `.json`, appended only when missing |
| OtfRules.CheckpointFileNameIdempotent | flare/otf.py:554-557 | normalising a checkpoint name twice is normalising it once |
| OtfRules.FirstContained | flare/otf.py:540-543 | the first of the codes the module name contains, or none |
| OtfRules.ForceSourceFirstMatch | flare/otf.py:539-543 | a shipped module restores the first of `qe`, `cp2k`, `vasp` its name contains |
| OtfRules.ForceSourceFallback | flare/otf.py:539-543 | a shipped module naming no code keeps the constructor's default `qe` |
| OtfRules.ForceSourceCustom | flare/otf.py:544-545 | any other module is used as a user module under its own name |
| OtfRules.FrozenTrainingsBound | flare/otf.py:445-446 | optimisations never exceed the DFT calls made, nor `freeze_hyps` less the calls before |
| OtfRules.FrozenTrainingsBeforeFreeze | flare/otf.py:445-446 | before `freeze_hyps` is reached every DFT call is followed by an optimisation |
| Otf.Range | flare/otf.py:170-171 | `list(range(noa))`: every atom, in order |
| Otf.Otf.constructor | flare/otf.py:99-215 | stores the settings; `init_atoms` defaults to every atom; `gp_name`/`checkpt_name` derived from the output name; `dft_step` true and counters 0 |
| Otf.Otf.Checkpoint | flare/otf.py:554-559 | writes `as_dict()` to the normalised checkpoint name, state untouched |
| Otf.Otf.RunDft | flare/otf.py:366-394 | one more DFT call counted |
| Otf.Otf.UpdateGp | flare/otf.py:411-450 | GP gains the target atoms' environments; `set_L_alpha`; one optimisation iff `dft_count - 1 < freeze_hyps`; writes at level 2 after optimising and always at level 3 |
| Otf.Otf.InitializeTrain | flare/otf.py:335-348 | one DFT call, then the initial atoms are added as `update_gp` does |
| Otf.Otf.Step | flare/otf.py:239-313 | one loop iteration: initial training at step 0 on an empty model, otherwise DFT exactly when out of bound and `steps_since_dft > min_steps_with_model`; frame recording when `counter >= skip` and not a DFT step; a checkpoint at level 3 |
| Otf.Otf.Advance | flare/otf.py:239-313 | one iteration advances the step by one and keeps the account of DFT calls, frames, optimisations, writes and checkpoints |
| Otf.Otf.Steps | flare/otf.py:239-313 | the whole loop: DFT-call and recorded-frame traces, the initial training at most once, optimisation and write counts as functions of the DFT count |
| Otf.Otf.Run | flare/otf.py:217-319 | DFT calls spaced by more than `min_steps_with_model`; recorded frames `skip` apart and never on DFT steps; optimisations stop at `freeze_hyps`; write levels 1-3; the last checkpoint holds the final state |
| Otf.DftTraceStep | flare/otf.py:268-278 | a DFT call only after more than `min_steps_with_model` steps keeps the trace spaced |
| Otf.FrameTraceStep | flare/otf.py:299-304 | a frame only recorded once `counter >= skip` and off DFT steps keeps the frame trace spaced and apart from DFT steps |
| Otf.BookkeptStep | flare/otf.py:239-313 | one iteration keeps the account of DFT calls, optimisations, writes and checkpoints |
| Otf.FrozenStep | flare/otf.py:445-446 | one more DFT call adds an optimisation exactly while `dft_count - 1 < freeze_hyps` |
| Otf.AllNamedAppend | flare/otf.py:312-313 | every checkpoint of the run goes to the same normalised file |
| Otf.FromDict | flare/otf.py:531-552 | restores every recorded setting and counter, resolves the force source, renames the model file, and restarts with `dft_step` true and `steps_since_dft` 0 |
| MaskTypes.Iter | flare/mask_helper.py:128 | `for x in v` visits a list's items or a string's characters |
| MaskTypes.FullName | flare/mask_helper.py:176 | `group_type + name` exists only for a string name |
| MaskTypes.FlagList | flare/mask_helper.py:177-178 | a single boolean flag becomes three copies |
| MaskIndex.Slot2Bounds | flare/mask_helper.py:213-223 | a pair of species group ids lands inside the `nspecie**2` mask |
| MaskIndex.Slot2Unique | flare/mask_helper.py:222-223 | different pairs land in different slots |
| MaskIndex.Slot2Cover | flare/mask_helper.py:367-370 | every slot of a pair mask is the slot of one pair |
| MaskIndex.Slot3Bounds | flare/mask_helper.py:252-267 | a triplet of ids lands inside the `nspecie**3` mask |
| MaskIndex.Slot3Unique | flare/mask_helper.py:262-267 | different triplets land in different slots |
| MaskIndex.Slot3Cover | flare/mask_helper.py:386-403 | every slot of the triplet mask is the slot of one triplet |
| MaskIndex.Filled | flare/mask_helper.py:201 | `np.ones(len) * value` |
| MaskIndex.Tag | flare/mask_helper.py:217-219 | each member of group `idt` carries the id `idt` |
| MaskIndex.ApplySpeciesAt | flare/mask_helper.py:202-205 | a species slot holds the group of the last element mapped to it |
| MaskIndex.SpeciesOwner | flare/mask_helper.py:202-205 | with no element in two groups, an element's slot holds its group's id |
| MaskIndex.SpeciesUnowned | flare/mask_helper.py:201-205 | a slot no element maps to keeps the default `n - 1` |
| MaskIndex.WriteSpecies | flare/mask_helper.py:203-205 | the species loop writes exactly `ApplySpecies` |
| MaskIndex.PairWriteAt | flare/mask_helper.py:222-223 | the two writes of a pair reach exactly its two orderings |
| MaskIndex.ApplyPairsAt | flare/mask_helper.py:217-223 | a pair slot holds the id of the last tuple naming that pair in either order |
| MaskIndex.LastPairSymmetric | flare/mask_helper.py:222-223 | the pair answer does not depend on the order of the pair |
| MaskIndex.PairMaskShape | flare/mask_helper.py:213-223 | the built pair mask has `nspecie**2` slots, is symmetric, and holds valid group ids |
| MaskIndex.WritePairs | flare/mask_helper.py:219-223 | one group's tuples are written as `ApplyPairs`; a tuple with fewer than two entries is an IndexError |
| MaskIndex.TripletWriteAt | flare/mask_helper.py:262-267 | the six writes of a triplet reach exactly the slots of its orderings |
| MaskIndex.OrderingSlots | flare/mask_helper.py:262-267 | a slot is one of the six written exactly when it orders the triplet |
| MaskIndex.ApplyTripletsAt | flare/mask_helper.py:256-267 | a triplet slot holds the id of the last tuple naming any of its orderings |
| MaskIndex.LastTripletSymmetric | flare/mask_helper.py:262-267 | the triplet answer is invariant under both adjacent swaps |
| MaskIndex.TripletMaskAt | flare/mask_helper.py:252-267 | the built triplet mask has `nspecie**3` slots holding the last writer's id or `n - 1` |
| MaskIndex.TripletMaskSymmetric | flare/mask_helper.py:252-267 | the built triplet mask agrees on all orderings of a triplet |
| MaskIndex.TripletMaskBounds | flare/mask_helper.py:252-267 | every slot of the triplet mask holds a valid group id |
| MaskIndex.WriteTriplets | flare/mask_helper.py:258-267 | one group's tuples are written as `ApplyTriplets`; a short tuple is an IndexError |
| MaskIndex.Write6 | flare/mask_helper.py:262-267 | the six slot writes of one triplet, in the source's order |
| Wildcard.WithoutFirstStar | flare/mask_helper.py:160-162 | `one_star_less` has one `*` fewer |
| Wildcard.FirstIndex | flare/mask_helper.py:161 | `list.index`: the first position |
| Wildcard.ExpandCount | flare/mask_helper.py:159-167 | a list with `k` stars over `s` species groups defines `s**k` tuples |
| Wildcard.ExpandLeaves | flare/mask_helper.py:159-167 | each expanded list is the non-star entries followed by one species group name per star |
| Wildcard.ExpandEachStep | flare/mask_helper.py:163-167 | the expansion for one more species group name is appended at the end |
| Wildcard.Resolve | flare/mask_helper.py:139-149 | names resolve to their species group ids, or fail when a name is not a group; the `atomic_str` path fails (KeyError) whenever an element is found |
| Wildcard.ResolvedPrefix | flare/mask_helper.py:138-158 | the tuples appended are the resolutions of the lists before the first failing one |
| Wildcard.AllResolveAppend | flare/mask_helper.py:159-167 | a concatenation of expansions resolves exactly when both parts do |
| Wildcard.AllOrNothing | flare/mask_helper.py:159-167 | a wildcard pattern resolves fully exactly when its fixed names are groups, and otherwise appends nothing |
| HypsVector.ValuesLength | flare/mask_helper.py:298-310 | the stacked vector and flags have two entries per group |
| HypsVector.TrainableSpec | flare/mask_helper.py:312-317 | the mapping lists exactly the flagged positions, increasing |
| HypsVector.MapIndices | flare/mask_helper.py:313-317 | the mapping loop returns `Trainable`, or IndexError when the flags are shorter than the vector |
| HypsVector.Select | flare/mask_helper.py:318 | `original[mapping]` |
| HypsVector.VectorLayout | flare/mask_helper.py:298-322 | `original` is every group's values followed by the noise; without a map `hyps == original`; with one, `hyps` is the flagged entries |
| HypsVector.VectorBuilt | flare/mask_helper.py:307-321 | with groups and one noise value, the vector is built and the noise position is mapped |
| HypsVector.FlagsMisaligned | flare/mask_helper.py:232-235 | a concrete group whose flags are interleaved `[sig, ls]` while values are stacked `[sigs..., lss...]`, so the wrong values are selected |
| MaskCheck.PairSymmetricAll | flare/mask_helper.py:367-370 | the upper-triangle loop checks full symmetry of a pair mask |
| MaskCheck.TripletSymmetricIff | flare/mask_helper.py:386-403 | the sorted-triplet loop checks invariance under all orderings |
| MaskCheck.CheckPairSymmetry | flare/mask_helper.py:367-370 | the loop answers exactly `PairSymmetric` |
| MaskCheck.CheckTripletSymmetry | flare/mask_helper.py:386-403 | the loop answers exactly `TripletSymmetric` |
| MaskCheck.CheckPairMask | flare/mask_helper.py:356-372 | the count and mask checks of `nbond` / `nmb` |
| MaskCheck.CheckTripletMask | flare/mask_helper.py:374-405 | the count and mask checks of `ntriplet` |
| MaskCheck.CheckInstantiation | flare/mask_helper.py:337-462 | the validator returns `Instantiation`: the normalised dictionary or the first failed check |
| MaskCheck.FirstError | flare/mask_helper.py:337-462 | the checks pass exactly when each does; otherwise one of their errors |
| MaskCheck.Accepted | flare/mask_helper.py:337-462 | an accepted dictionary has positive counts, right-sized symmetric masks with valid ids, a noise flag consistent with the map, cutoff lists of the right length, and no three-body cutoffs |
| MaskCheck.AcceptedWhen | flare/mask_helper.py:337-462 | shaped parts, a mapped noise position and no three-body cutoff list pass the validator |
| MaskCheck.GeneratedAccepted | flare/mask_helper.py:295-331 | a dictionary built from well-formed parts without three-body cutoffs passes `check_instantiation` |
| MaskCheck.Cut3bRejected | flare/mask_helper.py:444-447 | a dictionary with `cutoff_3b` always fails, on the undefined `nc3b` |
| MaskCheck.PairPartChecked | flare/mask_helper.py:356-372 | a built pair part passes the pair checks |
| MaskCheck.TripletPartChecked | flare/mask_helper.py:374-405 | a built triplet part passes the triplet checks |
| MaskCheck.BlocksShaped | flare/mask_helper.py:300-306 | the stacked blocks have one sigma and one length scale per group |
| MaskCheck.MatchedWhen | flare/mask_helper.py:465-503 | counts matching the vector length and cutoffs below the general cutoff pass `check_matching` |
| MaskCheck.GeneratedMatches | flare/mask_helper.py:465-503 | a generated dictionary passes `check_matching` when the general cutoffs fit |
| MaskCheck.MismatchWhen | flare/mask_helper.py:469-491 | with `nmb` absent and more than two cutoffs, the default `nmb = 1` overcounts the vector and the check fails |
| MaskCheck.MbDefaultMismatch | flare/mask_helper.py:469-491 | a generated dictionary without many-body groups fails `check_matching` given three cutoffs |
| GroupParts.GroupHyps | flare/mask_helper.py:228-235 | a group's sigma, length scale and flags, or KeyError / TypeError when missing |
| GroupParts.GroupLookupsOk | flare/mask_helper.py:217-236 | the loop over groups succeeds exactly when every tuple is long enough and, except for `cut3b`, every group has its entries |
| GroupParts.GroupLookupsValues | flare/mask_helper.py:228-235 | the collected lists hold each group's sigma, length scale and flags in group order |
| GroupParts.GroupLookupsStops | flare/mask_helper.py:217-236 | after a group fails, later groups change nothing |
| GroupParts.CutoffValuesSpec | flare/mask_helper.py:244-246 | the cutoff list holds each group's cutoff, or KeyError |
| GroupParts.CutoffListSpec | flare/mask_helper.py:238-246 | no group has a cutoff: empty list; some has: all must, in order |
| GroupParts.PairPartShaped | flare/mask_helper.py:209-246 | a built pair part is a symmetric `nspecie**2` mask of valid ids with per-group lists |
| GroupParts.TripletPartShaped | flare/mask_helper.py:247-279 | a built triplet part is a fully symmetric `nspecie**3` mask of valid ids |
| GroupParts.SpecieMaskMeaning | flare/mask_helper.py:199-205 | each defined element maps to its group; every other element to the last group |
| GroupParts.SpecieMask | flare/mask_helper.py:199-208 | the species branch builds exactly `SpecieMaskOf` |
| GroupParts.ListCutoffs | flare/mask_helper.py:238-246 | the two loops build exactly `CutoffList` |
| GroupParts.WritePairGroup | flare/mask_helper.py:219-223 | group `k`'s tuples are written, or IndexError on a short tuple |
| GroupParts.WriteTripletGroup | flare/mask_helper.py:258-267 | group `k`'s tuples are written, or IndexError on a short tuple |
| GroupParts.PairStep | flare/mask_helper.py:217-236 | one pass of the pair loop extends the lookups by group `idt` and the mask by its writes |
| GroupParts.TripletStep | flare/mask_helper.py:256-279 | one pass of the triplet loop extends the lookups by group `idt` and the mask by its writes |
| GroupParts.PairLoop | flare/mask_helper.py:217-236 | the group loop yields `GroupLookups` and a mask holding every group's writes |
| GroupParts.BuildPairs | flare/mask_helper.py:209-246 | the pair branch yields exactly `PairPartOf` |
| GroupParts.TripletLoop | flare/mask_helper.py:256-279 | the group loop yields `GroupLookups` and the mask with every group's writes |
| GroupParts.BuildTriplets | flare/mask_helper.py:247-279 | the triplet branch yields exactly `TripletPartOf` |
| Masking.NoiseValues | flare/mask_helper.py:309 | `np.hstack` appends a scalar noise or a list's entries |
| Masking.Registered | flare/mask_helper.py:119-125 | a name is appended only when new; earlier names keep their positions |
| Masking.GroupId | flare/mask_helper.py:119-122 | the group id is the name's first position |
| Masking.Appended | flare/mask_helper.py:131-132 | appending to one group leaves every other group alone |
| Masking.SetParamsOutcome | flare/mask_helper.py:169-189 | `set_parameters` succeeds exactly for a string name and a list with at least two values and flags (any list for `cut3b`); it never touches the noise flag |
| Masking.SetParamsWrites | flare/mask_helper.py:176-189 | on success: sigma, ls and both flags under the full name (not for `cut3b`), and the cutoff when a third value is given |
| Masking.SetParamsFrame | flare/mask_helper.py:169-189 | no entry other than the group's own keys changes |
| Masking.SuffixNotNoise | flare/mask_helper.py:184-185 | the per-group flag keys can never be `"noise"` |
| Masking.ParamType | flare/mask_helper.py:64-68 | the first of bond, triplet, mb, cut3b whose names hold the parameter |
| Masking.ApplyParamsKeepsNoise | flare/mask_helper.py:61-73 | `list_parameters` never turns the noise flag off |
| Masking.ApplyParamsStops | flare/mask_helper.py:61-73 | after an entry raises, later entries change nothing |
| Masking.ApplyParamsSkips | flare/mask_helper.py:69-73 | an unknown name is skipped, except `noise`, which replaces the noise value |
| Masking.ResolvedBounded | flare/mask_helper.py:149 | every appended tuple names existing species groups |
| Masking.BuildPart | flare/mask_helper.py:209-280 | the builder run for one type yields exactly `PartFor` |
| Masking.PrintedStores | flare/mask_helper.py:209-280 | a successful `print_group(t)` leaves `t`'s part in the attributes |
| Masking.PrintedKeeps | flare/mask_helper.py:209-280 | `print_group(t)` leaves every other type's part and the species mask alone |
| Masking.PrintAllStored | flare/mask_helper.py:290-294 | after the five calls the attributes hold the species mask and every type's part |
| Masking.GeneratedAfter | flare/mask_helper.py:289-334 | with two species groups, `generate_dict` is the five calls then assembly, failing with the first call that fails |
| Masking.PartForShaped | flare/mask_helper.py:209-280 | every built part has the shape the validator expects, present exactly when the type has groups |
| Masking.GeneratedDict | flare/mask_helper.py:295-334 | when every part builds, the result is the assembled dictionary or its stacking error |
| Masking.GeneratedOk | flare/mask_helper.py:284-334 | fewer than two species groups gives `None`; otherwise success exactly when every part builds and the dictionary assembles |
| Masking.GenerateDictAccepted | flare/mask_helper.py:284-334 | a generated dictionary with one noise value and no three-body cutoffs passes `check_instantiation` unchanged but normalised |
| Masking.GeneratedCut3bRejected | flare/mask_helper.py:326-329 | a generated dictionary with three-body cutoffs never passes `check_instantiation` |
| Masking.AllSweptChain | flare/mask_helper.py:47-56 | the sweeps in order register every name they were given |
| Masking.ParameterMasking.constructor | flare/mask_helper.py:26-45 | empty registries, empty tables, noise flag on, noise 0.05, outputs unset |
| Masking.ParameterMasking.SetParameters | flare/mask_helper.py:169-189 | the tables become `SetParams` of the old ones; the noise flag stays on |
| Masking.ParameterMasking.ListParameters | flare/mask_helper.py:61-73 | tables, noise and outcome are `ApplyParams` of the old ones |
| Masking.ParameterMasking.RegisterName | flare/mask_helper.py:119-125 | the name is registered, the count follows, a new name brings an empty group, and the group id is returned |
| Masking.ParameterMasking.AddSpecies | flare/mask_helper.py:127-133 | elements appended to the group and members, AssertionError on a repeated element |
| Masking.ParameterMasking.AddFresh | flare/mask_helper.py:131-132 | one fresh element appended to group and members |
| Masking.ParameterMasking.DefineLeaves | flare/mask_helper.py:138-158 | each expanded list is resolved and appended, stopping at the first failure |
| Masking.ParameterMasking.DefineSubs | flare/mask_helper.py:159-167 | the recursive call per species group name, in order |
| Masking.ParameterMasking.AddTuple | flare/mask_helper.py:154-155 | one tuple appended to the group and to the type's members |
| Masking.ParameterMasking.DefineMembers | flare/mask_helper.py:127-167 | the species branch or the tuple branch, with the other registry untouched |
| Masking.ParameterMasking.DefineGroup | flare/mask_helper.py:108-167 | `*` as a name is a ValueError; otherwise registration, then species elements or resolved tuples |
| Masking.ParameterMasking.DefineKept | flare/mask_helper.py:108-167 | names are only added, other types untouched, a success registers the name |
| Masking.ParameterMasking.ListSweeping | flare/mask_helper.py:75-106 | RuntimeError out of order; NameError for a non-list species argument; a string argument for another type does nothing; success registers every swept name |
| Masking.ParameterMasking.SweepSpecies | flare/mask_helper.py:80-85 | every item names a species group and its elements are members |
| Masking.ParameterMasking.SweepList | flare/mask_helper.py:95-99 | group `idg` is registered as `f"{t}_{idg}"` |
| Masking.ParameterMasking.SweepDict | flare/mask_helper.py:100-106 | every key is registered; an empty value raises |
| Masking.ParameterMasking.SweepEach | flare/mask_helper.py:102-104 | every entry is defined under one name |
| Masking.ParameterMasking.PrintGroup | flare/mask_helper.py:192-282 | the attributes and outcome become `Printed` of the old ones |
| Masking.ParameterMasking.PrintTuples | flare/mask_helper.py:209-280 | the non-species branches are `PrintedTuples` |
| Masking.ParameterMasking.StorePart | flare/mask_helper.py:213-246 | a built part is stored in the type's attributes |
| Masking.ParameterMasking.PrintAllGroups | flare/mask_helper.py:290-294 | the five calls are `PrintAll` |
| Masking.ParameterMasking.GenerateDict | flare/mask_helper.py:284-334 | the attributes and result become `Generated` of the old ones |
| Masking.ParameterMasking.GenerateFrom | flare/mask_helper.py:289-334 | the branch for at least two species groups |
| Masking.ParameterMasking.Assemble | flare/mask_helper.py:295-333 | the dictionary is assembled from the stored attributes |
| Masking.ParameterMasking.Setup | flare/mask_helper.py:47-59 | after the sweeps, parameters and dictionary, every swept name is registered and the stored dictionary is what `generate_dict` gives |
| Masking.ParameterMasking.ParametersThenDict | flare/mask_helper.py:57-59 | `list_parameters` when given, then `generate_dict` whose result is stored |
| Masking.ParameterMasking.SweepAll | flare/mask_helper.py:47-56 | the sweeps in order register every name given |
| Masking.ParameterMasking.SweepGiven | flare/mask_helper.py:49-56 | an absent argument does nothing; a present one registers its names |

## Left out

- Output files, logging, printing and warnings are not modelled, except where the source writes the model or a checkpoint. Those writes appear as events in the GP log or as checkpoint records.
- Force, energy and uncertainty predictions, DFT calculations and MD integration are oracles or left out. This covers `predict_on_structure*`, `is_std_in_bound*`, `evaluate_training_atoms`, `run_dft_par`, `md.update_positions`, and the temperature and rescaling steps.
- Random choices are modelled as nondeterministic choices. This covers `np.random.shuffle`, `random.sample` and the order of iterating a `set`.
- Floating point is not modelled. The reals are exact; in particular `int(n * (1 - validate_ratio))` is computed without rounding.
- `element_to_Z` is a parameter `z` that maps every element into the 118 slots of the species mask.
- `parse_frame_block` and `structures_from_gpfa_output` parse text and build structures, and are not part of this model. Of `parse_trajectory_trainer_output`, only the `cumulative_gp_size` loop is modelled; `mae_by_elt` is not.
- Of `OTF`, these are not part of this model: `get_structure_from_input`, `compute_properties`, `md_step`, `compute_mae`, `update_temperature`, `rescale_temperature` and `record_state`. They are physics or output.
- `OTF.from_checkpoint` and the JSON round trip are not modelled. `FromDict` takes the dictionary as a value.
- `Otf.Otf.RunDft`: only the DFT count is modelled; the forces and the copying of output files are not.
- `Otf.FromDict`: restores only the recorded fields the loop reads; the structure and the GP file are not modelled.
- The `hyps_mask` argument of `ParameterMasking.__init__` is unused by the source and not modelled. The `specie is None` path of `__init__` is the constructor alone.
- The `parameters` argument of `define_group` is not modelled. Group parameters are set through `set_parameters`.
- `set_parameters` has a `'group_type' == 'noise'` branch. It compares two string literals, so it can never run, and it is not modelled.
- `group_type is 'specie'` is modelled as equality. CPython interns both strings, so the identity test gives the same answer.
- `Masking.ParameterMasking.PrintGroup`: when a group's hyperparameter lookup raises KeyError, the model keeps the old `mask`, `hyps_sig`, `hyps_ls`, `hyps_opt` and `cutoff_list` entries of that group type. The source has by then reset them and refilled part of them (flare/mask_helper.py:213-216, 238, 244-246, 252-255).
- `Masking.ParameterMasking.PrintTuples`: the same gap as `PrintGroup`; on an exception it keeps the group type's old attributes, which the source has already reset and partly rewritten.
- `Masking.ParameterMasking.PrintAllGroups`: on an exception it keeps the attributes of the failing group type as they were before; the source has already reset and partly rewritten them. The group types handled before the failing one are updated as in the source.
- `Masking.ParameterMasking.GenerateDict`: inherits the `PrintAllGroups` gap; after an exception the failing group type's mask and hyperparameter lists are the old ones, not the source's half-written ones.
- `Masking.ParameterMasking.GenerateFrom`: inherits the `PrintAllGroups` gap in the same way.
- The other mask builders keep what they wrote before an exception, as the source does. This covers `set_parameters`, `define_group` with its species registration, and the wildcard prefix resolution.
- `Masking.ParameterMasking.DefineKept`: states only that names are added and other types are untouched. The full state equation is `DefineGroup`'s.
- `Masking.ParameterMasking.ListSweeping`: states the error cases and the names registered, not the full registry state.
- `Masking.ParameterMasking.SweepSpecies`, `Masking.ParameterMasking.SweepList`, `Masking.ParameterMasking.SweepDict`, `Masking.ParameterMasking.SweepEach`, `Masking.ParameterMasking.SweepAll`, `Masking.ParameterMasking.SweepGiven`: state registered names, not full states.
- `Masking.ParameterMasking.Setup`: states the registered names and the stored dictionary, not the full state after an exception.
- `Masking.ParameterMasking.ParametersThenDict`: the stored dictionary is stated only on success.
- `TrajectoryTrainer.Trainer.RunActiveLearning`: states the log's order, its trainings and the names it writes, not the exact events of every frame; those are stated frame by frame in `ActiveFrame` and `ActiveFrameUpdate`. The data is stated only through bounds on the model's size.
- `TrajectoryTrainer.Trainer.RunFrames`: states the plan, the `max_trains` bound, the log's trainings and writes, and the final `check_L_alpha`, not the GP's data or each frame's exact events; those are stated frame by frame in `RunFrame`.
- `TrajectoryTrainer.Trainer.Run`: adds to `RunFrames` the pre-run and the final write; the pre-run's exact events are stated in `PreRun`, not repeated here.
- In `TrajectoryTrainer`, the key normalisation between element symbols and atomic numbers is not modelled. Per-species dictionaries are keyed by species already.
- `TrajectoryTrainer.Trainer.constructor`: the prediction-function selection and the energy/CPU settings are not modelled. The source asserts `skip >= 1` and `0 <= validate_ratio <= 1` (flare/gp_from_aimd.py:210-214), and a failed assertion raises AssertionError. The model makes these two conditions preconditions of the constructor instead of modelling the AssertionError.

## Behaviour of the source the model makes visible

- `write_model_decision` requests a write when the train counter is 0, because `0 % interval == 0` (`Selection.WriteAtZeroTrainings`).
- `run_active_learning` seeds an empty model from the first frame and then still loops over every frame, including frame 0.
- `run_passive_learning` charges the model budget twice. `available_to_add` is decremented by the atoms taken, and `len(train_atoms)` is subtracted from it again (`Selection.PassiveBudgetChargedTwice`).
- In the `run_active_learning` retrain test, `A or B and C` parses as `A or (B and C)`. So the atom threshold ignores `max_trains` (`Selection.ActiveAtomThresholdIgnoresMaxTrains`).
- `generate_dict` interleaves each group's flags as `[sig, ls]`, while the values are stacked as all sigmas and then all length scales. When flags differ, the map selects the wrong entries (`HypsVector.FlagsMisaligned`).
- `check_instantiation` reads the undefined name `nc3b`. So every dictionary with `cutoff_3b` fails (`MaskCheck.Cut3bRejected`, `Masking.GeneratedCut3bRejected`).
- `check_matching` defaults `nmb` to 1. So a generated dictionary without many-body groups fails when given three cutoffs (`MaskCheck.MbDefaultMismatch`).
- `list_sweeping('specie', x)` with `x` not a list reads the misspelled `elemnt_list`, which raises NameError.
- `define_group` with `atomic_str` indexes `all_group_names` by an integer, which raises KeyError whenever an element is found (`Wildcard.Resolve`).
