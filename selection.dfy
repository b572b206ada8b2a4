/**
 * The decision rules of the trajectory trainer (flare/gp_from_aimd.py), as pure
 * functions of its counters and limits: how many atoms of one species a frame may
 * admit, when a model checkpoint is written, when the model is retrained, and how
 * the counters of `run` and `run_active_learning` evolve from one flagged frame to
 * the next. The imperative loops of the trainer call these rules.
 */
module Selection {
  import opened PyNum
  import opened Seqs

  // ---------------------------------------------------------------------------
  // Admission counts

  /** `min(n, caps[0], caps[1], ...)`: an integer, since `n` is one. */
  function MinOf(n: int, caps: seq<Bound>): (r: int)
    ensures r <= n
    ensures forall i :: 0 <= i < |caps| ==> AtMost(r, caps[i])
    ensures r == n || exists i :: 0 <= i < |caps| && caps[i] == Finite(r)
  {
    if caps == [] then n else MinWith(MinOf(n, caps[1..]), caps[0])
  }

  /** `m` atoms out of `n` candidates fit under every cap. */
  predicate Admissible(m: int, n: int, caps: seq<Bound>) {
    0 <= m <= n && forall i :: 0 <= i < |caps| ==> AtMost(m, caps[i])
  }

  /** `max(0, min(n, caps...))`, the number of atoms of one species a frame admits. */
  function AdmitCount(n: nat, caps: seq<Bound>): (r: nat)
    ensures r <= n
    ensures r == 0 || Admissible(r, n, caps)
  {
    var m := MinOf(n, caps);
    if m < 0 then 0 else m
  }

  /** The admitted count is the largest count that fits under every cap. */
  lemma AdmitCountIsGreatest(m: int, n: nat, caps: seq<Bound>)
    requires Admissible(m, n, caps)
    ensures m <= AdmitCount(n, caps)
    ensures Admissible(AdmitCount(n, caps), n, caps)
  {
    var r := MinOf(n, caps);
    if r != n {
      var i :| 0 <= i < |caps| && caps[i] == Finite(r);
      assert AtMost(m, caps[i]);
    }
  }

  /**
   * The caps of `run_passive_learning` for one species, given the atoms already taken
   * from the frame (`taken`) and the budget left (`available`, already reduced by them):
   * the species' per-frame cap, the frame cap, the model budget and the element's
   * model cap less what the model already holds of that element.
   */
  function PassiveCaps(speciesCap: Bound, frameCap: Bound, available: Bound, taken: nat,
                       elementCap: Bound, held: nat): (r: seq<Bound>)
    ensures |r| == 4
    ensures r[0] == speciesCap && r[1] == Minus(frameCap, taken)
    ensures r[2] == Minus(available, taken) && r[3] == Minus(elementCap, held)
  {
    [speciesCap, Minus(frameCap, taken), Minus(available, taken), Minus(elementCap, held)]
  }

  /**
   * The charge against the model budget: once `taken` atoms are admitted the budget
   * has already dropped by `taken`, and the cap subtracts `taken` again, so a later
   * species of the same frame may only use what is left after charging twice.
   */
  lemma PassiveBudgetChargedTwice(n: nat, speciesCap: Bound, frameCap: Bound, budget: int,
                                  taken: nat, elementCap: Bound, held: nat)
    requires taken <= budget
    ensures AdmitCount(n, PassiveCaps(speciesCap, frameCap, Finite(budget - taken), taken, elementCap, held))
            <= if budget - 2 * taken < 0 then 0 else budget - 2 * taken
  {
    var caps := PassiveCaps(speciesCap, frameCap, Finite(budget - taken), taken, elementCap, held);
    assert caps[2] == Finite(budget - 2 * taken);
  }

  /** `len(xs[:k])` for a list of length `n` */
  function PySliceLen(n: nat, k: int): (r: nat)
    ensures r <= n
    ensures 0 <= k ==> r == if k < n then k else n
    ensures k < 0 ==> r == if n + k < 0 then 0 else n + k
  {
    if k >= 0 then (if k < n then k else n) else (if n + k < 0 then 0 else n + k)
  }

  /**
   * `len(atoms_of_specie[:min(n_at, cap, max_atoms_from_frame)])` in `pre_run`: with
   * non-negative caps this is the admitted count; a negative cap `-c` instead drops the
   * last `c` candidates, as Python's slice does.
   */
  lemma SeedTakeMatchesAdmitCount(n: nat, caps: seq<Bound>)
    ensures PySliceLen(n, MinOf(n, caps)) <= n
    ensures (forall i :: 0 <= i < |caps| ==> AtMost(0, caps[i])) ==>
              PySliceLen(n, MinOf(n, caps)) == AdmitCount(n, caps)
    ensures MinOf(n, caps) < 0 ==> PySliceLen(n, MinOf(n, caps)) == (if n + MinOf(n, caps) < 0 then 0 else n + MinOf(n, caps))
  {
    if forall i :: 0 <= i < |caps| ==> AtMost(0, caps[i]) {
      AdmitCountIsGreatest(0, n, caps);
    }
  }

  // ---------------------------------------------------------------------------
  // Training frame

  /** `int(n * (1 - validate_ratio))`, in exact arithmetic. */
  function TrainFrame(n: nat, validateRatio: real): int
  {
    Truncate(n as real * (1.0 - validateRatio))
  }

  lemma TrainFrameBounds(n: nat, validateRatio: real)
    requires 0.0 <= validateRatio <= 1.0
    ensures 0 <= TrainFrame(n, validateRatio) <= n
    ensures validateRatio == 0.0 ==> TrainFrame(n, validateRatio) == n
    ensures validateRatio == 1.0 ==> TrainFrame(n, validateRatio) == 0
  {
    var x := n as real * (1.0 - validateRatio);
    assert 0.0 <= x <= n as real by {
      assert 0.0 <= 1.0 - validateRatio <= 1.0;
      assert x <= n as real * 1.0;
    }
  }

  // ---------------------------------------------------------------------------
  // Flagged atoms of `run`

  /** `set(std_atoms).union(force_atoms) - {-1}` */
  function MergeFlags(stdAtoms: seq<int>, forceAtoms: seq<int>): (r: set<int>)
    ensures -1 !in r
    ensures forall a :: a in r <==> a != -1 && (a in stdAtoms || a in forceAtoms)
  {
    (Elems(stdAtoms) + Elems(forceAtoms)) - {-1}
  }

  /** A list made from the merged set never holds more atoms than the two flags together. */
  lemma MergedListBound(stdAtoms: seq<int>, forceAtoms: seq<int>, atoms: seq<int>)
    requires Distinct(atoms) && Elems(atoms) == MergeFlags(stdAtoms, forceAtoms)
    ensures |atoms| <= |stdAtoms| + |forceAtoms|
    ensures forall i :: 0 <= i < |atoms| ==> atoms[i] != -1
  {
    DistinctCard(atoms);
    ElemsCard(stdAtoms);
    ElemsCard(forceAtoms);
    assert |Elems(stdAtoms) + Elems(forceAtoms)| <= |Elems(stdAtoms)| + |Elems(forceAtoms)|;
    assert Elems(atoms) <= Elems(stdAtoms) + Elems(forceAtoms);
    SubsetCard(Elems(atoms), Elems(stdAtoms) + Elems(forceAtoms));
  }

  lemma SubsetCard<T>(a: set<T>, b: set<T>)
    requires a <= b
    ensures |a| <= |b|
  {
    assert b == a + (b - a);
  }

  lemma {:induction false} DistinctCard<T>(s: seq<T>)
    requires Distinct(s)
    ensures |Elems(s)| == |s|
    decreases |s|
  {
    if s != [] {
      DistinctCard(s[1..]);
      assert Elems(s) == {s[0]} + Elems(s[1..]);
      assert s[0] !in Elems(s[1..]);
    }
  }

  lemma {:induction false} ElemsCard<T>(s: seq<T>)
    ensures |Elems(s)| <= |s|
    decreases |s|
  {
    if s != [] {
      ElemsCard(s[1..]);
      assert Elems(s) == {s[0]} + Elems(s[1..]);
    }
  }

  // ---------------------------------------------------------------------------
  // `write_model_decision`

  /**
   * `will_write` of `write_model_decision`: the train interval is set and divides the
   * number of trainings so far, or the atom interval and the atom counter are set and
   * the counter has reached the interval.
   */
  predicate WillWrite(trainInterval: int, atomCounter: int, atomInterval: int, trainCounter: int) {
    (trainInterval != 0 && PyMod(trainCounter, trainInterval) == 0)
    || (atomInterval != 0 && atomCounter != 0 && atomInterval <= atomCounter)
  }

  /** Before any training has happened a set train interval already asks for a write. */
  lemma WriteAtZeroTrainings(trainInterval: int, atomCounter: int, atomInterval: int)
    requires trainInterval != 0
    ensures WillWrite(trainInterval, atomCounter, atomInterval, 0)
  {
  }

  /** With no atom trigger, a write is due exactly at the multiples of the train interval. */
  lemma WritePeriodic(trainInterval: int, atomInterval: int, trainCounter: int, k: int)
    requires trainInterval != 0
    ensures WillWrite(trainInterval, 0, atomInterval, trainCounter) <==> trainCounter % trainInterval == 0
    ensures WillWrite(trainInterval, 0, atomInterval, k * trainInterval)
  {
    assert (k * trainInterval) % trainInterval == 0 by { MulMod(k, trainInterval); }
  }

  lemma MulMod(k: int, d: int)
    requires d != 0
    ensures (k * d) % d == 0
  {
    var m := if d > 0 then d else -d;
    var q := if d > 0 then k else -k;
    assert k * d == q * m;
    DivUnique(k * d, m, q, 0);
    if d < 0 {
      assert (k * d) % d == (k * d) % m;
    }
  }

  /** Both intervals unset: the model is never written. */
  lemma WriteDisabled(atomCounter: int, trainCounter: int)
    ensures !WillWrite(0, atomCounter, 0, trainCounter)
  {
  }

  // ---------------------------------------------------------------------------
  // Checkpoints of `run`

  datatype Checkpoint = Checkpoint(write: bool, trainsSinceWrite: int, atomsSinceWrite: int)

  /** The train condition of `run`'s checkpoint. */
  predicate TrainCheckpointDue(trainInterval: int, trainsSinceWrite: int) {
    trainInterval != 0 && trainsSinceWrite != 0 && trainInterval <= trainsSinceWrite
  }

  /** The atom condition of `run`'s checkpoint. */
  predicate AtomCheckpointDue(atomInterval: int, atomsSinceWrite: int) {
    atomInterval != 0 && atomsSinceWrite != 0 && atomInterval <= atomsSinceWrite
  }

  /**
   * `run`'s checkpoint rule: write when either condition holds, and reset to 0 only
   * the counter whose condition held.
   */
  function CheckpointDecision(trainInterval: int, trainsSinceWrite: int,
                              atomInterval: int, atomsSinceWrite: int): (r: Checkpoint)
    ensures r.write <==> TrainCheckpointDue(trainInterval, trainsSinceWrite)
                         || AtomCheckpointDue(atomInterval, atomsSinceWrite)
    ensures r.trainsSinceWrite == if TrainCheckpointDue(trainInterval, trainsSinceWrite) then 0 else trainsSinceWrite
    ensures r.atomsSinceWrite == if AtomCheckpointDue(atomInterval, atomsSinceWrite) then 0 else atomsSinceWrite
  {
    var trainDue := TrainCheckpointDue(trainInterval, trainsSinceWrite);
    var atomDue := AtomCheckpointDue(atomInterval, atomsSinceWrite);
    Checkpoint(trainDue || atomDue,
               if trainDue then 0 else trainsSinceWrite,
               if atomDue then 0 else atomsSinceWrite)
  }

  /** Deciding again right after a decision writes nothing and resets nothing. */
  lemma CheckpointIdempotent(trainInterval: int, trainsSinceWrite: int, atomInterval: int, atomsSinceWrite: int)
    ensures var r := CheckpointDecision(trainInterval, trainsSinceWrite, atomInterval, atomsSinceWrite);
            var r2 := CheckpointDecision(trainInterval, r.trainsSinceWrite, atomInterval, r.atomsSinceWrite);
            !r2.write && r2.trainsSinceWrite == r.trainsSinceWrite && r2.atomsSinceWrite == r.atomsSinceWrite
  {
  }

  // ---------------------------------------------------------------------------
  // The counters of `run`, one flagged frame at a time

  datatype TrainAction = FullTrain | Refresh

  datatype RunConfig = RunConfig(minAtomsPerTrain: int, maxTrains: Bound,
                                 trainInterval: int, atomInterval: int, mapped: bool)

  /** `cur_atoms_added_train`, `cur_atoms_added_write`, `cur_trains_done_write` and `train_count`. */
  datatype RunState = RunState(atomsSinceTrain: int, atomsSinceWrite: int, trainsSinceWrite: int, trainCount: int)

  datatype RunOutcome = RunOutcome(state: RunState, action: TrainAction, write: bool)

  /**
   * The counter update of `run` for a frame whose flagged atoms (`added` of them) were
   * added to the model. `last` says whether the frame is the last training frame.
   */
  function RunFrameStep(s: RunState, added: nat, last: bool, cfg: RunConfig): (r: RunOutcome)
    ensures r.action == FullTrain <==>
              (s.atomsSinceTrain + added >= cfg.minAtomsPerTrain || last) && Below(s.trainCount, cfg.maxTrains)
    ensures r.state.atomsSinceTrain ==
              if s.atomsSinceTrain + added >= cfg.minAtomsPerTrain || last then 0 else s.atomsSinceTrain + added
    ensures r.state.trainCount == s.trainCount + (if r.action == FullTrain && !cfg.mapped then 1 else 0)
  {
    var atomsSinceTrain := s.atomsSinceTrain + added;
    var due := atomsSinceTrain >= cfg.minAtomsPerTrain || last;
    var train := due && Below(s.trainCount, cfg.maxTrains);
    var trainsSinceWrite := if train then s.trainsSinceWrite + 1 else s.trainsSinceWrite;
    var c := CheckpointDecision(cfg.trainInterval, trainsSinceWrite, cfg.atomInterval, s.atomsSinceWrite + added);
    RunOutcome(
      RunState(if due then 0 else atomsSinceTrain, c.atomsSinceWrite, c.trainsSinceWrite,
               if train && !cfg.mapped then s.trainCount + 1 else s.trainCount),
      if train then FullTrain else Refresh,
      c.write)
  }

  /**
   * What holds between frames of `run`: the atom counter is below its threshold, each
   * checkpoint counter is below its interval, and the train count has not gone past
   * `max_trains` unless it started there.
   */
  predicate RunInvariant(s: RunState, cfg: RunConfig, startCount: int) {
    && (s.atomsSinceTrain == 0 || s.atomsSinceTrain < cfg.minAtomsPerTrain)
    && (s.trainsSinceWrite == 0 || !TrainCheckpointDue(cfg.trainInterval, s.trainsSinceWrite))
    && (s.atomsSinceWrite == 0 || !AtomCheckpointDue(cfg.atomInterval, s.atomsSinceWrite))
    && (s.trainCount == startCount || AtMost(s.trainCount, cfg.maxTrains))
    && s.trainCount >= startCount
  }

  lemma RunFrameStepKeepsInvariant(s: RunState, added: nat, last: bool, cfg: RunConfig, startCount: int)
    requires RunInvariant(s, cfg, startCount)
    ensures RunInvariant(RunFrameStep(s, added, last, cfg).state, cfg, startCount)
  {
  }

  /** The initial counters of `run` satisfy the invariant. */
  lemma RunInvariantInitially(trainCount: int, cfg: RunConfig)
    ensures RunInvariant(RunState(0, 0, 0, trainCount), cfg, trainCount)
  {
  }

  /** `run` never trains once `train_count` has reached `max_trains`. */
  lemma RunRespectsMaxTrains(s: RunState, added: nat, last: bool, cfg: RunConfig)
    requires !Below(s.trainCount, cfg.maxTrains)
    ensures RunFrameStep(s, added, last, cfg).action == Refresh
    ensures RunFrameStep(s, added, last, cfg).state.trainCount == s.trainCount
  {
  }

  // ---------------------------------------------------------------------------
  // The counters of `run_active_learning`, one flagged frame at a time

  datatype ActiveConfig = ActiveConfig(minAtomsPerTrain: int, maxTrains: Bound, trainFrame: int,
                                       writeTrainInterval: int, writeAtomInterval: int, maxModelSize: Bound)

  /** `train_model_atom_counter`, `write_model_atom_counter`, `train_counter`, `max_atoms_from_frame`. */
  datatype ActiveState = ActiveState(atomsSinceTrain: int, atomsSinceWrite: int, trainCounter: int,
                                     maxAtomsFromFrame: Bound)

  datatype ActiveOutcome = ActiveOutcome(state: ActiveState, fits: bool, action: TrainAction, write: bool)

  /** The retrain test of `run_active_learning`, parsed as Python parses it: `A or (B and C)`. */
  predicate ActiveRetrainDue(atomsSinceTrain: int, i: int, trainCounter: int, cfg: ActiveConfig) {
    atomsSinceTrain >= cfg.minAtomsPerTrain || ((i + 1) == cfg.trainFrame && AtMost(trainCounter, cfg.maxTrains))
  }

  /**
   * The update of `run_active_learning` for frame `i` whose `added` flagged atoms were
   * found while the model held `size` environments.
   */
  function ActiveFrameStep(s: ActiveState, size: nat, added: nat, i: int, cfg: ActiveConfig): (r: ActiveOutcome)
    ensures r.fits <==> AtMost(size + added, cfg.maxModelSize)
    ensures r.state.maxAtomsFromFrame == if r.fits then s.maxAtomsFromFrame else Finite(0)
    ensures r.action == FullTrain <==> ActiveRetrainDue(s.atomsSinceTrain + added, i, s.trainCounter, cfg)
    ensures r.state.trainCounter == s.trainCounter + (if r.action == FullTrain then 1 else 0)
    ensures r.write == WillWrite(cfg.writeTrainInterval, s.atomsSinceWrite + added,
                                 cfg.writeAtomInterval, r.state.trainCounter)
  {
    var fits := AtMost(size + added, cfg.maxModelSize);
    var atomsSinceTrain := s.atomsSinceTrain + added;
    var atomsSinceWrite := s.atomsSinceWrite + added;
    var retrain := ActiveRetrainDue(atomsSinceTrain, i, s.trainCounter, cfg);
    var trainCounter := if retrain then s.trainCounter + 1 else s.trainCounter;
    var write := WillWrite(cfg.writeTrainInterval, atomsSinceWrite, cfg.writeAtomInterval, trainCounter);
    ActiveOutcome(
      ActiveState(if retrain then 0 else atomsSinceTrain, if write then 0 else atomsSinceWrite,
                  trainCounter, if fits then s.maxAtomsFromFrame else Finite(0)),
      fits, if retrain then FullTrain else Refresh, write)
  }

  /**
   * What holds between frames of `run_active_learning`: the atom counters are below their
   * thresholds and a saturated model stays saturated.
   */
  predicate ActiveInvariant(s: ActiveState, cfg: ActiveConfig, saturated: bool) {
    && (s.atomsSinceTrain == 0 || s.atomsSinceTrain < cfg.minAtomsPerTrain)
    && (s.atomsSinceWrite == 0 || !(cfg.writeAtomInterval != 0 && cfg.writeAtomInterval <= s.atomsSinceWrite))
    && (saturated ==> s.maxAtomsFromFrame == Finite(0))
  }

  lemma ActiveFrameStepKeepsInvariant(s: ActiveState, size: nat, added: nat, i: int, cfg: ActiveConfig, saturated: bool)
    requires ActiveInvariant(s, cfg, saturated)
    ensures var r := ActiveFrameStep(s, size, added, i, cfg);
            ActiveInvariant(r.state, cfg, saturated || !r.fits)
  {
  }

  /**
   * Unlike `run`, the atom threshold of `run_active_learning` retrains however many
   * trainings have already happened; `max_trains` only guards the last-frame retrain.
   */
  lemma ActiveAtomThresholdIgnoresMaxTrains(s: ActiveState, size: nat, added: nat, i: int, cfg: ActiveConfig)
    requires s.atomsSinceTrain + added >= cfg.minAtomsPerTrain
    ensures ActiveFrameStep(s, size, added, i, cfg).action == FullTrain
    ensures ActiveFrameStep(s, size, added, i, cfg).state.trainCounter == s.trainCounter + 1
  {
  }

  /** The last-frame retrain of `run_active_learning` is allowed up to `train_counter == max_trains`. */
  lemma ActiveLastFrameRetrain(s: ActiveState, size: nat, added: nat, cfg: ActiveConfig)
    requires s.atomsSinceTrain + added < cfg.minAtomsPerTrain
    ensures ActiveFrameStep(s, size, added, cfg.trainFrame - 1, cfg).action == FullTrain
            <==> AtMost(s.trainCounter, cfg.maxTrains)
  {
  }
}
