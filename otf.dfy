/**
 * The on-the-fly trainer: a molecular-dynamics run that predicts with the Gaussian
 * process and, whenever the predicted uncertainty leaves its bound, calls DFT on the
 * current structure and adds the most uncertain atoms to the model. The physics
 * (forces, positions, temperatures) and DFT itself are not modelled; what is
 * modelled is the bookkeeping the controller does on its counters, on the model,
 * on the frames it records and on the checkpoints it writes.
 */
module Otf {
  import opened Wrappers
  import opened Seqs
  import opened GaussianProcess
  import opened OtfRules

  /** What `is_std_in_bound` answers: whether the uncertainty is in bound, and the atoms to add. */
  datatype StdVerdict = StdVerdict(inBound: bool, atoms: seq<int>)

  /**
   * `is_std_in_bound` on the structure at a step, seen through the step number and
   * the model's training data; the structure and the prediction are not modelled.
   */
  type StdCheck = (int, seq<Species>) -> StdVerdict

  /** The uncertainty check only names atoms of the structure. */
  ghost predicate NamesAtoms(std: StdCheck, noa: nat) {
    forall step, data :: ValidIndices(std(step, data).atoms, noa)
  }

  /** `list(range(n))` */
  function Range(n: nat): (r: seq<int>)
    ensures |r| == n && forall i :: 0 <= i < n ==> r[i] == i
    ensures ValidIndices(r, n)
  {
    seq(n, i => i)
  }

  function GpFileName(outputName: string): string {
    outputName + "_gp.json"
  }

  function CheckpointName(outputName: string): string {
    outputName + "_checkpt.json"
  }

  /**
   * The events `update_gp` sends to the model: the new data, with energy and stress
   * dropped under `force_only`, a refactorisation, then an optimisation (and, at write
   * level 2, a write) while hyperparameters are not frozen, and a write at level 3.
   */
  function UpdateEvents(count: nat, forceOnly: bool, trains: bool, writeModel: int, gpName: string): seq<Event>
  {
    var added := [Added(count, !forceOnly, !forceOnly)] + [FactorSet];
    var trained := if trains then added + [Trained(None)] else added;
    var written := if trains && writeModel == 2 then trained + [Written(gpName)] else trained;
    if writeModel == 3 then written + [Written(gpName)] else written
  }

  /** The dictionary `as_dict` writes into a checkpoint, reduced to what a restore reads back. */
  datatype OtfRecord = OtfRecord(
    species: seq<Species>,
    numberOfSteps: int,
    writeModel: int,
    forceOnly: bool,
    skip: int,
    initAtoms: seq<int>,
    outputName: string,
    freezeHyps: int,
    minStepsWithModel: int,
    dftModule: string,
    gpName: string,
    stdTolerance: real,
    dftStep: bool,
    dftCount: int,
    currStep: int,
    stepsSinceDft: int)

  /** Steps at least `gap` apart, in increasing order when `gap >= 1`. */
  ghost predicate Spaced(steps: seq<int>, gap: int) {
    forall k :: 0 <= k < |steps| - 1 ==> steps[k + 1] - steps[k] >= gap
  }

  ghost predicate Within(steps: seq<int>, lo: int, hi: int) {
    forall k :: 0 <= k < |steps| ==> lo <= steps[k] < hi
  }

  /** Every checkpoint of the list went to `name`. */
  ghost predicate AllNamed(checkpoints: seq<(string, OtfRecord)>, name: string) {
    forall k :: 0 <= k < |checkpoints| ==> checkpoints[k].0 == name
  }

  lemma AllNamedAppend(checkpoints: seq<(string, OtfRecord)>, entry: (string, OtfRecord), name: string)
    requires AllNamed(checkpoints, name) && entry.0 == name
    ensures AllNamed(checkpoints + [entry], name)
  {
    assert forall k :: 0 <= k < |checkpoints| ==> (checkpoints + [entry])[k] == checkpoints[k];
  }

  /**
   * The DFT calls of a run so far, from step `start` up to `now`: spaced by more than
   * `minSteps` steps, and `sinceDft` counts the steps since the last one (or since the
   * run's start, on top of the count it started with).
   */
  ghost predicate DftTrace(calls: seq<int>, start: int, now: int, sinceDft: int, startSince: int, minSteps: int) {
    && Within(calls, start, now)
    && Spaced(calls, minSteps + 1)
    && sinceDft == (if calls == [] then startSince + now - start else now - calls[|calls| - 1])
    && (calls != [] ==> startSince + calls[0] - start > minSteps)
  }

  /** A DFT call is only made once more than `minSteps` steps have passed, so the trace stays spaced. */
  lemma DftTraceStep(calls: seq<int>, start: int, now: int, sinceDft: int, startSince: int, minSteps: int,
                     called: bool, next: seq<int>, sinceNext: int)
    requires start <= now && DftTrace(calls, start, now, sinceDft, startSince, minSteps)
    requires called ==> sinceDft > minSteps
    requires next == (if called then calls + [now] else calls)
    requires sinceNext == (if called then 0 else sinceDft) + 1
    ensures DftTrace(next, start, now + 1, sinceNext, startSince, minSteps)
  {
    assert forall k :: 0 <= k < |calls| ==> next[k] == calls[k];
  }

  /** No step of `a` is a step of `b`. */
  ghost predicate Apart(a: seq<int>, b: seq<int>) {
    forall i, j :: 0 <= i < |a| && 0 <= j < |b| ==> a[i] != b[j]
  }

  /**
   * The model frames of a run so far: at least `skip` steps apart and after the
   * start, never on a DFT step, and `counter` counts the steps since the last one.
   */
  ghost predicate FrameTrace(frames: seq<int>, calls: seq<int>, start: int, now: int, counter: int, skip: int) {
    && Within(frames, start, now)
    && Spaced(frames, skip) && Spaced(frames, 1)
    && counter == (if frames == [] then now - start else now - frames[|frames| - 1])
    && (frames != [] ==> frames[0] - start >= skip)
    && Apart(frames, calls)
  }

  /** A frame is only recorded once `counter` has reached `skip`, and never on a DFT step. */
  lemma FrameTraceStep(frames: seq<int>, calls: seq<int>, start: int, now: int, counter: int, skip: int,
                       called: bool, recorded: bool, nextFrames: seq<int>, nextCalls: seq<int>, nextCounter: int)
    requires start <= now && FrameTrace(frames, calls, start, now, counter, skip) && Within(calls, start, now)
    requires recorded ==> counter >= skip && !called
    requires nextFrames == (if recorded then frames + [now] else frames)
    requires nextCalls == (if called then calls + [now] else calls)
    requires nextCounter == (if recorded then 0 else counter) + 1
    ensures FrameTrace(nextFrames, nextCalls, start, now + 1, nextCounter, skip)
  {
    assert forall k :: 0 <= k < |frames| ==> nextFrames[k] == frames[k];
    assert forall k :: 0 <= k < |calls| ==> nextCalls[k] == calls[k];
    forall i, j | 0 <= i < |nextFrames| && 0 <= j < |nextCalls| ensures nextFrames[i] != nextCalls[j] {
      if i < |frames| && j < |calls| {
        assert frames[i] != calls[j];
      } else if i < |frames| {
        assert frames[i] < now;
      } else if j < |calls| {
        assert calls[j] < now;
      } else {
        assert false;
      }
    }
  }

  /**
   * What the loop of `run` has done since step `start`, in plain values: when the
   * initial training ran, how many DFT calls, optimisations, writes and checkpoints
   * there were, and the traces of DFT calls and model frames.
   */
  ghost predicate Bookkept(start: int, startSince: int, startDft: int, initialDue: bool,
                           minSteps: int, skip: int, writeModel: int, freezeHyps: int,
                           now: int, sinceDft: int, dft: int, trained: int, written: int, checkpointed: int,
                           calls: seq<int>, frames: seq<int>, counter: int, initialized: bool)
  {
    && start <= now
    && (now == start ==> !initialized)
    && (initialized ==> start <= 0 < now)
    && (initialDue && now > start ==> initialized)
    && dft == startDft + |calls| + (if initialized then 1 else 0)
    && trained == FrozenTrainings(startDft, dft, freezeHyps)
    && written == (if writeModel == 2 then trained else if writeModel == 3 then dft - startDft else 0)
    && checkpointed == (if writeModel == 3 then now - start else 0)
    && DftTrace(calls, start, now, sinceDft, startSince, minSteps)
    && FrameTrace(frames, calls, start, now, counter, skip)
  }

  /** One iteration of the loop keeps the account. */
  lemma BookkeptStep(start: int, startSince: int, startDft: int, initialDue: bool,
                     minSteps: int, skip: int, writeModel: int, freezeHyps: int,
                     now: int, sinceDft: int, dft: int, trained: int, written: int, checkpointed: int,
                     calls: seq<int>, frames: seq<int>, counter: int, initialized: bool,
                     initial: bool, called: bool, recorded: bool,
                     now': int, sinceDft': int, dft': int, trained': int, written': int, checkpointed': int,
                     calls': seq<int>, frames': seq<int>, counter': int, initialized': bool)
    requires Bookkept(start, startSince, startDft, initialDue, minSteps, skip, writeModel, freezeHyps,
                      now, sinceDft, dft, trained, written, checkpointed, calls, frames, counter, initialized)
    requires initial ==> now == 0
    requires now == start ==> initial == initialDue
    requires called ==> !initial && sinceDft > minSteps
    requires recorded ==> counter >= skip && !called
    requires sinceDft' == (if called then 0 else sinceDft) + 1
    requires dft' == dft + (if initial || called then 1 else 0)
    requires trained' == trained + (if (initial || called) && dft' - 1 < freezeHyps then 1 else 0)
    requires written' == written + (if (initial || called) && dft' - 1 < freezeHyps && writeModel == 2 then 1 else 0)
                                 + (if (initial || called) && writeModel == 3 then 1 else 0)
    requires checkpointed' == checkpointed + (if writeModel == 3 then 1 else 0)
    requires counter' == (if recorded then 0 else counter) + 1
    requires now' == now + 1 && initialized' == (initialized || initial)
    requires calls' == (if called then calls + [now] else calls)
    requires frames' == (if recorded then frames + [now] else frames)
    ensures Bookkept(start, startSince, startDft, initialDue, minSteps, skip, writeModel, freezeHyps,
                     now', sinceDft', dft', trained', written', checkpointed', calls', frames', counter', initialized')
  {
    FrozenStep(startDft, dft, freezeHyps, initial || called);
    DftTraceStep(calls, start, now, sinceDft, startSince, minSteps, called, calls', sinceDft');
    FrameTraceStep(frames, calls, start, now, counter, skip, called, recorded, frames', calls', counter');
  }

  /** Where a run's loop started: the step, the counters, the model and the checkpoints then. */
  datatype Origin = Origin(step: int, sinceDft: int, dftCount: int, trained: nat, written: nat,
                           checkpoints: seq<(string, OtfRecord)>, data: seq<Species>, tolerance: real,
                           initialDue: bool)

  /** What the loop has recorded since: DFT steps, model frames, the initial training, checkpoints. */
  datatype Progress = Progress(calls: seq<int>, frames: seq<int>, initialized: bool,
                               added: seq<(string, OtfRecord)>)

  class Otf {
    const gp: Gp
    /** The species of the structure's atoms; `noa` is its length. */
    const species: seq<Species>
    const numberOfSteps: int
    const writeModel: int
    const forceOnly: bool
    const skip: int
    const initAtoms: seq<int>
    const outputName: string
    const freezeHyps: int
    const minStepsWithModel: int
    /** The name of the module that runs DFT, as `as_dict` records it. */
    const dftModule: string
    const gpName: string
    const checkptName: string

    var stdTolerance: real
    var dftStep: bool
    var dftCount: int
    var currStep: int
    var stepsSinceDft: int
    /** The checkpoints written so far: the file and the dictionary written to it. */
    ghost var checkpoints: seq<(string, OtfRecord)>

    /** `__init__`, with the settings the controller uses; `init_atoms` defaults to every atom. */
    constructor (gp: Gp, species: seq<Species>, numberOfSteps: int, writeModel: int, forceOnly: bool,
                 stdToleranceFactor: real, skip: int, initAtoms: Option<seq<int>>, outputName: string,
                 freezeHyps: int, minStepsWithModel: int, dftModule: string)
      ensures this.gp == gp && this.species == species && this.numberOfSteps == numberOfSteps
      ensures this.writeModel == writeModel && this.forceOnly == forceOnly && this.skip == skip
      ensures this.outputName == outputName && this.freezeHyps == freezeHyps
      ensures this.minStepsWithModel == minStepsWithModel && this.dftModule == dftModule
      ensures this.initAtoms == if initAtoms.None? then Range(|species|) else initAtoms.value
      ensures initAtoms.None? ==> ValidIndices(this.initAtoms, |species|)
      ensures gpName == GpFileName(outputName) && checkptName == CheckpointName(outputName)
      ensures stdTolerance == stdToleranceFactor
      ensures dftStep && dftCount == 0 && currStep == 0 && stepsSinceDft == 0
      ensures checkpoints == []
    {
      this.gp := gp;
      this.species := species;
      this.numberOfSteps := numberOfSteps;
      this.writeModel := writeModel;
      this.forceOnly := forceOnly;
      this.skip := skip;
      this.initAtoms := if initAtoms.None? then Range(|species|) else initAtoms.value;
      this.outputName := outputName;
      this.freezeHyps := freezeHyps;
      this.minStepsWithModel := minStepsWithModel;
      this.dftModule := dftModule;
      this.gpName := GpFileName(outputName);
      this.checkptName := CheckpointName(outputName);
      stdTolerance := stdToleranceFactor;
      dftStep := true;
      dftCount := 0;
      currStep := 0;
      stepsSinceDft := 0;
      checkpoints := [];
    }

    /** `as_dict`: every setting and counter, with the model replaced by its file name. */
    function AsDict(): OtfRecord
      reads this
    {
      OtfRecord(species, numberOfSteps, writeModel, forceOnly, skip, initAtoms, outputName, freezeHyps,
                minStepsWithModel, dftModule, gpName, stdTolerance, dftStep, dftCount, currStep, stepsSinceDft)
    }

    /** `checkpoint`: the current dictionary goes to the normalised checkpoint name. */
    method Checkpoint()
      modifies this
      ensures checkpoints == old(checkpoints) + [(CheckpointFileName(checkptName), AsDict())]
      ensures EndsWith(checkpoints[|checkpoints| - 1].0, JsonSuffix)
      ensures unchanged(this`stdTolerance, this`dftStep, this`dftCount, this`currStep, this`stepsSinceDft)
    {
      checkpoints := checkpoints + [(CheckpointFileName(checkptName), AsDict())];
    }

    /** `run_dft`: only the count of DFT calls is modelled. */
    method RunDft()
      modifies this
      ensures dftCount == old(dftCount) + 1
      ensures unchanged(this`stdTolerance, this`dftStep, this`currStep, this`stepsSinceDft, this`checkpoints)
    {
      dftCount := dftCount + 1;
    }

    /**
     * `update_gp`: the listed atoms join the training set, the factorisation is reset,
     * and hyperparameters are optimised only while `dft_count - 1 < freeze_hyps`.
     */
    method UpdateGp(atoms: seq<int>)
      requires ValidIndices(atoms, |species|)
      modifies gp
      ensures gp.data == old(gp.data) + Gather(species, atoms)
      ensures gp.log == old(gp.log) + UpdateEvents(|atoms|, forceOnly, dftCount - 1 < freezeHyps, writeModel, gpName)
      ensures Trainings(gp.log) == Trainings(old(gp.log)) + (if dftCount - 1 < freezeHyps then 1 else 0)
      ensures Writes(gp.log) == Writes(old(gp.log))
                                + (if dftCount - 1 < freezeHyps && writeModel == 2 then 1 else 0)
                                + (if writeModel == 3 then 1 else 0)
    {
      ghost var base := old(gp.log);
      var trains := dftCount - 1 < freezeHyps;
      gp.UpdateDb(species, atoms, !forceOnly, !forceOnly);
      ghost var ev := [Added(|atoms|, !forceOnly, !forceOnly)];
      CountsStep(base, ev[0]);
      CountsStep(gp.log, FactorSet);
      AppendAssoc(base, ev, [FactorSet]);
      gp.SetLAlpha();
      ev := ev + [FactorSet];
      ghost var ev2 := ev;
      if trains {
        CountsStep(gp.log, Trained(None));
        AppendAssoc(base, ev, [Trained(None)]);
        gp.Train(None);
        ev := ev + [Trained(None)];
        if writeModel == 2 {
          CountsStep(gp.log, Written(gpName));
          AppendAssoc(base, ev, [Written(gpName)]);
          gp.WriteModel(gpName);
          ev := ev + [Written(gpName)];
        }
      }
      ghost var ev3 := ev;
      if writeModel == 3 {
        CountsStep(gp.log, Written(gpName));
        AppendAssoc(base, ev, [Written(gpName)]);
        gp.WriteModel(gpName);
        ev := ev + [Written(gpName)];
      }
      assert gp.log == base + ev;
      assert ev == UpdateEvents(|atoms|, forceOnly, trains, writeModel, gpName);
    }

    /** `initialize_train`: one DFT call, then the initial atoms are added to the model. */
    method InitializeTrain()
      requires ValidIndices(initAtoms, |species|)
      modifies this, gp
      ensures dftCount == old(dftCount) + 1
      ensures gp.data == old(gp.data) + Gather(species, initAtoms)
      ensures gp.log == old(gp.log) + UpdateEvents(|initAtoms|, forceOnly, dftCount - 1 < freezeHyps, writeModel, gpName)
      ensures Trainings(gp.log) == Trainings(old(gp.log)) + (if dftCount - 1 < freezeHyps then 1 else 0)
      ensures Writes(gp.log) == Writes(old(gp.log))
                                + (if dftCount - 1 < freezeHyps && writeModel == 2 then 1 else 0)
                                + (if writeModel == 3 then 1 else 0)
      ensures unchanged(this`stdTolerance, this`dftStep, this`currStep, this`stepsSinceDft, this`checkpoints)
    {
      RunDft();
      UpdateGp(initAtoms);
    }

    /** Whether the iteration at the current step trains the initial model instead of predicting. */
    predicate InitialStep()
      reads this, gp
    {
      currStep == 0 && stdTolerance != 0.0 && |gp.data| == 0
    }

    /**
     * One iteration of the loop in `run`. On the first step of a run with an empty
     * model, DFT runs on the initial atoms; otherwise the model predicts and DFT runs
     * when the uncertainty is out of bound and more than `min_steps_with_model` steps
     * have passed since the last call. A model frame is recorded when `counter` has
     * reached `skip` and the step was not a DFT step.
     */
    method Step(counter: int, std: StdCheck) returns (next: int, initial: bool, called: bool, recorded: bool)
      requires ValidIndices(initAtoms, |species|) && NamesAtoms(std, |species|)
      modifies this, gp
      ensures initial == old(InitialStep())
      ensures called == (!initial && !std(old(currStep), old(gp.data)).inBound
                         && old(stepsSinceDft) > minStepsWithModel)
      ensures stdTolerance == old(stdTolerance)
      ensures currStep == old(currStep) + 1
      ensures stepsSinceDft == (if called then 0 else old(stepsSinceDft)) + 1
      ensures dftCount == old(dftCount) + (if initial || called then 1 else 0)
      ensures dftStep == (if initial then old(dftStep) else called)
      ensures recorded == (counter >= skip && !dftStep)
      ensures next == (if recorded then 0 else counter) + 1
      ensures gp.data == old(gp.data) + (if initial then Gather(species, initAtoms)
                                        else if called then Gather(species, std(old(currStep), old(gp.data)).atoms)
                                        else [])
      ensures Trainings(gp.log) == Trainings(old(gp.log))
                                   + (if (initial || called) && dftCount - 1 < freezeHyps then 1 else 0)
      ensures Writes(gp.log) == Writes(old(gp.log))
                                + (if (initial || called) && dftCount - 1 < freezeHyps && writeModel == 2 then 1 else 0)
                                + (if (initial || called) && writeModel == 3 then 1 else 0)
      ensures checkpoints == old(checkpoints) + (if writeModel == 3 then [(CheckpointFileName(checkptName), AsDict())] else [])
    {
      initial, called := InitialStep(), false;
      if initial {
        InitializeTrain();
      } else {
        dftStep := false;
        gp.CheckLAlpha();
        CountsStep(old(gp.log), Factorized);
        var verdict := std(currStep, gp.data);
        if !verdict.inBound && stepsSinceDft > minStepsWithModel {
          called := true;
          dftStep := true;
          stepsSinceDft := 0;
          RunDft();
          UpdateGp(verdict.atoms);
        }
      }
      recorded := counter >= skip && !dftStep;
      next := if recorded then 0 else counter;
      next := next + 1;
      stepsSinceDft := stepsSinceDft + 1;
      currStep := currStep + 1;
      if writeModel == 3 {
        Checkpoint();
      }
    }

    /** The state of the trainer agrees with the account of the loop since `o`. */
    ghost predicate Account(o: Origin, p: Progress, counter: int)
      reads this, gp
    {
      && o.initialDue == (o.step == 0 && o.tolerance != 0.0 && |o.data| == 0)
      && stdTolerance == o.tolerance
      && (currStep == o.step ==> gp.data == o.data)
      && checkpoints == o.checkpoints + p.added && AllNamed(p.added, CheckpointFileName(checkptName))
      && Bookkept(o.step, o.sinceDft, o.dftCount, o.initialDue, minStepsWithModel, skip, writeModel, freezeHyps,
                  currStep, stepsSinceDft, dftCount, Trainings(gp.log) - o.trained, Writes(gp.log) - o.written,
                  |p.added|, p.calls, p.frames, counter, p.initialized)
    }

    /** One iteration of the loop of `run`, with the account carried along. */
    method Advance(counter: int, std: StdCheck, ghost o: Origin, ghost p: Progress) returns (next: int, ghost q: Progress)
      requires ValidIndices(initAtoms, |species|) && NamesAtoms(std, |species|)
      requires Account(o, p, counter)
      modifies this, gp
      ensures currStep == old(currStep) + 1
      ensures Account(o, q, next)
    {
      ghost var step, since, dft := currStep, stepsSinceDft, dftCount;
      ghost var trained, written := Trainings(gp.log) - o.trained, Writes(gp.log) - o.written;
      var initial, called, recorded;
      next, initial, called, recorded := Step(counter, std);
      ghost var added := p.added;
      if writeModel == 3 {
        ghost var entry := (CheckpointFileName(checkptName), AsDict());
        AppendAssoc(o.checkpoints, p.added, [entry]);
        AllNamedAppend(p.added, entry, CheckpointFileName(checkptName));
        added := added + [entry];
      }
      q := Progress(if called then p.calls + [step] else p.calls, if recorded then p.frames + [step] else p.frames,
                    p.initialized || initial, added);
      BookkeptStep(o.step, o.sinceDft, o.dftCount, o.initialDue, minStepsWithModel, skip, writeModel, freezeHyps,
                   step, since, dft, trained, written, |p.added|,
                   p.calls, p.frames, counter, p.initialized, initial, called, recorded,
                   currStep, stepsSinceDft, dftCount, Trainings(gp.log) - o.trained, Writes(gp.log) - o.written,
                   |q.added|, q.calls, q.frames, next, q.initialized);
    }

    /**
     * The loop of `run`: steps until `curr_step` reaches `number_of_steps`. Returns the
     * steps at which the main branch called DFT, the steps at which a model frame was
     * recorded, whether the initial training ran, and the final `counter`.
     */
    method Steps(std: StdCheck) returns (ghost dftCalls: seq<int>, ghost modelFrames: seq<int>,
                                         ghost initialized: bool, ghost saved: seq<(string, OtfRecord)>, counter: int)
      requires ValidIndices(initAtoms, |species|) && NamesAtoms(std, |species|)
      modifies this, gp
      ensures currStep == if old(currStep) < numberOfSteps then numberOfSteps else old(currStep)
      ensures stdTolerance == old(stdTolerance)
      ensures initialized ==> old(currStep) <= 0 < currStep
      ensures old(InitialStep()) && old(currStep) < numberOfSteps ==> initialized
      ensures dftCount == old(dftCount) + |dftCalls| + (if initialized then 1 else 0)
      ensures DftTrace(dftCalls, old(currStep), currStep, stepsSinceDft, old(stepsSinceDft), minStepsWithModel)
      ensures FrameTrace(modelFrames, dftCalls, old(currStep), currStep, counter, skip)
      ensures Trainings(gp.log) == Trainings(old(gp.log)) + FrozenTrainings(old(dftCount), dftCount, freezeHyps)
      ensures Writes(gp.log) == Writes(old(gp.log))
                                + (if writeModel == 2 then FrozenTrainings(old(dftCount), dftCount, freezeHyps)
                                   else if writeModel == 3 then dftCount - old(dftCount) else 0)
      ensures checkpoints == old(checkpoints) + saved && AllNamed(saved, CheckpointFileName(checkptName))
      ensures |saved| == if writeModel == 3 then currStep - old(currStep) else 0
    {
      ghost var o := Origin(currStep, stepsSinceDft, dftCount, Trainings(gp.log), Writes(gp.log), checkpoints,
                            gp.data, stdTolerance, InitialStep());
      ghost var p := Progress([], [], false, []);
      counter := 0;
      assert checkpoints == o.checkpoints + p.added;
      while currStep < numberOfSteps
        invariant currStep == o.step || currStep <= numberOfSteps
        invariant Account(o, p, counter)
        decreases numberOfSteps - currStep
      {
        counter, p := Advance(counter, std, o, p);
      }
      dftCalls, modelFrames, initialized, saved := p.calls, p.frames, p.initialized, p.added;
    }

    /**
     * `run`: the loop, then, at any write level of at least 1, a write of the model
     * and a checkpoint.
     */
    method Run(std: StdCheck) returns (ghost dftCalls: seq<int>, ghost modelFrames: seq<int>, ghost initialized: bool,
                                       ghost saved: seq<(string, OtfRecord)>)
      requires ValidIndices(initAtoms, |species|) && NamesAtoms(std, |species|)
      modifies this, gp
      ensures currStep == if old(currStep) < numberOfSteps then numberOfSteps else old(currStep)
      ensures stdTolerance == old(stdTolerance)
      // DFT in the main branch: spaced by more than `min_steps_with_model` steps
      ensures Within(dftCalls, old(currStep), currStep)
      ensures Spaced(dftCalls, minStepsWithModel + 1)
      ensures dftCalls != [] ==> old(stepsSinceDft) + dftCalls[0] - old(currStep) > minStepsWithModel
      // the initial training happens once at most, in the iteration of step 0
      ensures initialized ==> old(currStep) <= 0 < currStep
      ensures old(InitialStep()) && old(currStep) < numberOfSteps ==> initialized
      ensures dftCount == old(dftCount) + |dftCalls| + (if initialized then 1 else 0)
      // model frames: at least `skip` steps apart, never on a DFT step
      ensures Within(modelFrames, old(currStep), currStep)
      ensures Spaced(modelFrames, skip) && Spaced(modelFrames, 1)
      ensures modelFrames != [] ==> modelFrames[0] - old(currStep) >= skip
      ensures Apart(modelFrames, dftCalls)
      // hyperparameters are optimised after DFT calls until `freeze_hyps` is reached
      ensures Trainings(gp.log) == Trainings(old(gp.log)) + FrozenTrainings(old(dftCount), dftCount, freezeHyps)
      // write levels
      ensures Writes(gp.log) == Writes(old(gp.log)) + (if writeModel >= 1 then 1 else 0)
                                + (if writeModel == 2 then FrozenTrainings(old(dftCount), dftCount, freezeHyps)
                                   else if writeModel == 3 then dftCount - old(dftCount) else 0)
      ensures writeModel >= 1 ==> gp.log != [] && gp.log[|gp.log| - 1] == Written(gpName)
      // checkpoints: every one to the normalised name, one per step at level 3, and the final state last
      ensures checkpoints == old(checkpoints) + saved && AllNamed(saved, CheckpointFileName(checkptName))
      ensures |saved| == (if writeModel == 3 then currStep - old(currStep) else 0) + (if writeModel >= 1 then 1 else 0)
      ensures writeModel >= 1 ==> saved[|saved| - 1].1 == AsDict()
    {
      var counter;
      dftCalls, modelFrames, initialized, saved, counter := Steps(std);
      if writeModel >= 1 {
        CountsStep(gp.log, Written(gpName));
        gp.WriteModel(gpName);
        ghost var entry := (CheckpointFileName(checkptName), AsDict());
        AppendAssoc(old(checkpoints), saved, [entry]);
        AllNamedAppend(saved, entry, CheckpointFileName(checkptName));
        Checkpoint();
        saved := saved + [entry];
      }
    }
  }

  /** One more DFT call adds one optimisation exactly when `dft_count - 1 < freeze_hyps` after it. */
  lemma FrozenStep(lo: int, hi: int, freezeHyps: int, more: bool)
    requires lo <= hi
    ensures FrozenTrainings(lo, hi + (if more then 1 else 0), freezeHyps)
            == FrozenTrainings(lo, hi, freezeHyps) + (if more && hi < freezeHyps then 1 else 0)
  {
  }

  /**
   * `from_dict`: a run rebuilt from a checkpoint's dictionary. The settings come back
   * through the constructor, `dft_count`, `curr_step` and `std_tolerance` are restored
   * explicitly, and the DFT module is chosen again from the recorded module name;
   * `registry` maps a shipped code to its module's name.
   */
  method FromDict(d: OtfRecord, gp: Gp, registry: string -> string) returns (o: Otf)
    ensures fresh(o) && o.gp == gp
    ensures o.AsDict() == d.(dftModule := RestoredModule(ForceSourceOf(d.dftModule), registry),
                             gpName := GpFileName(d.outputName),
                             dftStep := true, stepsSinceDft := 0)
    ensures o.checkpoints == []
  {
    o := new Otf(gp, d.species, d.numberOfSteps, d.writeModel, d.forceOnly, 1.0, d.skip, Some(d.initAtoms),
                 d.outputName, d.freezeHyps, d.minStepsWithModel, RestoredModule(ForceSourceOf(d.dftModule), registry));
    o.dftCount := d.dftCount;
    o.currStep := d.currStep;
    o.stdTolerance := d.stdTolerance;
  }

  /** The module name a force source resolves to. */
  function RestoredModule(source: ForceSource, registry: string -> string): string {
    match source
    case Software(code) => registry(code)
    case CustomModule(name) => name
  }
}
